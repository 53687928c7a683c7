/** Sums of traffic and anomaly counters over tables of connections. */
module TrafficTotals {
  import opened Wrappers
  import opened Analytics
  import opened QuicMerge
  import opened Connections

  /** The counters every connection carries. */
  datatype Metric =
    | PacketsSent | PacketsReceived | BytesSent | BytesReceived
    | Retransmits | OutOfOrder | FastRetransmits

  function OfDeltas(d: Deltas, m: Metric): nat {
    match m
    case Retransmits => d.retransmits
    case OutOfOrder => d.outOfOrder
    case FastRetransmits => d.fastRetransmits
    case _ => 0
  }

  function OfConn(c: Conn, m: Metric): nat {
    var a := if c.analytics.Some? then c.analytics.value else ZERO;
    match m
    case PacketsSent => c.packetsSent
    case PacketsReceived => c.packetsReceived
    case BytesSent => c.bytesSent
    case BytesReceived => c.bytesReceived
    case Retransmits => a.retransmits
    case OutOfOrder => a.outOfOrder
    case FastRetransmits => a.fastRetransmits
  }

  /** What one accepted packet adds, given the anomalies reported for it. */
  function OfPacket(p: Packet, d: Deltas, m: Metric): nat {
    match m
    case PacketsSent => if p.isOutgoing then 1 else 0
    case PacketsReceived => if p.isOutgoing then 0 else 1
    case BytesSent => if p.isOutgoing then p.packetLen else 0
    case BytesReceived => if p.isOutgoing then 0 else p.packetLen
    case _ => OfDeltas(d, m)
  }

  lemma CreateCountsItsPacket(a: Arrival, m: Metric)
    ensures OfConn(CreateWith(a), m) == OfPacket(a.packet, Deltas(0, 0, 0), m)
  {
  }

  /** The reported anomalies are exactly what the connection's own counters grow by. */
  lemma MergeCountsItsPacket(ext: Extractor, c: Conn, a: Arrival, m: Metric)
    ensures OfConn(MergeWith(ext, c, a), m) == OfConn(c, m) + OfPacket(a.packet, MergeDeltas(c, a.packet), m)
  {
  }

  // ---- Sums over a table ----

  ghost function Pick<K, V>(t: map<K, V>): (k: K)
    requires t.Keys != {}
    ensures k in t
  {
    var k :| k in t.Keys;
    k
  }

  ghost function SumOver<K, V>(t: map<K, V>, f: (V, Metric) -> nat, m: Metric): nat
    decreases |t|
  {
    if t.Keys == {} then 0
    else
      var k := Pick(t);
      SmallerWithout(t, k);
      f(t[k], m) + SumOver(t - {k}, f, m)
  }

  lemma SmallerWithout<K, V>(t: map<K, V>, k: K)
    requires k in t
    ensures |t - {k}| == |t| - 1
  {
    assert (t - {k}).Keys == t.Keys - {k};
    assert |t.Keys| == |t| && |(t - {k}).Keys| == |t - {k}|;
  }

  /** The sum does not depend on the order of summation. */
  lemma {:induction false} SumWithout<K, V>(t: map<K, V>, f: (V, Metric) -> nat, m: Metric, k: K)
    requires k in t
    ensures SumOver(t, f, m) == f(t[k], m) + SumOver(t - {k}, f, m)
    decreases |t|
  {
    var j := Pick(t);
    if j != k {
      SmallerWithout(t, j);
      SumWithout(t - {j}, f, m, k);
      SmallerWithout(t, k);
      SumWithout(t - {k}, f, m, j);
      assert t - {j} - {k} == t - {k} - {j};
    }
  }

  lemma SumInsert<K, V>(t: map<K, V>, f: (V, Metric) -> nat, m: Metric, k: K, v: V)
    requires k !in t
    ensures SumOver(t[k := v], f, m) == f(v, m) + SumOver(t, f, m)
  {
    SumWithout(t[k := v], f, m, k);
    assert t[k := v] - {k} == t;
  }

  lemma SumUpdate<K, V>(t: map<K, V>, f: (V, Metric) -> nat, m: Metric, k: K, v: V)
    requires k in t
    ensures SumOver(t[k := v], f, m) == SumOver(t, f, m) - f(t[k], m) + f(v, m)
  {
    SumWithout(t[k := v], f, m, k);
    SumWithout(t, f, m, k);
    assert t[k := v] - {k} == t - {k};
  }

  function SumSeq(s: seq<Conn>, m: Metric): nat {
    if s == [] then 0 else SumSeq(s[..|s| - 1], m) + OfConn(s[|s| - 1], m)
  }

  lemma {:induction false} SumSeqSplits(a: seq<Conn>, b: seq<Conn>, m: Metric)
    ensures SumSeq(a + b, m) == SumSeq(a, m) + SumSeq(b, m)
  {
    if b == [] {
      assert a + b == a;
    } else {
      assert (a + b)[..|a + b| - 1] == a + b[..|b| - 1];
      SumSeqSplits(a, b[..|b| - 1], m);
    }
  }

  /** The entries under the given keys, in that order. */
  ghost function Entries<K>(t: map<K, Conn>, keys: seq<K>): seq<Conn>
    requires forall k :: k in keys ==> k in t
  {
    seq(|keys|, i requires 0 <= i < |keys| => t[keys[i]])
  }

  /** Taking distinct entries out of a table takes exactly their counters out of the sum. */
  lemma {:induction false} SumTakenOut<K>(t: map<K, Conn>, keys: seq<K>, m: Metric)
    requires Distinct(keys)
    requires forall k :: k in keys ==> k in t
    ensures SumOver(t, OfConn, m) == SumOver(t - (set k | k in keys), OfConn, m) + SumSeq(Entries(t, keys), m)
  {
    if keys == [] {
      assert t - (set k | k in keys) == t;
    } else {
      var n := |keys| - 1;
      TakeOneMore(t, keys);
      SumTakenOut(t, keys[..n], m);
      SumWithout(t - (set k | k in keys[..n]), OfConn, m, keys[n]);
      assert Entries(t, keys)[..n] == Entries(t, keys[..n]);
    }
  }

  lemma TakeOneMore<K, V>(t: map<K, V>, keys: seq<K>)
    requires keys != [] && Distinct(keys)
    requires forall k :: k in keys ==> k in t
    ensures var (init, last) := (keys[..|keys| - 1], keys[|keys| - 1]);
            && last in t - (set k | k in init)
            && t - (set k | k in init) - {last} == t - (set k | k in keys)
            && (forall k :: k in init ==> k in t)
  {
    var init, last := keys[..|keys| - 1], keys[|keys| - 1];
    assert keys == init + [last];
    assert last !in init;
  }
}
