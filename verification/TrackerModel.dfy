/**
 * The connection tracker as a state machine over values: routing, admission, folding, sweeping
 * and clearing, together with a log of everything that happened, and the invariants that hold
 * in every state a run can reach.
 */
module TrackerModel {
  import opened Wrappers
  import opened Analytics
  import opened QuicMerge
  import opened DpiMerge
  import opened Connections
  import opened TrafficTotals
  import opened HistoricKey
  import opened Eviction

  datatype Config = Config(maxConnections: nat, maxHistoric: nat, maxQuicMappings: nat, keepHistoric: bool)

  datatype Event =
    | Accepted(key: string, arrival: Arrival, deltas: Deltas)
    | Dropped(key: string)
    | Swept(removed: seq<string>)
    | Cleared

  /** `gone` lists the connections removed by sweeps since the last clear. */
  datatype State = State(
    active: map<string, Conn>, historic: map<string, Conn>, quic: map<string, string>,
    gone: seq<Conn>, log: seq<Event>)

  const INITIAL := State(map[], map[], map[], [], [])

  datatype Outcome = Outcome(
    key: string, created: bool, dropped: bool, deltas: Deltas, measuredRtt: Option<nat>)

  // ---- Steps ----

  /** A round-trip sample is taken only from a TCP SYN+ACK. */
  function MeasuredRtt(p: Packet, sample: Option<nat>): Option<nat> {
    if p.protocol.TCP? && p.tcpHeader.Some? && p.tcpHeader.value.flags.syn && p.tcpHeader.value.flags.ack
    then sample else None
  }

  function ConnectionIdOf(p: Packet): Option<string> {
    if p.protocol.UDP? && p.dpi.Some? && p.dpi.value.Quic? then p.dpi.value.quic.connectionIdHex else None
  }

  /** The key a packet is stored under, and the mapping table afterwards. */
  function Route(cfg: Config, quic: map<string, string>, p: Packet): (string, map<string, string>) {
    var id := ConnectionIdOf(p);
    if id.None? then (p.connectionKey, quic)
    else if id.value in quic then (quic[id.value], quic)
    else (p.connectionKey, (if |quic| >= cfg.maxQuicMappings then map[] else quic)[id.value := p.connectionKey])
  }

  /** The entry under `key` after an arrival that may create it. */
  ghost function FoldIn(ext: Extractor, active: map<string, Conn>, key: string, a: Arrival): Conn {
    if key in active then MergeWith(ext, active[key], a) else CreateWith(a)
  }

  /** The anomalies reported for the arrival; a packet that creates its entry reports none. */
  function Reported(active: map<string, Conn>, key: string, a: Arrival): Deltas {
    if key in active then MergeDeltas(active[key], a.packet) else Deltas(0, 0, 0)
  }

  ghost function Accept(ext: Extractor, s: State, key: string, a: Arrival): State {
    s.(active := s.active[key := FoldIn(ext, s.active, key, a)],
       log := s.log + [Accepted(key, a, Reported(s.active, key, a))])
  }

  function Drop(s: State, key: string): State { s.(log := s.log + [Dropped(key)]) }

  /** Admission: an arrival that needs a new entry is turned away when the table is full. */
  ghost function Admit(cfg: Config, ext: Extractor, s: State, key: string, a: Arrival): (State, Outcome) {
    if key !in s.active && |s.active| >= cfg.maxConnections
    then (Drop(s, key), Outcome(key, false, true, Deltas(0, 0, 0), a.rtt))
    else (Accept(ext, s, key, a), Outcome(key, key !in s.active, false, Reported(s.active, key, a), a.rtt))
  }

  ghost function Ingest(cfg: Config, ext: Extractor, s: State, p: Packet, now: int, sample: Option<nat>)
    : (State, Outcome)
  {
    RouteAndAdmit(cfg, ext, s, Arrival(p, now, MeasuredRtt(p, sample)))
  }

  ghost function RouteAndAdmit(cfg: Config, ext: Extractor, s: State, a: Arrival): (State, Outcome) {
    var (key, quic) := Route(cfg, s.quic, a.packet);
    Admit(cfg, ext, s.(quic := quic), key, a)
  }

  function Archived(c: Conn, now: int): Conn { c.(isHistoric := true, closedAt := Some(now)) }

  ghost function WithArchived(h: map<string, Conn>, active: map<string, Conn>, keys: seq<string>, now: int)
    : map<string, Conn>
    requires forall k :: k in keys ==> k in active
  {
    if keys == [] then h
    else
      var k := keys[|keys| - 1];
      var historicKey := HistoricKey.HistoricKey(k, active[k].createdAt);
      WithArchived(h, active, keys[..|keys| - 1], now)[historicKey := Archived(active[k], now)]
  }

  function ClosedTime(c: Conn): int { if c.closedAt.Some? then c.closedAt.value else c.createdAt }

  function ClosedTimes(h: map<string, Conn>): map<string, int> {
    map k | k in h :: ClosedTime(h[k])
  }

  /** The archive after adding `all`: trimmed to its limit, oldest-closed entries first. */
  ghost predicate Trimmed(cfg: Config, all: map<string, Conn>, h: map<string, Conn>) {
    && (forall k :: k in h ==> k in all && h[k] == all[k])
    && (if |all| > cfg.maxHistoric then EvictsOldest(ClosedTimes(all), h.Keys, |all| - cfg.maxHistoric)
        else h == all)
  }

  /** One cleanup, removing the connections `expired` selects in the order `keys`. */
  ghost predicate Sweep(cfg: Config, s: State, keys: seq<string>, expired: Conn -> bool, now: int, s': State) {
    && Distinct(keys)
    && (forall k :: k in keys <==> k in s.active && expired(s.active[k]))
    && s'.active == s.active - (set k | k in keys)
    && s'.gone == s.gone + Entries(s.active, keys)
    && s'.quic == (map id | id in s.quic && s.quic[id] !in keys :: s.quic[id])
    && s'.log == s.log + [Swept(keys)]
    && (if cfg.keepHistoric then Trimmed(cfg, WithArchived(s.historic, s.active, keys, now), s'.historic)
        else s'.historic == s.historic)
  }

  function Clear(s: State): State {
    INITIAL.(log := s.log + [Cleared])
  }

  datatype Op =
    | IngestOp(packet: Packet, now: int, sample: Option<nat>)
    | SweepOp(keys: seq<string>, expired: Conn -> bool, now: int)
    | ClearOp

  ghost predicate Step(cfg: Config, ext: Extractor, s: State, op: Op, s': State) {
    match op
    case IngestOp(p, now, sample) => s' == Ingest(cfg, ext, s, p, now, sample).0
    case SweepOp(keys, expired, now) => Sweep(cfg, s, keys, expired, now, s')
    case ClearOp => s' == Clear(s)
  }

  /** A run from the empty tracker: `states[i + 1]` follows `states[i]` by `ops[i]`. */
  ghost predicate IsRun(cfg: Config, ext: Extractor, states: seq<State>, ops: seq<Op>) {
    && |states| == |ops| + 1
    && states[0] == INITIAL
    && forall i :: 0 <= i < |ops| ==> Step(cfg, ext, states[i], ops[i], states[i + 1])
  }

  // ---- Reading the log ----

  /** The arrivals accepted for `k` since it was last absent. */
  function Since(log: seq<Event>, k: string): seq<Arrival> {
    if log == [] then []
    else
      var before := Since(log[..|log| - 1], k);
      match log[|log| - 1]
      case Accepted(key, a, _) => if key == k then before + [a] else before
      case Dropped(_) => before
      case Swept(removed) => if k in removed then [] else before
      case Cleared => []
  }

  /** Everything accepted since the last clear, in one metric. */
  function LogTotal(log: seq<Event>, m: Metric): nat {
    if log == [] then 0
    else
      var before := LogTotal(log[..|log| - 1], m);
      match log[|log| - 1]
      case Accepted(_, a, d) => before + OfPacket(a.packet, d, m)
      case Cleared => 0
      case _ => before
  }

  /** Keys of packets dropped since the last clear. */
  function DroppedKeys(log: seq<Event>): set<string> {
    if log == [] then {}
    else
      var before := DroppedKeys(log[..|log| - 1]);
      match log[|log| - 1]
      case Dropped(key) => before + {key}
      case Cleared => {}
      case _ => before
  }

  // ---- Invariants ----

  /** The live table is the batch fold of the log. */
  ghost predicate FoldsLog(ext: Extractor, s: State) {
    forall k ::
      && (k in s.active <==> Since(s.log, k) != [])
      && (k in s.active ==> s.active[k] == Life(ext, Since(s.log, k)))
  }

  /** Nothing counted is lost or counted twice. */
  ghost predicate Conserves(s: State) {
    forall m :: SumOver(s.active, OfConn, m) + SumSeq(s.gone, m) == LogTotal(s.log, m)
  }

  ghost predicate MappingsAnchored(s: State) {
    forall id :: id in s.quic ==> s.quic[id] in s.active || s.quic[id] in DroppedKeys(s.log)
  }

  ghost predicate WithinLimits(cfg: Config, s: State) {
    && |s.active| <= cfg.maxConnections
    && |s.historic| <= cfg.maxHistoric
    && |s.quic| <= (if cfg.maxQuicMappings > 1 then cfg.maxQuicMappings else 1)
  }

  predicate IsClosed(c: Conn) { c.isHistoric && c.closedAt.Some? }

  ghost predicate AllClosed(h: map<string, Conn>) {
    forall k :: k in h ==> IsClosed(h[k])
  }

  ghost predicate Inv(cfg: Config, ext: Extractor, s: State) {
    && FoldsLog(ext, s)
    && Conserves(s)
    && MappingsAnchored(s)
    && WithinLimits(cfg, s)
    && AllClosed(s.historic)
  }

  // ---- Every step keeps them ----

  lemma LifeGrows(ext: Extractor, before: seq<Arrival>, a: Arrival)
    ensures Life(ext, before + [a]) == if before == [] then CreateWith(a) else MergeWith(ext, Life(ext, before), a)
  {
    assert (before + [a])[..|before|] == before;
  }

  lemma DropFolds(ext: Extractor, s: State, key: string)
    requires FoldsLog(ext, s)
    ensures FoldsLog(ext, Drop(s, key))
  {
    assert Drop(s, key).log[..|s.log|] == s.log;
  }

  lemma AcceptFolds(ext: Extractor, s: State, key: string, a: Arrival)
    requires FoldsLog(ext, s)
    ensures FoldsLog(ext, Accept(ext, s, key, a))
  {
    var s' := Accept(ext, s, key, a);
    assert s'.log[..|s.log|] == s.log;
    assert key in s.active <==> Since(s.log, key) != [];
    LifeGrows(ext, Since(s.log, key), a);
    forall k
      ensures k in s'.active <==> Since(s'.log, k) != []
      ensures k in s'.active ==> s'.active[k] == Life(ext, Since(s'.log, k))
    {
      assert k in s.active <==> Since(s.log, k) != [];
      if k == key {
        assert Since(s'.log, k) == Since(s.log, k) + [a];
        assert s'.active[k] == FoldIn(ext, s.active, key, a);
      } else {
        assert Since(s'.log, k) == Since(s.log, k);
      }
    }
  }

  lemma AcceptConserves(ext: Extractor, s: State, key: string, a: Arrival)
    requires Conserves(s)
    ensures Conserves(Accept(ext, s, key, a))
  {
    var s' := Accept(ext, s, key, a);
    assert s'.log[..|s.log|] == s.log;
    forall m
      ensures SumOver(s'.active, OfConn, m) + SumSeq(s'.gone, m) == LogTotal(s'.log, m)
    {
      assert SumOver(s.active, OfConn, m) + SumSeq(s.gone, m) == LogTotal(s.log, m);
      if key in s.active {
        SumUpdate(s.active, OfConn, m, key, MergeWith(ext, s.active[key], a));
        MergeCountsItsPacket(ext, s.active[key], a, m);
      } else {
        SumInsert(s.active, OfConn, m, key, CreateWith(a));
        CreateCountsItsPacket(a, m);
      }
    }
  }

  lemma DropConserves(s: State, key: string)
    requires Conserves(s)
    ensures Conserves(Drop(s, key))
  {
    assert Drop(s, key).log[..|s.log|] == s.log;
  }

  lemma SizeOfUpdate<K, V>(t: map<K, V>, k: K, v: V)
    ensures |t[k := v]| == |t| + if k in t then 0 else 1
  {
    assert t[k := v].Keys == t.Keys + {k};
    assert |t.Keys| == |t| && |t[k := v].Keys| == |t[k := v]|;
  }

  lemma RouteLaw(cfg: Config, quic: map<string, string>, p: Packet)
    ensures var (key, quic') := Route(cfg, quic, p);
            && (forall id :: id in quic' ==> quic'[id] == key || (id in quic && quic'[id] == quic[id]))
            && |quic'| <= (if |quic| < cfg.maxQuicMappings then |quic| + 1 else if |quic| > 1 then |quic| else 1)
  {
    var id := ConnectionIdOf(p);
    if id.Some? && id.value !in quic {
      SizeOfUpdate(quic, id.value, p.connectionKey);
      SizeOfUpdate(map[], id.value, p.connectionKey);
    }
  }

  lemma ArrivalKeepsMappings(cfg: Config, ext: Extractor, s: State, a: Arrival)
    requires MappingsAnchored(s)
    ensures MappingsAnchored(RouteAndAdmit(cfg, ext, s, a).0)
  {
    var s' := RouteAndAdmit(cfg, ext, s, a).0;
    assert s'.log[..|s.log|] == s.log;
    RouteLaw(cfg, s.quic, a.packet);
  }

  lemma ArrivalKeepsLimits(cfg: Config, ext: Extractor, s: State, a: Arrival)
    requires WithinLimits(cfg, s)
    ensures WithinLimits(cfg, RouteAndAdmit(cfg, ext, s, a).0)
  {
    var (s', o) := RouteAndAdmit(cfg, ext, s, a);
    RouteLaw(cfg, s.quic, a.packet);
    if !o.dropped {
      SizeOfUpdate(s.active, o.key, s'.active[o.key]);
    }
  }

  lemma ArrivalFoldsAndConserves(cfg: Config, ext: Extractor, s: State, a: Arrival)
    requires FoldsLog(ext, s) && Conserves(s)
    ensures var s' := RouteAndAdmit(cfg, ext, s, a).0;
            FoldsLog(ext, s') && Conserves(s') && s'.historic == s.historic
  {
    var (key, quic) := Route(cfg, s.quic, a.packet);
    var routed := s.(quic := quic);
    if key !in s.active && |s.active| >= cfg.maxConnections {
      DropFolds(ext, routed, key);
      DropConserves(routed, key);
    } else {
      AcceptFolds(ext, routed, key, a);
      AcceptConserves(ext, routed, key, a);
    }
  }

  lemma ArrivalKeepsInv(cfg: Config, ext: Extractor, s: State, a: Arrival)
    requires Inv(cfg, ext, s)
    ensures Inv(cfg, ext, RouteAndAdmit(cfg, ext, s, a).0)
  {
    ArrivalFoldsAndConserves(cfg, ext, s, a);
    ArrivalKeepsMappings(cfg, ext, s, a);
    ArrivalKeepsLimits(cfg, ext, s, a);
  }

  lemma SweepFolds(cfg: Config, ext: Extractor, s: State, keys: seq<string>, expired: Conn -> bool, now: int, s': State)
    requires FoldsLog(ext, s) && Sweep(cfg, s, keys, expired, now, s')
    ensures FoldsLog(ext, s')
  {
    assert s'.log[..|s'.log| - 1] == s.log;
  }

  lemma SweepConserves(cfg: Config, s: State, keys: seq<string>, expired: Conn -> bool, now: int, s': State)
    requires Conserves(s) && Sweep(cfg, s, keys, expired, now, s')
    ensures Conserves(s')
  {
    assert s'.log[..|s'.log| - 1] == s.log;
    forall m
      ensures SumOver(s'.active, OfConn, m) + SumSeq(s'.gone, m) == LogTotal(s'.log, m)
    {
      assert SumOver(s.active, OfConn, m) + SumSeq(s.gone, m) == LogTotal(s.log, m);
      SumTakenOut(s.active, keys, m);
      SumSeqSplits(s.gone, Entries(s.active, keys), m);
    }
  }

  lemma SmallerBySubset<K, V>(a: map<K, V>, b: map<K, V>)
    requires a.Keys <= b.Keys
    ensures |a| <= |b|
  {
    SubsetSize(a.Keys, b.Keys);
    assert |a.Keys| == |a| && |b.Keys| == |b|;
  }

  lemma {:induction false} SubsetSize<T>(a: set<T>, b: set<T>)
    requires a <= b
    ensures |a| <= |b|
  {
    if a != {} {
      var x :| x in a;
      SubsetSize(a - {x}, b - {x});
    }
  }

  lemma {:induction false} ArchivedAreClosed(
    h: map<string, Conn>, active: map<string, Conn>, keys: seq<string>, now: int)
    requires forall k :: k in keys ==> k in active
    requires AllClosed(h)
    ensures AllClosed(WithArchived(h, active, keys, now))
  {
    if keys != [] {
      var n := |keys| - 1;
      assert keys[n] in keys;
      ArchivedAreClosed(h, active, keys[..n], now);
      var before := WithArchived(h, active, keys[..n], now);
      var hk := HistoricKey.HistoricKey(keys[n], active[keys[n]].createdAt);
      var all := before[hk := Archived(active[keys[n]], now)];
      forall k | k in all
        ensures IsClosed(all[k])
      {
        assert IsClosed(Archived(active[keys[n]], now));
      }
    }
  }

  lemma SweepKeepsMappings(cfg: Config, s: State, keys: seq<string>, expired: Conn -> bool, now: int, s': State)
    requires MappingsAnchored(s) && Sweep(cfg, s, keys, expired, now, s')
    ensures MappingsAnchored(s')
  {
    assert s'.log[..|s'.log| - 1] == s.log;
  }

  lemma SweepKeepsArchive(cfg: Config, s: State, keys: seq<string>, expired: Conn -> bool, now: int, s': State)
    requires AllClosed(s.historic) && |s.historic| <= cfg.maxHistoric
    requires Sweep(cfg, s, keys, expired, now, s')
    ensures AllClosed(s'.historic) && |s'.historic| <= cfg.maxHistoric
  {
    if cfg.keepHistoric {
      var all := WithArchived(s.historic, s.active, keys, now);
      ArchivedAreClosed(s.historic, s.active, keys, now);
      TrimmedSize(cfg, all, s'.historic);
      assert forall k :: k in s'.historic ==> s'.historic[k] == all[k];
    }
  }

  lemma TrimmedSize(cfg: Config, all: map<string, Conn>, h: map<string, Conn>)
    requires Trimmed(cfg, all, h)
    ensures |h| == if |all| > cfg.maxHistoric then cfg.maxHistoric else |all|
  {
    assert ClosedTimes(all).Keys == all.Keys;
    assert |ClosedTimes(all).Keys| == |ClosedTimes(all)| && |all.Keys| == |all| && |h.Keys| == |h|;
  }

  lemma SweepKeepsLimits(cfg: Config, s: State, keys: seq<string>, expired: Conn -> bool, now: int, s': State)
    requires WithinLimits(cfg, s) && AllClosed(s.historic) && Sweep(cfg, s, keys, expired, now, s')
    ensures WithinLimits(cfg, s')
  {
    SmallerBySubset(s'.active, s.active);
    SmallerBySubset(s'.quic, s.quic);
    SweepKeepsArchive(cfg, s, keys, expired, now, s');
  }

  lemma StepKeepsInv(cfg: Config, ext: Extractor, s: State, op: Op, s': State)
    requires Inv(cfg, ext, s) && Step(cfg, ext, s, op, s')
    ensures Inv(cfg, ext, s')
  {
    match op
    case IngestOp(p, now, sample) =>
      ArrivalKeepsInv(cfg, ext, s, Arrival(p, now, MeasuredRtt(p, sample)));
    case SweepOp(keys, expired, now) =>
      SweepFolds(cfg, ext, s, keys, expired, now, s');
      SweepConserves(cfg, s, keys, expired, now, s');
      SweepKeepsMappings(cfg, s, keys, expired, now, s');
      SweepKeepsArchive(cfg, s, keys, expired, now, s');
      SweepKeepsLimits(cfg, s, keys, expired, now, s');
    case ClearOp =>
      assert s'.log[..|s'.log| - 1] == s.log;
  }

  /**
   * The main theorem: in every state of every run the live table equals the batch fold of the
   * log, the counters of live and removed connections add up to everything accepted, QUIC
   * mappings lead to live or dropped keys, and no table exceeds its limit.
   */
  lemma {:induction false} EveryRunKeepsInv(cfg: Config, ext: Extractor, states: seq<State>, ops: seq<Op>)
    requires IsRun(cfg, ext, states, ops)
    ensures forall s :: s in states ==> Inv(cfg, ext, s)
  {
    if ops != [] {
      var n := |ops| - 1;
      EveryRunKeepsInv(cfg, ext, states[..n + 1], ops[..n]);
      assert states[..n + 1][n] in states[..n + 1];
      StepKeepsInv(cfg, ext, states[n], ops[n], states[n + 1]);
      assert states == states[..n + 1] + [states[n + 1]];
    }
  }

  /** `created` and `dropped` mean what they say, in terms of the log alone. */
  lemma OutcomeLaw(cfg: Config, ext: Extractor, s: State, p: Packet, now: int, sample: Option<nat>)
    requires FoldsLog(ext, s) && |s.active| <= cfg.maxConnections
    ensures var o := Ingest(cfg, ext, s, p, now, sample).1;
            && (o.created <==> Since(s.log, o.key) == [] && !o.dropped)
            && (o.dropped <==> Since(s.log, o.key) == [] && |s.active| == cfg.maxConnections)
  {
    var key := Route(cfg, s.quic, p).0;
    assert key in s.active <==> Since(s.log, key) != [];
  }

  /** The packet is QUIC and shows this connection ID. */
  predicate Shows(p: Packet, id: string) {
    && p.protocol == UDP && p.dpi.Some? && p.dpi.value.Quic?
    && p.dpi.value.quic.connectionIdHex == Some(id)
  }

  lemma RouteCases(cfg: Config, quic: map<string, string>, p: Packet, id: string)
    ensures var (key, quic') := Route(cfg, quic, p);
            && ((forall x :: !Shows(p, x)) ==> key == p.connectionKey && quic' == quic)
            && (Shows(p, id) && id in quic ==> key == quic[id] && quic' == quic)
            && (Shows(p, id) && id !in quic ==>
                  && key == p.connectionKey
                  && quic' == (if |quic| >= cfg.maxQuicMappings then map[] else quic)[id := p.connectionKey])
  {
    if (forall x :: !Shows(p, x)) && p.protocol == UDP && p.dpi.Some? && p.dpi.value.Quic? {
      var shown := p.dpi.value.quic.connectionIdHex;
      assert shown.Some? ==> Shows(p, shown.value);
    }
  }

  lemma IngestRoutes(cfg: Config, ext: Extractor, s: State, p: Packet, now: int, sample: Option<nat>)
    ensures var (s', o) := Ingest(cfg, ext, s, p, now, sample);
            (o.key, s'.quic) == Route(cfg, s.quic, p) && (o.dropped || o.key in s'.active)
  {
  }

  /**
   * Under which key a packet goes, accepted or dropped: its own, unless it shows a QUIC
   * connection ID that is mapped already. Packets without such an ID leave the mappings alone;
   * a new ID is mapped to the packet's own key, everything before it being forgotten first when
   * the mappings are full.
   */
  lemma StoredUnder(cfg: Config, ext: Extractor, s: State, p: Packet, now: int, sample: Option<nat>, id: string)
    ensures var (s', o) := Ingest(cfg, ext, s, p, now, sample);
            && ((forall x :: !Shows(p, x)) ==> o.key == p.connectionKey && s'.quic == s.quic)
            && (Shows(p, id) && id in s.quic ==> o.key == s.quic[id] && s'.quic == s.quic)
            && (Shows(p, id) && id !in s.quic ==>
                  && o.key == p.connectionKey
                  && s'.quic == (if |s.quic| >= cfg.maxQuicMappings then map[] else s.quic)[id := p.connectionKey])
            && (o.dropped || o.key in s'.active)
  {
    IngestRoutes(cfg, ext, s, p, now, sample);
    RouteCases(cfg, s.quic, p, id);
  }

  /** A round-trip time is reported for a TCP packet with SYN and ACK only: what the tracker of SYNs answers. */
  lemma RoundTripLaw(cfg: Config, ext: Extractor, s: State, p: Packet, now: int, sample: Option<nat>)
    ensures var o := Ingest(cfg, ext, s, p, now, sample).1;
            var answers := p.protocol == TCP && p.tcpHeader.Some?
                           && p.tcpHeader.value.flags.syn && p.tcpHeader.value.flags.ack;
            o.measuredRtt == if answers then sample else None
  {
  }

  /** A packet touches no connection but the one it is stored under, and none if it is dropped. */
  lemma OthersUntouched(cfg: Config, ext: Extractor, s: State, p: Packet, now: int, sample: Option<nat>, k: string)
    ensures var (s', o) := Ingest(cfg, ext, s, p, now, sample);
            && (k != o.key || o.dropped ==>
                  (k in s'.active <==> k in s.active) && (k in s.active ==> s'.active[k] == s.active[k]))
            && (!o.dropped ==> o.key in s'.active)
            && s'.historic == s.historic
  {
  }

  // ---- QUIC connection IDs ----

  /** What ends the association of connection ID `id` with its key. */
  ghost predicate Breaks(cfg: Config, s: State, op: Op, id: string)
    requires id in s.quic
  {
    match op
    case IngestOp(p, _, _) =>
      var newId := ConnectionIdOf(p);
      newId.Some? && newId.value !in s.quic && |s.quic| >= cfg.maxQuicMappings
    case SweepOp(keys, _, _) => s.quic[id] in keys
    case ClearOp => true
  }

  /** A mapping survives a step exactly if the step neither overflows the table, nor sweeps its
      target away, nor clears; and it never changes its target. */
  lemma MappingSurvives(cfg: Config, ext: Extractor, s: State, op: Op, s': State, id: string)
    requires Step(cfg, ext, s, op, s') && id in s.quic
    ensures id in s'.quic <==> !Breaks(cfg, s, op, id)
    ensures id in s'.quic ==> s'.quic[id] == s.quic[id]
  {
  }

  /**
   * Migration: once a connection ID is mapped to `k`, every later packet that carries it lands
   * in `k`, whatever its addresses, until a step breaks the mapping.
   */
  lemma {:induction false} MigrationIsFollowed(
    cfg: Config, ext: Extractor, states: seq<State>, ops: seq<Op>, i: nat, j: nat, id: string)
    requires IsRun(cfg, ext, states, ops) && i <= j < |states| && id in states[i].quic
    requires forall n :: i <= n < j && id in states[n].quic ==> !Breaks(cfg, states[n], ops[n], id)
    ensures id in states[j].quic && states[j].quic[id] == states[i].quic[id]
    ensures j < |ops| && ops[j].IngestOp? && ConnectionIdOf(ops[j].packet) == Some(id)
            ==> Route(cfg, states[j].quic, ops[j].packet).0 == states[i].quic[id]
    decreases j
  {
    if i < j {
      MigrationIsFollowed(cfg, ext, states, ops, i, j - 1, id);
      assert Step(cfg, ext, states[j - 1], ops[j - 1], states[j]);
      MappingSurvives(cfg, ext, states[j - 1], ops[j - 1], states[j], id);
    }
    if j < |ops| && ops[j].IngestOp? && ConnectionIdOf(ops[j].packet) == Some(id) {
      LandsWhereMapped(cfg, states[j].quic, ops[j].packet, id);
    }
  }

  lemma LandsWhereMapped(cfg: Config, quic: map<string, string>, p: Packet, id: string)
    requires ConnectionIdOf(p) == Some(id) && id in quic
    ensures Route(cfg, quic, p).0 == quic[id]
  {
  }

  /** Every mapping leads to a live connection. */
  ghost predicate AllLive(s: State) { forall id :: id in s.quic ==> s.quic[id] in s.active }

  /** The packet brings a new connection ID and a new key, and the table is full. */
  predicate Strands(cfg: Config, s: State, p: Packet) {
    && ConnectionIdOf(p).Some? && ConnectionIdOf(p).value !in s.quic
    && p.connectionKey !in s.active && |s.active| >= cfg.maxConnections
  }

  /**
   * A mapping is made before the packet that brings it can be turned away. From a state in which
   * all mappings are live, a packet leaves one dangling exactly then.
   */
  lemma MappingCanDangle(cfg: Config, ext: Extractor, s: State, p: Packet, now: int, sample: Option<nat>)
    requires AllLive(s)
    ensures !AllLive(Ingest(cfg, ext, s, p, now, sample).0) <==> Strands(cfg, s, p)
  {
    var s' := Ingest(cfg, ext, s, p, now, sample).0;
    if Strands(cfg, s, p) {
      var id := ConnectionIdOf(p).value;
      assert id in s'.quic && s'.quic[id] == p.connectionKey && s'.active == s.active;
    }
  }

  ghost predicate StrandsAt(cfg: Config, s: State, op: Op) { op.IngestOp? && Strands(cfg, s, op.packet) }

  lemma AllLiveStep(cfg: Config, ext: Extractor, s: State, op: Op, s': State)
    requires AllLive(s) && Step(cfg, ext, s, op, s')
    ensures AllLive(s') <==> !StrandsAt(cfg, s, op)
  {
    match op
    case IngestOp(p, now, sample) => MappingCanDangle(cfg, ext, s, p, now, sample);
    case SweepOp(keys, expired, now) =>
      forall id | id in s'.quic
        ensures s'.quic[id] in s'.active
      {
        assert s'.quic[id] == s.quic[id];
      }
    case ClearOp =>
  }

  lemma LiveAt(cfg: Config, ext: Extractor, states: seq<State>, ops: seq<Op>, k: nat)
    requires IsRun(cfg, ext, states, ops) && k < |ops| && AllLive(states[k])
    ensures AllLive(states[k + 1]) <==> !StrandsAt(cfg, states[k], ops[k])
  {
    AllLiveStep(cfg, ext, states[k], ops[k], states[k + 1]);
  }

  /** Over runs, sweeps and clears included: all mappings are live throughout exactly if no packet strands one. */
  lemma LiveThroughoutExactlyWhen(cfg: Config, ext: Extractor, states: seq<State>, ops: seq<Op>)
    requires IsRun(cfg, ext, states, ops)
    ensures (forall i :: 0 <= i <= |ops| ==> AllLive(states[i]))
       <==> forall i :: 0 <= i < |ops| ==> !StrandsAt(cfg, states[i], ops[i])
  {
    forall k | 0 <= k < |ops| && AllLive(states[k])
      ensures AllLive(states[k + 1]) <==> !StrandsAt(cfg, states[k], ops[k])
    {
      LiveAt(cfg, ext, states, ops, k);
    }
    if i: nat :| i < |ops| && StrandsAt(cfg, states[i], ops[i]) {
      assert AllLive(states[i]) ==> !AllLive(states[i + 1]);
    } else {
      forall i | 0 <= i <= |ops|
        ensures AllLive(states[i])
      {
        CarriedAlong(states, AllLive, 0, i);
      }
    }
  }

  // ---- The archive ----

  /** The archived copy of a connection that was live under `k` until `now`. */
  ghost predicate IsCopyOf(hk: string, copy: Conn, k: string, c: Conn, now: int) {
    hk == HistoricKey.HistoricKey(k, c.createdAt) && copy == c.(isHistoric := true, closedAt := Some(now))
  }

  /** Nothing gets into the archive but copies of the connections removed. */
  lemma {:induction false} ArchiveOrigin(
    h: map<string, Conn>, active: map<string, Conn>, keys: seq<string>, now: int, hk: string)
    requires (forall k :: k in keys ==> k in active) && hk in WithArchived(h, active, keys, now)
    ensures var copy := WithArchived(h, active, keys, now)[hk];
            (hk in h && copy == h[hk]) || exists k :: k in keys && IsCopyOf(hk, copy, k, active[k], now)
  {
    if keys != [] {
      var n := |keys| - 1;
      var init, last := keys[..n], keys[n];
      assert keys == init + [last];
      var copy := WithArchived(h, active, keys, now)[hk];
      if HistoricKey.HistoricKey(last, active[last].createdAt) == hk {
        assert IsCopyOf(hk, copy, last, active[last], now);
      } else {
        ArchiveOrigin(h, active, init, now, hk);
        if k: string :| k in init && IsCopyOf(hk, copy, k, active[k], now) {
          assert k in keys;
        }
      }
    }
  }

  /**
   * A sweep takes the QUIC mappings with it that lead to what it removes, and no others. What is
   * in the archive afterwards was there before or is a copy of a connection removed; a tracker
   * that keeps no archive does not touch it.
   */
  lemma SweepLeavesBehind(cfg: Config, s: State, keys: seq<string>, expired: Conn -> bool, now: int, s': State)
    requires Sweep(cfg, s, keys, expired, now, s')
    ensures forall id :: id in s'.quic <==>
              id in s.quic && !(s.quic[id] in s.active && expired(s.active[s.quic[id]]))
    ensures forall id :: id in s'.quic ==> s'.quic[id] == s.quic[id]
    ensures !cfg.keepHistoric ==> s'.historic == s.historic
    ensures forall hk :: hk in s'.historic ==>
              || (hk in s.historic && s'.historic[hk] == s.historic[hk])
              || exists k :: k in s.active && expired(s.active[k]) && IsCopyOf(hk, s'.historic[hk], k, s.active[k], now)
  {
    if cfg.keepHistoric {
      forall hk | hk in s'.historic
        ensures || (hk in s.historic && s'.historic[hk] == s.historic[hk])
                || exists k :: k in s.active && expired(s.active[k])
                               && IsCopyOf(hk, s'.historic[hk], k, s.active[k], now)
      {
        ArchiveOrigin(s.historic, s.active, keys, now, hk);
        if k: string :| k in keys && IsCopyOf(hk, s'.historic[hk], k, s.active[k], now) {
          assert k in s.active && expired(s.active[k]);
        }
      }
    }
  }

  /**
   * A sweep keeps exactly the connections that are not expired and changes none of them. While
   * the archive has room, each connection removed is in it, closed, under its own key.
   */
  lemma SweepLaw(cfg: Config, s: State, keys: seq<string>, expired: Conn -> bool, now: int, s': State)
    requires Sweep(cfg, s, keys, expired, now, s')
    ensures forall k :: k in s'.active <==> k in s.active && !expired(s.active[k])
    ensures forall k :: k in s'.active ==> s'.active[k] == s.active[k]
    ensures cfg.keepHistoric && |s.historic| + |keys| <= cfg.maxHistoric ==>
              forall k :: k in s.active && expired(s.active[k]) ==>
                var h := HistoricKey.HistoricKey(k, s.active[k].createdAt);
                h in s'.historic && s'.historic[h] == s.active[k].(isHistoric := true, closedAt := Some(now))
    ensures cfg.keepHistoric && |s.historic| + |keys| <= cfg.maxHistoric ==>
              forall h :: h in s.historic ==> h in s'.historic
  {
    ArchiveHoldsAll(s.historic, s.active, keys, now);
    ArchiveOnlyGrows(s.historic, s.active, keys, now);
  }

  /**
   * When the archive `all` has to be trimmed to `h`, it stays full, and no connection it gives
   * up was closed later than one it keeps.
   */
  lemma OldestClosedGoFirst(cfg: Config, all: map<string, Conn>, h: map<string, Conn>, lost: string, kept: string)
    requires AllClosed(all) && Trimmed(cfg, all, h)
    requires lost in all && lost !in h && kept in h
    ensures IsClosed(all[lost]) && IsClosed(h[kept]) && all[lost].closedAt.value <= h[kept].closedAt.value
    ensures |h| == cfg.maxHistoric
  {
    TrimmedSize(cfg, all, h);
    assert IsClosed(all[lost]) && IsClosed(all[kept]);
    assert ClosedTimes(all)[lost] <= ClosedTimes(all)[kept];
  }

  /** Sweeps carry times that never run backward. */
  ghost predicate ClockRises(ops: seq<Op>) {
    forall i, j :: 0 <= i < j < |ops| && ops[i].SweepOp? && ops[j].SweepOp? ==> ops[i].now <= ops[j].now
  }

  ghost predicate ClosedBy(h: map<string, Conn>, time: int) {
    forall k :: k in h ==> IsClosed(h[k]) && h[k].closedAt.value <= time
  }

  ghost predicate ClosedFrom(h: map<string, Conn>, time: int) {
    forall k :: k in h ==> IsClosed(h[k]) && h[k].closedAt.value >= time
  }

  /** An entry of the archive after a sweep is an old one or was closed by this sweep. */
  lemma OldOrJustClosed(
    h: map<string, Conn>, active: map<string, Conn>, keys: seq<string>, now: int, k: string)
    requires (forall x :: x in keys ==> x in active) && k in WithArchived(h, active, keys, now)
    ensures var all := WithArchived(h, active, keys, now);
            (k in h && all[k] == h[k]) || (IsClosed(all[k]) && all[k].closedAt.value == now)
  {
    ArchiveOrigin(h, active, keys, now, k);
  }

  lemma {:induction false} ArchiveOnlyGrows(
    h: map<string, Conn>, active: map<string, Conn>, keys: seq<string>, now: int)
    requires forall x :: x in keys ==> x in active
    ensures h.Keys <= WithArchived(h, active, keys, now).Keys
    decreases |keys|
  {
    if keys != [] {
      ArchiveOnlyGrows(h, active, keys[..|keys| - 1], now);
    }
  }

  lemma IngestKeepsArchive(cfg: Config, ext: Extractor, s: State, op: Op, s': State)
    requires Step(cfg, ext, s, op, s') && op.IngestOp?
    ensures s'.historic == s.historic
  {
    OthersUntouched(cfg, ext, s, op.packet, op.now, op.sample, "");
  }

  lemma SweepClosedBy(cfg: Config, s: State, keys: seq<string>, expired: Conn -> bool, now: int, s': State, time: int)
    requires Sweep(cfg, s, keys, expired, now, s') && ClosedBy(s.historic, time) && now <= time
    ensures ClosedBy(s'.historic, time)
  {
    if cfg.keepHistoric {
      forall k | k in s'.historic
        ensures IsClosed(s'.historic[k]) && s'.historic[k].closedAt.value <= time
      {
        OldOrJustClosed(s.historic, s.active, keys, now, k);
      }
    }
  }

  /** Every entry was closed by a sweep at a step from `low` on. */
  ghost predicate ClosedSince(h: map<string, Conn>, ops: seq<Op>, low: nat, high: nat)
    requires high <= |ops|
  {
    forall k :: k in h ==> IsClosed(h[k])
                           && exists n :: low <= n < high && ops[n].SweepOp? && h[k].closedAt == Some(ops[n].now)
  }

  lemma SweepClosesSince(cfg: Config, ext: Extractor, states: seq<State>, ops: seq<Op>, low: nat, k: nat)
    requires IsRun(cfg, ext, states, ops) && low <= k < |ops| && ops[k].SweepOp?
    requires ClosedSince(states[k].historic, ops, low, k)
    ensures ClosedSince(states[k + 1].historic, ops, low, k + 1)
  {
    var s, op, s' := states[k], ops[k], states[k + 1];
    assert Step(cfg, ext, s, op, s');
    forall x | x in s'.historic
      ensures IsClosed(s'.historic[x])
              && exists n :: low <= n < k + 1 && ops[n].SweepOp? && s'.historic[x].closedAt == Some(ops[n].now)
    {
      if cfg.keepHistoric {
        OldOrJustClosed(s.historic, s.active, op.keys, op.now, x);
      }
      if x in s.historic && s'.historic[x] == s.historic[x] {
        var n :| low <= n < k && ops[n].SweepOp? && s.historic[x].closedAt == Some(ops[n].now);
      } else {
        assert s'.historic[x].closedAt == Some(ops[k].now);
      }
    }
  }

  lemma StepClosesSince(cfg: Config, ext: Extractor, states: seq<State>, ops: seq<Op>, low: nat, k: nat)
    requires IsRun(cfg, ext, states, ops) && low <= k < |ops| && !ops[k].ClearOp?
    requires ClosedSince(states[k].historic, ops, low, k)
    ensures ClosedSince(states[k + 1].historic, ops, low, k + 1)
  {
    if ops[k].SweepOp? {
      SweepClosesSince(cfg, ext, states, ops, low, k);
    } else {
      assert Step(cfg, ext, states[k], ops[k], states[k + 1]);
      IngestKeepsArchive(cfg, ext, states[k], ops[k], states[k + 1]);
      LongerSince(states[k].historic, ops, low, k);
    }
  }

  lemma LongerSince(h: map<string, Conn>, ops: seq<Op>, low: nat, k: nat)
    requires k < |ops| && ClosedSince(h, ops, low, k)
    ensures ClosedSince(h, ops, low, k + 1)
  {
    forall x | x in h
      ensures exists n :: low <= n < k + 1 && ops[n].SweepOp? && h[x].closedAt == Some(ops[n].now)
    {
      var n :| low <= n < k && ops[n].SweepOp? && h[x].closedAt == Some(ops[n].now);
    }
  }

  lemma ClearEmpties(cfg: Config, ext: Extractor, s: State, s': State)
    requires Step(cfg, ext, s, ClearOp, s')
    ensures s'.active == map[] && s'.historic == map[] && s'.quic == map[] && s'.gone == []
  {
  }

  /**
   * A clear leaves nothing behind: after one at step `i` no table has an entry, and whatever the
   * archive holds later was closed by a sweep after it.
   */
  lemma ClearForgets(cfg: Config, ext: Extractor, states: seq<State>, ops: seq<Op>, i: nat, j: nat)
    requires IsRun(cfg, ext, states, ops) && i < j <= |ops| && ops[i].ClearOp?
    requires forall n :: i < n < j ==> !ops[n].ClearOp?
    ensures states[i + 1].active == map[] && states[i + 1].historic == map[] && states[i + 1].quic == map[]
    ensures ClosedSince(states[j].historic, ops, i + 1, j)
  {
    ClearEmpties(cfg, ext, states[i], states[i + 1]);
    SinceCarries(cfg, ext, states, ops, i + 1, j);
  }

  lemma SinceCarries(cfg: Config, ext: Extractor, states: seq<State>, ops: seq<Op>, low: nat, j: nat)
    requires IsRun(cfg, ext, states, ops) && low <= j <= |ops| && states[low].historic == map[]
    requires forall n :: low <= n < j ==> !ops[n].ClearOp?
    ensures ClosedSince(states[j].historic, ops, low, j)
  {
    var archives := seq(|states|, k requires 0 <= k < |states| => (k, states[k].historic));
    var since := (a: (int, map<string, Conn>)) => 0 <= a.0 <= |ops| && ClosedSince(a.1, ops, low, a.0);
    forall k | low <= k < j && since(archives[k])
      ensures since(archives[k + 1])
    {
      StepClosesSince(cfg, ext, states, ops, low, k);
    }
    CarriedAlong(archives, since, low, j);
  }

  /** No sweep before step `i` was later than `time`, so nothing in the archive closed later. */
  lemma {:induction false} ArchiveClosedBy(
    cfg: Config, ext: Extractor, states: seq<State>, ops: seq<Op>, i: nat, time: int)
    requires IsRun(cfg, ext, states, ops) && i <= |ops|
    requires forall n :: 0 <= n < i && ops[n].SweepOp? ==> ops[n].now <= time
    ensures ClosedBy(states[i].historic, time)
  {
    if i > 0 {
      var op := ops[i - 1];
      ArchiveClosedBy(cfg, ext, states, ops, i - 1, time);
      assert Step(cfg, ext, states[i - 1], op, states[i]);
      if op.SweepOp? {
        SweepClosedBy(cfg, states[i - 1], op.keys, op.expired, op.now, states[i], time);
      } else if op.IngestOp? {
        IngestKeepsArchive(cfg, ext, states[i - 1], op, states[i]);
      }
    }
  }

  /** The connection under `lost` closed no earlier than `time`, or it is gone and nothing that is left did. */
  ghost predicate LeftFairly(h: map<string, Conn>, lost: string, time: int) {
    if lost in h then IsClosed(h[lost]) && h[lost].closedAt.value >= time else ClosedFrom(h, time)
  }

  lemma SweepLeavesFairly(
    cfg: Config, s: State, keys: seq<string>, expired: Conn -> bool, now: int, s': State, lost: string, time: int)
    requires Sweep(cfg, s, keys, expired, now, s') && AllClosed(s.historic)
    requires LeftFairly(s.historic, lost, time) && time <= now
    ensures LeftFairly(s'.historic, lost, time)
  {
    if cfg.keepHistoric {
      var all := WithArchived(s.historic, s.active, keys, now);
      ArchivedAreClosed(s.historic, s.active, keys, now);
      ArchiveOnlyGrows(s.historic, s.active, keys, now);
      if lost in all {
        OldOrJustClosed(s.historic, s.active, keys, now, lost);
      }
      forall k | k in s'.historic && (lost !in s'.historic || k == lost)
        ensures IsClosed(s'.historic[k]) && s'.historic[k].closedAt.value >= time
      {
        OldOrJustClosed(s.historic, s.active, keys, now, k);
        if lost in all && lost !in s'.historic {
          OldestClosedGoFirst(cfg, all, s'.historic, lost, k);
        }
      }
    }
  }

  lemma ArchiveIsClosed(cfg: Config, ext: Extractor, states: seq<State>, ops: seq<Op>, k: nat)
    requires IsRun(cfg, ext, states, ops) && k <= |ops|
    ensures AllClosed(states[k].historic)
  {
    EveryRunKeepsInv(cfg, ext, states, ops);
    assert states[k] in states;
  }

  lemma FairStep(cfg: Config, ext: Extractor, s: State, op: Op, s': State, lost: string, time: int)
    requires Step(cfg, ext, s, op, s') && !op.ClearOp? && (op.SweepOp? ==> time <= op.now)
    requires AllClosed(s.historic) && LeftFairly(s.historic, lost, time)
    ensures LeftFairly(s'.historic, lost, time)
  {
    if op.SweepOp? {
      SweepLeavesFairly(cfg, s, op.keys, op.expired, op.now, s', lost, time);
    } else {
      IngestKeepsArchive(cfg, ext, s, op, s');
    }
  }

  lemma FairAt(cfg: Config, ext: Extractor, states: seq<State>, ops: seq<Op>, k: nat, lost: string, time: int)
    requires IsRun(cfg, ext, states, ops) && k < |ops| && LeftFairly(states[k].historic, lost, time)
    requires !ops[k].ClearOp? && (ops[k].SweepOp? ==> time <= ops[k].now)
    ensures LeftFairly(states[k + 1].historic, lost, time)
  {
    ArchiveIsClosed(cfg, ext, states, ops, k);
    FairStep(cfg, ext, states[k], ops[k], states[k + 1], lost, time);
  }

  lemma StillFair(
    cfg: Config, ext: Extractor, states: seq<State>, ops: seq<Op>, i: nat, j: nat, lost: string, time: int)
    requires IsRun(cfg, ext, states, ops) && i <= j <= |ops| && LeftFairly(states[i].historic, lost, time)
    requires forall n :: i <= n < j ==> !ops[n].ClearOp? && (ops[n].SweepOp? ==> time <= ops[n].now)
    ensures LeftFairly(states[j].historic, lost, time)
  {
    var fair := (s: State) => LeftFairly(s.historic, lost, time);
    forall k | i <= k < j && fair(states[k])
      ensures fair(states[k + 1])
    {
      FairAt(cfg, ext, states, ops, k, lost, time);
    }
    CarriedAlong(states, fair, i, j);
  }

  /**
   * The archive over whole runs, as long as the clock does not run backward and nobody clears:
   * a connection archived at step i and no longer there at step j closed no later than any
   * connection that is there, however many sweeps came in between.
   */
  lemma ArchiveGivesUpOldest(
    cfg: Config, ext: Extractor, states: seq<State>, ops: seq<Op>, i: nat, j: nat, lost: string, kept: string)
    requires IsRun(cfg, ext, states, ops) && ClockRises(ops) && i <= j <= |ops|
    requires forall n :: i <= n < j ==> !ops[n].ClearOp?
    requires lost in states[i].historic && lost !in states[j].historic && kept in states[j].historic
    ensures IsClosed(states[i].historic[lost]) && IsClosed(states[j].historic[kept])
    ensures states[i].historic[lost].closedAt.value <= states[j].historic[kept].closedAt.value
  {
    ArchiveIsClosed(cfg, ext, states, ops, i);
    var time := states[i].historic[lost].closedAt.value;
    forall n | i <= n < j && ops[n].SweepOp?
      ensures time <= ops[n].now
    {
      ArchiveClosedBy(cfg, ext, states, ops, i, ops[n].now);
    }
    StillFair(cfg, ext, states, ops, i, j, lost, time);
  }

  lemma {:induction false} ArchiveHoldsAll(h: map<string, Conn>, active: map<string, Conn>, keys: seq<string>, now: int)
    requires Distinct(keys) && forall k :: k in keys ==> k in active
    ensures var all := WithArchived(h, active, keys, now);
            && |all| <= |h| + |keys|
            && forall k :: k in keys ==>
                 var hk := HistoricKey.HistoricKey(k, active[k].createdAt);
                 hk in all && all[hk] == Archived(active[k], now)
  {
    if keys != [] {
      var n := |keys| - 1;
      var init, last := keys[..n], keys[n];
      assert keys == init + [last];
      ArchiveHoldsAll(h, active, init, now);
      SizeOfUpdate(WithArchived(h, active, init, now),
                   HistoricKey.HistoricKey(last, active[last].createdAt), Archived(active[last], now));
      forall k | k in init
        ensures HistoricKey.HistoricKey(k, active[k].createdAt) != HistoricKey.HistoricKey(last, active[last].createdAt)
      {
        ArchiveKeyLaw(k, active[k].createdAt, last, active[last].createdAt);
      }
    }
  }
}
