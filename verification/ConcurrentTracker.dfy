/**
 * The tracker shared by several packet processors, the cleanup thread, the process-enrichment
 * thread and the user's clear command, as interleaved atomic steps.
 */
module ConcurrentTracker {
  import opened Wrappers
  import opened Analytics
  import opened QuicMerge
  import opened Connections
  import opened TrafficTotals
  import opened TrackerModel
  import opened HistoricKey

  type Tid = nat

  /**
   * Where a processor is in handling its packet: before the admission check with the key it has
   * routed the packet to, past the check, or with anomalies still to be added to the statistics.
   */
  datatype Phase = Idle | Routed(key: string, a: Arrival) | Passed(key: string, a: Arrival) | Publishing(deltas: Deltas)

  /** Per metric, by how much the statistics differ from the connections because of clears. */
  datatype Skew = Skew(retransmits: int, outOfOrder: int, fastRetransmits: int)

  datatype World = World(
    active: map<string, Conn>, gone: seq<Conn>, threads: map<Tid, Phase>, stats: Deltas, skew: Skew)

  datatype Action =
    | Route(t: Tid, key: string, a: Arrival)
    | Check(t: Tid)
    | Apply(t: Tid)
    | Publish(t: Tid, metric: Metric)
    | Finish(t: Tid)
    | Remove(key: string)
    | Enrich(key: string, pid: nat, name: string)
    | ClearTables
    | ResetStat(metric: Metric)

  predicate IsAnomaly(m: Metric) { m.Retransmits? || m.OutOfOrder? || m.FastRetransmits? }

  function OfSkew(s: Skew, m: Metric): int {
    match m
    case Retransmits => s.retransmits
    case OutOfOrder => s.outOfOrder
    case FastRetransmits => s.fastRetransmits
    case _ => 0
  }

  function ShiftSkew(s: Skew, m: Metric, amount: int): Skew {
    match m
    case Retransmits => s.(retransmits := s.retransmits + amount)
    case OutOfOrder => s.(outOfOrder := s.outOfOrder + amount)
    case FastRetransmits => s.(fastRetransmits := s.fastRetransmits + amount)
    case _ => s
  }

  function AddTo(d: Deltas, m: Metric, n: nat): Deltas {
    match m
    case Retransmits => d.(retransmits := d.retransmits + n)
    case OutOfOrder => d.(outOfOrder := d.outOfOrder + n)
    case FastRetransmits => d.(fastRetransmits := d.fastRetransmits + n)
    case _ => d
  }

  function ZeroIn(d: Deltas, m: Metric): Deltas {
    match m
    case Retransmits => d.(retransmits := 0)
    case OutOfOrder => d.(outOfOrder := 0)
    case FastRetransmits => d.(fastRetransmits := 0)
    case _ => d
  }

  function OfPhase(p: Phase, m: Metric): nat {
    if p.Publishing? then OfDeltas(p.deltas, m) else 0
  }

  /** Anomalies counted on connections but not yet added to the statistics. */
  ghost function Pending(w: World, m: Metric): nat { SumOver(w.threads, OfPhase, m) }

  /** What the connections themselves have counted, the removed ones included. */
  ghost function Counted(w: World, m: Metric): nat { SumOver(w.active, OfConn, m) + SumSeq(w.gone, m) }

  /**
   * One atomic step. Which key a packet is routed to, which entries a sweep removes and what
   * the process lookup answers are left open; every entry operation is atomic.
   */
  ghost predicate Step(max: nat, ext: Extractor, w: World, act: Action, w': World) {
    match act
    case Route(t, key, a) =>
      t in w.threads && w.threads[t].Idle? && w' == w.(threads := w.threads[t := Routed(key, a)])
    case Check(t) =>
      && t in w.threads && w.threads[t].Routed?
      && var p := w.threads[t];
         var full := p.key !in w.active && |w.active| >= max;
         w' == w.(threads := w.threads[t := if full then Idle else Passed(p.key, p.a)])
    case Apply(t) =>
      && t in w.threads && w.threads[t].Passed?
      && var p := w.threads[t];
         w' == w.(active := w.active[p.key := FoldIn(ext, w.active, p.key, p.a)],
                  threads := w.threads[t := Publishing(Reported(w.active, p.key, p.a))])
    case Publish(t, m) =>
      && t in w.threads && w.threads[t].Publishing? && IsAnomaly(m)
      && var d := w.threads[t].deltas;
         w' == w.(stats := AddTo(w.stats, m, OfDeltas(d, m)),
                  threads := w.threads[t := Publishing(ZeroIn(d, m))])
    case Finish(t) =>
      t in w.threads && w.threads[t] == Publishing(Deltas(0, 0, 0)) && w' == w.(threads := w.threads[t := Idle])
    case Remove(k) =>
      k in w.active && w' == w.(active := w.active - {k}, gone := w.gone + [w.active[k]])
    case Enrich(k, pid, name) =>
      k in w.active && w' == w.(active := w.active[k := Attribute(w.active[k], Some(pid), Some(name))])
    case ClearTables =>
      w' == w.(active := map[], gone := [],
               skew := Skew(w.skew.retransmits + Counted(w, Retransmits),
                            w.skew.outOfOrder + Counted(w, OutOfOrder),
                            w.skew.fastRetransmits + Counted(w, FastRetransmits)))
    // The statistics are zeroed one by one, after the tables.
    case ResetStat(m) =>
      && IsAnomaly(m)
      && w' == w.(stats := ZeroIn(w.stats, m), skew := ShiftSkew(w.skew, m, -(OfDeltas(w.stats, m) as int)))
  }

  ghost predicate Init(w: World, n: nat) {
    && w.active == map[] && w.gone == [] && w.stats == Deltas(0, 0, 0) && w.skew == Skew(0, 0, 0)
    && |w.threads| == n && (forall t :: t in w.threads ==> w.threads[t].Idle?)
  }

  ghost predicate IsRun(max: nat, ext: Extractor, n: nat, ws: seq<World>, acts: seq<Action>) {
    && |ws| == |acts| + 1
    && Init(ws[0], n)
    && forall i :: 0 <= i < |acts| ==> Step(max, ext, ws[i], acts[i], ws[i + 1])
  }

  // ---- The connection limit under concurrency ----

  ghost function PassedKeys(threads: map<Tid, Phase>): set<string> {
    set t | t in threads && threads[t].Passed? :: threads[t].key
  }

  /** Live keys together with those a processor past its check may still add. */
  ghost function Committed(w: World): set<string> { w.active.Keys + PassedKeys(w.threads) }

  ghost predicate Capped(max: nat, n: nat, w: World) {
    && |w.threads| == n
    && |Committed(w)| <= max + n - 1
  }

  lemma {:induction false} ImageSize(threads: map<Tid, Phase>)
    ensures |PassedKeys(threads)| <= |threads|
    decreases |threads|
  {
    if threads.Keys != {} {
      var t :| t in threads.Keys;
      var rest := threads - {t};
      SmallerWithout(threads, t);
      ImageSize(rest);
      forall k | k in PassedKeys(threads)
        ensures k in PassedKeys(rest) || (threads[t].Passed? && k == threads[t].key)
      {
        var u :| u in threads && threads[u].Passed? && threads[u].key == k;
        assert u == t || (u in rest && rest[u] == threads[u]);
      }
      if threads[t].Passed? {
        UnionSize(PassedKeys(rest), {threads[t].key});
        SubsetSize(PassedKeys(threads), PassedKeys(rest) + {threads[t].key});
      } else {
        SubsetSize(PassedKeys(threads), PassedKeys(rest));
      }
    } else {
      assert PassedKeys(threads) == {};
    }
  }

  lemma UnionSize<T>(a: set<T>, b: set<T>)
    ensures |a + b| <= |a| + |b|
  {
    assert a + b == a + (b - a);
    SubsetSize(b - a, b);
  }

  lemma StepKeepsCap(max: nat, ext: Extractor, n: nat, w: World, act: Action, w': World)
    requires n > 0 && Capped(max, n, w) && Step(max, ext, w, act, w')
    ensures Capped(max, n, w')
  {
    if act.Check? && w'.threads[act.t].Passed? && w.threads[act.t].key !in w.active {
      ImageSize(w'.threads);
      SizeOfUpdate(w.threads, act.t, w'.threads[act.t]);
      UnionSize(w'.active.Keys, PassedKeys(w'.threads));
      assert |w.active.Keys| == |w.active|;
    } else {
      CommittedShrinks(max, ext, w, act, w');
      SubsetSize(Committed(w'), Committed(w));
      assert |w'.threads.Keys| == |w'.threads| && |w.threads.Keys| == |w.threads|;
    }
  }

  /** A thread update adds at most the key its new phase has passed the check with. */
  lemma PassedKeysUpdate(threads: map<Tid, Phase>, t: Tid, p: Phase)
    requires t in threads
    ensures PassedKeys(threads[t := p]) <= PassedKeys(threads) + if p.Passed? then {p.key} else {}
  {
  }

  /** Except for a check that opens the door to a new key, no step commits to more keys. */
  lemma CommittedShrinks(max: nat, ext: Extractor, w: World, act: Action, w': World)
    requires Step(max, ext, w, act, w')
    requires act.Check? && w'.threads[act.t].Passed? ==> w.threads[act.t].key in w.active
    ensures Committed(w') <= Committed(w) && w'.threads.Keys == w.threads.Keys
  {
    if act.Apply? {
      ApplyShrinks(max, ext, w, act.t, w');
    } else if ByThread(act) {
      PhaseShrinks(w, act.t, w'.threads[act.t], w');
    }
  }

  /** A thread moves on without touching the table and not into a new key. */
  lemma PhaseShrinks(w: World, t: Tid, p: Phase, w': World)
    requires t in w.threads && w'.threads == w.threads[t := p] && w'.active == w.active
    requires p.Passed? ==> p.key in w.active
    ensures Committed(w') <= Committed(w) && w'.threads.Keys == w.threads.Keys
  {
    PassedKeysUpdate(w.threads, t, p);
  }

  lemma ApplyShrinks(max: nat, ext: Extractor, w: World, t: Tid, w': World)
    requires Step(max, ext, w, Apply(t), w')
    ensures Committed(w') <= Committed(w) && w'.threads.Keys == w.threads.Keys
  {
    PassedKeysUpdate(w.threads, t, w'.threads[t]);
    var key := w.threads[t].key;
    assert key in PassedKeys(w.threads);
    assert w'.active.Keys == w.active.Keys + {key};
  }

  predicate ByThread(act: Action) {
    act.Route? || act.Check? || act.Apply? || act.Publish? || act.Finish?
  }

  /**
   * With n processors checking and inserting in separate steps, and cleanup anywhere between,
   * the table never exceeds its limit by more than n - 1 entries.
   */
  lemma {:induction false} CapOverRuns(max: nat, ext: Extractor, n: nat, ws: seq<World>, acts: seq<Action>)
    requires n > 0 && IsRun(max, ext, n, ws, acts)
    ensures forall w :: w in ws ==> Capped(max, n, w) && |w.active| <= max + n - 1
  {
    if acts == [] {
      assert PassedKeys(ws[0].threads) == {};
      assert ws == [ws[0]];
    } else {
      var k := |acts| - 1;
      CapOverRuns(max, ext, n, ws[..k + 1], acts[..k]);
      assert ws[..k + 1][k] in ws[..k + 1];
      StepKeepsCap(max, ext, n, ws[k], acts[k], ws[k + 1]);
      SubsetSize(ws[k + 1].active.Keys, Committed(ws[k + 1]));
      assert |ws[k + 1].active.Keys| == |ws[k + 1].active|;
      assert ws == ws[..k + 1] + [ws[k + 1]];
    }
  }

  // ---- The bound is met ----

  /** No packet is redirected: each is routed to its own key, as without any QUIC mapping. */
  predicate OwnKey(act: Action) { act.Route? ==> act.key == act.a.packet.connectionKey }

  ghost predicate AllOwnKeys(acts: seq<Action>) { forall act :: act in acts ==> OwnKey(act) }

  /** What a run can reach in which every packet goes to its own key. */
  ghost predicate Reachable(max: nat, ext: Extractor, n: nat, w: World) {
    exists ws, acts :: IsRun(max, ext, n, ws, acts) && AllOwnKeys(acts) && ws[|ws| - 1] == w
  }

  /** Past its check with the packet whose key is numeral `i`. */
  function Waiting(a: Arrival, i: nat): Phase { Passed(Decimal(i), At(a, Decimal(i))) }

  /** The arrival with another key. */
  function At(a: Arrival, key: string): Arrival { a.(packet := a.packet.(connectionKey := key)) }

  lemma ReachStep(max: nat, ext: Extractor, n: nat, w: World, act: Action, w': World)
    requires Reachable(max, ext, n, w) && Step(max, ext, w, act, w') && OwnKey(act)
    ensures Reachable(max, ext, n, w')
  {
    var ws, acts :| IsRun(max, ext, n, ws, acts) && AllOwnKeys(acts) && ws[|ws| - 1] == w;
    var ws', acts' := ws + [w'], acts + [act];
    forall i | 0 <= i < |acts'|
      ensures Step(max, ext, ws'[i], acts'[i], ws'[i + 1])
    {
      if i < |acts| {
        assert Step(max, ext, ws[i], acts[i], ws[i + 1]);
      }
    }
    assert IsRun(max, ext, n, ws', acts') && AllOwnKeys(acts') && ws'[|ws'| - 1] == w';
  }

  function Idles(n: nat): map<Tid, Phase> {
    if n == 0 then map[] else Idles(n - 1)[n - 1 := Idle]
  }

  lemma {:induction false} IdlesLaw(n: nat)
    ensures |Idles(n)| == n && forall t: Tid :: t in Idles(n) <==> t < n
    ensures forall t :: t in Idles(n) ==> Idles(n)[t].Idle?
  {
    if n > 0 {
      IdlesLaw(n - 1);
      SizeOfUpdate(Idles(n - 1), n - 1, Idle);
    }
  }

  /** The live keys are the first `i` numerals. */
  ghost predicate Numerals(w: World, i: nat) {
    && |w.active| == i
    && forall j: nat :: Decimal(j) in w.active <==> j < i
  }

  lemma AddNumeral(w: World, i: nat, c: Conn)
    requires Numerals(w, i)
    ensures Numerals(w.(active := w.active[Decimal(i) := c]), i + 1)
  {
    SizeOfUpdate(w.active, Decimal(i), c);
    forall j: nat
      ensures Decimal(j) in w.active[Decimal(i) := c] <==> j < i + 1
    {
      if Decimal(j) == Decimal(i) {
        DecimalIsInjective(j, i);
      }
    }
  }

  ghost predicate Roster(w: World, n: nat) { forall t: Tid :: t in w.threads <==> t < n }

  /** An idle processor routes a packet to a key and passes its check while there is room. */
  lemma PassOne(max: nat, ext: Extractor, n: nat, w0: World, t: Tid, key: string, a: Arrival) returns (w: World)
    requires key == a.packet.connectionKey
    requires Reachable(max, ext, n, w0) && t in w0.threads && w0.threads[t].Idle?
    requires key in w0.active || |w0.active| < max
    ensures Reachable(max, ext, n, w) && w == w0.(threads := w0.threads[t := Passed(key, a)])
  {
    var w1 := w0.(threads := w0.threads[t := Routed(key, a)]);
    ReachStep(max, ext, n, w0, Route(t, key, a), w1);
    w := w1.(threads := w1.threads[t := Passed(key, a)]);
    ReachStep(max, ext, n, w1, Check(t), w);
    assert w.threads == w0.threads[t := Passed(key, a)];
  }

  /** Then it folds the packet in. */
  lemma ApplyOne(max: nat, ext: Extractor, n: nat, w0: World, t: Tid, key: string, a: Arrival) returns (w: World)
    requires key == a.packet.connectionKey
    requires Reachable(max, ext, n, w0) && t in w0.threads && w0.threads[t].Idle?
    requires key in w0.active || |w0.active| < max
    ensures Reachable(max, ext, n, w)
    ensures w == w0.(active := w0.active[key := FoldIn(ext, w0.active, key, a)],
                     threads := w0.threads[t := Publishing(Reported(w0.active, key, a))])
  {
    var w1 := PassOne(max, ext, n, w0, t, key, a);
    w := w1.(active := w1.active[key := FoldIn(ext, w1.active, key, a)],
             threads := w1.threads[t := Publishing(Reported(w1.active, key, a))]);
    ReachStep(max, ext, n, w1, Apply(t), w);
    assert w.threads == w0.threads[t := Publishing(Reported(w0.active, key, a))];
  }

  /** A packet without anomalies leaves nothing to publish. */
  lemma HandleQuietly(max: nat, ext: Extractor, n: nat, w0: World, t: Tid, key: string, a: Arrival) returns (w: World)
    requires key == a.packet.connectionKey
    requires Reachable(max, ext, n, w0) && t in w0.threads && w0.threads[t].Idle?
    requires key in w0.active || |w0.active| < max
    requires Reported(w0.active, key, a) == Deltas(0, 0, 0)
    ensures Reachable(max, ext, n, w)
    ensures w == w0.(active := w0.active[key := FoldIn(ext, w0.active, key, a)])
  {
    var w1 := ApplyOne(max, ext, n, w0, t, key, a);
    w := w1.(threads := w1.threads[t := Idle]);
    ReachStep(max, ext, n, w1, Finish(t), w);
    assert w.threads == w0.threads;
  }

  lemma ReachInit(max: nat, ext: Extractor, n: nat) returns (w: World)
    ensures Reachable(max, ext, n, w) && Init(w, n) && Roster(w, n)
  {
    IdlesLaw(n);
    w := World(map[], [], Idles(n), Deltas(0, 0, 0), Skew(0, 0, 0));
    assert IsRun(max, ext, n, [w], []) && AllOwnKeys([]) && [w][|[w]| - 1] == w;
  }

  /** Processor 0 alone fills the table. */
  lemma {:induction false} FillTable(max: nat, ext: Extractor, n: nat, a: Arrival, i: nat) returns (w: World)
    requires n > 0 && i <= max
    ensures Reachable(max, ext, n, w) && Numerals(w, i) && Roster(w, n)
    ensures forall t :: t in w.threads ==> w.threads[t].Idle?
  {
    if i == 0 {
      w := ReachInit(max, ext, n);
    } else {
      var w0 := FillTable(max, ext, n, a, i - 1);
      w := HandleQuietly(max, ext, n, w0, 0, Decimal(i - 1), At(a, Decimal(i - 1)));
      AddNumeral(w0, i - 1, w.active[Decimal(i - 1)]);
    }
  }

  /** The processors from `low` to `high` are past their checks with the numerals from `base` on. */
  ghost predicate WaitInLine(threads: map<Tid, Phase>, a: Arrival, base: nat, low: nat, high: nat) {
    forall t :: t in threads && low <= t < high ==> threads[t] == Waiting(a, base + t)
  }

  ghost predicate IdleFrom(threads: map<Tid, Phase>, low: nat) {
    forall t :: t in threads && low <= t ==> threads[t].Idle?
  }

  lemma LineGrows(threads: map<Tid, Phase>, a: Arrival, base: nat, t: Tid)
    requires t in threads && WaitInLine(threads, a, base, 0, t) && IdleFrom(threads, t)
    ensures var longer := threads[t := Waiting(a, base + t)];
            WaitInLine(longer, a, base, 0, t + 1) && IdleFrom(longer, t + 1)
  {
  }

  lemma SameCast(w0: World, w: World, i: nat, n: nat)
    requires Numerals(w0, i) && Roster(w0, n) && w.active == w0.active && w.threads.Keys == w0.threads.Keys
    ensures Numerals(w, i) && Roster(w, n)
  {
  }

  /** One more processor in line, for a numeral of its own; the table is as it was. */
  lemma PassNumeral(max: nat, ext: Extractor, n: nat, w0: World, t: Tid, a: Arrival, i: nat) returns (w: World)
    requires Reachable(max, ext, n, w0) && t in w0.threads && w0.threads[t].Idle? && |w0.active| == i < max
    requires Numerals(w0, i) && Roster(w0, n) && WaitInLine(w0.threads, a, i, 0, t) && IdleFrom(w0.threads, t)
    ensures Reachable(max, ext, n, w) && Numerals(w, i) && Roster(w, n)
    ensures WaitInLine(w.threads, a, i, 0, t + 1) && IdleFrom(w.threads, t + 1)
  {
    w := PassOne(max, ext, n, w0, t, Decimal(i + t), At(a, Decimal(i + t)));
    LineGrows(w0.threads, a, i, t);
    SameCast(w0, w, i, n);
  }

  /** With one place left, the first `j` processors all pass the check, each with a new key. */
  lemma {:induction false} PassTogether(max: nat, ext: Extractor, n: nat, a: Arrival, j: nat) returns (w: World)
    requires n > 0 && max > 0 && j <= n
    ensures Reachable(max, ext, n, w) && Numerals(w, max - 1) && Roster(w, n)
    ensures WaitInLine(w.threads, a, max - 1, 0, j) && IdleFrom(w.threads, j)
  {
    if j == 0 {
      w := FillTable(max, ext, n, a, max - 1);
    } else {
      var w0 := PassTogether(max, ext, n, a, j - 1);
      w := PassNumeral(max, ext, n, w0, j - 1, a, max - 1);
    }
  }

  /** The first in line inserts its entry, whatever the table holds by now. */
  lemma InsertNumeral(max: nat, ext: Extractor, n: nat, w0: World, t: Tid, a: Arrival, base: nat) returns (w: World)
    requires Reachable(max, ext, n, w0) && t in w0.threads && t < n
    requires Numerals(w0, base + t) && Roster(w0, n) && WaitInLine(w0.threads, a, base, t, n)
    ensures Reachable(max, ext, n, w) && Numerals(w, base + t + 1) && Roster(w, n)
    ensures WaitInLine(w.threads, a, base, t + 1, n)
  {
    var key := Decimal(base + t);
    var own := At(a, key);
    assert w0.threads[t] == Passed(key, own);
    w := w0.(active := w0.active[key := FoldIn(ext, w0.active, key, own)],
             threads := w0.threads[t := Publishing(Reported(w0.active, key, own))]);
    ReachStep(max, ext, n, w0, Apply(t), w);
    AddNumeral(w0, base + t, w.active[key]);
  }

  lemma {:induction false} InsertTogether(max: nat, ext: Extractor, n: nat, a: Arrival, j: nat) returns (w: World)
    requires n > 0 && max > 0 && j <= n
    ensures Reachable(max, ext, n, w) && Numerals(w, max - 1 + j) && Roster(w, n)
    ensures WaitInLine(w.threads, a, max - 1, j, n)
  {
    if j == 0 {
      w := PassTogether(max, ext, n, a, n);
    } else {
      var w0 := InsertTogether(max, ext, n, a, j - 1);
      w := InsertNumeral(max, ext, n, w0, j - 1, a, max - 1);
    }
  }

  /** The bound of `CapOverRuns` cannot be improved for any number of processors, with packets of keys of their own. */
  lemma CapIsTight(max: nat, ext: Extractor, n: nat, a: Arrival)
    requires n > 0 && max > 0
    ensures exists w :: Reachable(max, ext, n, w) && |w.active| == max + n - 1
  {
    var w := InsertTogether(max, ext, n, a, n);
  }

  // ---- Process attribution is write-once ----

  /** What is known about process and round-trip time in `c` is known the same in `d`. */
  predicate KeepsAttribution(c: Conn, d: Conn) {
    && (c.processName.Some? ==> d.processName == c.processName)
    && (c.pid.Some? ==> d.pid == c.pid)
    && (c.initialRtt.Some? ==> d.initialRtt == c.initialRtt)
  }

  lemma StepKeepsAttribution(max: nat, ext: Extractor, w: World, act: Action, w': World, k: string)
    requires Step(max, ext, w, act, w') && k in w.active && k in w'.active
    ensures KeepsAttribution(w.active[k], w'.active[k])
  {
    if act.Apply? && w.threads[act.t].key == k {
      assert w'.active[k] == MergeWith(ext, w.active[k], w.threads[act.t].a);
    }
  }

  /**
   * Packet merges and enrichment race for the same fields; whichever comes first, the process
   * name, process id and initial round-trip time never change again while the entry lives.
   */
  lemma {:induction false} AttributionIsWriteOnce(
    max: nat, ext: Extractor, n: nat, ws: seq<World>, acts: seq<Action>, i: nat, j: nat, k: string)
    requires IsRun(max, ext, n, ws, acts) && i <= j < |ws|
    requires forall x :: i <= x <= j ==> k in ws[x].active
    ensures KeepsAttribution(ws[i].active[k], ws[j].active[k])
    decreases j
  {
    if i < j {
      AttributionIsWriteOnce(max, ext, n, ws, acts, i, j - 1, k);
      StepKeepsAttribution(max, ext, ws[j - 1], acts[j - 1], ws[j], k);
    }
  }

  // ---- Global statistics ----

  /** Connections and statistics agree up to what is still to be published, and the skew. */
  ghost predicate Balanced(w: World, m: Metric) {
    Counted(w, m) + OfSkew(w.skew, m) == OfDeltas(w.stats, m) + Pending(w, m)
  }

  lemma ApplyBalances(ext: Extractor, w: World, k: string, a: Arrival, m: Metric)
    requires IsAnomaly(m)
    ensures SumOver(w.active[k := FoldIn(ext, w.active, k, a)], OfConn, m)
         == SumOver(w.active, OfConn, m) + OfDeltas(Reported(w.active, k, a), m)
  {
    if k in w.active {
      SumUpdate(w.active, OfConn, m, k, FoldIn(ext, w.active, k, a));
      MergeCountsItsPacket(ext, w.active[k], a, m);
    } else {
      SumInsert(w.active, OfConn, m, k, FoldIn(ext, w.active, k, a));
      CreateCountsItsPacket(a, m);
    }
  }

  lemma ApplyStepBalances(max: nat, ext: Extractor, w: World, t: Tid, w': World, m: Metric)
    requires Step(max, ext, w, Apply(t), w') && Balanced(w, m) && IsAnomaly(m)
    ensures Balanced(w', m)
  {
    SumUpdate(w.threads, OfPhase, m, t, w'.threads[t]);
    ApplyBalances(ext, w, w.threads[t].key, w.threads[t].a, m);
  }

  lemma QuietStepBalances(max: nat, ext: Extractor, w: World, act: Action, w': World, m: Metric)
    requires Step(max, ext, w, act, w') && Balanced(w, m) && (act.Route? || act.Check? || act.Finish?)
    ensures Balanced(w', m)
  {
    SumUpdate(w.threads, OfPhase, m, act.t, w'.threads[act.t]);
  }

  lemma PublishStepBalances(max: nat, ext: Extractor, w: World, act: Action, w': World, m: Metric)
    requires Step(max, ext, w, act, w') && Balanced(w, m) && IsAnomaly(m) && act.Publish?
    ensures Balanced(w', m)
  {
    SumUpdate(w.threads, OfPhase, m, act.t, w'.threads[act.t]);
  }

  lemma ThreadStepBalances(max: nat, ext: Extractor, w: World, act: Action, w': World, m: Metric)
    requires Step(max, ext, w, act, w') && Balanced(w, m) && IsAnomaly(m) && ByThread(act)
    ensures Balanced(w', m)
  {
    if act.Apply? {
      ApplyStepBalances(max, ext, w, act.t, w', m);
    } else if act.Publish? {
      PublishStepBalances(max, ext, w, act, w', m);
    } else {
      QuietStepBalances(max, ext, w, act, w', m);
    }
  }

  lemma RemoveBalances(max: nat, ext: Extractor, w: World, key: string, w': World, m: Metric)
    requires Step(max, ext, w, Remove(key), w') && Balanced(w, m)
    ensures Balanced(w', m)
  {
    SumWithout(w.active, OfConn, m, key);
    assert (w.gone + [w.active[key]])[..|w.gone|] == w.gone;
  }

  lemma EnrichBalances(
    max: nat, ext: Extractor, w: World, key: string, pid: nat, name: string, w': World, m: Metric)
    requires Step(max, ext, w, Enrich(key, pid, name), w') && Balanced(w, m)
    ensures Balanced(w', m)
  {
    SumUpdate(w.active, OfConn, m, key, w'.active[key]);
  }

  lemma EntryStepBalances(max: nat, ext: Extractor, w: World, act: Action, w': World, m: Metric)
    requires Step(max, ext, w, act, w') && Balanced(w, m) && (act.Remove? || act.Enrich?)
    ensures Balanced(w', m)
  {
    match act
    case Remove(key) => RemoveBalances(max, ext, w, key, w', m);
    case Enrich(key, pid, name) => EnrichBalances(max, ext, w, key, pid, name, w', m);
  }

  lemma ClearStepBalances(max: nat, ext: Extractor, w: World, act: Action, w': World, m: Metric)
    requires Step(max, ext, w, act, w') && Balanced(w, m) && IsAnomaly(m) && (act.ClearTables? || act.ResetStat?)
    ensures Balanced(w', m)
  {
  }

  lemma {:induction false} InitIsBalanced(threads: map<Tid, Phase>, m: Metric)
    requires forall t :: t in threads ==> threads[t].Idle?
    ensures SumOver(threads, OfPhase, m) == 0
    decreases |threads|
  {
    if threads.Keys != {} {
      var t := Pick(threads);
      SmallerWithout(threads, t);
      InitIsBalanced(threads - {t}, m);
    }
  }

  /** Conservation in every interleaving, clears included. */
  lemma {:induction false} StatisticsBalance(
    max: nat, ext: Extractor, n: nat, ws: seq<World>, acts: seq<Action>, m: Metric)
    requires IsRun(max, ext, n, ws, acts) && IsAnomaly(m)
    ensures Balanced(ws[|ws| - 1], m)
  {
    if acts == [] {
      InitIsBalanced(ws[0].threads, m);
    } else {
      var k := |acts| - 1;
      StatisticsBalance(max, ext, n, ws[..k + 1], acts[..k], m);
      if ByThread(acts[k]) {
        ThreadStepBalances(max, ext, ws[k], acts[k], ws[k + 1], m);
      } else if acts[k].Remove? || acts[k].Enrich? {
        EntryStepBalances(max, ext, ws[k], acts[k], ws[k + 1], m);
      } else {
        ClearStepBalances(max, ext, ws[k], acts[k], ws[k + 1], m);
      }
    }
  }

  lemma {:induction false} SkewStays(
    max: nat, ext: Extractor, n: nat, ws: seq<World>, acts: seq<Action>, i: nat, j: nat, m: Metric)
    requires IsRun(max, ext, n, ws, acts) && i <= j < |ws|
    requires forall x :: i <= x < j ==> acts[x] != ClearTables && acts[x] != ResetStat(m)
    ensures OfSkew(ws[j].skew, m) == OfSkew(ws[i].skew, m)
    decreases j
  {
    if i < j {
      SkewStays(max, ext, n, ws, acts, i, j - 1, m);
      assert Step(max, ext, ws[j - 1], acts[j - 1], ws[j]);
      assert acts[j - 1] != ClearTables && acts[j - 1] != ResetStat(m);
    }
  }

  /**
   * A clear empties the tables at step i and zeroes a statistic at a later step j. After it,
   * connections and that statistic agree again (up to unpublished anomalies) exactly if what the
   * processors published in between is what they held unpublished when the tables were emptied.
   */
  lemma ClearRestoresAgreementExactlyWhen(
    max: nat, ext: Extractor, n: nat, ws: seq<World>, acts: seq<Action>, i: nat, j: nat, m: Metric)
    requires IsRun(max, ext, n, ws, acts) && i < j < |acts| && IsAnomaly(m)
    requires acts[i] == ClearTables && acts[j] == ResetStat(m)
    requires forall x :: i < x < j ==> acts[x] != ClearTables && acts[x] != ResetStat(m)
    ensures Counted(ws[j + 1], m) == OfDeltas(ws[j + 1].stats, m) + Pending(ws[j + 1], m)
       <==> OfDeltas(ws[j].stats, m) - OfDeltas(ws[i].stats, m) == Pending(ws[i], m)
  {
    PrefixRun(max, ext, n, ws, acts, i);
    StatisticsBalance(max, ext, n, ws[..i + 1], acts[..i], m);
    PrefixRun(max, ext, n, ws, acts, j + 1);
    StatisticsBalance(max, ext, n, ws[..j + 2], acts[..j + 1], m);
    assert Step(max, ext, ws[i], acts[i], ws[i + 1]) && Step(max, ext, ws[j], acts[j], ws[j + 1]);
    SkewStays(max, ext, n, ws, acts, i + 1, j, m);
  }

  /** A data segment we send whose numbers do not wrap. */
  predicate SendsData(a: Arrival) {
    && IsTcp(a) && a.packet.isOutgoing
    && var d := SegmentOf(a.packet.tcpHeader.value, true);
       d.len > 0 && d.seqNo + d.len < TWO_32
  }

  /** Sent three times: the first copy creates the connection, the second is followed, the third counts. */
  lemma ThirdCopyCounts(ext: Extractor, a: Arrival)
    requires SendsData(a)
    ensures var c := CreateWith(a);
            && MergeDeltas(c, a.packet) == Deltas(0, 0, 0)
            && MergeDeltas(MergeWith(ext, c, a), a.packet) == Deltas(1, 0, 0)
  {
  }

  /**
   * The condition can fail: a retransmission counted just before the tables are emptied is
   * published after the statistics were zeroed, and then nothing explains it.
   */
  lemma ClearCanSkew(max: nat, ext: Extractor, n: nat, a: Arrival)
    requires n > 0 && max > 0 && SendsData(a)
    ensures exists w :: Reachable(max, ext, n, w) && w.stats.retransmits == 1
                     && Counted(w, Retransmits) == 0 && Pending(w, Retransmits) == 0
  {
    ThirdCopyCounts(ext, a);
    var key := a.packet.connectionKey;
    var w0 := ReachInit(max, ext, n);
    var w1 := HandleQuietly(max, ext, n, w0, 0, key, a);
    var w2 := HandleQuietly(max, ext, n, w1, 0, key, a);
    var w3 := ApplyOne(max, ext, n, w2, 0, key, a);
    var w := PublishAfterClear(max, ext, n, w3, 0);
    assert w.threads == w0.threads;
    InitIsBalanced(w.threads, Retransmits);
  }

  lemma PublishAfterClear(max: nat, ext: Extractor, n: nat, w0: World, t: Tid) returns (w: World)
    requires Reachable(max, ext, n, w0) && t in w0.threads && w0.threads[t] == Publishing(Deltas(1, 0, 0))
    ensures Reachable(max, ext, n, w) && w.active == map[] && w.gone == []
    ensures w.stats.retransmits == 1 && w.threads == w0.threads[t := Idle]
  {
    var w1 := w0.(active := map[], gone := [],
                  skew := Skew(w0.skew.retransmits + Counted(w0, Retransmits),
                               w0.skew.outOfOrder + Counted(w0, OutOfOrder),
                               w0.skew.fastRetransmits + Counted(w0, FastRetransmits)));
    ReachStep(max, ext, n, w0, ClearTables, w1);
    var w2 := w1.(stats := ZeroIn(w1.stats, Retransmits),
                  skew := ShiftSkew(w1.skew, Retransmits, -(w1.stats.retransmits as int)));
    ReachStep(max, ext, n, w1, ResetStat(Retransmits), w2);
    var w3 := w2.(stats := AddTo(w2.stats, Retransmits, 1), threads := w2.threads[t := Publishing(Deltas(0, 0, 0))]);
    ReachStep(max, ext, n, w2, Publish(t, Retransmits), w3);
    w := w3.(threads := w3.threads[t := Idle]);
    ReachStep(max, ext, n, w3, Finish(t), w);
  }

  lemma PrefixRun(max: nat, ext: Extractor, n: nat, ws: seq<World>, acts: seq<Action>, k: nat)
    requires IsRun(max, ext, n, ws, acts) && k <= |acts|
    ensures IsRun(max, ext, n, ws[..k + 1], acts[..k]) && ws[..k + 1][|ws[..k + 1]| - 1] == ws[k]
  {
  }
}
