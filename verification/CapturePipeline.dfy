/**
 * From the capture thread through a bounded channel to the packet processors, as interleaved
 * atomic steps. Packets are numbered in the order of capture.
 */
module CapturePipeline {
  import opened Wrappers

  const BATCH_LIMIT: nat := 100
  /** The channel holds this many batches. */
  const MAX_PACKET_QUEUE: nat := 10_000

  type Batch = seq<nat>

  /** `Counting`: a batch found the channel full and its packets are yet to be counted as dropped. */
  datatype CaptureState = Reading | Sending | Counting(size: nat) | Stopped

  /** `done` counts the packets of the batch in hand already processed. */
  datatype Processor = Waiting | Busy(batch: Batch, done: nat) | Exited

  /**
   * The two statistics, and what their last overwrites left behind: how many packets had been
   * processed and dropped when the user cleared, how many of them were still to be reported
   * then, and for the drops what the last overwrite wrote and how many drops it overwrote.
   */
  datatype Stats = Stats(
    packetsProcessed: nat, packetsDropped: nat,
    processedAtClear: nat, carried: nat, droppedAtClear: nat, baseline: nat, overwritten: int)

  /** `lost` are the packets the capture thread still held when it stopped. */
  datatype Pipeline = Pipeline(
    captured: nat, capture: CaptureState, batch: Batch, queue: seq<Batch>, processors: seq<Processor>,
    processed: seq<nat>, dropped: seq<nat>, lost: seq<nat>, stats: Stats)

  datatype Action =
    | Capture(deadline: bool)
    | Timeout
    | Send
    | CountDrop
    | StoreCaptureStats(value: nat)
    | Stop
    | Receive(p: nat)
    | Process(p: nat)
    | FinishBatch(p: nat)
    | Exit(p: nat)
    | ClearProcessed
    | ClearDropped

  /** Drops that have happened but are not in the statistic yet. */
  function Uncounted(c: CaptureState): nat { if c.Counting? then c.size else 0 }

  /** Packets of a batch in hand that are processed but not in the statistic yet. */
  function Done(p: Processor): nat { if p.Busy? then p.done else 0 }

  function Unreported(ps: seq<Processor>): nat {
    if ps == [] then 0 else Unreported(ps[..|ps| - 1]) + Done(ps[|ps| - 1])
  }

  ghost predicate Step(s: Pipeline, act: Action, s': Pipeline) {
    match act
    // A packet arrives; the batch goes out when it is full or its deadline has passed.
    case Capture(deadline) =>
      && s.capture.Reading?
      && var batch := s.batch + [s.captured];
         s' == s.(captured := s.captured + 1, batch := batch,
                  capture := if |batch| >= BATCH_LIMIT || deadline then Sending else Reading)
    // Nothing arrives and the deadline of a partial batch has passed.
    case Timeout => s.capture.Reading? && s.batch != [] && s' == s.(capture := Sending)
    // `try_send`: queued, dropped when the channel is full, or refused when nobody listens.
    case Send =>
      && s.capture.Sending?
      && (if forall p :: p in s.processors ==> p.Exited? then
            s' == s.(capture := Stopped, batch := [], lost := s.lost + s.batch)
          else if |s.queue| < MAX_PACKET_QUEUE then
            s' == s.(capture := Reading, batch := [], queue := s.queue + [s.batch])
          else
            s' == s.(capture := Counting(|s.batch|), batch := [], dropped := s.dropped + s.batch))
    case CountDrop =>
      && s.capture.Counting?
      && s' == s.(capture := Reading,
                  stats := s.stats.(packetsDropped := s.stats.packetsDropped + s.capture.size))
    // Once a second the statistic is replaced by the capture library's own count.
    case StoreCaptureStats(v) =>
      && s.capture.Reading?
      && s' == s.(stats := s.stats.(packetsDropped := v, baseline := v, overwritten := |s.dropped|))
    case Stop => s.capture.Reading? && s' == s.(capture := Stopped, batch := [], lost := s.lost + s.batch)
    case Receive(p) =>
      && p < |s.processors| && s.processors[p].Waiting? && s.queue != []
      && s' == s.(queue := s.queue[1..], processors := s.processors[p := Busy(s.queue[0], 0)])
    // A packet whose parser panics is counted as processed like any other.
    case Process(p) =>
      && p < |s.processors| && s.processors[p].Busy?
      && var b := s.processors[p];
         b.done < |b.batch|
         && s' == s.(processed := s.processed + [b.batch[b.done]],
                     processors := s.processors[p := b.(done := b.done + 1)])
    case FinishBatch(p) =>
      && p < |s.processors| && s.processors[p].Busy? && s.processors[p].done == |s.processors[p].batch|
      && s' == s.(stats := s.stats.(packetsProcessed := s.stats.packetsProcessed + |s.processors[p].batch|),
                  processors := s.processors[p := Waiting])
    case Exit(p) =>
      && p < |s.processors| && s.processors[p].Waiting?
      && s' == s.(processors := s.processors[p := Exited])
    // The user clears from a thread of their own; the statistics are zeroed one after the other.
    case ClearProcessed =>
      s' == s.(stats := s.stats.(packetsProcessed := 0, processedAtClear := |s.processed|,
                                 carried := Unreported(s.processors)))
    case ClearDropped =>
      s' == s.(stats := s.stats.(packetsDropped := 0, droppedAtClear := |s.dropped|,
                                 baseline := 0, overwritten := |s.dropped| - Uncounted(s.capture)))
  }

  function Start(n: nat): Pipeline {
    Pipeline(0, Reading, [], [], seq(n, _ => Waiting), [], [], [], Stats(0, 0, 0, 0, 0, 0, 0))
  }

  ghost predicate IsRun(n: nat, states: seq<Pipeline>, acts: seq<Action>) {
    && |states| == |acts| + 1
    && states[0] == Start(n)
    && forall i :: 0 <= i < |acts| ==> Step(states[i], acts[i], states[i + 1])
  }

  // ---- Where every packet is ----

  /** A measure of a list of packets that adds up over its parts, such as its length. */
  ghost predicate Additive(m: seq<nat> -> nat) {
    m([]) == 0 && forall s, t :: m(s + t) == m(s) + m(t)
  }

  function Length(s: seq<nat>): nat { |s| }

  function Count(s: seq<nat>, x: nat): nat {
    if s == [] then 0 else Count(s[..|s| - 1], x) + if x == s[|s| - 1] then 1 else 0
  }

  function CopiesOf(x: nat): seq<nat> -> nat { s => Count(s, x) }

  lemma {:induction false} CountSplits(s: seq<nat>, t: seq<nat>, x: nat)
    ensures Count(s + t, x) == Count(s, x) + Count(t, x)
  {
    if t == [] {
      assert s + t == s;
    } else {
      CountSplits(s, t[..|t| - 1], x);
      assert (s + t)[..|s + t| - 1] == s + t[..|t| - 1];
    }
  }

  lemma CopiesAddUp(x: nat)
    ensures Additive(CopiesOf(x))
  {
    forall s, t
      ensures CopiesOf(x)(s + t) == CopiesOf(x)(s) + CopiesOf(x)(t)
    {
      CountSplits(s, t, x);
    }
  }

  function Numbers(n: nat): (r: seq<nat>)
    ensures |r| == n
  {
    if n == 0 then [] else Numbers(n - 1) + [n - 1]
  }

  lemma {:induction false} NumbersLaw(n: nat, x: nat)
    ensures Count(Numbers(n), x) == if x < n then 1 else 0
  {
    if n > 0 {
      NumbersLaw(n - 1, x);
      assert Numbers(n)[..n - 1] == Numbers(n - 1);
    }
  }

  function Flat(queue: seq<Batch>): seq<nat> {
    if queue == [] then [] else queue[0] + Flat(queue[1..])
  }

  function InHand(p: Processor): seq<nat> {
    if p.Busy? && p.done <= |p.batch| then p.batch[p.done..] else []
  }

  function InHands(ps: seq<Processor>, m: seq<nat> -> nat): nat {
    if ps == [] then 0 else InHands(ps[..|ps| - 1], m) + m(InHand(ps[|ps| - 1]))
  }

  /** All six places a captured packet can be in. */
  function Everywhere(s: Pipeline, m: seq<nat> -> nat): nat {
    m(s.processed) + InHands(s.processors, m) + m(Flat(s.queue)) + m(s.dropped) + m(s.batch) + m(s.lost)
  }

  ghost predicate Accounted(s: Pipeline, m: seq<nat> -> nat) { Everywhere(s, m) == m(Numbers(s.captured)) }

  predicate ProcessorOk(p: Processor) { p.Busy? ==> p.done <= |p.batch| }

  /** Batches never exceed their limit, nor the channel its capacity. */
  ghost predicate Bounded(s: Pipeline) {
    && |s.batch| <= BATCH_LIMIT
    && (s.capture.Reading? || s.capture.Counting? ==> |s.batch| < BATCH_LIMIT)
    && (s.capture.Sending? ==> s.batch != []) && (s.capture.Counting? ==> s.capture.size > 0)
    && |s.queue| <= MAX_PACKET_QUEUE
    && (forall b :: b in s.queue ==> |b| <= BATCH_LIMIT)
    && (forall p :: p in s.processors ==> ProcessorOk(p))
  }

  lemma {:induction false} HandChanges(ps: seq<Processor>, i: nat, p: Processor, m: seq<nat> -> nat)
    requires i < |ps|
    ensures InHands(ps[i := p], m) + m(InHand(ps[i])) == InHands(ps, m) + m(InHand(p))
  {
    var n := |ps| - 1;
    if i < n {
      HandChanges(ps[..n], i, p, m);
      assert ps[i := p][..n] == ps[..n][i := p];
    } else {
      assert ps[i := p][..n] == ps[..n];
    }
  }

  lemma {:induction false} FlatBack(queue: seq<Batch>, b: Batch)
    ensures Flat(queue + [b]) == Flat(queue) + b
  {
    if queue == [] {
      assert Flat([b]) == b + Flat([b][1..]);
    } else {
      FlatBack(queue[1..], b);
      assert (queue + [b])[1..] == queue[1..] + [b];
      Regroup(queue[0], Flat(queue[1..]), b);
    }
  }

  lemma Regroup(a: seq<nat>, b: seq<nat>, c: seq<nat>)
    ensures (a + b) + c == a + (b + c)
  {
  }

  lemma {:induction false} FlatSize(queue: seq<Batch>)
    requires forall b :: b in queue ==> |b| <= BATCH_LIMIT
    ensures |Flat(queue)| <= BATCH_LIMIT * |queue|
  {
    if queue != [] {
      FlatSize(queue[1..]);
    }
  }

  /** Steps that no processor takes. */
  predicate OnCaptureSide(act: Action) {
    act.Capture? || act.Timeout? || act.Send? || act.CountDrop? || act.StoreCaptureStats? || act.Stop?
    || act.ClearProcessed? || act.ClearDropped?
  }

  lemma CaptureSideAccounts(s: Pipeline, act: Action, s': Pipeline, m: seq<nat> -> nat)
    requires Additive(m) && Accounted(s, m) && Step(s, act, s') && OnCaptureSide(act)
    ensures Accounted(s', m)
  {
    if act.Capture? {
      assert Numbers(s'.captured) == Numbers(s.captured) + [s.captured];
    } else if act.Send? {
      FlatBack(s.queue, s.batch);
    }
  }

  lemma AddsUp(m: seq<nat> -> nat, a: seq<nat>, b: seq<nat>)
    requires Additive(m)
    ensures m(a + b) == m(a) + m(b)
  {
  }

  lemma ReceiveAccounts(s: Pipeline, p: nat, s': Pipeline, m: seq<nat> -> nat)
    requires Accounted(s, m) && Step(s, Receive(p), s') && m([]) == 0
    requires m(Flat(s.queue)) == m(s.queue[0]) + m(Flat(s'.queue))
    ensures Accounted(s', m)
  {
    var b := Busy(s.queue[0], 0);
    HandChanges(s.processors, p, b, m);
    assert InHand(b) == s.queue[0] && InHand(s.processors[p]) == [];
  }

  /** The packet a busy processor turns to. */
  function Next(p: Processor): seq<nat>
    requires p.Busy? && p.done < |p.batch|
  {
    [p.batch[p.done]]
  }

  lemma ProcessAccounts(s: Pipeline, p: nat, s': Pipeline, m: seq<nat> -> nat)
    requires Accounted(s, m) && Step(s, Process(p), s')
    requires m(InHand(s.processors[p])) == m(Next(s.processors[p])) + m(InHand(s'.processors[p]))
    requires m(s'.processed) == m(s.processed) + m(Next(s.processors[p]))
    ensures Accounted(s', m)
  {
    HandChanges(s.processors, p, s'.processors[p], m);
  }

  lemma TakingAccounts(s: Pipeline, act: Action, s': Pipeline, m: seq<nat> -> nat)
    requires Additive(m) && Accounted(s, m) && Step(s, act, s') && (act.Receive? || act.Process?)
    ensures Accounted(s', m)
  {
    if act.Receive? {
      AddsUp(m, s.queue[0], Flat(s.queue[1..]));
      ReceiveAccounts(s, act.p, s', m);
    } else {
      var before, after := s.processors[act.p], s'.processors[act.p];
      AddsUp(m, Next(before), InHand(after));
      AddsUp(m, s.processed, Next(before));
      assert InHand(before) == Next(before) + InHand(after);
      ProcessAccounts(s, act.p, s', m);
    }
  }

  lemma ReturnAccounts(s: Pipeline, act: Action, s': Pipeline, m: seq<nat> -> nat)
    requires Additive(m) && Accounted(s, m) && Step(s, act, s') && (act.FinishBatch? || act.Exit?)
    ensures Accounted(s', m)
  {
    HandChanges(s.processors, act.p, s'.processors[act.p], m);
    assert InHand(s.processors[act.p]) == [] && InHand(s'.processors[act.p]) == [];
  }

  lemma StepKeepsBounds(s: Pipeline, act: Action, s': Pipeline)
    requires Bounded(s) && Step(s, act, s')
    ensures Bounded(s')
  {
    forall p | p in s'.processors
      ensures ProcessorOk(p)
    {
      if p !in s.processors {
        assert p == s'.processors[act.p];
        assert ProcessorOk(s.processors[act.p]);
      }
    }
  }

  lemma {:induction false} NobodyBusy(n: nat, m: seq<nat> -> nat)
    requires m([]) == 0
    ensures InHands(seq(n, _ => Waiting), m) == 0
  {
    if n > 0 {
      NobodyBusy(n - 1, m);
      assert seq(n, _ => Waiting)[..n - 1] == seq(n - 1, _ => Waiting);
    }
  }

  /**
   * Captured packets are neither duplicated nor forgotten in any interleaving: whatever additive
   * measure is taken, the six places together always measure as the packets captured so far.
   */
  lemma {:induction false} EveryPacketAccounted(
    n: nat, states: seq<Pipeline>, acts: seq<Action>, m: seq<nat> -> nat)
    requires IsRun(n, states, acts) && Additive(m)
    ensures Accounted(states[|acts|], m) && Bounded(states[|acts|])
  {
    if acts == [] {
      NobodyBusy(n, m);
    } else {
      var k := |acts| - 1;
      EveryPacketAccounted(n, states[..k + 1], acts[..k], m);
      StepKeepsBounds(states[k], acts[k], states[k + 1]);
      if OnCaptureSide(acts[k]) {
        CaptureSideAccounts(states[k], acts[k], states[k + 1], m);
      } else if acts[k].Receive? || acts[k].Process? {
        TakingAccounts(states[k], acts[k], states[k + 1], m);
      } else {
        ReturnAccounts(states[k], acts[k], states[k + 1], m);
      }
    }
  }

  /** Each packet number up to the last captured is in exactly one of the places, once. */
  lemma EachPacketInOnePlace(n: nat, states: seq<Pipeline>, acts: seq<Action>, x: nat)
    requires IsRun(n, states, acts)
    ensures var s := states[|acts|];
            Everywhere(s, CopiesOf(x)) == if x < s.captured then 1 else 0
  {
    CopiesAddUp(x);
    EveryPacketAccounted(n, states, acts, CopiesOf(x));
    NumbersLaw(states[|acts|].captured, x);
  }

  lemma {:induction false} OnceIsSeen(s: seq<nat>, i: nat)
    requires i < |s|
    ensures Count(s, s[i]) >= 1
  {
    if i < |s| - 1 {
      OnceIsSeen(s[..|s| - 1], i);
    }
  }

  lemma {:induction false} TwiceIsSeen(s: seq<nat>, i: nat, j: nat)
    requires i < j < |s| && s[i] == s[j]
    ensures Count(s, s[i]) >= 2
  {
    var n := |s| - 1;
    if j < n {
      TwiceIsSeen(s[..n], i, j);
    } else {
      OnceIsSeen(s[..n], i);
    }
  }

  /**
   * No packet is processed twice or processed after being dropped; the sizes of the places add
   * up to the packets captured; and the channel holds at most a hundred packets per place.
   */
  lemma NoPacketTwice(n: nat, states: seq<Pipeline>, acts: seq<Action>)
    requires IsRun(n, states, acts)
    ensures var s := states[|acts|];
            && Distinct(s.processed)
            && (forall x :: x in s.processed ==> x < s.captured && x !in s.dropped && x !in s.lost)
            && s.captured == |s.processed| + InHands(s.processors, Length) + |Flat(s.queue)|
                             + |s.dropped| + |s.batch| + |s.lost|
            && |Flat(s.queue)| <= BATCH_LIMIT * MAX_PACKET_QUEUE
  {
    var s := states[|acts|];
    forall i, j | 0 <= i < j < |s.processed|
      ensures s.processed[i] != s.processed[j]
    {
      if s.processed[i] == s.processed[j] {
        EachPacketInOnePlace(n, states, acts, s.processed[i]);
        TwiceIsSeen(s.processed, i, j);
      }
    }
    forall x | x in s.processed
      ensures x < s.captured && x !in s.dropped && x !in s.lost
    {
      PlaceIsUnique(n, states, acts, x);
    }
    EveryPacketAccounted(n, states, acts, Length);
    FlatSize(s.queue);
  }

  lemma PlaceIsUnique(n: nat, states: seq<Pipeline>, acts: seq<Action>, x: nat)
    requires IsRun(n, states, acts) && x in states[|acts|].processed
    ensures x < states[|acts|].captured && x !in states[|acts|].dropped && x !in states[|acts|].lost
  {
    var s := states[|acts|];
    EachPacketInOnePlace(n, states, acts, x);
    var i :| 0 <= i < |s.processed| && s.processed[i] == x;
    OnceIsSeen(s.processed, i);
    if x in s.dropped {
      var j :| 0 <= j < |s.dropped| && s.dropped[j] == x;
      OnceIsSeen(s.dropped, j);
    }
    if x in s.lost {
      var j :| 0 <= j < |s.lost| && s.lost[j] == x;
      OnceIsSeen(s.lost, j);
    }
  }

  // ---- The two statistics ----

  lemma {:induction false} UnreportedChanges(ps: seq<Processor>, i: nat, p: Processor)
    requires i < |ps|
    ensures Unreported(ps[i := p]) + Done(ps[i]) == Unreported(ps) + Done(p)
  {
    var n := |ps| - 1;
    if i < n {
      UnreportedChanges(ps[..n], i, p);
      assert ps[i := p][..n] == ps[..n][i := p];
    } else {
      assert ps[i := p][..n] == ps[..n];
    }
  }

  lemma {:induction false} NothingUnreported(n: nat)
    ensures Unreported(seq(n, _ => Waiting)) == 0
  {
    if n > 0 {
      NothingUnreported(n - 1);
      assert seq(n, _ => Waiting)[..n - 1] == seq(n - 1, _ => Waiting);
    }
  }

  /** What the statistics say, exactly, whatever has been overwritten. */
  ghost predicate Reported(s: Pipeline) {
    && s.stats.packetsProcessed + Unreported(s.processors) + s.stats.processedAtClear
       == |s.processed| + s.stats.carried
    && s.stats.packetsDropped + Uncounted(s.capture) + s.stats.overwritten == |s.dropped| + s.stats.baseline
  }

  lemma StepKeepsReported(s: Pipeline, act: Action, s': Pipeline)
    requires Reported(s) && Step(s, act, s')
    ensures Reported(s')
  {
    if !OnCaptureSide(act) {
      UnreportedChanges(s.processors, act.p, s'.processors[act.p]);
    }
  }

  /**
   * In every interleaving, clears included. Up to unfinished batches the processed statistic is
   * the packets processed since the last clear exactly if no batch was partly processed at that
   * clear. Up to a drop just being counted, the drop statistic is the packets dropped since the
   * last clear exactly if its last overwrite wrote the number of counted drops it overwrote.
   */
  lemma {:induction false} StatisticsLaw(n: nat, states: seq<Pipeline>, acts: seq<Action>)
    requires IsRun(n, states, acts)
    ensures var s := states[|acts|];
            && Reported(s)
            && (s.stats.packetsProcessed + Unreported(s.processors) == |s.processed| - s.stats.processedAtClear
                <==> s.stats.carried == 0)
            && (s.stats.packetsDropped + Uncounted(s.capture) == |s.dropped| - s.stats.droppedAtClear
                <==> s.stats.baseline == s.stats.overwritten - s.stats.droppedAtClear)
  {
    if acts == [] {
      NothingUnreported(n);
    } else {
      var k := |acts| - 1;
      StatisticsLaw(n, states[..k + 1], acts[..k]);
      StepKeepsReported(states[k], acts[k], states[k + 1]);
    }
  }

  /** From step i on, up to j, nobody clears the processed statistic, or overwrites the drops. */
  ghost predicate LastClearProcessed(acts: seq<Action>, i: nat, j: nat)
    requires i < j <= |acts|
  {
    acts[i].ClearProcessed? && forall x :: i < x < j ==> !acts[x].ClearProcessed?
  }

  ghost predicate LastClearDropped(acts: seq<Action>, i: nat, j: nat)
    requires i < j <= |acts|
  {
    acts[i].ClearDropped? && forall x :: i < x < j ==> !acts[x].ClearDropped? && !acts[x].StoreCaptureStats?
  }

  lemma {:induction false} MarksStay(n: nat, states: seq<Pipeline>, acts: seq<Action>, i: nat, j: nat)
    requires IsRun(n, states, acts) && i < j <= |acts|
    ensures LastClearProcessed(acts, i, j) ==>
              && states[j].stats.processedAtClear == |states[i].processed|
              && states[j].stats.carried == Unreported(states[i].processors)
    ensures LastClearDropped(acts, i, j) ==>
              && states[j].stats.droppedAtClear == |states[i].dropped|
              && states[j].stats.baseline == 0
              && states[j].stats.overwritten == |states[i].dropped| - Uncounted(states[i].capture)
    decreases j
  {
    assert Step(states[j - 1], acts[j - 1], states[j]);
    if i < j - 1 {
      MarksStay(n, states, acts, i, j - 1);
    }
  }

  lemma PrefixRun(n: nat, states: seq<Pipeline>, acts: seq<Action>, k: nat)
    requires IsRun(n, states, acts) && k <= |acts|
    ensures IsRun(n, states[..k + 1], acts[..k]) && states[..k + 1][|acts[..k]|] == states[k]
  {
  }

  /**
   * A clear at step i, read off at j with no further clear in between: the processed statistic
   * counts the packets processed since exactly if no processor was inside a batch at step i,
   * and the drop statistic, as long as nothing else overwrites it, counts the packets dropped
   * since exactly if the capture thread was not about to count a drop at step i.
   */
  lemma ClearedStatisticsRightExactlyWhen(n: nat, states: seq<Pipeline>, acts: seq<Action>, i: nat, j: nat)
    requires IsRun(n, states, acts) && i < j <= |acts|
    ensures var (cleared, now) := (states[i], states[j]);
            LastClearProcessed(acts, i, j) ==>
              (now.stats.packetsProcessed + Unreported(now.processors) == |now.processed| - |cleared.processed|
               <==> Unreported(cleared.processors) == 0)
    ensures var (cleared, now) := (states[i], states[j]);
            LastClearDropped(acts, i, j) ==>
              (now.stats.packetsDropped + Uncounted(now.capture) == |now.dropped| - |cleared.dropped|
               <==> !cleared.capture.Counting?)
  {
    PrefixRun(n, states, acts, j);
    StatisticsLaw(n, states[..j + 1], acts[..j]);
    PrefixRun(n, states, acts, i);
    EveryPacketAccounted(n, states[..i + 1], acts[..i], Length);
    MarksStay(n, states, acts, i, j);
  }

  // ---- Order ----

  /** Packets that may still reach the tracker, in the order they would with one processor. */
  function Line(s: Pipeline): seq<nat>
    requires |s.processors| == 1
  {
    s.processed + InHand(s.processors[0]) + Flat(s.queue) + s.batch
  }

  predicate Increasing(s: seq<nat>, bound: nat) {
    && (forall i, j :: 0 <= i < j < |s| ==> s[i] < s[j])
    && (forall i :: 0 <= i < |s| ==> s[i] < bound)
  }

  lemma LineGrows(s: Pipeline, act: Action, s': Pipeline)
    requires |s.processors| == 1 && Step(s, act, s') && OnCaptureSide(act)
    ensures |s'.processors| == 1
    ensures if act.Capture? then Line(s') == Line(s) + [s.captured] else Line(s') <= Line(s)
  {
    if act.Send? && s'.queue != s.queue {
      FlatBack(s.queue, s.batch);
    }
  }

  lemma LineStays(s: Pipeline, act: Action, s': Pipeline)
    requires |s.processors| == 1 && Step(s, act, s') && !OnCaptureSide(act)
    ensures |s'.processors| == 1 && Line(s') == Line(s)
  {
    var before, after := s.processors[0], s'.processors[0];
    if act.Receive? {
      assert InHand(after) == s.queue[0];
      Regroup(s.processed, s.queue[0], Flat(s.queue[1..]));
    } else if act.Process? {
      assert InHand(before) == [before.batch[before.done]] + InHand(after);
    }
  }

  lemma OrderStep(s: Pipeline, act: Action, s': Pipeline)
    requires |s.processors| == 1 && Increasing(Line(s), s.captured) && Step(s, act, s')
    ensures |s'.processors| == 1 && Increasing(Line(s'), s'.captured)
  {
    if OnCaptureSide(act) {
      LineGrows(s, act, s');
    } else {
      LineStays(s, act, s');
    }
  }

  /** With one processor, packets reach the tracker in the order they were captured. */
  lemma {:induction false} OneProcessorKeepsOrder(states: seq<Pipeline>, acts: seq<Action>)
    requires IsRun(1, states, acts)
    ensures var s := states[|acts|];
            |s.processors| == 1 && Increasing(Line(s), s.captured) && Increasing(s.processed, s.captured)
  {
    if acts != [] {
      var k := |acts| - 1;
      OneProcessorKeepsOrder(states[..k + 1], acts[..k]);
      OrderStep(states[k], acts[k], states[k + 1]);
    }
    var s := states[|acts|];
    assert s.processed == Line(s)[..|s.processed|];
  }

  // ---- What can be reached ----

  ghost predicate Reachable(n: nat, s: Pipeline) {
    exists states, acts :: IsRun(n, states, acts) && states[|acts|] == s
  }

  lemma ReachStep(n: nat, s: Pipeline, act: Action, s': Pipeline)
    requires Reachable(n, s) && Step(s, act, s')
    ensures Reachable(n, s')
  {
    var states, acts :| IsRun(n, states, acts) && states[|acts|] == s;
    assert IsRun(n, states + [s'], acts + [act]);
    assert (states + [s'])[|acts + [act]|] == s';
  }

  lemma ReachStart(n: nat)
    ensures Reachable(n, Start(n))
  {
    var acts: seq<Action> := [];
    assert IsRun(n, [Start(n)], acts) && [Start(n)][|acts|] == Start(n);
  }

  lemma TwoBatchesQueued(n: nat) returns (s: Pipeline)
    requires n > 0
    ensures Reachable(n, s) && s.queue == [[0], [1]] && s.processed == [] && s.processors == seq(n, _ => Waiting)
  {
    var s0 := Start(n);
    ReachStart(n);
    assert s0.processors[0].Waiting? && s0.processors[0] in s0.processors;
    var s1 := s0.(captured := 1, batch := [0], capture := Sending);
    ReachStep(n, s0, Capture(true), s1);
    var s2 := s1.(capture := Reading, batch := [], queue := [[0]]);
    ReachStep(n, s1, Send, s2);
    var s3 := s2.(captured := 2, batch := [1], capture := Sending);
    ReachStep(n, s2, Capture(true), s3);
    s := s3.(capture := Reading, batch := [], queue := [[0], [1]]);
    ReachStep(n, s3, Send, s);
  }

  /** Two processors, two packets: the second packet can overtake the first. */
  lemma TwoProcessorsReorder(n: nat)
    requires n >= 2
    ensures exists s :: Reachable(n, s) && s.processed == [1, 0]
  {
    var s0 := TwoBatchesQueued(n);
    var s1 := s0.(queue := [[1]], processors := s0.processors[0 := Busy([0], 0)]);
    ReachStep(n, s0, Receive(0), s1);
    var s2 := s1.(queue := [], processors := s1.processors[1 := Busy([1], 0)]);
    ReachStep(n, s1, Receive(1), s2);
    var s3 := s2.(processed := [1], processors := s2.processors[1 := Busy([1], 1)]);
    ReachStep(n, s2, Process(1), s3);
    var s4 := s3.(processed := [1, 0], processors := s3.processors[0 := Busy([0], 1)]);
    ReachStep(n, s3, Process(0), s4);
  }

  /** Nobody has taken anything off the channel yet. */
  ghost predicate Untouched(n: nat, s: Pipeline) {
    && Reachable(n, s) && s.processors == seq(n, _ => Waiting)
    && s.lost == []
  }

  /** The capture thread fills a batch up to `j` packets. */
  lemma {:induction false} FillBatch(n: nat, s: Pipeline, j: nat) returns (s': Pipeline)
    requires Untouched(n, s) && s.capture.Reading? && s.batch == [] && 0 < j <= BATCH_LIMIT
    ensures Untouched(n, s') && s'.queue == s.queue && s'.dropped == s.dropped && |s'.batch| == j
    ensures s'.capture == if j == BATCH_LIMIT then Sending else Reading
  {
    var before := s;
    if j > 1 {
      before := FillBatch(n, s, j - 1);
    }
    var batch := before.batch + [before.captured];
    s' := before.(captured := before.captured + 1, batch := batch,
                  capture := if |batch| >= BATCH_LIMIT then Sending else Reading);
    ReachStep(n, before, Capture(false), s');
  }

  lemma {:induction false} FillQueue(n: nat, m: nat) returns (s: Pipeline)
    requires n > 0 && m <= MAX_PACKET_QUEUE
    ensures Untouched(n, s) && s.capture.Reading? && s.batch == [] && s.dropped == []
    ensures |s.queue| == m && |Flat(s.queue)| == BATCH_LIMIT * m
  {
    if m == 0 {
      s := Start(n);
      ReachStart(n);
    } else {
      var before := FillQueue(n, m - 1);
      var full := FillBatch(n, before, BATCH_LIMIT);
      assert full.processors[0].Waiting? && full.processors[0] in full.processors;
      s := full.(capture := Reading, batch := [], queue := full.queue + [full.batch]);
      ReachStep(n, full, Send, s);
      FlatBack(full.queue, full.batch);
    }
  }

  /**
   * The capacity counts batches: a million packets can wait in the channel. And the drop
   * statistic can read zero after a whole batch was dropped, one overwrite later.
   */
  lemma CapacityIsAMillionPackets(n: nat)
    requires n > 0
    ensures exists s :: Reachable(n, s) && |Flat(s.queue)| == 1_000_000
    ensures exists s :: Reachable(n, s) && |s.dropped| == BATCH_LIMIT && s.stats.packetsDropped == 0
  {
    var s := FillQueue(n, MAX_PACKET_QUEUE);
    assert Reachable(n, s) && |Flat(s.queue)| == 1_000_000;
    var full := FillBatch(n, s, BATCH_LIMIT);
    assert full.processors[0].Waiting? && full.processors[0] in full.processors;
    var full' := full.(capture := Counting(|full.batch|), batch := [], dropped := full.dropped + full.batch);
    ReachStep(n, full, Send, full');
    var counted := full'.(capture := Reading,
                          stats := full'.stats.(packetsDropped := full'.stats.packetsDropped + BATCH_LIMIT));
    ReachStep(n, full', CountDrop, counted);
    var reset := counted.(
      stats := counted.stats.(packetsDropped := 0, baseline := 0, overwritten := |counted.dropped|));
    ReachStep(n, counted, StoreCaptureStats(0), reset);
    assert Reachable(n, reset) && |reset.dropped| == BATCH_LIMIT;
  }

  /** Cleared in the middle of a batch, the processed statistic counts a packet from before the clear. */
  lemma ClearedMidBatch(n: nat)
    requires n > 0
    ensures exists s ::
              Reachable(n, s) && s.stats.packetsProcessed == 1 && |s.processed| - s.stats.processedAtClear == 0
  {
    var s0 := TwoBatchesQueued(n);
    var s1 := s0.(queue := [[1]], processors := s0.processors[0 := Busy([0], 0)]);
    ReachStep(n, s0, Receive(0), s1);
    var s2 := s1.(processed := [0], processors := s1.processors[0 := Busy([0], 1)]);
    ReachStep(n, s1, Process(0), s2);
    var s3 := s2.(
      stats := s2.stats.(packetsProcessed := 0, processedAtClear := 1, carried := Unreported(s2.processors)));
    ReachStep(n, s2, ClearProcessed, s3);
    var s4 := s3.(stats := s3.stats.(packetsProcessed := 1), processors := s3.processors[0 := Waiting]);
    ReachStep(n, s3, FinishBatch(0), s4);
  }
}
