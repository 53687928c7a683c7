/** Per-connection TCP quality counters: the in-place update and exact laws for what it counts. */
module Analytics {
  const TWO_32: nat := 0x1_0000_0000

  type u32 = x: int | 0 <= x < 0x1_0000_0000
  type u16 = x: int | 0 <= x < 0x1_0000

  function WrappingAdd(a: u32, b: u32): u32 { (a + b) % TWO_32 }

  /** One analysed segment; `len` counts payload bytes plus one for each of SYN and FIN. */
  datatype Segment = Segment(
    seqNo: u32, ack: u32, window: u16, len: u32, isOutgoing: bool, hasAck: bool)

  datatype Deltas = Deltas(retransmits: nat, outOfOrder: nat, fastRetransmits: nat)

  /** The counters as a value; a sequence or ACK number of 0 means "none seen yet". */
  datatype Counters = Counters(
    lastSeqOutbound: u32, lastSeqInbound: u32, lastAckReceived: u32, duplicateAcks: u32,
    retransmits: nat, outOfOrder: nat, fastRetransmits: nat, lastWindow: u16)

  const ZERO := Counters(0, 0, 0, 0, 0, 0, 0, 0)

  // ---- One step, one concern at a time ----

  /** Next expected outbound sequence number, and 1 for a retransmission. */
  function OutStep(expected: u32, seqNo: u32, len: u32): (u32, nat) {
    if expected == 0 then (WrappingAdd(seqNo, len), 0)
    else if seqNo < expected then (expected, 1)
    else if seqNo > expected then (expected, 0)
    else (WrappingAdd(seqNo, len), 0)
  }

  /** Next expected inbound sequence number, and 1 for a late arrival. */
  function InStep(expected: u32, seqNo: u32, len: u32): (u32, nat) {
    if expected != 0 && seqNo < expected then (expected, 1)
    else (WrappingAdd(seqNo, len), 0)
  }

  /** Last ACK number, duplicate counter, and 1 when the third duplicate arrives. */
  function AckStep(last: u32, dups: u32, ack: u32): (u32, u32, nat) {
    if last == 0 then (ack, dups, 0)
    else if ack == last then
      var d := WrappingAdd(dups, 1);
      (last, d, if d == 3 then 1 else 0)
    else (ack, 0, 0)
  }

  function AnalyzeDeltas(a: Counters, s: Segment): Deltas {
    Deltas(
      if s.isOutgoing && s.len > 0 then OutStep(a.lastSeqOutbound, s.seqNo, s.len).1 else 0,
      if !s.isOutgoing && s.len > 0 then InStep(a.lastSeqInbound, s.seqNo, s.len).1 else 0,
      if !s.isOutgoing && s.hasAck then AckStep(a.lastAckReceived, a.duplicateAcks, s.ack).2 else 0)
  }

  function Analyze(a: Counters, s: Segment): Counters {
    var d := AnalyzeDeltas(a, s);
    var acked := if !s.isOutgoing && s.hasAck then AckStep(a.lastAckReceived, a.duplicateAcks, s.ack)
                 else (a.lastAckReceived, a.duplicateAcks, 0);
    Counters(
      if s.isOutgoing && s.len > 0 then OutStep(a.lastSeqOutbound, s.seqNo, s.len).0 else a.lastSeqOutbound,
      if !s.isOutgoing && s.len > 0 then InStep(a.lastSeqInbound, s.seqNo, s.len).0 else a.lastSeqInbound,
      acked.0, acked.1,
      a.retransmits + d.retransmits, a.outOfOrder + d.outOfOrder,
      a.fastRetransmits + d.fastRetransmits, s.window)
  }

  function Run(a: Counters, trace: seq<Segment>): Counters {
    if trace == [] then a else Analyze(Run(a, trace[..|trace| - 1]), trace[|trace| - 1])
  }

  // ---- The update in place ----

  class TcpAnalytics {
    var lastSeqOutbound: u32
    var lastSeqInbound: u32
    var lastAckReceived: u32
    var duplicateAckCount: u32
    var retransmitCount: nat
    var outOfOrderCount: nat
    var fastRetransmitCount: nat
    var lastWindowSize: u16

    function Value(): Counters
      reads this
    {
      Counters(lastSeqOutbound, lastSeqInbound, lastAckReceived, duplicateAckCount,
               retransmitCount, outOfOrderCount, fastRetransmitCount, lastWindowSize)
    }

    constructor ()
      ensures Value() == ZERO
    {
      lastSeqOutbound, lastSeqInbound, lastAckReceived, duplicateAckCount := 0, 0, 0, 0;
      retransmitCount, outOfOrderCount, fastRetransmitCount, lastWindowSize := 0, 0, 0, 0;
    }

    method AnalyzeSegment(s: Segment) returns (events: Deltas)
      modifies this
      ensures Value() == Analyze(old(Value()), s)
      ensures events == AnalyzeDeltas(old(Value()), s)
    {
      var newRetransmits, newOutOfOrder, newFastRetransmits := 0, 0, 0;
      lastWindowSize := s.window;
      if s.isOutgoing {
        if s.len > 0 {
          if lastSeqOutbound != 0 {
            if s.seqNo < lastSeqOutbound {
              retransmitCount := retransmitCount + 1;
              newRetransmits := newRetransmits + 1;
            } else if s.seqNo > lastSeqOutbound {
              // A gap: the expected number stays where it is.
            } else {
              lastSeqOutbound := WrappingAdd(s.seqNo, s.len);
            }
          } else {
            lastSeqOutbound := WrappingAdd(s.seqNo, s.len);
          }
        }
      } else {
        if s.len > 0 {
          if lastSeqInbound != 0 {
            if s.seqNo < lastSeqInbound {
              outOfOrderCount := outOfOrderCount + 1;
              newOutOfOrder := newOutOfOrder + 1;
            } else {
              lastSeqInbound := WrappingAdd(s.seqNo, s.len);
            }
          } else {
            lastSeqInbound := WrappingAdd(s.seqNo, s.len);
          }
        }
        if s.hasAck {
          if lastAckReceived != 0 {
            if s.ack == lastAckReceived {
              duplicateAckCount := WrappingAdd(duplicateAckCount, 1);
              if duplicateAckCount == 3 {
                fastRetransmitCount := fastRetransmitCount + 1;
                newFastRetransmits := newFastRetransmits + 1;
              }
            } else {
              lastAckReceived := s.ack;
              duplicateAckCount := 0;
            }
          } else {
            lastAckReceived := s.ack;
          }
        }
      }
      events := Deltas(newRetransmits, newOutOfOrder, newFastRetransmits);
    }
  }

  // ---- Duplicate ACKs: exact accounting by maximal runs ----

  /** A sequence of ACK numbers cut into runs, the latest run last. */
  datatype AckRuns = NoRuns | Then(earlier: AckRuns, value: u32, len: nat)

  /** The ACK numbers the peer sent, in order. */
  function InboundAcks(trace: seq<Segment>): seq<u32> {
    if trace == [] then []
    else
      var s := trace[|trace| - 1];
      InboundAcks(trace[..|trace| - 1]) + if !s.isOutgoing && s.hasAck then [s.ack] else []
  }

  /** Extends the last run, or opens a new one. */
  function AddAck(runs: AckRuns, ack: u32): AckRuns {
    if runs.Then? && runs.value == ack then runs.(len := runs.len + 1) else Then(runs, ack, 1)
  }

  /** Run-length encoding. */
  function Runs(acks: seq<u32>): AckRuns {
    if acks == [] then NoRuns else AddAck(Runs(acks[..|acks| - 1]), acks[|acks| - 1])
  }

  function Repeat(value: u32, n: nat): seq<u32> {
    if n == 0 then [] else Repeat(value, n - 1) + [value]
  }

  function Unroll(runs: AckRuns): seq<u32> {
    if runs.NoRuns? then [] else Unroll(runs.earlier) + Repeat(runs.value, runs.len)
  }

  /** Every run is non-empty and differs from the one before it: no run could be longer. */
  predicate Maximal(runs: AckRuns) {
    runs.Then? ==>
      && runs.len > 0
      && Maximal(runs.earlier)
      && (runs.earlier.Then? ==> runs.earlier.value != runs.value)
  }

  lemma AddAckExtends(runs: AckRuns, ack: u32)
    requires Maximal(runs)
    ensures Maximal(AddAck(runs, ack)) && Unroll(AddAck(runs, ack)) == Unroll(runs) + [ack]
  {
    assert Repeat(ack, 1) == [ack];
  }

  lemma {:induction false} RunsAreMaximal(acks: seq<u32>)
    ensures Maximal(Runs(acks)) && Unroll(Runs(acks)) == acks
  {
    if acks != [] {
      var init, ack := acks[..|acks| - 1], acks[|acks| - 1];
      RunsAreMaximal(init);
      AddAckExtends(Runs(init), ack);
      assert acks == init + [ack];
    }
  }

  /** How often a run of `len` equal ACKs makes the 32-bit duplicate counter pass 3. */
  function FastHits(value: u32, len: nat): nat {
    if value == 0 || len < 4 then 0 else (len - 4) / TWO_32 + 1
  }

  function TotalFastHits(runs: AckRuns): nat {
    if runs.NoRuns? then 0 else TotalFastHits(runs.earlier) + FastHits(runs.value, runs.len)
  }

  /** The number of runs of four or more equal ACKs. */
  function LongRuns(runs: AckRuns): nat {
    if runs.NoRuns? then 0
    else LongRuns(runs.earlier) + if runs.value != 0 && runs.len >= 4 then 1 else 0
  }

  /** What the counters hold when the ACKs so far form the given runs. */
  ghost predicate AckState(last: u32, dups: u32, runs: AckRuns) {
    if runs.NoRuns? then last == 0 && dups == 0
    else
      && runs.len > 0
      && last == runs.value
      && dups == if runs.value == 0 then 0 else (runs.len - 1) % TWO_32
  }

  lemma AckStepFollowsRuns(last: u32, dups: u32, runs: AckRuns, ack: u32)
    requires AckState(last, dups, runs)
    ensures var (last', dups', hit) := AckStep(last, dups, ack);
            && AckState(last', dups', AddAck(runs, ack))
            && TotalFastHits(AddAck(runs, ack)) == TotalFastHits(runs) + hit
  {
    if runs.Then? && runs.value == ack && ack != 0 {
      CounterComesRound(ack, runs.len - 1);
    }
  }

  lemma DivModStep(a: nat)
    ensures (a + 1) % TWO_32 == if a % TWO_32 == TWO_32 - 1 then 0 else a % TWO_32 + 1
    ensures (a + 1) / TWO_32 == a / TWO_32 + if (a + 1) % TWO_32 == 0 then 1 else 0
  {
  }

  lemma ShiftByThree(a: nat)
    ensures (a + 3) % TWO_32 == 3 <==> a % TWO_32 == 0
  {
    DivModStep(a);
    DivModStep(a + 1);
    DivModStep(a + 2);
  }

  lemma CounterComesRound(v: u32, n: nat)
    requires v != 0
    ensures WrappingAdd(n % TWO_32, 1) == (n + 1) % TWO_32
    ensures FastHits(v, n + 2) == FastHits(v, n + 1) + if (n + 1) % TWO_32 == 3 then 1 else 0
  {
    DivModStep(n);
    if n >= 2 {
      ShiftByThree(n - 2);
      if n >= 3 {
        DivModStep(n - 3);
      }
    }
  }

  /**
   * For every packet trace: the duplicate counter is the length of the trailing run of equal
   * ACKs less one (in 32-bit arithmetic), and the fast retransmits are the hits of all maximal
   * runs. Runs of the number 0 count for nothing, because 0 stands for "none seen".
   */
  lemma {:induction false} DuplicateAckLaw(trace: seq<Segment>)
    ensures var a, runs := Run(ZERO, trace), Runs(InboundAcks(trace));
            AckState(a.lastAckReceived, a.duplicateAcks, runs) && a.fastRetransmits == TotalFastHits(runs)
  {
    if trace != [] {
      var init, s := trace[..|trace| - 1], trace[|trace| - 1];
      DuplicateAckLaw(init);
      var a, acks := Run(ZERO, init), InboundAcks(init);
      if !s.isOutgoing && s.hasAck {
        assert (acks + [s.ack])[..|acks|] == acks;
        AckStepFollowsRuns(a.lastAckReceived, a.duplicateAcks, Runs(acks), s.ack);
      } else {
        assert acks + [] == acks;
      }
    }
  }

  lemma {:induction false} HitsAgainstLength(runs: AckRuns)
    ensures 4 * TotalFastHits(runs) <= |Unroll(runs)|
    ensures |Unroll(runs)| < TWO_32 + 4 ==> TotalFastHits(runs) == LongRuns(runs)
  {
    if runs.Then? {
      HitsAgainstLength(runs.earlier);
      RepeatLength(runs.value, runs.len);
    }
  }

  lemma {:induction false} RepeatLength(value: u32, n: nat)
    ensures |Repeat(value, n)| == n
  {
    if n > 0 {
      RepeatLength(value, n - 1);
    }
  }

  /**
   * Section 3.2 of RFC 2581 takes three duplicates as the sign of a loss. The counter reports
   * exactly one event for each maximal run of four or more equal ACKs (until the trace is long
   * enough for the 32-bit duplicate counter to come round), and never more than one for every
   * four ACKs seen.
   */
  lemma FastRetransmitLaw(trace: seq<Segment>)
    ensures 4 * Run(ZERO, trace).fastRetransmits <= |InboundAcks(trace)|
    ensures |InboundAcks(trace)| < TWO_32 + 4
            ==> Run(ZERO, trace).fastRetransmits == LongRuns(Runs(InboundAcks(trace)))
  {
    DuplicateAckLaw(trace);
    RunsAreMaximal(InboundAcks(trace));
    HitsAgainstLength(Runs(InboundAcks(trace)));
  }

  // ---- The same without the first ACK ----

  /** The runs without the very first ACK. */
  function DropFirst(runs: AckRuns): AckRuns {
    if runs.NoRuns? then NoRuns
    else if runs.earlier.Then? then runs.(earlier := DropFirst(runs.earlier))
    else if runs.len <= 1 then NoRuns
    else runs.(len := runs.len - 1)
  }

  function FirstRun(runs: AckRuns): (u32, nat) {
    if runs.NoRuns? then (0, 0)
    else if runs.earlier.Then? then FirstRun(runs.earlier)
    else (runs.value, runs.len)
  }

  lemma DropFirstCommutes(runs: AckRuns, ack: u32)
    requires Maximal(runs) && runs.Then?
    ensures DropFirst(AddAck(runs, ack)) == AddAck(DropFirst(runs), ack)
  {
  }

  lemma {:induction false} RunsWithoutFirst(acks: seq<u32>)
    requires acks != []
    ensures Runs(acks[1..]) == DropFirst(Runs(acks))
    ensures FirstRun(Runs(acks)).0 == acks[0]
  {
    var n := |acks| - 1;
    if n == 0 {
      assert Runs(acks[..0]) == NoRuns && acks[1..] == [];
    } else {
      RunsWithoutFirst(acks[..n]);
      RunsAreMaximal(acks[..n]);
      assert acks[1..][..n - 1] == acks[..n][1..];
      DropFirstCommutes(Runs(acks[..n]), acks[n]);
    }
  }

  /** Leaving out the first ACK ends one long run exactly if it opened a run of just four. */
  lemma {:induction false} LongRunsWithoutFirst(runs: AckRuns)
    ensures LongRuns(DropFirst(runs))
         == LongRuns(runs) - if FirstRun(runs).0 != 0 && FirstRun(runs).1 == 4 then 1 else 0
  {
    if runs.Then? && runs.earlier.Then? {
      LongRunsWithoutFirst(runs.earlier);
    }
  }

  lemma {:induction false} InboundAcksSplit(a: seq<Segment>, b: seq<Segment>)
    ensures InboundAcks(a + b) == InboundAcks(a) + InboundAcks(b)
  {
    if b == [] {
      assert a + b == a;
    } else {
      assert (a + b)[..|a + b| - 1] == a + b[..|b| - 1];
      InboundAcksSplit(a, b[..|b| - 1]);
    }
  }

  lemma {:induction false} InboundDataSplits(a: seq<Segment>, b: seq<Segment>)
    ensures InboundData(a + b) == InboundData(a) + InboundData(b)
  {
    if b == [] {
      assert a + b == a;
    } else {
      assert (a + b)[..|a + b| - 1] == a + b[..|b| - 1];
      InboundDataSplits(a, b[..|b| - 1]);
    }
  }

  // ---- Sequence numbers: what counts as a retransmission ----

  /** A segment that consumes sequence numbers. */
  datatype Data = Data(seqNo: u32, len: u32)

  function OutboundData(trace: seq<Segment>): seq<Data> {
    if trace == [] then []
    else
      var s := trace[|trace| - 1];
      OutboundData(trace[..|trace| - 1]) + if s.isOutgoing && s.len > 0 then [Data(s.seqNo, s.len)] else []
  }

  function InboundData(trace: seq<Segment>): seq<Data> {
    if trace == [] then []
    else
      var s := trace[|trace| - 1];
      InboundData(trace[..|trace| - 1]) + if !s.isOutgoing && s.len > 0 then [Data(s.seqNo, s.len)] else []
  }

  /** The outbound side alone: next expected number and retransmissions counted. */
  function FollowOut(expected: u32, data: seq<Data>): (u32, nat) {
    if data == [] then (expected, 0)
    else
      var (e, n) := FollowOut(expected, data[..|data| - 1]);
      var d := data[|data| - 1];
      var (e', hit) := OutStep(e, d.seqNo, d.len);
      (e', n + hit)
  }

  function FollowIn(expected: u32, data: seq<Data>): (u32, nat) {
    if data == [] then (expected, 0)
    else
      var (e, n) := FollowIn(expected, data[..|data| - 1]);
      var d := data[|data| - 1];
      var (e', hit) := InStep(e, d.seqNo, d.len);
      (e', n + hit)
  }

  /** Whatever else is interleaved, each direction is judged by its own data segments only. */
  lemma {:induction false} DirectionsAreIndependent(a: Counters, trace: seq<Segment>)
    ensures var r, o := Run(a, trace), FollowOut(a.lastSeqOutbound, OutboundData(trace));
            r.lastSeqOutbound == o.0 && r.retransmits == a.retransmits + o.1
    ensures var r, i := Run(a, trace), FollowIn(a.lastSeqInbound, InboundData(trace));
            r.lastSeqInbound == i.0 && r.outOfOrder == a.outOfOrder + i.1
  {
    if trace != [] {
      var init, s := trace[..|trace| - 1], trace[|trace| - 1];
      DirectionsAreIndependent(a, init);
      var o, i, d := OutboundData(init), InboundData(init), Data(s.seqNo, s.len);
      assert (o + [d])[..|o|] == o && (i + [d])[..|i|] == i;
      assert o + [] == o && i + [] == i;
    }
  }

  /** The end of the last new segment: where the next one has to start. */
  function Frontier(data: seq<Data>, isNew: seq<bool>): nat
    requires |data| == |isNew|
  {
    if data == [] then 0
    else if isNew[|data| - 1] then data[|data| - 1].seqNo + data[|data| - 1].len
    else Frontier(data[..|data| - 1], isNew[..|data| - 1])
  }

  /**
   * A stream in which every segment either continues exactly where the new ones so far end
   * (the first may start anywhere), or is a copy of an earlier new one; no number wraps.
   */
  predicate Stream(data: seq<Data>, isNew: seq<bool>)
    requires |data| == |isNew|
  {
    data != [] ==>
      var n := |data| - 1;
      var d := data[n];
      && Stream(data[..n], isNew[..n])
      && d.len > 0
      && d.seqNo + d.len < TWO_32
      && (if isNew[n] then n == 0 || d.seqNo == Frontier(data[..n], isNew[..n])
          else exists j :: 0 <= j < n && isNew[j] && data[j] == d)
  }

  function Resent(isNew: seq<bool>): nat {
    if isNew == [] then 0
    else Resent(isNew[..|isNew| - 1]) + if isNew[|isNew| - 1] then 0 else 1
  }

  lemma {:induction false} FrontierIsAhead(data: seq<Data>, isNew: seq<bool>)
    requires |data| == |isNew| && Stream(data, isNew)
    ensures data != [] ==> isNew[0] && data[0].seqNo < Frontier(data, isNew) < TWO_32
    ensures forall j :: 0 <= j < |data| ==> data[j].seqNo + data[j].len <= Frontier(data, isNew)
  {
    if data != [] {
      var n := |data| - 1;
      FrontierIsAhead(data[..n], isNew[..n]);
      if !isNew[n] {
        var j :| 0 <= j < n && isNew[j] && data[j] == data[n];
        assert data[..n][j] == data[j];
      }
    }
  }

  lemma {:induction false} StreamIsFollowed(data: seq<Data>, isNew: seq<bool>)
    requires |data| == |isNew| && Stream(data, isNew)
    ensures FollowOut(0, data) == (Frontier(data, isNew), Resent(isNew))
  {
    FrontierIsAhead(data, isNew);
    if data != [] {
      var n := |data| - 1;
      FrontierIsAhead(data[..n], isNew[..n]);
      StreamIsFollowed(data[..n], isNew[..n]);
      StreamStep(data, isNew);
    }
  }

  lemma StreamStep(data: seq<Data>, isNew: seq<bool>)
    requires |data| == |isNew| > 0 && Stream(data, isNew)
    ensures var (n, e) := (|data| - 1, Frontier(data[..|data| - 1], isNew[..|data| - 1]));
            e < TWO_32 && OutStep(e, data[n].seqNo, data[n].len)
                       == (Frontier(data, isNew), if isNew[n] then 0 else 1)
  {
    var n := |data| - 1;
    FrontierIsAhead(data[..n], isNew[..n]);
    if !isNew[n] {
      var j :| 0 <= j < n && isNew[j] && data[j] == data[n];
      assert data[..n][j] == data[j];
    }
  }

  /**
   * For every trace whose outbound data is such a stream, interleaved with any inbound traffic
   * and any empty segments: the retransmissions counted are exactly the copies.
   */
  lemma ExactRetransmitCount(trace: seq<Segment>, isNew: seq<bool>)
    requires |isNew| == |OutboundData(trace)| && Stream(OutboundData(trace), isNew)
    ensures Run(ZERO, trace).retransmits == Resent(isNew)
  {
    DirectionsAreIndependent(ZERO, trace);
    StreamIsFollowed(OutboundData(trace), isNew);
  }

  /**
   * When the first data segment of a stream is not analysed (the packet that creates a
   * connection never is), the count falls one short exactly if the second data segment is
   * already a copy of the first; otherwise it is still exact.
   */
  lemma {:induction false} FirstSegmentUnanalysed(data: seq<Data>, isNew: seq<bool>)
    requires |data| == |isNew| > 0 && Stream(data, isNew)
    ensures var missed := if |data| > 1 && !isNew[1] then 1 else 0;
            FollowOut(0, data[1..]).1 == Resent(isNew) - missed
    ensures |data| > 1 ==> FollowOut(0, data[1..]).0 == Frontier(data, isNew)
  {
    var n := |data| - 1;
    FrontierIsAhead(data, isNew);
    if n > 0 {
      FirstSegmentUnanalysed(data[..n], isNew[..n]);
      assert data[1..][..n - 1] == data[..n][1..];
      FrontierIsAhead(data[..n], isNew[..n]);
      if n == 1 {
        FirstOfStream(data[..1], isNew[..1]);
      }
    } else {
      FirstOfStream(data, isNew);
    }
  }

  lemma FirstOfStream(data: seq<Data>, isNew: seq<bool>)
    requires |data| == |isNew| == 1 && Stream(data, isNew)
    ensures isNew[0] && Resent(isNew) == 0
  {
  }

  // ---- Outbound streams with gaps ----

  /** No segment is empty and no number wraps. */
  ghost predicate NoWrap(data: seq<Data>) {
    forall d :: d in data ==> d.len > 0 && d.seqNo + d.len < TWO_32
  }

  lemma {:induction false} ExpectationGrows(expected: u32, data: seq<Data>)
    requires expected != 0 && NoWrap(data)
    ensures FollowOut(expected, data).0 >= expected
  {
    if data != [] {
      assert data[|data| - 1] in data;
      ExpectationGrows(expected, data[..|data| - 1]);
    }
  }

  /**
   * A gap freezes the expected number, and the count with it, exactly as long as everything that
   * is sent lies beyond it.
   */
  lemma {:induction false} GapFreezesExpectation(expected: u32, data: seq<Data>)
    requires expected != 0 && NoWrap(data)
    ensures FollowOut(expected, data) == (expected, 0) <==> forall d :: d in data ==> d.seqNo > expected
  {
    if data != [] {
      var init, last := data[..|data| - 1], data[|data| - 1];
      assert data == init + [last];
      assert last in data;
      GapFreezesExpectation(expected, init);
      ExpectationGrows(expected, init);
    }
  }

  /** Like `Stream`, but a new segment may start beyond the end of the new ones so far. */
  predicate GappyStream(data: seq<Data>, isNew: seq<bool>)
    requires |data| == |isNew|
  {
    data != [] ==>
      var n := |data| - 1;
      var d := data[n];
      && GappyStream(data[..n], isNew[..n])
      && d.len > 0
      && d.seqNo + d.len < TWO_32
      && (if isNew[n] then n == 0 || d.seqNo >= Frontier(data[..n], isNew[..n])
          else exists j :: 0 <= j < n && isNew[j] && data[j] == d)
  }

  /** The end of the last new segment before the first gap, or of all if there is none. */
  function Edge(data: seq<Data>, isNew: seq<bool>): nat
    requires |data| == |isNew|
  {
    if data == [] then 0
    else
      var n := |data| - 1;
      var e := Edge(data[..n], isNew[..n]);
      if isNew[n] && (n == 0 || data[n].seqNo == e) then data[n].seqNo + data[n].len else e
  }

  /** The copies that start before a position. */
  function CopiesBefore(data: seq<Data>, isNew: seq<bool>, position: nat): nat
    requires |data| == |isNew|
  {
    if data == [] then 0
    else
      var n := |data| - 1;
      CopiesBefore(data[..n], isNew[..n], position) + if !isNew[n] && data[n].seqNo < position then 1 else 0
  }

  /** Every new segment ends before the edge or starts beyond it, and all end before the frontier. */
  ghost predicate Divided(data: seq<Data>, isNew: seq<bool>)
    requires |data| == |isNew|
  {
    && Edge(data, isNew) <= Frontier(data, isNew) < TWO_32
    && forall j :: 0 <= j < |data| ==>
         && data[j].seqNo + data[j].len <= Frontier(data, isNew)
         && (data[j].seqNo < data[j].seqNo + data[j].len <= Edge(data, isNew)
             || (data[j].seqNo > Edge(data, isNew) && Edge(data, isNew) < Frontier(data, isNew)))
  }

  lemma {:induction false} EdgeDivides(data: seq<Data>, isNew: seq<bool>)
    requires |data| == |isNew| && GappyStream(data, isNew)
    ensures Divided(data, isNew)
    ensures data != [] ==> isNew[0] && 0 < Edge(data, isNew)
  {
    if data != [] {
      var n := |data| - 1;
      EdgeDivides(data[..n], isNew[..n]);
      EdgeStep(data, isNew);
    }
  }

  lemma EdgeStep(data: seq<Data>, isNew: seq<bool>)
    requires |data| == |isNew| > 0 && GappyStream(data, isNew)
    requires Divided(data[..|data| - 1], isNew[..|data| - 1])
    requires |data| > 1 ==> isNew[0] && 0 < Edge(data[..|data| - 1], isNew[..|data| - 1])
    ensures Divided(data, isNew)
    ensures isNew[0] && 0 < Edge(data, isNew)
  {
    var n := |data| - 1;
    var before := data[..n];
    assert forall j :: 0 <= j < n ==> data[j] == before[j];
    if !isNew[n] {
      var j :| 0 <= j < n && isNew[j] && data[j] == data[n];
      assert before[j] == data[n];
    }
  }

  /** Before the edge moves on, nothing had started between its old and its new place. */
  lemma {:induction false} CopiesBeforeEdge(data: seq<Data>, isNew: seq<bool>, low: nat, high: nat)
    requires |data| == |isNew| && low <= high
    requires forall j :: 0 <= j < |data| ==> data[j].seqNo < low || data[j].seqNo >= high
    ensures CopiesBefore(data, isNew, low) == CopiesBefore(data, isNew, high)
  {
    if data != [] {
      var n := |data| - 1;
      assert forall j :: 0 <= j < n ==> data[..n][j] == data[j];
      CopiesBeforeEdge(data[..n], isNew[..n], low, high);
    }
  }

  lemma {:induction false} GappyStreamIsFollowed(data: seq<Data>, isNew: seq<bool>)
    requires |data| == |isNew| && GappyStream(data, isNew)
    ensures FollowOut(0, data) == (Edge(data, isNew), CopiesBefore(data, isNew, Edge(data, isNew)))
  {
    if data != [] {
      var n := |data| - 1;
      GappyStreamIsFollowed(data[..n], isNew[..n]);
      EdgeDivides(data[..n], isNew[..n]);
      GappyStep(data, isNew);
    }
  }

  lemma GappyStep(data: seq<Data>, isNew: seq<bool>)
    requires |data| == |isNew| > 0 && GappyStream(data, isNew)
    requires Divided(data[..|data| - 1], isNew[..|data| - 1])
    requires |data| > 1 ==> 0 < Edge(data[..|data| - 1], isNew[..|data| - 1])
    ensures var (n, e, e') := (|data| - 1, Edge(data[..|data| - 1], isNew[..|data| - 1]), Edge(data, isNew));
            && OutStep(e, data[n].seqNo, data[n].len).0 == e'
            && CopiesBefore(data, isNew, e')
               == CopiesBefore(data[..n], isNew[..n], e) + OutStep(e, data[n].seqNo, data[n].len).1
  {
    var n := |data| - 1;
    var before, e := data[..n], Edge(data[..n], isNew[..n]);
    if isNew[n] {
      NewMovesEdge(before, isNew[..n], data[n]);
    } else {
      var j :| 0 <= j < n && isNew[j] && data[j] == data[n];
      assert before[j] == data[n];
    }
  }

  lemma NewMovesEdge(before: seq<Data>, isNew: seq<bool>, d: Data)
    requires |before| == |isNew| && Divided(before, isNew) && d.seqNo >= Frontier(before, isNew)
    requires before != [] ==> 0 < Edge(before, isNew)
    ensures before != [] && d.seqNo == Edge(before, isNew) ==>
              CopiesBefore(before, isNew, d.seqNo + d.len) == CopiesBefore(before, isNew, Edge(before, isNew))
  {
    if before != [] && d.seqNo == Edge(before, isNew) {
      CopiesBeforeEdge(before, isNew, d.seqNo, d.seqNo + d.len);
    }
  }

  lemma {:induction false} CopiesBeforeAll(data: seq<Data>, isNew: seq<bool>, position: nat)
    requires |data| == |isNew|
    ensures CopiesBefore(data, isNew, position) <= Resent(isNew)
    ensures CopiesBefore(data, isNew, position) == Resent(isNew)
       <==> forall j :: 0 <= j < |data| && !isNew[j] ==> data[j].seqNo < position
  {
    if data != [] {
      var n := |data| - 1;
      CopiesBeforeAll(data[..n], isNew[..n], position);
      assert forall j :: 0 <= j < n ==> data[..n][j] == data[j] && isNew[..n][j] == isNew[j];
    }
  }

  /**
   * For every trace whose outbound data is a stream with gaps that are never filled: counted are
   * exactly the copies of segments before the first gap. So the count is right exactly if no
   * segment beyond it is ever sent again.
   */
  lemma GappyRetransmitCount(trace: seq<Segment>, isNew: seq<bool>)
    requires |isNew| == |OutboundData(trace)| && GappyStream(OutboundData(trace), isNew)
    ensures var (data, counted) := (OutboundData(trace), Run(ZERO, trace).retransmits);
            && counted == CopiesBefore(data, isNew, Edge(data, isNew))
            && (counted == Resent(isNew)
                <==> forall j :: 0 <= j < |data| && !isNew[j] ==> data[j].seqNo < Edge(data, isNew))
  {
    DirectionsAreIndependent(ZERO, trace);
    GappyStreamIsFollowed(OutboundData(trace), isNew);
    CopiesBeforeAll(OutboundData(trace), isNew, Edge(OutboundData(trace), isNew));
  }

  // ---- Outbound streams whose gaps may be filled later ----

  predicate Disjoint(a: Data, b: Data) { a.seqNo + a.len <= b.seqNo || b.seqNo + b.len <= a.seqNo }

  /** New segments may come in any order after the first, as long as no two overlap. */
  predicate MixedStream(data: seq<Data>, isNew: seq<bool>)
    requires |data| == |isNew|
  {
    data != [] ==>
      var n := |data| - 1;
      var d := data[n];
      && MixedStream(data[..n], isNew[..n])
      && d.len > 0
      && d.seqNo + d.len < TWO_32
      && (if isNew[n] then
            n > 0 ==> d.seqNo >= data[0].seqNo && forall j :: 0 <= j < n && isNew[j] ==> Disjoint(data[j], d)
          else
            exists j :: 0 <= j < n && isNew[j] && data[j] == d)
  }

  predicate Covers(d: Data, position: nat) { d.seqNo <= position < d.seqNo + d.len }

  /** A new segment has carried this position. */
  ghost predicate Sent(data: seq<Data>, isNew: seq<bool>, position: nat)
    requires |data| == |isNew|
  {
    exists j :: 0 <= j < |data| && isNew[j] && Covers(data[j], position)
  }

  lemma SentGrows(data: seq<Data>, isNew: seq<bool>, position: nat)
    requires |data| == |isNew| > 0 && MixedStream(data, isNew)
    ensures Sent(data[..|data| - 1], isNew[..|data| - 1], position) ==> Sent(data, isNew, position)
    ensures Covers(data[|data| - 1], position) ==> Sent(data, isNew, position)
  {
    var n := |data| - 1;
    if j :| 0 <= j < n && isNew[..n][j] && Covers(data[..n][j], position) {
      assert isNew[j] && Covers(data[j], position);
    }
    if Covers(data[n], position) && !isNew[n] {
      var j :| 0 <= j < n && isNew[j] && data[j] == data[n];
      assert Covers(data[j], position);
    }
  }

  lemma {:induction false} ExpectationIsAhead(data: seq<Data>, isNew: seq<bool>)
    requires |data| == |isNew| > 0 && MixedStream(data, isNew)
    ensures data[0].seqNo < FollowOut(0, data).0
  {
    var n := |data| - 1;
    if n == 0 {
      assert FollowOut(0, data[..0]) == (0, 0);
    } else {
      ExpectationIsAhead(data[..n], isNew[..n]);
      assert data[..n][0] == data[0];
    }
  }

  /** From the first segment on, everything below the expected number has been sent. */
  lemma {:induction false} ExpectationIsCovered(data: seq<Data>, isNew: seq<bool>, position: nat)
    requires |data| == |isNew| > 0 && MixedStream(data, isNew)
    ensures data[0].seqNo <= position < FollowOut(0, data).0 ==> Sent(data, isNew, position)
  {
    var n := |data| - 1;
    SentGrows(data, isNew, position);
    if n == 0 {
      assert FollowOut(0, data[..0]) == (0, 0);
    } else {
      ExpectationIsAhead(data[..n], isNew[..n]);
      ExpectationIsCovered(data[..n], isNew[..n], position);
      assert data[..n][0] == data[0];
    }
  }

  /** How far the stream has been sent in order: each segment that starts there moves it on. */
  function InOrderEnd(data: seq<Data>): nat {
    if data == [] then 0
    else
      var n := |data| - 1;
      var reached := InOrderEnd(data[..n]);
      if n == 0 || data[n].seqNo == reached then data[n].seqNo + data[n].len else reached
  }

  lemma {:induction false} ExpectationIsInOrderEnd(data: seq<Data>, isNew: seq<bool>)
    requires |data| == |isNew| && MixedStream(data, isNew)
    ensures FollowOut(0, data).0 == InOrderEnd(data)
  {
    if data != [] {
      var n := |data| - 1;
      ExpectationIsInOrderEnd(data[..n], isNew[..n]);
      if n > 0 {
        ExpectationIsAhead(data[..n], isNew[..n]);
      }
    }
  }

  /** The copies sent while something before them was missing. */
  function Missed(data: seq<Data>, isNew: seq<bool>): nat
    requires |data| == |isNew|
  {
    if data == [] then 0
    else
      var n := |data| - 1;
      Missed(data[..n], isNew[..n]) + if !isNew[n] && data[n].seqNo >= InOrderEnd(data[..n]) then 1 else 0
  }

  lemma NewIsNeverCounted(data: seq<Data>, isNew: seq<bool>)
    requires |data| == |isNew| > 1 && MixedStream(data, isNew) && isNew[|data| - 1]
    ensures data[|data| - 1].seqNo >= FollowOut(0, data[..|data| - 1]).0
  {
    var n := |data| - 1;
    ExpectationIsCovered(data[..n], isNew[..n], data[n].seqNo);
    assert data[..n][0] == data[0];
    if j :| 0 <= j < n && isNew[..n][j] && Covers(data[..n][j], data[n].seqNo) {
      assert isNew[j] && Disjoint(data[j], data[n]);
    }
  }

  lemma {:induction false} MixedStreamIsFollowed(data: seq<Data>, isNew: seq<bool>)
    requires |data| == |isNew| && MixedStream(data, isNew)
    ensures FollowOut(0, data).1 + Missed(data, isNew) == Resent(isNew)
  {
    if data != [] {
      var n := |data| - 1;
      MixedStreamIsFollowed(data[..n], isNew[..n]);
      ExpectationIsInOrderEnd(data[..n], isNew[..n]);
      if n > 0 {
        ExpectationIsAhead(data[..n], isNew[..n]);
        if isNew[n] {
          NewIsNeverCounted(data, isNew);
        }
      }
    }
  }

  /**
   * With gaps that may be filled in any order later: no new segment is ever taken for a copy, and
   * the copies not counted are exactly those sent while something before them was missing.
   */
  lemma MixedRetransmitCount(trace: seq<Segment>, isNew: seq<bool>)
    requires |isNew| == |OutboundData(trace)| && MixedStream(OutboundData(trace), isNew)
    ensures Run(ZERO, trace).retransmits == Resent(isNew) - Missed(OutboundData(trace), isNew)
    ensures Run(ZERO, trace).lastSeqOutbound == InOrderEnd(OutboundData(trace))
  {
    DirectionsAreIndependent(ZERO, trace);
    MixedStreamIsFollowed(OutboundData(trace), isNew);
    ExpectationIsInOrderEnd(OutboundData(trace), isNew);
  }

  /** Each data segment starts at or after the end of the one before it; gaps are allowed. */
  predicate MovesForward(data: seq<Data>) {
    |data| > 1 ==>
      var n := |data| - 1;
      MovesForward(data[..n]) && data[n].seqNo >= data[n - 1].seqNo + data[n - 1].len
  }

  lemma {:induction false} FollowInLaw(data: seq<Data>)
    requires forall d :: d in data ==> d.len > 0 && d.seqNo + d.len < TWO_32
    ensures FollowIn(0, data).1 == 0 <==> MovesForward(data)
    ensures data != [] && MovesForward(data)
            ==> FollowIn(0, data).0 == data[|data| - 1].seqNo + data[|data| - 1].len
  {
    if data != [] {
      var n := |data| - 1;
      assert data[n] in data;
      FollowInLaw(data[..n]);
    }
  }

  /** A segment is late if it starts before the end of an earlier one that was itself in time. */
  ghost predicate IsLate(data: seq<Data>, n: nat)
    requires n < |data|
    decreases n
  {
    exists j :: 0 <= j < n && !IsLate(data, j) && data[n].seqNo < data[j].seqNo + data[j].len
  }

  ghost function LateOnes(data: seq<Data>, n: nat): nat
    requires n <= |data|
  {
    if n == 0 then 0 else LateOnes(data, n - 1) + if IsLate(data, n - 1) then 1 else 0
  }

  /** The end of the last segment in time, which is the furthest of them. */
  ghost predicate IsFront(data: seq<Data>, n: nat, front: nat)
    requires n <= |data|
  {
    && (forall j :: 0 <= j < n && !IsLate(data, j) ==> data[j].seqNo + data[j].len <= front)
    && (if n == 0 then front == 0
        else exists j :: 0 <= j < n && !IsLate(data, j) && data[j].seqNo + data[j].len == front)
  }

  lemma {:induction false} FrontStep(data: seq<Data>, n: nat, front: nat)
    requires n < |data| && IsFront(data, n, front) && data[n].len > 0
    ensures IsLate(data, n) <==> n > 0 && data[n].seqNo < front
    ensures IsFront(data, n + 1, if IsLate(data, n) then front else data[n].seqNo + data[n].len)
  {
    if n > 0 {
      var j :| 0 <= j < n && !IsLate(data, j) && data[j].seqNo + data[j].len == front;
      assert data[n].seqNo < front ==> IsLate(data, n);
    }
  }

  lemma FollowInStep(data: seq<Data>, n: nat)
    requires n < |data|
    ensures var (before, after) := (FollowIn(0, data[..n]), FollowIn(0, data[..n + 1]));
            var step := InStep(before.0, data[n].seqNo, data[n].len);
            after.0 == step.0 && after.1 == before.1 + step.1
  {
    assert data[..n + 1][..n] == data[..n];
  }

  /** The follower after `n` segments: its expected number is the front, its count the late ones. */
  ghost predicate FollowsIn(data: seq<Data>, n: nat, expected: nat, counted: nat)
    requires n <= |data|
  {
    IsFront(data, n, expected) && (n > 0 ==> expected > 0) && counted == LateOnes(data, n)
  }

  lemma FollowsInStep(data: seq<Data>, n: nat, expected: u32, counted: nat)
    requires n < |data| && FollowsIn(data, n, expected, counted)
    requires data[n].len > 0 && data[n].seqNo + data[n].len < TWO_32
    ensures var step := InStep(expected, data[n].seqNo, data[n].len);
            FollowsIn(data, n + 1, step.0, counted + step.1)
  {
    FrontStep(data, n, expected);
  }

  lemma {:induction false} FollowInCounts(data: seq<Data>, n: nat)
    requires n <= |data| && NoWrap(data)
    ensures FollowsIn(data, n, FollowIn(0, data[..n]).0, FollowIn(0, data[..n]).1)
  {
    if n > 0 {
      FollowInCounts(data, n - 1);
      assert data[n - 1] in data;
      FollowInStep(data, n - 1);
      FollowsInStep(data, n - 1, FollowIn(0, data[..n - 1]).0, FollowIn(0, data[..n - 1]).1);
    }
  }

  /** Counted as out of order are exactly the late segments. */
  lemma ExactOutOfOrderCount(trace: seq<Segment>)
    requires forall d :: d in InboundData(trace) ==> d.seqNo + d.len < TWO_32
    ensures Run(ZERO, trace).outOfOrder == LateOnes(InboundData(trace), |InboundData(trace)|)
  {
    var data := InboundData(trace);
    DirectionsAreIndependent(ZERO, trace);
    InboundDataIsNonEmpty(trace);
    FollowInCounts(data, |data|);
    assert data[..|data|] == data;
  }

  /** Moving forward throughout is moving forward after the first segment and past it. */
  lemma {:induction false} MovesForwardSplits(data: seq<Data>)
    requires data != []
    ensures MovesForward(data)
       <==> MovesForward(data[1..]) && (|data| > 1 ==> data[1].seqNo >= data[0].seqNo + data[0].len)
  {
    var n := |data| - 1;
    if n > 1 {
      MovesForwardSplits(data[..n]);
      assert data[1..][..n - 1] == data[..n][1..];
    }
  }

  /** Nothing inbound is called out of order exactly when the inbound data only moves forward. */
  lemma OutOfOrderLaw(trace: seq<Segment>)
    requires forall d :: d in InboundData(trace) ==> d.seqNo + d.len < TWO_32
    ensures Run(ZERO, trace).outOfOrder == 0 <==> MovesForward(InboundData(trace))
  {
    DirectionsAreIndependent(ZERO, trace);
    InboundDataIsNonEmpty(trace);
    FollowInLaw(InboundData(trace));
  }

  lemma {:induction false} InboundDataIsNonEmpty(trace: seq<Segment>)
    ensures forall d :: d in InboundData(trace) ==> d.len > 0
  {
    if trace != [] {
      InboundDataIsNonEmpty(trace[..|trace| - 1]);
    }
  }
}
