/** The per-packet TCP state machine, and what it guarantees over whole packet traces. */
module TcpStateMachine {

  datatype TcpState =
    | SynSent | SynReceived | Established | FinWait1 | FinWait2 | CloseWait
    | LastAck | TimeWait | Closing | Closed | Unknown

  datatype TcpFlags = TcpFlags(fin: bool, syn: bool, rst: bool, psh: bool, ack: bool, urg: bool)

  /** A packet as the state machine sees it. */
  datatype Segment = Segment(flags: TcpFlags, isOutgoing: bool)

  function UpdateTcpState(current: TcpState, flags: TcpFlags, isOutgoing: bool): TcpState {
    match (current, flags.syn, flags.ack, flags.fin, flags.rst)
    // Three-way handshake
    case (Unknown, true, false, false, false) => if isOutgoing then SynSent else SynReceived
    case (SynSent, true, true, false, false) => if isOutgoing then current else Established
    case (SynReceived, false, true, false, false) => if isOutgoing then Established else current
    // Joined after the handshake
    case (Unknown, false, true, _, false) => Established
    // Orderly close
    case (Established, false, _, true, false) => if isOutgoing then FinWait1 else CloseWait
    case (FinWait1, false, true, false, false) => if isOutgoing then current else FinWait2
    case (FinWait1, false, _, true, false) => if isOutgoing then current else Closing
    case (FinWait2, false, _, true, false) => if isOutgoing then current else TimeWait
    case (CloseWait, false, _, true, false) => if isOutgoing then LastAck else current
    case (LastAck, false, true, false, false) => if isOutgoing then current else Closed
    case (Closing, false, true, false, false) => if isOutgoing then current else TimeWait
    // Reset
    case (_, _, _, _, true) => Closed
    case _ => current
  }

  function Step(s: TcpState, seg: Segment): TcpState {
    UpdateTcpState(s, seg.flags, seg.isOutgoing)
  }

  /** The state after a whole trace. */
  function Run(s: TcpState, trace: seq<Segment>): TcpState {
    if trace == [] then s else Step(Run(s, trace[..|trace| - 1]), trace[|trace| - 1])
  }

  /** How many packets of the trace changed the state. */
  function StateChanges(s: TcpState, trace: seq<Segment>): nat {
    if trace == [] then 0
    else
      var before := Run(s, trace[..|trace| - 1]);
      StateChanges(s, trace[..|trace| - 1])
      + if Step(before, trace[|trace| - 1]) != before then 1 else 0
  }

  /** Progress through the life of a connection. */
  function Rank(s: TcpState): nat {
    match s
    case Unknown => 0
    case SynSent => 1
    case SynReceived => 1
    case Established => 2
    case FinWait1 => 3
    case CloseWait => 3
    case FinWait2 => 4
    case Closing => 4
    case LastAck => 4
    case TimeWait => 5
    case Closed => 6
  }

  lemma EveryChangeRaisesRank(s: TcpState, seg: Segment)
    ensures Step(s, seg) == s || Rank(Step(s, seg)) > Rank(s)
  {
  }

  lemma {:induction false} ChangesAreBounded(s: TcpState, trace: seq<Segment>)
    ensures Rank(s) + StateChanges(s, trace) <= Rank(Run(s, trace)) <= 6
  {
    if trace != [] {
      ChangesAreBounded(s, trace[..|trace| - 1]);
      EveryChangeRaisesRank(Run(s, trace[..|trace| - 1]), trace[|trace| - 1]);
    }
  }

  /** The bound is met: handshake, active close and a late reset change the state six times. */
  lemma SixChangesHappen()
    ensures exists trace :: StateChanges(Unknown, trace) == 6
  {
    var syn := TcpFlags(false, true, false, false, false, false);
    var synAck := TcpFlags(false, true, false, false, true, false);
    var fin := TcpFlags(true, false, false, false, true, false);
    var ack := TcpFlags(false, false, false, false, true, false);
    var rst := TcpFlags(false, false, true, false, false, false);
    var t1 := [Segment(syn, true)];
    var t2 := t1 + [Segment(synAck, false)];
    var t3 := t2 + [Segment(fin, true)];
    var t4 := t3 + [Segment(ack, false)];
    var t5 := t4 + [Segment(fin, false)];
    var t6 := t5 + [Segment(rst, false)];
    assert t1[..0] == [] && t2[..1] == t1 && t3[..2] == t2;
    assert t4[..3] == t3 && t5[..4] == t4 && t6[..5] == t5;
    assert Run(Unknown, t1) == SynSent && StateChanges(Unknown, t1) == 1;
    assert Run(Unknown, t2) == Established && StateChanges(Unknown, t2) == 2;
    assert Run(Unknown, t3) == FinWait1 && StateChanges(Unknown, t3) == 3;
    assert Run(Unknown, t4) == FinWait2 && StateChanges(Unknown, t4) == 4;
    assert Run(Unknown, t5) == TimeWait && StateChanges(Unknown, t5) == 5;
    assert StateChanges(Unknown, t6) == 6;
  }

  lemma {:induction false} RunSplits(s: TcpState, a: seq<Segment>, b: seq<Segment>)
    ensures Run(s, a + b) == Run(Run(s, a), b)
  {
    if b == [] {
      assert a + b == a;
    } else {
      assert (a + b)[..|a + b| - 1] == a + b[..|b| - 1];
      RunSplits(s, a, b[..|b| - 1]);
    }
  }

  ghost predicate IsReset(seg: Segment) { seg.flags.rst }
  ghost predicate OutFin(seg: Segment) { seg.isOutgoing && seg.flags.fin }
  ghost predicate InFin(seg: Segment) { !seg.isOutgoing && seg.flags.fin }

  ghost predicate Seen(trace: seq<Segment>, p: Segment -> bool) {
    exists i :: 0 <= i < |trace| && p(trace[i])
  }

  /** Some packet satisfying `p` precedes one satisfying `q`. */
  ghost predicate SeenInOrder(trace: seq<Segment>, p: Segment -> bool, q: Segment -> bool) {
    exists i, j :: 0 <= i < j < |trace| && p(trace[i]) && q(trace[j])
  }

  /** What a state reveals about the packets seen before it, when no reset was among them. */
  ghost predicate Explains(s: TcpState, trace: seq<Segment>) {
    match s
    case FinWait1 => Seen(trace, OutFin)
    case FinWait2 => Seen(trace, OutFin)
    case CloseWait => Seen(trace, InFin)
    case LastAck => SeenInOrder(trace, InFin, OutFin)
    case Closing => SeenInOrder(trace, OutFin, InFin)
    case TimeWait => SeenInOrder(trace, OutFin, InFin)
    case Closed => SeenInOrder(trace, InFin, OutFin)
    case _ => true
  }

  /**
   * For every trace from Unknown. A reset always ends in Closed. Without one, the final state
   * says which FINs passed and in which order: Closed is reached only when the peer closed
   * first, TimeWait only when we did.
   */
  lemma {:induction false} StateExplainsHistory(trace: seq<Segment>)
    ensures if Seen(trace, IsReset) then Run(Unknown, trace) == Closed
            else Explains(Run(Unknown, trace), trace)
  {
    if trace != [] {
      var init, last := trace[..|trace| - 1], trace[|trace| - 1];
      assert trace == init + [last];
      StateExplainsHistory(init);
      SeenGrows(init, last, IsReset, IsReset);
      if !Seen(trace, IsReset) {
        ExplainsStep(Run(Unknown, init), init, last);
      }
    }
  }

  lemma ExplainsStep(s: TcpState, init: seq<Segment>, last: Segment)
    requires Explains(s, init) && !IsReset(last)
    ensures Explains(Step(s, last), init + [last])
  {
    SeenGrows(init, last, OutFin, InFin);
    SeenGrows(init, last, InFin, OutFin);
    var s' := Step(s, last);
    if s' == s {
    } else if s == FinWait1 && s' == Closing {
      assert InFin(last);
    } else if s == FinWait2 {
      assert InFin(last);
    } else if s == CloseWait {
      assert OutFin(last);
    } else if s == Established {
      assert OutFin(last) || InFin(last);
    }
  }

  lemma SeenGrows(init: seq<Segment>, last: Segment, p: Segment -> bool, q: Segment -> bool)
    ensures Seen(init + [last], p) <==> Seen(init, p) || p(last)
    ensures SeenInOrder(init, p, q) ==> SeenInOrder(init + [last], p, q)
    ensures Seen(init, p) && q(last) ==> SeenInOrder(init + [last], p, q)
  {
    var t := init + [last];
    if p(last) {
      assert p(t[|init|]);
    }
    if Seen(init, p) {
      var i :| 0 <= i < |init| && p(init[i]);
      assert p(t[i]);
      if q(last) {
        assert q(t[|init|]);
      }
    }
    if SeenInOrder(init, p, q) {
      var i, j :| 0 <= i < j < |init| && p(init[i]) && q(init[j]);
      assert p(t[i]) && q(t[j]);
    }
  }

  // ---- When a state is left ----

  /** A state is kept over a whole trace exactly if every single packet keeps it. */
  lemma {:induction false} StaysExactlyWhen(s: TcpState, trace: seq<Segment>)
    ensures Run(s, trace) == s <==> forall seg :: seg in trace ==> Step(s, seg) == s
  {
    if trace != [] {
      var init, last := trace[..|trace| - 1], trace[|trace| - 1];
      assert trace == init + [last];
      StaysExactlyWhen(s, init);
      NeverBack(s, init);
      EveryChangeRaisesRank(Run(s, init), last);
    }
  }

  lemma {:induction false} NeverBack(s: TcpState, trace: seq<Segment>)
    ensures Run(s, trace) == s || Rank(Run(s, trace)) > Rank(s)
  {
    if trace != [] {
      NeverBack(s, trace[..|trace| - 1]);
      EveryChangeRaisesRank(Run(s, trace[..|trace| - 1]), trace[|trace| - 1]);
    }
  }

  predicate Plain(seg: Segment) { !seg.flags.syn && !seg.flags.fin && !seg.flags.rst }
  predicate Syn(seg: Segment) { seg.flags.syn && !seg.flags.fin && !seg.flags.rst }
  predicate Fin(seg: Segment) { seg.flags.fin && !seg.flags.syn && !seg.flags.rst }
  predicate Ack(seg: Segment) { Plain(seg) && seg.flags.ack }
  predicate PeerAck(seg: Segment) { Ack(seg) && !seg.isOutgoing }

  /**
   * What moves a connection out of a state. No acknowledgement number is looked at, and nothing
   * but a reset leaves TimeWait.
   */
  predicate Moves(s: TcpState, seg: Segment) {
    var f := seg.flags;
    if f.rst then s != Closed
    else
      match s
      case Unknown => (f.ack && !f.syn) || (f.syn && !f.ack && !f.fin)
      case SynSent => !seg.isOutgoing && f.syn && f.ack && !f.fin
      case SynReceived => seg.isOutgoing && Ack(seg)
      case Established => Fin(seg)
      case FinWait1 => !seg.isOutgoing && !f.syn && (f.ack || f.fin)
      case FinWait2 => !seg.isOutgoing && Fin(seg)
      case CloseWait => seg.isOutgoing && Fin(seg)
      case LastAck => PeerAck(seg)
      case Closing => PeerAck(seg)
      case TimeWait => false
      case Closed => false
  }

  /** Over any trace, each of the eleven states is kept exactly if no packet moves out of it. */
  lemma LeftExactlyWhen(s: TcpState, trace: seq<Segment>)
    ensures Run(s, trace) == s <==> forall seg :: seg in trace ==> !Moves(s, seg)
  {
    StaysExactlyWhen(s, trace);
    forall seg
      ensures Step(s, seg) == s <==> !Moves(s, seg)
    {
    }
  }

  // ---- Orderly lives, with any traffic in between ----

  ghost predicate Traffic(d: seq<Segment>) { forall seg :: seg in d ==> Plain(seg) }

  /** An ACK from the peer is among the traffic, whatever it acknowledges. */
  ghost predicate Acked(d: seq<Segment>) { exists seg :: seg in d && PeerAck(seg) }

  /** Data and plain ACKs never move a connection that is opening, open, half closed or finished. */
  lemma TrafficKeepsState(s: TcpState, d: seq<Segment>)
    requires Traffic(d)
    requires s.SynSent? || s.Established? || s.CloseWait? || s.FinWait2? || s.TimeWait? || s.Closed?
    ensures Run(s, d) == s
  {
    LeftExactlyWhen(s, d);
  }

  /** Where plain traffic leads while we wait for our FIN to be acknowledged. */
  function AfterAck(s: TcpState): TcpState
    requires s.FinWait1? || s.LastAck? || s.Closing?
  {
    match s
    case FinWait1 => FinWait2
    case LastAck => Closed
    case Closing => TimeWait
  }

  lemma {:induction false} TrafficWhileWaiting(s: TcpState, d: seq<Segment>)
    requires (s.FinWait1? || s.LastAck? || s.Closing?) && Traffic(d)
    ensures Run(s, d) == if Acked(d) then AfterAck(s) else s
  {
    if d != [] {
      var init, last := d[..|d| - 1], d[|d| - 1];
      assert d == init + [last];
      assert last in d;
      TrafficWhileWaiting(s, init);
      assert Acked(d) <==> Acked(init) || PeerAck(last);
    }
  }

  lemma Extend(s: TcpState, trace: seq<Segment>, seg: Segment)
    ensures Run(s, trace + [seg]) == Step(Run(s, trace), seg)
  {
    assert (trace + [seg])[..|trace|] == trace;
  }

  /** We connect: our SYN, the peer's SYN+ACK, and any traffic around it. */
  lemma ActiveOpen(syn: Segment, d1: seq<Segment>, synAck: Segment, d2: seq<Segment>)
    requires Syn(syn) && !syn.flags.ack && syn.isOutgoing && Traffic(d1)
    requires Syn(synAck) && synAck.flags.ack && !synAck.isOutgoing && Traffic(d2)
    ensures Run(Unknown, [syn] + d1) == SynSent
    ensures Run(Unknown, [syn] + d1 + [synAck] + d2) == Established
  {
    Extend(Unknown, [], syn);
    assert [] + [syn] == [syn];
    RunSplits(Unknown, [syn], d1);
    TrafficKeepsState(SynSent, d1);
    Extend(Unknown, [syn] + d1, synAck);
    RunSplits(Unknown, [syn] + d1 + [synAck], d2);
    TrafficKeepsState(Established, d2);
  }

  /**
   * The peer connects: its SYN, our SYN+ACK, any traffic of the peer's, and our first plain ACK.
   */
  lemma PassiveOpen(syn: Segment, synAck: Segment, d1: seq<Segment>, ack: Segment, d2: seq<Segment>)
    requires Syn(syn) && !syn.flags.ack && !syn.isOutgoing && Syn(synAck) && synAck.flags.ack && synAck.isOutgoing
    requires (forall seg :: seg in d1 ==> Plain(seg) && !seg.isOutgoing) && Ack(ack) && ack.isOutgoing && Traffic(d2)
    ensures Run(Unknown, [syn]) == SynReceived
    ensures Run(Unknown, [syn, synAck] + d1) == SynReceived
    ensures Run(Unknown, [syn, synAck] + d1 + [ack] + d2) == Established
  {
    Extend(Unknown, [], syn);
    assert [] + [syn] == [syn] && [syn] + [synAck] == [syn, synAck];
    Extend(Unknown, [syn], synAck);
    RunSplits(Unknown, [syn, synAck], d1);
    LeftExactlyWhen(SynReceived, d1);
    Extend(Unknown, [syn, synAck] + d1, ack);
    RunSplits(Unknown, [syn, synAck] + d1 + [ack], d2);
    TrafficKeepsState(Established, d2);
  }

  /** Joined after the handshake: a first packet that acknowledges, with a FIN or not, then any traffic. */
  lemma JoinedLate(first: Segment, d: seq<Segment>)
    requires first.flags.ack && !first.flags.syn && !first.flags.rst && Traffic(d)
    ensures Run(Unknown, [first] + d) == Established
  {
    Extend(Unknown, [], first);
    assert [] + [first] == [first];
    RunSplits(Unknown, [first], d);
    TrafficKeepsState(Established, d);
  }

  /** Over all traces: nothing is known exactly while no packet has shown a reset, an ACK or an opening SYN. */
  lemma UnknownExactlyWhen(trace: seq<Segment>)
    ensures Run(Unknown, trace) == Unknown
       <==> forall seg :: seg in trace ==>
              && !seg.flags.rst
              && !(seg.flags.ack && !seg.flags.syn)
              && !(seg.flags.syn && !seg.flags.ack && !seg.flags.fin)
  {
    LeftExactlyWhen(Unknown, trace);
  }

  /** Our FIN on an open connection, then any traffic: FinWait2 exactly if the peer sent an ACK. */
  lemma OurFin(open: seq<Segment>, fin: Segment, d: seq<Segment>)
    requires Run(Unknown, open) == Established && Fin(fin) && fin.isOutgoing && Traffic(d)
    ensures Run(Unknown, open + [fin] + d) == if Acked(d) then FinWait2 else FinWait1
  {
    Extend(Unknown, open, fin);
    RunSplits(Unknown, open + [fin], d);
    TrafficWhileWaiting(FinWait1, d);
  }

  /** We close first and the peer has sent an ACK before its own FIN, amid any traffic. */
  lemma ActiveClose(
    open: seq<Segment>, fin: Segment, d1: seq<Segment>, peerFin: Segment, d2: seq<Segment>)
    requires Run(Unknown, open) == Established && Fin(fin) && fin.isOutgoing && Traffic(d1) && Acked(d1)
    requires Fin(peerFin) && !peerFin.isOutgoing && Traffic(d2)
    ensures Run(Unknown, open + [fin] + d1) == FinWait2
    ensures Run(Unknown, open + [fin] + d1 + [peerFin] + d2) == TimeWait
  {
    OurFin(open, fin, d1);
    Extend(Unknown, open + [fin] + d1, peerFin);
    RunSplits(Unknown, open + [fin] + d1 + [peerFin], d2);
    TrafficKeepsState(TimeWait, d2);
  }

  /**
   * We close first and the peer's FIN comes before any other ACK of its. Then TimeWait takes one
   * more ACK from the peer, even if that FIN acknowledged ours, where section 3.9 of RFC 793
   * goes to TIME-WAIT at once.
   */
  lemma SimultaneousClose(
    open: seq<Segment>, fin: Segment, d1: seq<Segment>, peerFin: Segment, d2: seq<Segment>)
    requires Run(Unknown, open) == Established && Fin(fin) && fin.isOutgoing && Traffic(d1) && !Acked(d1)
    requires Fin(peerFin) && !peerFin.isOutgoing && Traffic(d2)
    ensures Run(Unknown, open + [fin] + d1) == FinWait1
    ensures Run(Unknown, open + [fin] + d1 + [peerFin] + d2) == if Acked(d2) then TimeWait else Closing
  {
    OurFin(open, fin, d1);
    Extend(Unknown, open + [fin] + d1, peerFin);
    RunSplits(Unknown, open + [fin] + d1 + [peerFin], d2);
    TrafficWhileWaiting(Closing, d2);
  }

  /** The peer closes first: its FIN, ours, and then Closed exactly if the peer sends an ACK. */
  lemma PassiveClose(
    open: seq<Segment>, peerFin: Segment, d1: seq<Segment>, fin: Segment, d2: seq<Segment>)
    requires Run(Unknown, open) == Established
    requires Fin(peerFin) && !peerFin.isOutgoing && Traffic(d1) && Fin(fin) && fin.isOutgoing && Traffic(d2)
    ensures Run(Unknown, open + [peerFin] + d1) == CloseWait
    ensures Run(Unknown, open + [peerFin] + d1 + [fin] + d2) == if Acked(d2) then Closed else LastAck
  {
    Extend(Unknown, open, peerFin);
    RunSplits(Unknown, open + [peerFin], d1);
    TrafficKeepsState(CloseWait, d1);
    Extend(Unknown, open + [peerFin] + d1, fin);
    RunSplits(Unknown, open + [peerFin] + d1 + [fin], d2);
    TrafficWhileWaiting(LastAck, d2);
  }

  /** Closed is absorbing: nothing that follows, a new SYN on a reused port included, leaves it. */
  lemma ClosedIsAbsorbing(before: seq<Segment>, after: seq<Segment>)
    requires Run(Unknown, before) == Closed
    ensures Run(Unknown, before + after) == Closed
  {
    RunSplits(Unknown, before, after);
    ChangesAreBounded(Closed, after);
  }

  /**
   * Where the code departs from the diagram in section 3.2 of RFC 793: a connection opened from
   * outside leaves SynReceived exactly when we send a plain ACK ourselves (or on a reset), never
   * on the peer's ACK that completes its handshake.
   */
  lemma PassiveOpenWaitsForOurAck(trace: seq<Segment>)
    requires forall seg :: seg in trace ==> !seg.flags.rst
    ensures Run(SynReceived, trace) == SynReceived <==> forall seg :: seg in trace ==> !(seg.isOutgoing && Ack(seg))
  {
    LeftExactlyWhen(SynReceived, trace);
  }
}
