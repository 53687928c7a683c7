/** One connection: how it is created from a packet and how later packets are merged into it. */
module Connections {
  import opened Wrappers
  import opened TcpStateMachine
  import opened Analytics
  import opened QuicMerge
  import opened DpiMerge

  datatype Protocol = TCP | UDP | ICMP | IGMP | ARP

  datatype ProtocolState =
    | TcpProtocol(tcp: TcpState) | UdpProtocol | IcmpProtocol(icmpType: nat, icmpId: Option<nat>)
    | IgmpProtocol(igmpType: nat, group: Option<nat>) | ArpProtocol(operation: string)

  /** Short enough that counting SYN and FIN does not overflow 32 bits, as any captured packet is. */
  type PayloadLen = x: int | 0 <= x < 0xFFFF_FFFE

  datatype TcpHeader = TcpHeader(seqNo: u32, ack: u32, window: u16, flags: TcpFlags, payloadLen: PayloadLen)

  datatype Packet = Packet(
    connectionKey: string, protocol: Protocol, localAddr: string, remoteAddr: string,
    tcpHeader: Option<TcpHeader>, protocolState: ProtocolState, isOutgoing: bool, packetLen: nat,
    dpi: Option<Application>, processName: Option<string>, processId: Option<nat>)

  /** A connection as a value; times are nanoseconds relative to the epoch. */
  datatype Conn = Conn(
    protocol: Protocol, localAddr: string, remoteAddr: string, protocolState: ProtocolState,
    pid: Option<nat>, processName: Option<string>, direction: Option<bool>,
    bytesSent: nat, bytesReceived: nat, packetsSent: nat, packetsReceived: nat,
    createdAt: int, lastActivity: int, dpi: Option<Application>, analytics: Option<Counters>,
    initialRtt: Option<nat>, isHistoric: bool, closedAt: Option<int>)

  // ---- Creation ----

  function SegmentOf(h: TcpHeader, isOutgoing: bool): Analytics.Segment {
    Analytics.Segment(
      h.seqNo, h.ack, h.window,
      h.payloadLen + (if h.flags.syn then 1 else 0) + (if h.flags.fin then 1 else 0),
      isOutgoing, h.flags.ack)
  }

  function FirstTcpState(p: Packet): TcpState
    requires p.tcpHeader.Some?
  {
    UpdateTcpState(TcpState.Unknown, p.tcpHeader.value.flags, p.isOutgoing)
  }

  /** Who opened the connection, if the handshake was seen: true is the local side. */
  function Direction(p: Packet): Option<bool> {
    if p.tcpHeader.None? then None
    else
      match FirstTcpState(p)
      case SynSent => Some(true)
      case SynReceived => Some(false)
      case _ =>
        var f := p.tcpHeader.value.flags;
        if f.syn && f.ack then Some(!p.isOutgoing) else None
  }

  function Create(p: Packet, now: int): Conn {
    var out := p.isOutgoing;
    Conn(
      p.protocol, p.localAddr, p.remoteAddr,
      if p.tcpHeader.Some? then TcpProtocol(FirstTcpState(p)) else p.protocolState,
      p.processId, p.processName, Direction(p),
      if out then p.packetLen else 0, if out then 0 else p.packetLen,
      if out then 1 else 0, if out then 0 else 1,
      now, now, p.dpi, if p.protocol.TCP? then Some(ZERO) else None, None, false, None)
  }

  // ---- Merging ----

  function MergeProtocolState(s: ProtocolState, p: Packet): ProtocolState {
    if p.tcpHeader.Some? then
      var current := if s.TcpProtocol? then s.tcp else TcpState.Unknown;
      TcpProtocol(UpdateTcpState(current, p.tcpHeader.value.flags, p.isOutgoing))
    else if s.TcpProtocol? then s
    else p.protocolState
  }

  function MergeAnalytics(a: Option<Counters>, p: Packet): Option<Counters> {
    if p.tcpHeader.Some? && a.Some?
    then Some(Analyze(a.value, SegmentOf(p.tcpHeader.value, p.isOutgoing))) else a
  }

  /** The anomalies this packet adds, as they are reported to the caller. */
  function EventDeltas(a: Option<Counters>, p: Packet): Deltas {
    if p.tcpHeader.Some? && a.Some?
    then AnalyzeDeltas(a.value, SegmentOf(p.tcpHeader.value, p.isOutgoing)) else Deltas(0, 0, 0)
  }

  function MergeDeltas(c: Conn, p: Packet): Deltas { EventDeltas(c.analytics, p) }

  ghost function MergeDpi(ext: Extractor, known: Option<Application>, found: Option<Application>): Option<Application> {
    if known.Some? && found.Some? then Some(MergeApplication(ext, known.value, found.value))
    else FirstOf(known, found)
  }

  /** Process information is immutable once set, whichever source comes first. */
  function Attribute(c: Conn, pid: Option<nat>, name: Option<string>): Conn {
    c.(pid := FirstOf(c.pid, pid), processName := FirstOf(c.processName, name))
  }

  /** Time and traffic: what every packet updates whatever it carries. */
  function Touch(c: Conn, p: Packet, now: int): Conn {
    var out := p.isOutgoing;
    c.(lastActivity := now,
       packetsSent := c.packetsSent + if out then 1 else 0,
       bytesSent := c.bytesSent + if out then p.packetLen else 0,
       packetsReceived := c.packetsReceived + if out then 0 else 1,
       bytesReceived := c.bytesReceived + if out then 0 else p.packetLen)
  }

  ghost function Merge(ext: Extractor, c: Conn, p: Packet, now: int): Conn {
    var touched := Touch(c, p, now);
    Attribute(touched.(protocolState := MergeProtocolState(c.protocolState, p),
                       analytics := MergeAnalytics(c.analytics, p),
                       dpi := MergeDpi(ext, c.dpi, p.dpi)),
              p.processId, p.processName)
  }

  // ---- Arrivals ----

  /** A packet as it reached the connection, with the round-trip sample taken from it, if any. */
  datatype Arrival = Arrival(packet: Packet, now: int, rtt: Option<nat>)

  function CreateWith(a: Arrival): Conn {
    Create(a.packet, a.now).(initialRtt := a.rtt)
  }

  ghost function MergeWith(ext: Extractor, c: Conn, a: Arrival): Conn {
    var m := Merge(ext, c, a.packet, a.now);
    m.(initialRtt := FirstOf(m.initialRtt, a.rtt))
  }

  // ---- The record in place ----

  class Connection {
    var protocol: Protocol
    var localAddr: string
    var remoteAddr: string
    var protocolState: ProtocolState
    var pid: Option<nat>
    var processName: Option<string>
    var direction: Option<bool>
    var bytesSent: nat
    var bytesReceived: nat
    var packetsSent: nat
    var packetsReceived: nat
    var createdAt: int
    var lastActivity: int
    var dpi: Option<Application>
    var analytics: TcpAnalytics?
    var initialRtt: Option<nat>
    var isHistoric: bool
    var closedAt: Option<int>

    /** The objects this record owns. */
    function Footprint(): set<object>
      reads this
    {
      if analytics == null then {this} else {this, analytics}
    }

    function Value(): Conn
      reads this, analytics
    {
      Conn(protocol, localAddr, remoteAddr, protocolState, pid, processName, direction,
           bytesSent, bytesReceived, packetsSent, packetsReceived, createdAt, lastActivity, dpi,
           AnalyticsValue(), initialRtt, isHistoric, closedAt)
    }

    constructor FromPacket(p: Packet, now: int)
      ensures Value() == Create(p, now)
      ensures fresh(Footprint())
    {
      protocol, localAddr, remoteAddr := p.protocol, p.localAddr, p.remoteAddr;
      if p.protocol.TCP? {
        analytics := new TcpAnalytics();
      } else {
        analytics := null;
      }
      if p.tcpHeader.Some? {
        var tcp := UpdateTcpState(TcpState.Unknown, p.tcpHeader.value.flags, p.isOutgoing);
        protocolState := TcpProtocol(tcp);
        match tcp {
          case SynSent => direction := Some(true);
          case SynReceived => direction := Some(false);
          case _ =>
            if p.tcpHeader.value.flags.syn && p.tcpHeader.value.flags.ack {
              direction := Some(!p.isOutgoing);
            } else {
              direction := None;
            }
        }
      } else {
        protocolState := p.protocolState;
        direction := None;
      }
      if p.isOutgoing {
        packetsSent, bytesSent, packetsReceived, bytesReceived := 1, p.packetLen, 0, 0;
      } else {
        packetsSent, bytesSent, packetsReceived, bytesReceived := 0, 0, 1, p.packetLen;
      }
      dpi, processName, pid := p.dpi, p.processName, p.processId;
      createdAt, lastActivity := now, now;
      initialRtt, isHistoric, closedAt := None, false, None;
    }

    function AnalyticsValue(): Option<Counters>
      reads this`analytics, analytics
    {
      if analytics == null then None else Some(analytics.Value())
    }

    method TouchPacket(p: Packet, now: int)
      modifies this
      ensures Value() == Touch(old(Value()), p, now)
      ensures analytics == old(analytics)
    {
      lastActivity := now;
      if p.isOutgoing {
        packetsSent := packetsSent + 1;
        bytesSent := bytesSent + p.packetLen;
      } else {
        packetsReceived := packetsReceived + 1;
        bytesReceived := bytesReceived + p.packetLen;
      }
    }

    method SetProcess(newPid: Option<nat>, newName: Option<string>)
      modifies this`pid, this`processName
      ensures Value() == Attribute(old(Value()), newPid, newName)
    {
      if newName.Some? && processName.None? {
        processName := newName;
      }
      if newPid.Some? && pid.None? {
        pid := newPid;
      }
    }

    method MergeTransport(p: Packet) returns (events: Deltas)
      modifies this`protocolState, analytics
      ensures protocolState == MergeProtocolState(old(protocolState), p)
      ensures AnalyticsValue() == MergeAnalytics(old(AnalyticsValue()), p)
      ensures events == EventDeltas(old(AnalyticsValue()), p)
    {
      events := Deltas(0, 0, 0);
      if p.tcpHeader.Some? {
        var h := p.tcpHeader.value;
        var current := if protocolState.TcpProtocol? then protocolState.tcp else TcpState.Unknown;
        protocolState := TcpProtocol(UpdateTcpState(current, h.flags, p.isOutgoing));
        if analytics != null {
          events := analytics.AnalyzeSegment(SegmentOf(h, p.isOutgoing));
        }
      } else if !protocolState.TcpProtocol? {
        protocolState := p.protocolState;
      }
    }

    method MergeDpiInfo(ext: Extractor, found: Option<Application>)
      modifies this`dpi
      ensures dpi == MergeDpi(ext, old(dpi), found)
    {
      if found.Some? {
        if dpi.None? {
          dpi := found;
        } else {
          var merged := MergeApplicationInto(ext, dpi.value, found.value);
          dpi := Some(merged);
        }
      }
    }

    /** Folds one packet into the record; the result is what it adds to the global statistics. */
    method MergePacket(ext: Extractor, p: Packet, now: int) returns (events: Deltas)
      modifies this, analytics
      ensures Value() == Merge(ext, old(Value()), p, now)
      ensures events == MergeDeltas(old(Value()), p)
      ensures analytics == old(analytics)
    {
      TouchPacket(p, now);
      events := MergeTransport(p);
      MergeDpiInfo(ext, p.dpi);
      SetProcess(p.processId, p.processName);
    }

    /** The first round-trip sample is kept. */
    method SampleRtt(rtt: Option<nat>)
      modifies this`initialRtt
      ensures Value() == old(Value()).(initialRtt := FirstOf(old(initialRtt), rtt))
    {
      if rtt.Some? && initialRtt.None? {
        initialRtt := rtt;
      }
    }

    method MergeArrival(ext: Extractor, a: Arrival) returns (events: Deltas)
      modifies this, analytics
      ensures Value() == MergeWith(ext, old(Value()), a)
      ensures events == MergeDeltas(old(Value()), a.packet)
      ensures analytics == old(analytics)
    {
      events := MergePacket(ext, a.packet, a.now);
      SampleRtt(a.rtt);
    }
  }

  // ---- The life of a connection ----

  /** Created from the first arrival, merged over the rest. */
  ghost function Life(ext: Extractor, arrivals: seq<Arrival>): Conn
    requires arrivals != []
  {
    var n := |arrivals| - 1;
    if n == 0 then CreateWith(arrivals[0]) else MergeWith(ext, Life(ext, arrivals[..n]), arrivals[n])
  }

  function PidOf(a: Arrival): Option<nat> { a.packet.processId }
  function NameOf(a: Arrival): Option<string> { a.packet.processName }
  function RttOf(a: Arrival): Option<nat> { a.rtt }

  /** Which application protocol was recognised. */
  datatype ProtocolKind =
    | HttpKind | HttpsKind | DnsKind | SshKind | QuicKind | BitTorrentKind | MqttKind | FtpKind
    | OtherKind(protocol: UnmergedProtocol)

  function Kind(app: Option<Application>): Option<ProtocolKind> {
    if app.None? then None
    else
      match app.value
      case Http(_) => Some(HttpKind)
      case Https(_) => Some(HttpsKind)
      case Dns(_) => Some(DnsKind)
      case Ssh(_) => Some(SshKind)
      case Quic(_) => Some(QuicKind)
      case BitTorrent(_) => Some(BitTorrentKind)
      case Mqtt(_) => Some(MqttKind)
      case Ftp(_) => Some(FtpKind)
      case Unmerged(p, _) => Some(OtherKind(p))
  }

  /** The record itself, where the first packet decides everything about it. */
  function Fixed(app: Option<Application>): Option<Application> {
    if app.Some? && app.value.Unmerged? then app else None
  }

  function KindOf(a: Arrival): Option<ProtocolKind> { Kind(a.packet.dpi) }

  /** Once a protocol that is never merged is recognised, its record never changes again. */
  lemma {:induction false} UnmergedRecordStays(ext: Extractor, arrivals: seq<Arrival>, k: nat)
    requires 0 < k <= |arrivals| && Fixed(Life(ext, arrivals[..k]).dpi).Some?
    ensures Life(ext, arrivals).dpi == Life(ext, arrivals[..k]).dpi
  {
    if k < |arrivals| {
      var init := arrivals[..|arrivals| - 1];
      assert init[..k] == arrivals[..k];
      UnmergedRecordStays(ext, init, k);
    } else {
      assert arrivals[..k] == arrivals;
    }
  }

  lemma KindIsKept(ext: Extractor, known: Option<Application>, found: Option<Application>)
    ensures Kind(MergeDpi(ext, known, found)) == FirstOf(Kind(known), Kind(found))
  {
  }

  /** A field that creation sets from the packet and merging only fills in holds the first value seen. */
  lemma {:induction false} FirstOfLife<T>(
    ext: Extractor, known: Conn -> Option<T>, found: Arrival -> Option<T>, arrivals: seq<Arrival>)
    requires arrivals != []
    requires forall a {:trigger CreateWith(a)} :: known(CreateWith(a)) == found(a)
    requires forall c, a {:trigger MergeWith(ext, c, a)} ::
               known(MergeWith(ext, c, a)) == FirstOf(known(c), found(a))
    ensures IsFirst(known(Life(ext, arrivals)), found, arrivals)
  {
    var n := |arrivals| - 1;
    var init, last := arrivals[..n], arrivals[n];
    if n > 0 {
      FirstOfLife(ext, known, found, init);
      FirstExtends(known(Life(ext, init)), found, init, last);
      assert arrivals == init + [last];
    }
  }

  function KnownPid(c: Conn): Option<nat> { c.pid }
  function KnownName(c: Conn): Option<string> { c.processName }
  function KnownRtt(c: Conn): Option<nat> { c.initialRtt }
  function KnownKind(c: Conn): Option<ProtocolKind> { Kind(c.dpi) }

  lemma MergeFillsIn(ext: Extractor, c: Conn, a: Arrival)
    ensures var d := MergeWith(ext, c, a);
            && d.pid == FirstOf(c.pid, PidOf(a)) && d.processName == FirstOf(c.processName, NameOf(a))
            && d.initialRtt == FirstOf(c.initialRtt, RttOf(a)) && Kind(d.dpi) == FirstOf(Kind(c.dpi), KindOf(a))
  {
    KindIsKept(ext, c.dpi, a.packet.dpi);
  }

  /** What was learnt first stays: process, round-trip time and application protocol. */
  lemma FirstKnowledgeStays(ext: Extractor, arrivals: seq<Arrival>)
    requires arrivals != []
    ensures var c := Life(ext, arrivals);
            && IsFirst(KnownPid(c), PidOf, arrivals) && IsFirst(KnownName(c), NameOf, arrivals)
            && IsFirst(KnownRtt(c), RttOf, arrivals) && IsFirst(KnownKind(c), KindOf, arrivals)
  {
    forall c, a {:trigger MergeWith(ext, c, a)}
      ensures var d := MergeWith(ext, c, a);
              && d.pid == FirstOf(c.pid, PidOf(a)) && d.processName == FirstOf(c.processName, NameOf(a))
              && d.initialRtt == FirstOf(c.initialRtt, RttOf(a)) && Kind(d.dpi) == FirstOf(Kind(c.dpi), KindOf(a))
    {
      MergeFillsIn(ext, c, a);
    }
    FirstOfLife(ext, KnownPid, PidOf, arrivals);
    FirstOfLife(ext, KnownName, NameOf, arrivals);
    FirstOfLife(ext, KnownRtt, RttOf, arrivals);
    FirstOfLife(ext, KnownKind, KindOf, arrivals);
  }

  /** The handshake shows who opened the connection, and the packet shows the handshake. */
  predicate OpensLocally(p: Packet) {
    && p.tcpHeader.Some?
    && var f := p.tcpHeader.value.flags;
       f.syn && if p.isOutgoing then !f.ack && !f.fin && !f.rst else f.ack
  }

  predicate OpensRemotely(p: Packet) {
    && p.tcpHeader.Some?
    && var f := p.tcpHeader.value.flags;
       f.syn && if p.isOutgoing then f.ack else !f.ack && !f.fin && !f.rst
  }

  /**
   * Identity, direction and birth are the first packet's, activity is the last one's. The
   * direction is decided once: by a SYN that starts the connection or the SYN+ACK answering it.
   */
  lemma {:induction false} FirstPacketDecides(ext: Extractor, arrivals: seq<Arrival>)
    requires arrivals != []
    ensures var (c, first, last) := (Life(ext, arrivals), arrivals[0], arrivals[|arrivals| - 1]);
            && c.protocol == first.packet.protocol && c.createdAt == first.now && c.lastActivity == last.now
            && c.localAddr == first.packet.localAddr && c.remoteAddr == first.packet.remoteAddr
            && (c.direction == Some(true) <==> OpensLocally(first.packet))
            && (c.direction == Some(false) <==> OpensRemotely(first.packet))
            && (c.analytics.Some? <==> first.packet.protocol.TCP?)
            && !c.isHistoric && c.closedAt.None?
  {
    if |arrivals| > 1 {
      FirstPacketDecides(ext, arrivals[..|arrivals| - 1]);
    }
  }

  // ---- Traffic ----

  /** Packets in one direction. */
  function PacketsOf(arrivals: seq<Arrival>, outgoing: bool): nat {
    if arrivals == [] then 0
    else
      var p := arrivals[|arrivals| - 1].packet;
      PacketsOf(arrivals[..|arrivals| - 1], outgoing) + if p.isOutgoing == outgoing then 1 else 0
  }

  function BytesOf(arrivals: seq<Arrival>, outgoing: bool): nat {
    if arrivals == [] then 0
    else
      var p := arrivals[|arrivals| - 1].packet;
      BytesOf(arrivals[..|arrivals| - 1], outgoing) + if p.isOutgoing == outgoing then p.packetLen else 0
  }

  /** The traffic counters are those of all packets, the first included, each in its direction. */
  lemma {:induction false} LifeTraffic(ext: Extractor, arrivals: seq<Arrival>)
    requires arrivals != []
    ensures var c := Life(ext, arrivals);
            && c.packetsSent == PacketsOf(arrivals, true) && c.packetsReceived == PacketsOf(arrivals, false)
            && c.bytesSent == BytesOf(arrivals, true) && c.bytesReceived == BytesOf(arrivals, false)
  {
    var n := |arrivals| - 1;
    if n > 0 {
      LifeTraffic(ext, arrivals[..n]);
    } else {
      assert PacketsOf(arrivals[..0], true) == PacketsOf(arrivals[..0], false) == 0;
      assert BytesOf(arrivals[..0], true) == BytesOf(arrivals[..0], false) == 0;
    }
  }

  // ---- TCP ----

  predicate IsTcp(a: Arrival) { a.packet.protocol.TCP? && a.packet.tcpHeader.Some? }

  function StateSegment(a: Arrival): TcpStateMachine.Segment
    requires a.packet.tcpHeader.Some?
  {
    TcpStateMachine.Segment(a.packet.tcpHeader.value.flags, a.packet.isOutgoing)
  }

  /** The packets with a TCP header, as the state machine sees them. */
  function TcpView(arrivals: seq<Arrival>): seq<TcpStateMachine.Segment> {
    if arrivals == [] then []
    else
      var a := arrivals[|arrivals| - 1];
      TcpView(arrivals[..|arrivals| - 1]) + if a.packet.tcpHeader.None? then [] else [StateSegment(a)]
  }

  function AnalyticsView(arrivals: seq<Arrival>): seq<Analytics.Segment> {
    if arrivals == [] then []
    else
      var p := arrivals[|arrivals| - 1].packet;
      AnalyticsView(arrivals[..|arrivals| - 1])
      + if p.tcpHeader.None? then [] else [SegmentOf(p.tcpHeader.value, p.isOutgoing)]
  }

  lemma ViewsGrow(arrivals: seq<Arrival>, a: Arrival)
    ensures TcpView(arrivals + [a])
         == TcpView(arrivals) + if a.packet.tcpHeader.None? then [] else [StateSegment(a)]
    ensures AnalyticsView(arrivals + [a])
         == AnalyticsView(arrivals)
            + if a.packet.tcpHeader.None? then [] else [SegmentOf(a.packet.tcpHeader.value, a.packet.isOutgoing)]
  {
    assert (arrivals + [a])[..|arrivals|] == arrivals;
  }

  /** The protocol state after a trace of headers, or what the last packet said of itself. */
  function StateAfter(trace: seq<TcpStateMachine.Segment>, said: ProtocolState): ProtocolState {
    if trace == [] then said else TcpProtocol(TcpStateMachine.Run(TcpState.Unknown, trace))
  }

  predicate SpeaksForItself(a: Arrival) { a.packet.tcpHeader.Some? || !a.packet.protocolState.TcpProtocol? }

  lemma StateStep(s: ProtocolState, trace: seq<TcpStateMachine.Segment>, said: ProtocolState, a: Arrival)
    requires s == StateAfter(trace, said) && !said.TcpProtocol? && SpeaksForItself(a)
    ensures MergeProtocolState(s, a.packet)
         == StateAfter(trace + if a.packet.tcpHeader.None? then [] else [StateSegment(a)],
                       if a.packet.tcpHeader.None? then a.packet.protocolState else said)
  {
    if a.packet.tcpHeader.Some? {
      TcpStateMachine.Extend(TcpState.Unknown, trace, StateSegment(a));
    } else {
      assert trace + [] == trace;
    }
  }

  /** What the last packet without a TCP header said. */
  function LastSaid(arrivals: seq<Arrival>): ProtocolState {
    if arrivals == [] then UdpProtocol
    else
      var p := arrivals[|arrivals| - 1].packet;
      if p.tcpHeader.None? then p.protocolState else LastSaid(arrivals[..|arrivals| - 1])
  }

  lemma {:induction false} LastSaidIsNotTcp(arrivals: seq<Arrival>)
    requires forall a :: a in arrivals ==> SpeaksForItself(a)
    ensures !LastSaid(arrivals).TcpProtocol?
  {
    if arrivals != [] {
      assert arrivals[|arrivals| - 1] in arrivals;
      LastSaidIsNotTcp(arrivals[..|arrivals| - 1]);
    }
  }

  /**
   * For any mixture of packets: from the first TCP header on a connection is in the state its
   * headers lead to, packets without one changing nothing; before, in the state its last packet
   * gave, so an echo reply replaces the echo request.
   */
  lemma {:induction false} ProtocolStateLaw(ext: Extractor, arrivals: seq<Arrival>)
    requires arrivals != [] && forall a :: a in arrivals ==> SpeaksForItself(a)
    ensures Life(ext, arrivals).protocolState == StateAfter(TcpView(arrivals), LastSaid(arrivals))
  {
    var n := |arrivals| - 1;
    var init, last := arrivals[..n], arrivals[n];
    assert arrivals == init + [last] && SpeaksForItself(last);
    ViewsGrow(init, last);
    if n == 0 {
      FirstState(last);
    } else {
      ProtocolStateLaw(ext, init);
      LastSaidIsNotTcp(init);
      StateStep(Life(ext, init).protocolState, TcpView(init), LastSaid(init), last);
      MergesState(ext, Life(ext, init), last);
    }
  }

  lemma FirstState(a: Arrival)
    requires SpeaksForItself(a)
    ensures CreateWith(a).protocolState
         == StateAfter(if a.packet.tcpHeader.None? then [] else [StateSegment(a)], a.packet.protocolState)
  {
    if a.packet.tcpHeader.Some? {
      TcpStateMachine.Extend(TcpState.Unknown, [], StateSegment(a));
      assert [] + [StateSegment(a)] == [StateSegment(a)];
    }
  }

  lemma MergesState(ext: Extractor, c: Conn, a: Arrival)
    ensures MergeWith(ext, c, a).protocolState == MergeProtocolState(c.protocolState, a.packet)
  {
  }

  lemma AnalyticsStep(ext: Extractor, c: Conn, a: Arrival, analysed: seq<Analytics.Segment>)
    requires c.analytics == Some(Analytics.Run(ZERO, analysed))
    ensures var more := if a.packet.tcpHeader.None? then []
                        else [SegmentOf(a.packet.tcpHeader.value, a.packet.isOutgoing)];
            MergeWith(ext, c, a).analytics == Some(Analytics.Run(ZERO, analysed + more))
  {
    if a.packet.tcpHeader.Some? {
      var s := SegmentOf(a.packet.tcpHeader.value, a.packet.isOutgoing);
      assert (analysed + [s])[..|analysed|] == analysed;
    } else {
      assert analysed + [] == analysed;
    }
  }

  /** The counters of a TCP connection cover the packets after the first only: creation never analyses. */
  lemma {:induction false} TcpCounters(ext: Extractor, arrivals: seq<Arrival>)
    requires arrivals != [] && arrivals[0].packet.protocol.TCP?
    ensures Life(ext, arrivals).analytics == Some(Analytics.Run(ZERO, AnalyticsView(arrivals[1..])))
  {
    var n := |arrivals| - 1;
    if n == 0 {
      assert arrivals[1..] == [];
    } else {
      TcpCounters(ext, arrivals[..n]);
      assert arrivals[1..] == arrivals[..n][1..] + [arrivals[n]];
      ViewsGrow(arrivals[..n][1..], arrivals[n]);
      AnalyticsStep(ext, Life(ext, arrivals[..n]), arrivals[n], AnalyticsView(arrivals[..n][1..]));
    }
  }

  /**
   * A TCP connection is in the state its whole packet trace leads to, but its counters cover
   * the packets after the first only.
   */
  lemma TcpLife(ext: Extractor, arrivals: seq<Arrival>)
    requires arrivals != [] && IsTcp(arrivals[0]) && forall a :: a in arrivals ==> SpeaksForItself(a)
    ensures var c := Life(ext, arrivals);
            && c.protocolState == TcpProtocol(TcpStateMachine.Run(TcpState.Unknown, TcpView(arrivals)))
            && c.analytics == Some(Analytics.Run(ZERO, AnalyticsView(arrivals[1..])))
  {
    ProtocolStateLaw(ext, arrivals);
    TcpCounters(ext, arrivals);
    ViewHasFirst(arrivals);
  }

  lemma {:induction false} ViewHasFirst(arrivals: seq<Arrival>)
    requires arrivals != [] && arrivals[0].packet.tcpHeader.Some?
    ensures TcpView(arrivals) != []
  {
    if |arrivals| > 1 {
      ViewHasFirst(arrivals[..|arrivals| - 1]);
    }
  }

  /**
   * No sequence or acknowledgement number takes part in the TCP state: two connections whose
   * packets agree in flags and direction are in the same state. So an old ACK, repeated after
   * our FIN, passes for the acknowledgement of that FIN.
   */
  lemma StateIgnoresNumbers(ext: Extractor, a: seq<Arrival>, b: seq<Arrival>)
    requires a != [] && b != [] && IsTcp(a[0]) && IsTcp(b[0])
    requires forall x :: x in a || x in b ==> SpeaksForItself(x)
    requires TcpView(a) == TcpView(b)
    ensures Life(ext, a).protocolState == Life(ext, b).protocolState
  {
    TcpLife(ext, a);
    TcpLife(ext, b);
  }

  // ---- The TCP counters, in terms of the packet headers ----

  /** Sequence numbers a header consumes: its payload, and one for each of SYN and FIN. */
  function Consumed(h: TcpHeader): u32 {
    h.payloadLen + (if h.flags.syn then 1 else 0) + (if h.flags.fin then 1 else 0)
  }

  /** The data a packet carries in the given direction. */
  function DataIn(p: Packet, outgoing: bool): seq<Data> {
    if p.isOutgoing == outgoing && p.tcpHeader.Some? && Consumed(p.tcpHeader.value) > 0
    then [Data(p.tcpHeader.value.seqNo, Consumed(p.tcpHeader.value))] else []
  }

  /** The acknowledgement a packet of the peer's carries. */
  function AckIn(p: Packet): seq<u32> {
    if !p.isOutgoing && p.tcpHeader.Some? && p.tcpHeader.value.flags.ack then [p.tcpHeader.value.ack] else []
  }

  function DataOf(arrivals: seq<Arrival>, outgoing: bool): seq<Data> {
    if arrivals == [] then []
    else DataOf(arrivals[..|arrivals| - 1], outgoing) + DataIn(arrivals[|arrivals| - 1].packet, outgoing)
  }

  function AcksOf(arrivals: seq<Arrival>): seq<u32> {
    if arrivals == [] then [] else AcksOf(arrivals[..|arrivals| - 1]) + AckIn(arrivals[|arrivals| - 1].packet)
  }

  lemma HeadersGrow(arrivals: seq<Arrival>, a: Arrival)
    ensures DataOf(arrivals + [a], true) == DataOf(arrivals, true) + DataIn(a.packet, true)
    ensures DataOf(arrivals + [a], false) == DataOf(arrivals, false) + DataIn(a.packet, false)
    ensures AcksOf(arrivals + [a]) == AcksOf(arrivals) + AckIn(a.packet)
  {
    assert (arrivals + [a])[..|arrivals|] == arrivals;
  }

  lemma SegmentAnalysed(view: seq<Analytics.Segment>, p: Packet)
    requires p.tcpHeader.Some?
    ensures var longer := view + [SegmentOf(p.tcpHeader.value, p.isOutgoing)];
            && OutboundData(longer) == OutboundData(view) + DataIn(p, true)
            && InboundData(longer) == InboundData(view) + DataIn(p, false)
            && InboundAcks(longer) == InboundAcks(view) + AckIn(p)
  {
    assert (view + [SegmentOf(p.tcpHeader.value, p.isOutgoing)])[..|view|] == view;
  }

  /** The analysed segments are those of these headers. */
  ghost predicate Analysed(view: seq<Analytics.Segment>, arrivals: seq<Arrival>) {
    && OutboundData(view) == DataOf(arrivals, true)
    && InboundData(view) == DataOf(arrivals, false)
    && InboundAcks(view) == AcksOf(arrivals)
  }

  lemma AnalysedGrows(view: seq<Analytics.Segment>, arrivals: seq<Arrival>, a: Arrival)
    requires Analysed(view, arrivals)
    ensures Analysed(
              view + if a.packet.tcpHeader.None? then []
                     else [SegmentOf(a.packet.tcpHeader.value, a.packet.isOutgoing)],
              arrivals + [a])
  {
    HeadersGrow(arrivals, a);
    if a.packet.tcpHeader.Some? {
      SegmentAnalysed(view, a.packet);
    } else {
      assert view + [] == view;
    }
  }

  /** What is analysed is what the headers say. */
  lemma {:induction false} HeadersAreAnalysed(arrivals: seq<Arrival>)
    ensures Analysed(AnalyticsView(arrivals), arrivals)
  {
    if arrivals != [] {
      var init, last := arrivals[..|arrivals| - 1], arrivals[|arrivals| - 1];
      HeadersAreAnalysed(init);
      assert arrivals == init + [last];
      ViewsGrow(init, last);
      AnalysedGrows(AnalyticsView(init), init, last);
    }
  }

  lemma Regroup<T>(a: seq<T>, b: seq<T>, c: seq<T>)
    ensures (a + b) + c == a + (b + c)
  {
  }

  /** The first packet's share of the data comes first. */
  lemma {:induction false} FirstData(arrivals: seq<Arrival>, outgoing: bool)
    requires arrivals != []
    ensures DataOf(arrivals, outgoing) == DataIn(arrivals[0].packet, outgoing) + DataOf(arrivals[1..], outgoing)
  {
    var init, last := arrivals[..|arrivals| - 1], arrivals[|arrivals| - 1];
    if init == [] {
      assert arrivals == [] + [last] && arrivals[1..] == [];
      HeadersGrow([], last);
    } else {
      FirstData(init, outgoing);
      assert arrivals == init + [last] && arrivals[1..] == init[1..] + [last];
      HeadersGrow(init, last);
      HeadersGrow(init[1..], last);
      Regroup(DataIn(init[0].packet, outgoing), DataOf(init[1..], outgoing), DataIn(last.packet, outgoing));
    }
  }

  lemma {:induction false} FirstAck(arrivals: seq<Arrival>)
    requires arrivals != []
    ensures AcksOf(arrivals) == AckIn(arrivals[0].packet) + AcksOf(arrivals[1..])
  {
    var init, last := arrivals[..|arrivals| - 1], arrivals[|arrivals| - 1];
    if init == [] {
      assert arrivals == [] + [last] && arrivals[1..] == [];
      HeadersGrow([], last);
    } else {
      FirstAck(init);
      assert arrivals == init + [last] && arrivals[1..] == init[1..] + [last];
      HeadersGrow(init, last);
      HeadersGrow(init[1..], last);
      Regroup(AckIn(init[0].packet), AcksOf(init[1..]), AckIn(last.packet));
    }
  }

  /** The counters of a whole connection, whatever packets without a TCP header are among it. */
  function CountersOf(c: Conn): Counters { if c.analytics.Some? then c.analytics.value else ZERO }

  /**
   * Retransmissions of a whole connection, first packet included. When the outbound data is a
   * contiguous stream mixed with copies, the connection reports every copy, unless its first
   * packet was itself outbound data and the very next data segment is already a copy of it:
   * then it reports one too few. A lost and repeated SYN is the common case.
   */
  lemma {:induction false} ConnectionRetransmitLaw(ext: Extractor, arrivals: seq<Arrival>, isNew: seq<bool>)
    requires arrivals != [] && arrivals[0].packet.protocol.TCP?
    requires |isNew| == |DataOf(arrivals, true)| && Stream(DataOf(arrivals, true), isNew)
    ensures var blind := DataIn(arrivals[0].packet, true) != [] && |isNew| > 1 && !isNew[1];
            && Life(ext, arrivals).analytics.Some?
            && CountersOf(Life(ext, arrivals)).retransmits == Resent(isNew) - if blind then 1 else 0
  {
    var data := DataOf(arrivals, true);
    TcpCounters(ext, arrivals);
    DirectionsAreIndependent(ZERO, AnalyticsView(arrivals[1..]));
    HeadersAreAnalysed(arrivals[1..]);
    FirstData(arrivals, true);
    if DataIn(arrivals[0].packet, true) == [] {
      assert data == DataOf(arrivals[1..], true);
      StreamIsFollowed(data, isNew);
    } else {
      assert data[1..] == DataOf(arrivals[1..], true);
      FirstSegmentUnanalysed(data, isNew);
    }
  }

  /**
   * Fast retransmits of a whole connection: every run of four or more equal ACKs is reported,
   * unless the first packet is itself the first ACK of a run of exactly four.
   */
  lemma {:induction false} ConnectionFastRetransmitLaw(ext: Extractor, arrivals: seq<Arrival>)
    requires arrivals != [] && arrivals[0].packet.protocol.TCP? && |AcksOf(arrivals)| < TWO_32 + 4
    ensures var (acks, first) := (AcksOf(arrivals), AckIn(arrivals[0].packet));
            var blind := first != [] && first[0] != 0 && FirstRun(Runs(acks)).1 == 4;
            && Life(ext, arrivals).analytics.Some?
            && CountersOf(Life(ext, arrivals)).fastRetransmits == LongRuns(Runs(acks)) - if blind then 1 else 0
  {
    var tail := AcksOf(arrivals[1..]);
    TcpCounters(ext, arrivals);
    HeadersAreAnalysed(arrivals[1..]);
    FirstAck(arrivals);
    FastRetransmitLaw(AnalyticsView(arrivals[1..]));
    LongRunsAfter(AckIn(arrivals[0].packet), tail);
  }

  /** The long runs after a first ACK, if there is one, against those of all ACKs. */
  lemma LongRunsAfter(first: seq<u32>, tail: seq<u32>)
    requires |first| <= 1
    ensures var acks := first + tail;
            var blind := first != [] && first[0] != 0 && FirstRun(Runs(acks)).1 == 4;
            LongRuns(Runs(tail)) == LongRuns(Runs(acks)) - if blind then 1 else 0
  {
    var acks := first + tail;
    if first == [] {
      assert acks == tail;
    } else {
      assert acks[1..] == tail;
      RunsWithoutFirst(acks);
      LongRunsWithoutFirst(Runs(acks));
    }
  }

  /**
   * Out-of-order arrivals of a whole connection: counted are exactly the segments that are late
   * among the inbound data after the first packet. So none is reported exactly if that data
   * only moves forward, and something late goes unnoticed exactly if the one step backward is
   * that from a first packet carrying data.
   */
  lemma {:induction false} ConnectionOutOfOrderLaw(ext: Extractor, arrivals: seq<Arrival>)
    requires arrivals != [] && arrivals[0].packet.protocol.TCP?
    requires forall d :: d in DataOf(arrivals, false) ==> d.seqNo + d.len < TWO_32
    ensures var (data, first) := (DataOf(arrivals, false), DataIn(arrivals[0].packet, false));
            var (counted, later) := (CountersOf(Life(ext, arrivals)).outOfOrder, DataOf(arrivals[1..], false));
            var unnoticed := first != [] && |data| > 1 && data[1].seqNo < data[0].seqNo + data[0].len
                             && MovesForward(data[1..]);
            && Life(ext, arrivals).analytics.Some?
            && counted == LateOnes(later, |later|)
            && (counted == 0 <==> MovesForward(data) || unnoticed)
  {
    var data, tail := DataOf(arrivals, false), DataOf(arrivals[1..], false);
    TcpCounters(ext, arrivals);
    HeadersAreAnalysed(arrivals[1..]);
    FirstData(arrivals, false);
    OutOfOrderLaw(AnalyticsView(arrivals[1..]));
    ExactOutOfOrderCount(AnalyticsView(arrivals[1..]));
    if DataIn(arrivals[0].packet, false) == [] {
      assert data == tail;
    } else {
      assert data[1..] == tail;
      MovesForwardSplits(data);
    }
  }

  /** The window shown is that of the last header after the first packet. */
  lemma {:induction false} ConnectionWindowLaw(ext: Extractor, arrivals: seq<Arrival>)
    requires |arrivals| > 1 && arrivals[0].packet.protocol.TCP?
    requires arrivals[|arrivals| - 1].packet.tcpHeader.Some?
    ensures CountersOf(Life(ext, arrivals)).lastWindow == arrivals[|arrivals| - 1].packet.tcpHeader.value.window
  {
    TcpCounters(ext, arrivals);
    assert arrivals[1..][|arrivals| - 2] == arrivals[|arrivals| - 1];
  }

  // ---- Application records over a whole connection ----

  /** What the first packet recognised as anything shows. */
  function FirstRecord(arrivals: seq<Arrival>): Option<Application> {
    if arrivals == [] then None
    else FirstOf(FirstRecord(arrivals[..|arrivals| - 1]), arrivals[|arrivals| - 1].packet.dpi)
  }

  /** The records of one protocol, in order of arrival. */
  function Records<R>(arrivals: seq<Arrival>, pick: Application -> Option<R>): seq<R> {
    if arrivals == [] then []
    else
      var dpi := arrivals[|arrivals| - 1].packet.dpi;
      Records(arrivals[..|arrivals| - 1], pick)
      + if dpi.Some? && pick(dpi.value).Some? then [pick(dpi.value).value] else []
  }

  lemma MergesDpi(ext: Extractor, c: Conn, a: Arrival)
    ensures MergeWith(ext, c, a).dpi
         == if c.dpi.Some? && a.packet.dpi.Some? then Some(MergeApplication(ext, c.dpi.value, a.packet.dpi.value))
            else FirstOf(c.dpi, a.packet.dpi)
  {
  }

  lemma {:induction false} NothingRecognised<R>(ext: Extractor, arrivals: seq<Arrival>, pick: Application -> Option<R>)
    requires arrivals != [] && FirstRecord(arrivals).None?
    ensures Life(ext, arrivals).dpi.None? && Records(arrivals, pick) == []
  {
    var n := |arrivals| - 1;
    if n > 0 {
      NothingRecognised(ext, arrivals[..n], pick);
      MergesDpi(ext, Life(ext, arrivals[..n]), arrivals[n]);
    } else {
      assert Records(arrivals[..0], pick) == [];
    }
  }

  /** How a protocol's records are merged: with each other by `merge`, with others not at all. */
  ghost predicate MergesBy<R(!new)>(ext: Extractor, pick: Application -> Option<R>, merge: (R, R) -> R) {
    forall a, b {:trigger MergeApplication(ext, a, b)} :: pick(a).Some? ==>
      pick(MergeApplication(ext, a, b)) == if pick(b).Some? then Some(merge(pick(a).value, pick(b).value)) else pick(a)
  }

  /** A connection first recognised as one protocol holds the merge of all its records of that protocol. */
  lemma {:induction false} RecordLife<R(!new)>(
    ext: Extractor, arrivals: seq<Arrival>, pick: Application -> Option<R>, merge: (R, R) -> R)
    requires arrivals != [] && MergesBy(ext, pick, merge)
    requires FirstRecord(arrivals).Some? && pick(FirstRecord(arrivals).value).Some?
    ensures var all := Records(arrivals, pick);
            && all != [] && Life(ext, arrivals).dpi.Some?
            && pick(Life(ext, arrivals).dpi.value) == Some(Fold(merge, all[0], all[1..]))
  {
    var n := |arrivals| - 1;
    var init, last := arrivals[..n], arrivals[n];
    if n == 0 {
      assert FirstRecord(init) == None && Records(init, pick) == [];
    } else {
      MergesDpi(ext, Life(ext, init), last);
      if FirstRecord(init).None? {
        NothingRecognised(ext, init, pick);
      } else {
        RecordLife(ext, init, pick, merge);
        RecordStep(Records(init, pick), last, pick, merge);
      }
    }
  }

  lemma RecordStep<R>(before: seq<R>, a: Arrival, pick: Application -> Option<R>, merge: (R, R) -> R)
    requires before != []
    ensures var dpi := a.packet.dpi;
            var all := before + if dpi.Some? && pick(dpi.value).Some? then [pick(dpi.value).value] else [];
            Fold(merge, all[0], all[1..])
            == if dpi.Some? && pick(dpi.value).Some?
               then merge(Fold(merge, before[0], before[1..]), pick(dpi.value).value)
               else Fold(merge, before[0], before[1..])
  {
    var dpi := a.packet.dpi;
    if dpi.Some? && pick(dpi.value).Some? {
      var x := pick(dpi.value).value;
      assert (before + [x])[1..] == before[1..] + [x];
      assert (before[1..] + [x])[..|before| - 1] == before[1..];
    } else {
      assert before + [] == before;
    }
  }

  function PickHttp(a: Application): Option<HttpInfo> { if a.Http? then Some(a.http) else None }
  function PickHttps(a: Application): Option<HttpsInfo> { if a.Https? then Some(a.https) else None }
  function PickDns(a: Application): Option<DnsInfo> { if a.Dns? then Some(a.dns) else None }
  function PickSsh(a: Application): Option<SshInfo> { if a.Ssh? then Some(a.ssh) else None }
  function PickQuic(a: Application): Option<QuicInfo> { if a.Quic? then Some(a.quic) else None }
  function PickTorrent(a: Application): Option<BitTorrentInfo> { if a.BitTorrent? then Some(a.torrent) else None }
  function PickMqtt(a: Application): Option<MqttInfo> { if a.Mqtt? then Some(a.mqtt) else None }
  function PickFtp(a: Application): Option<FtpInfo> { if a.Ftp? then Some(a.ftp) else None }

  lemma HeadAndTail<R>(all: seq<R>)
    requires all != []
    ensures [all[0]] + all[1..] == all
  {
  }

  lemma HttpLife(ext: Extractor, arrivals: seq<Arrival>)
    requires arrivals != [] && FirstRecord(arrivals).Some? && FirstRecord(arrivals).value.Http?
    ensures var (dpi, all) := (Life(ext, arrivals).dpi, Records(arrivals, PickHttp));
            && all != [] && dpi.Some? && dpi.value.Http?
            && var r := dpi.value.http;
               && IsFirst(r.method_, HttpMethod, all) && IsFirst(r.host, HttpHost, all)
               && IsFirst(r.path, HttpPath, all) && IsFirst(r.statusCode, HttpStatus, all)
               && IsFirst(r.userAgent, HttpAgent, all) && r.httpVersion == all[0].httpVersion
  {
    RecordLife(ext, arrivals, PickHttp, MergeHttp);
    var all := Records(arrivals, PickHttp);
    HttpFieldLaw(all[0], all[1..]);
    HeadAndTail(all);
  }

  lemma HttpsLife(ext: Extractor, arrivals: seq<Arrival>)
    requires arrivals != [] && FirstRecord(arrivals).Some? && FirstRecord(arrivals).value.Https?
    ensures var (dpi, all) := (Life(ext, arrivals).dpi, Records(arrivals, PickHttps));
            && all != [] && dpi.Some? && dpi.value.Https?
            && var r := dpi.value.https;
               && IsFirst(HttpsSni(r), HttpsSni, all) && IsFirst(HttpsVersion(r), HttpsVersion, all)
               && IsFirst(HttpsSuite(r), HttpsSuite, all) && IsFirst(HttpsAlpn(r), HttpsAlpn, all)
  {
    RecordLife(ext, arrivals, PickHttps, MergeHttps);
    var all := Records(arrivals, PickHttps);
    HttpsFieldLaw(all[0], all[1..]);
    HeadAndTail(all);
  }

  lemma DnsLife(ext: Extractor, arrivals: seq<Arrival>)
    requires arrivals != [] && FirstRecord(arrivals).Some? && FirstRecord(arrivals).value.Dns?
    ensures var (dpi, all) := (Life(ext, arrivals).dpi, Records(arrivals, PickDns));
            && all != [] && dpi.Some? && dpi.value.Dns?
            && var r := dpi.value.dns;
               && IsFirst(r.queryName, DnsName, all) && IsFirst(r.queryType, DnsType, all)
               && (r.isResponse <==> exists d :: d in all && d.isResponse)
               && (Distinct(all[0].responseIps) && |all[0].responseIps| <= MAX_MERGED_RESPONSE_IPS ==>
                     r.responseIps == Capped(Dedup(all[0].responseIps + AllIps(all[1..]))))
  {
    RecordLife(ext, arrivals, PickDns, MergeDns);
    var all := Records(arrivals, PickDns);
    DnsFieldLaw(all[0], all[1..]);
    ResponseIpsLaw(all[0], all[1..]);
    HeadAndTail(all);
  }

  lemma SshLife(ext: Extractor, arrivals: seq<Arrival>)
    requires arrivals != [] && FirstRecord(arrivals).Some? && FirstRecord(arrivals).value.Ssh?
    ensures var (dpi, all) := (Life(ext, arrivals).dpi, Records(arrivals, PickSsh));
            && all != [] && dpi.Some? && dpi.value.Ssh?
            && var r := dpi.value.ssh;
               && IsFirst(r.version, SshVersion, all) && IsFirst(r.clientSoftware, SshClient, all)
               && IsFirst(r.serverSoftware, SshServer, all) && IsFirst(r.authMethod, SshAuth, all)
               && (forall p :: p in all ==> SshRank(p.state) <= SshRank(r.state))
               && (exists p :: p in all && p.state == r.state)
  {
    RecordLife(ext, arrivals, PickSsh, MergeSsh);
    var all := Records(arrivals, PickSsh);
    SshFieldLaw(all[0], all[1..]);
    SshEndsFurthest(all[0], all[1..]);
    HeadAndTail(all);
  }

  lemma QuicLife(ext: Extractor, arrivals: seq<Arrival>)
    requires arrivals != [] && FirstRecord(arrivals).Some? && FirstRecord(arrivals).value.Quic?
    ensures var (dpi, all) := (Life(ext, arrivals).dpi, Records(arrivals, PickQuic));
            && all != [] && dpi.Some? && dpi.value.Quic?
            && dpi.value.quic == QuicMerge.Run(ext, all[0], all[1..])
            && var r := dpi.value.quic;
               && IsFirst(r.versionString, QuicVersion, all) && IsFirst(QuicId(r), QuicId, all)
               && IsLatest(r.close, QuicClose, all) && IsLatest(r.idleTimeout, QuicIdle, all)
  {
    ghost var merge := (a, b) => MergeQuic(ext, a, b);
    RecordLife(ext, arrivals, PickQuic, merge);
    var all := Records(arrivals, PickQuic);
    RunIsFold(ext, merge, all[0], all[1..]);
    QuicFieldLaw(ext, all[0], all[1..]);
    HeadAndTail(all);
  }

  lemma BitTorrentLife(ext: Extractor, arrivals: seq<Arrival>)
    requires arrivals != [] && FirstRecord(arrivals).Some? && FirstRecord(arrivals).value.BitTorrent?
    ensures var (dpi, all) := (Life(ext, arrivals).dpi, Records(arrivals, PickTorrent));
            && all != [] && dpi.Some? && dpi.value.BitTorrent?
            && var r := dpi.value.torrent;
               IsFirst(r.infoHash, TorrentHash, all) && IsFirst(r.client, TorrentClient, all)
  {
    RecordLife(ext, arrivals, PickTorrent, MergeBitTorrent);
    var all := Records(arrivals, PickTorrent);
    BitTorrentFieldLaw(all[0], all[1..]);
    HeadAndTail(all);
  }

  lemma MqttLife(ext: Extractor, arrivals: seq<Arrival>)
    requires arrivals != [] && FirstRecord(arrivals).Some? && FirstRecord(arrivals).value.Mqtt?
    ensures var (dpi, all) := (Life(ext, arrivals).dpi, Records(arrivals, PickMqtt));
            && all != [] && dpi.Some? && dpi.value.Mqtt?
            && var r := dpi.value.mqtt;
               && IsFirst(r.clientId, MqttClient, all) && IsFirst(r.topic, MqttTopic, all)
               && IsFirst(r.version, MqttVersion, all) && IsFirst(r.qos, MqttQos, all)
               && r.packetType == all[|all| - 1].packetType
  {
    RecordLife(ext, arrivals, PickMqtt, MergeMqtt);
    var all := Records(arrivals, PickMqtt);
    MqttFieldLaw(all[0], all[1..]);
    HeadAndTail(all);
  }

  lemma FtpLife(ext: Extractor, arrivals: seq<Arrival>)
    requires arrivals != [] && FirstRecord(arrivals).Some? && FirstRecord(arrivals).value.Ftp?
    ensures var (dpi, all) := (Life(ext, arrivals).dpi, Records(arrivals, PickFtp));
            && all != [] && dpi.Some? && dpi.value.Ftp?
            && var r := dpi.value.ftp;
               && IsFirst(r.username, FtpUser, all) && IsFirst(r.serverSoftware, FtpServer, all)
               && IsFirst(r.systemType, FtpSystem, all)
               && IsLatest(r.command, FtpCommand, all) && IsLatest(r.args, FtpArgs, all)
               && IsLatest(r.responseCode, FtpCode, all) && IsLatest(r.responseMessage, FtpMessage, all)
               && r.isRequest == all[|all| - 1].isRequest
  {
    RecordLife(ext, arrivals, PickFtp, MergeFtp);
    var all := Records(arrivals, PickFtp);
    FtpFieldLaw(all[0], all[1..]);
    HeadAndTail(all);
  }
}
