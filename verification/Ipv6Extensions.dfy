/** Walking the IPv6 extension headers in front of the upper-layer protocol. */
module Ipv6Extensions {
  import opened Wrappers

  const HOP_BY_HOP: Byte := 0
  const ROUTING: Byte := 43
  const FRAGMENT: Byte := 44
  const ENCAPSULATING_SECURITY: Byte := 50
  const AUTHENTICATION: Byte := 51
  const DESTINATION_OPTIONS: Byte := 60

  predicate IsOptions(p: Byte) { p == HOP_BY_HOP || p == ROUTING || p == DESTINATION_OPTIONS }

  /** Headers the walk can step over; an encapsulated payload it cannot. */
  predicate IsExtension(p: Byte) { IsOptions(p) || p == FRAGMENT || p == AUTHENTICATION }

  /** How many bytes of a header must be present before it is read. */
  function Needed(p: Byte): nat { if p == FRAGMENT then 8 else 2 }

  function HeaderLength(p: Byte, lengthField: Byte): nat {
    if p == FRAGMENT then 8 else if p == AUTHENTICATION then (lengthField + 2) * 4 else (lengthField + 1) * 8
  }

  /** What the walk returns when it stands at `offset` and looks for header `p`. */
  function Walk(p: Byte, data: seq<Byte>, offset: nat): (Byte, nat)
    requires offset <= |data|
    decreases |data| - offset
  {
    if !IsExtension(p) || |data| < offset + Needed(p) then (p, offset)
    else
      var after := offset + HeaderLength(p, data[offset + 1]);
      if after >= |data| then (data[offset], after) else Walk(data[offset], data, after)
  }

  method ParseExtensionHeaders(firstHeader: Byte, data: seq<Byte>) returns (nextHeader: Byte, offset: nat)
    ensures (nextHeader, offset) == Walk(firstHeader, data, 0)
  {
    nextHeader, offset := firstHeader, 0;
    while true
      invariant offset <= |data|
      invariant Walk(firstHeader, data, 0) == Walk(nextHeader, data, offset)
      decreases |data| - offset
    {
      if nextHeader == HOP_BY_HOP || nextHeader == ROUTING || nextHeader == DESTINATION_OPTIONS {
        if |data| < offset + 2 {
          return;
        }
        var field: nat := data[offset + 1];
        var length := (field + 1) * 8;
        nextHeader, offset := data[offset], offset + length;
      } else if nextHeader == FRAGMENT {
        if |data| < offset + 8 {
          return;
        }
        nextHeader, offset := data[offset], offset + 8;
      } else if nextHeader == AUTHENTICATION {
        if |data| < offset + 2 {
          return;
        }
        var field: nat := data[offset + 1];
        var length := (field + 2) * 4;
        nextHeader, offset := data[offset], offset + length;
      } else if nextHeader == ENCAPSULATING_SECURITY {
        return;
      } else {
        return;
      }
      if offset >= |data| {
        return;
      }
    }
  }

  // ---- The wire format, written the other way round ----

  /** One header: its protocol number, its length field and everything behind the first two bytes. */
  datatype Header = Header(protocol: Byte, lengthField: Byte, body: seq<Byte>)

  /**
   * The sizes the standards give: RFC 8200 counts options and routing headers in units of eight
   * bytes after the first eight and makes a fragment header eight bytes long, RFC 4302 counts
   * authentication headers in units of four, less two.
   */
  predicate WellFormed(h: Header) {
    var length: int := h.lengthField;
    || (h.protocol in [0, 43, 60] && |h.body| + 2 == 8 + 8 * length)
    || (h.protocol == 44 && |h.body| + 2 == 8)
    || (h.protocol == 51 && |h.body| + 2 == 4 * (length + 2))
  }

  ghost predicate Chain(hs: seq<Header>) { forall h :: h in hs ==> WellFormed(h) }

  /** The number that announces a chain. */
  function Announced(hs: seq<Header>, upper: Byte): Byte {
    if hs == [] then upper else hs[0].protocol
  }

  function Wire(h: Header, next: Byte): seq<Byte> { [next, h.lengthField] + h.body }

  function Encode(hs: seq<Header>, upper: Byte): seq<Byte> {
    if hs == [] then []
    else Wire(hs[0], Announced(hs[1..], upper)) + Encode(hs[1..], upper)
  }

  lemma HeaderIsStepped(data: seq<Byte>, offset: nat, h: Header, next: Byte, tail: seq<Byte>)
    requires WellFormed(h) && offset <= |data| && data[offset..] == Wire(h, next) + tail
    ensures var after := offset + |Wire(h, next)|;
            && after <= |data| && data[after..] == tail
            && Walk(h.protocol, data, offset) == Walk(next, data, after)
  {
    var wire := Wire(h, next);
    assert data[offset..][0] == wire[0] && data[offset..][1] == wire[1];
    assert data[offset + |wire|..] == data[offset..][|wire|..];
  }

  lemma FirstIsStepped(
    data: seq<Byte>, offset: nat, hs: seq<Header>, upper: Byte, payload: seq<Byte>) returns (after: nat)
    requires hs != [] && WellFormed(hs[0])
    requires offset <= |data| && data[offset..] == Encode(hs, upper) + payload
    ensures after == offset + |Encode(hs, upper)| - |Encode(hs[1..], upper)|
    ensures after <= |data| && data[after..] == Encode(hs[1..], upper) + payload
    ensures Walk(hs[0].protocol, data, offset) == Walk(Announced(hs[1..], upper), data, after)
  {
    var next, rest := Announced(hs[1..], upper), Encode(hs[1..], upper);
    var wire := Wire(hs[0], next);
    Regroup(wire, rest, payload);
    HeaderIsStepped(data, offset, hs[0], next, rest + payload);
    after := offset + |wire|;
  }

  lemma {:induction false} WalkFollowsChain(
    data: seq<Byte>, offset: nat, hs: seq<Header>, upper: Byte, payload: seq<Byte>)
    requires Chain(hs) && !IsExtension(upper)
    requires offset <= |data| && data[offset..] == Encode(hs, upper) + payload
    ensures Walk(Announced(hs, upper), data, offset) == (upper, offset + |Encode(hs, upper)|)
    decreases |hs|
  {
    if hs != [] {
      assert WellFormed(hs[0]);
      var after := FirstIsStepped(data, offset, hs, upper, payload);
      WalkFollowsChain(data, after, hs[1..], upper, payload);
    }
  }

  lemma Regroup(a: seq<Byte>, b: seq<Byte>, c: seq<Byte>)
    ensures (a + b) + c == a + (b + c)
  {
  }

  /**
   * Every chain of well-formed headers, of any length and in any order, is stepped over exactly:
   * the walk returns the upper-layer protocol, and what is left of the data is its payload.
   */
  lemma EncodedChainIsWalked(hs: seq<Header>, upper: Byte, payload: seq<Byte>)
    requires Chain(hs) && !IsExtension(upper)
    ensures var data := Encode(hs, upper) + payload;
            var (p, offset) := Walk(Announced(hs, upper), data, 0);
            p == upper && offset == |Encode(hs, upper)| && data[offset..] == payload
  {
    WalkFollowsChain(Encode(hs, upper) + payload, 0, hs, upper, payload);
  }

  /** The headers a complete walk has stepped over. */
  function Decode(p: Byte, data: seq<Byte>, offset: nat): seq<Header>
    requires offset <= |data|
    decreases |data| - offset
  {
    if !IsExtension(p) || |data| < offset + Needed(p) then []
    else
      var after := offset + HeaderLength(p, data[offset + 1]);
      if after > |data| then []
      else [Header(p, data[offset + 1], data[offset + 2..after])]
           + if after == |data| then [] else Decode(data[offset], data, after)
  }

  /** A stretch of data that starts like a header is that header on the wire. */
  lemma WireOf(data: seq<Byte>, offset: nat, after: nat, end: nat)
    requires offset + 2 <= after <= end <= |data|
    ensures Wire(Header(0, data[offset + 1], data[offset + 2..after]), data[offset]) + data[after..end]
         == data[offset..end]
  {
  }

  lemma {:induction false} DecodeInvertsEncode(p: Byte, data: seq<Byte>, offset: nat)
    requires offset <= |data|
    requires var (q, end) := Walk(p, data, offset); !IsExtension(q) && end <= |data|
    ensures var (q, end) := Walk(p, data, offset);
            var hs := Decode(p, data, offset);
            && offset <= end && Chain(hs)
            && Announced(hs, q) == p && Encode(hs, q) == data[offset..end]
    decreases |data| - offset
  {
    if IsExtension(p) && |data| >= offset + Needed(p) {
      var after := offset + HeaderLength(p, data[offset + 1]);
      var (q, end) := Walk(p, data, offset);
      var h, rest := Header(p, data[offset + 1], data[offset + 2..after]), Decode(data[offset], data, after);
      if after < |data| {
        DecodeInvertsEncode(data[offset], data, after);
      }
      assert Encode(rest, q) == data[after..end] && Announced(rest, q) == data[offset];
      assert Decode(p, data, offset) == [h] + rest;
      WireOf(data, offset, after, end);
      assert Encode([h] + rest, q) == Wire(h, data[offset]) + data[after..end] by {
        assert ([h] + rest)[1..] == rest;
      }
    }
  }

  ghost predicate BeginsWithChain(p: Byte, data: seq<Byte>, q: Byte, end: nat) {
    && end <= |data| && !IsExtension(q)
    && exists hs :: Chain(hs) && Announced(hs, q) == p && Encode(hs, q) == data[..end]
  }

  /**
   * On arbitrary bytes, too, the walk is right: it reports protocol q at an offset within the
   * data exactly if the data begin with a chain of headers that long leading to q.
   */
  lemma WalkIsExact(p: Byte, data: seq<Byte>, q: Byte, end: nat)
    ensures BeginsWithChain(p, data, q, end)
       <==> Walk(p, data, 0) == (q, end) && !IsExtension(q) && end <= |data|
  {
    if BeginsWithChain(p, data, q, end) {
      var hs :| Chain(hs) && Announced(hs, q) == p && Encode(hs, q) == data[..end];
      EncodedChainIsWalked(hs, q, data[end..]);
      assert data[..end] + data[end..] == data;
    }
    if Walk(p, data, 0) == (q, end) && !IsExtension(q) && end <= |data| {
      DecodeInvertsEncode(p, data, 0);
      assert Encode(Decode(p, data, 0), q) == data[..end];
    }
  }

  // ---- Where the transport parsers are entered ----

  datatype Handler = Icmpv6 | Tcp | Udp

  function ProtocolOf(h: Handler): Byte {
    match h
    case Icmpv6 => 58
    case Tcp => 6
    case Udp => 17
  }

  /** The data are this chain of headers, leading to `upper`, and then the rest. */
  ghost predicate IsEncoded(firstHeader: Byte, data: seq<Byte>, hs: seq<Header>, upper: Byte, rest: seq<Byte>) {
    Chain(hs) && firstHeader == Announced(hs, upper) && data == Encode(hs, upper) + rest
  }

  predicate HasParser(upper: Byte) { upper == 58 || upper == 6 || upper == 17 }

  /**
   * End to end: in front of a payload of one of the three protocols, any chain of headers is
   * stripped and exactly the payload reaches that protocol's parser; another protocol reaches
   * none. On arbitrary bytes, cut-off ones included, a parser sees the data from some point on,
   * and if it sees any, the data up to that point is a chain leading to its protocol.
   */
  method Dispatch(firstHeader: Byte, data: seq<Byte>) returns (handler: Option<Handler>, payload: seq<Byte>)
    ensures forall hs, h, rest :: IsEncoded(firstHeader, data, hs, ProtocolOf(h), rest) ==>
              handler == Some(h) && payload == rest
    ensures forall hs, upper, rest :: IsEncoded(firstHeader, data, hs, upper, rest) && !IsExtension(upper) ==>
              (handler.Some? <==> HasParser(upper))
    ensures |payload| <= |data| && payload == data[|data| - |payload|..]
    ensures handler.Some? && payload != [] ==>
              BeginsWithChain(firstHeader, data, ProtocolOf(handler.value), |data| - |payload|)
  {
    var p, offset := ParseExtensionHeaders(firstHeader, data);
    payload := data[if offset < |data| then offset else |data|..];
    handler := match p
      case 58 => Some(Icmpv6)
      case 6 => Some(Tcp)
      case 17 => Some(Udp)
      case _ => None;
    forall hs, upper, rest | IsEncoded(firstHeader, data, hs, upper, rest) && !IsExtension(upper)
      ensures p == upper && payload == rest
    {
      EncodedChainIsWalked(hs, upper, rest);
    }
    WalkIsExact(firstHeader, data, p, offset);
    assert handler.Some? ==> ProtocolOf(handler.value) == p;
    assert HasParser(p) <==> handler.Some?;
  }

  function Steps(p: Byte, data: seq<Byte>, offset: nat): nat
    requires offset <= |data|
    decreases |data| - offset
  {
    if !IsExtension(p) || |data| < offset + Needed(p) then 0
    else
      var after := offset + HeaderLength(p, data[offset + 1]);
      if after >= |data| then 1 else 1 + Steps(data[offset], data, after)
  }

  /**
   * Whatever the bytes: every step advances by eight at least, so the walk is short, and it
   * ends at most 2046 bytes past the data, which is why the slice must be clamped. It ends on
   * a header it could step over only if that header was cut off.
   */
  lemma {:induction false} WalkIsBounded(p: Byte, data: seq<Byte>, offset: nat)
    requires offset <= |data|
    ensures var (q, end) := Walk(p, data, offset);
            && offset + 8 * Steps(p, data, offset) <= end <= |data| + 2046
            && (q in [0, 43, 60, 51] ==> |data| < end + 2) && (q == 44 ==> |data| < end + 8)
    decreases |data| - offset
  {
    if IsExtension(p) && |data| >= offset + Needed(p) {
      var after := offset + HeaderLength(p, data[offset + 1]);
      if after < |data| {
        WalkIsBounded(data[offset], data, after);
      }
    }
  }

  /**
   * The first two bytes of a header decide, and what they announce need not be there; only of a
   * fragment header all eight bytes must be.
   */
  lemma TwoBytesDecide(p: Byte, next: Byte, lengthField: Byte, rest: seq<Byte>)
    ensures var (data, length: int) := ([next, lengthField], lengthField);
            && (p in [0, 43, 60] ==> Walk(p, data, 0) == (next, 8 + 8 * length))
            && (p == 51 ==> Walk(p, data, 0) == (next, 8 + 4 * length))
            && (p == 44 && |rest| < 6 ==> Walk(p, data + rest, 0) == (44, 0))
            && (p == 44 && |rest| == 6 ==> Walk(p, data + rest, 0) == (next, 8))
            && (p !in [0, 43, 44, 51, 60] ==> Walk(p, data + rest, 0) == (p, 0))
            && (p in [0, 43, 60, 51] ==> Walk(p, [], 0) == (p, 0) && Walk(p, [next], 0) == (p, 0))
  {
    var data: seq<Byte> := [next, lengthField];
    assert data[0] == next && data[1] == lengthField && (data + rest)[0] == next;
  }

  /** Two bytes are enough to overshoot that far. */
  lemma OvershootIsMet(q: Byte)
    ensures Walk(HOP_BY_HOP, [q, 255], 0) == (q, |[q, 255]| + 2046)
  {
    var data: seq<Byte> := [q, 255];
    assert data[1] == 255;
  }
}
