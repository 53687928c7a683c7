/** Which addresses are never sent to a resolver. */
module Addresses {

  datatype Ip = V4(a: nat, b: nat, c: nat, d: nat) | V6(segments: seq<nat>)

  predicate IsLoopback(ip: Ip) {
    match ip
    case V4(a, _, _, _) => a == 127
    case V6(s) => s == [0, 0, 0, 0, 0, 0, 0, 1]
  }

  predicate IsLinkLocal(ip: Ip) {
    match ip
    case V4(a, b, _, _) => a == 169 && b == 254
    case V6(s) => s != [] && 0xfe80 <= s[0] <= 0xfebf
  }

  predicate IsUnspecified(ip: Ip) {
    match ip
    case V4(a, b, c, d) => a == 0 && b == 0 && c == 0 && d == 0
    case V6(s) => s == [0, 0, 0, 0, 0, 0, 0, 0]
  }

  /** The blocks that `Ipv4Addr` calls private, broadcast or documentation, and 100.64.0.0/10. */
  predicate IsReservedV4(a: nat, b: nat, c: nat, d: nat) {
    || a == 10 || (a == 172 && 16 <= b <= 31) || (a == 192 && b == 168)
    || (a == 255 && b == 255 && c == 255 && d == 255)
    || (a == 192 && b == 0 && c == 2) || (a == 198 && b == 51 && c == 100) || (a == 203 && b == 0 && c == 113)
    || (a == 100 && 64 <= b <= 127)
  }

  predicate IsPrivateOrLocal(ip: Ip) {
    || IsLoopback(ip) || IsLinkLocal(ip) || IsUnspecified(ip)
    || (match ip
        case V4(a, b, c, d) => IsReservedV4(a, b, c, d)
        case V6(s) => s != [] && 0xfc00 <= s[0] <= 0xfdff)
  }

  // ---- The same blocks in prefix notation ----

  predicate IsOctet(x: nat) { x < 256 }

  /** The address as a number. */
  function Number(a: nat, b: nat, c: nat, d: nat): nat { ((a * 256 + b) * 256 + c) * 256 + d }

  /** The addresses that agree with a.b.c.d in all but the last `size` values. */
  predicate InBlock(x: nat, a: nat, b: nat, c: nat, d: nat, size: nat)
    requires size > 0
  {
    x / size == Number(a, b, c, d) / size
  }

  /** What is left of an address when its last 8, 16 or 24 bits are dropped. */
  lemma Prefixes(a: nat, b: nat, c: nat, d: nat)
    requires IsOctet(a) && IsOctet(b) && IsOctet(c) && IsOctet(d)
    ensures var x := Number(a, b, c, d);
            x / 0x100 == (a * 256 + b) * 256 + c && x / 0x10000 == a * 256 + b && x / 0x1000000 == a
  {
  }

  lemma ByteBlocks(a: nat, b: nat, c: nat, d: nat)
    requires IsOctet(a) && IsOctet(b) && IsOctet(c) && IsOctet(d)
    ensures var x := Number(a, b, c, d);
            && (InBlock(x, 127, 0, 0, 0, 0x1000000) <==> a == 127)
            && (InBlock(x, 10, 0, 0, 0, 0x1000000) <==> a == 10)
            && (InBlock(x, 169, 254, 0, 0, 0x10000) <==> a == 169 && b == 254)
            && (InBlock(x, 192, 168, 0, 0, 0x10000) <==> a == 192 && b == 168)
  {
    Prefixes(a, b, c, d);
  }

  lemma SmallBlocks(a: nat, b: nat, c: nat, d: nat)
    requires IsOctet(a) && IsOctet(b) && IsOctet(c) && IsOctet(d)
    ensures var x := Number(a, b, c, d);
            && (InBlock(x, 192, 0, 2, 0, 0x100) <==> a == 192 && b == 0 && c == 2)
            && (InBlock(x, 198, 51, 100, 0, 0x100) <==> a == 198 && b == 51 && c == 100)
            && (InBlock(x, 203, 0, 113, 0, 0x100) <==> a == 203 && b == 0 && c == 113)
            && (InBlock(x, 255, 255, 255, 255, 1) <==> a == 255 && b == 255 && c == 255 && d == 255)
            && (InBlock(x, 0, 0, 0, 0, 1) <==> a == 0 && b == 0 && c == 0 && d == 0)
  {
    Prefixes(a, b, c, d);
  }

  lemma TwelveBits(x: nat, q: nat, r: nat)
    requires x == q * 0x100000 + r && r < 0x100000
    ensures x / 0x100000 == q
  {
  }

  lemma TenBits(x: nat, q: nat, r: nat)
    requires x == q * 0x400000 + r && r < 0x400000
    ensures x / 0x400000 == q
  {
  }

  lemma OddBlocks(a: nat, b: nat, c: nat, d: nat)
    requires IsOctet(a) && IsOctet(b) && IsOctet(c) && IsOctet(d)
    ensures var x := Number(a, b, c, d);
            && (InBlock(x, 172, 16, 0, 0, 0x100000) <==> a == 172 && 16 <= b <= 31)
            && (InBlock(x, 100, 64, 0, 0, 0x400000) <==> a == 100 && 64 <= b <= 127)
  {
    var x, low := Number(a, b, c, d), c * 256 + d;
    TwelveBits(x, a * 16 + b / 16, b % 16 * 0x10000 + low);
    TenBits(x, a * 4 + b / 64, b % 64 * 0x10000 + low);
  }

  /** Loopback is 127.0.0.0/8 and link-local 169.254.0.0/16. */
  lemma LocalBlocks(a: nat, b: nat, c: nat, d: nat)
    requires IsOctet(a) && IsOctet(b) && IsOctet(c) && IsOctet(d)
    ensures IsLoopback(V4(a, b, c, d)) <==> InBlock(Number(a, b, c, d), 127, 0, 0, 0, 0x1000000)
    ensures IsLinkLocal(V4(a, b, c, d)) <==> InBlock(Number(a, b, c, d), 169, 254, 0, 0, 0x10000)
  {
    ByteBlocks(a, b, c, d);
  }

  /**
   * Never looked up in the databases are, besides those two, 10.0.0.0/8, 172.16.0.0/12,
   * 192.168.0.0/16, 100.64.0.0/10, 192.0.2.0/24, 198.51.100.0/24, 203.0.113.0/24, the
   * broadcast address and 0.0.0.0.
   */
  lemma PrivateBlocks(a: nat, b: nat, c: nat, d: nat)
    requires IsOctet(a) && IsOctet(b) && IsOctet(c) && IsOctet(d)
    ensures var x := Number(a, b, c, d);
            IsPrivateOrLocal(V4(a, b, c, d))
            <==> || InBlock(x, 127, 0, 0, 0, 0x1000000) || InBlock(x, 169, 254, 0, 0, 0x10000)
                 || InBlock(x, 10, 0, 0, 0, 0x1000000) || InBlock(x, 172, 16, 0, 0, 0x100000)
                 || InBlock(x, 192, 168, 0, 0, 0x10000) || InBlock(x, 100, 64, 0, 0, 0x400000)
                 || InBlock(x, 192, 0, 2, 0, 0x100) || InBlock(x, 198, 51, 100, 0, 0x100)
                 || InBlock(x, 203, 0, 113, 0, 0x100)
                 || InBlock(x, 255, 255, 255, 255, 1) || InBlock(x, 0, 0, 0, 0, 1)
  {
    ByteBlocks(a, b, c, d);
    SmallBlocks(a, b, c, d);
    OddBlocks(a, b, c, d);
  }

  /** For the other family: ::1, fe80::/10, and for the databases also :: and fc00::/7. */
  lemma PrivateBlocksV6(s: seq<nat>)
    requires |s| == 8
    ensures IsLoopback(V6(s)) <==> s[7] == 1 && forall i :: 0 <= i < 7 ==> s[i] == 0
    ensures IsLinkLocal(V6(s)) <==> s[0] / 64 == 0xfe80 / 64
    ensures IsPrivateOrLocal(V6(s))
       <==> || IsLoopback(V6(s)) || s[0] / 64 == 0xfe80 / 64 || s[0] / 512 == 0xfc00 / 512
            || forall i :: 0 <= i < 8 ==> s[i] == 0
  {
    assert s == [s[0], s[1], s[2], s[3], s[4], s[5], s[6], s[7]];
  }
}
