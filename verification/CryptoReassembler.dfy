/** The buffer that collects CRYPTO frame fragments of one QUIC connection. */
module CryptoReassembler {
  import opened Wrappers
  import opened Tls

  /** `complete` is the cached TLS information, once extraction has succeeded. */
  datatype Reassembler = Reassembler(
    fragments: map<nat, seq<Byte>>, complete: Option<TlsInfo>, buffered: nat, maxBuffer: nat)

  /** The two half-open byte ranges are equal, or share a position. */
  predicate Collides(offset: nat, data: seq<Byte>, other: nat, otherData: seq<Byte>) {
    || (offset == other && |data| == |otherData|)
    || (offset < other + |otherData| && offset + |data| > other)
  }

  predicate CollidesWithAny(r: Reassembler, offset: nat, data: seq<Byte>) {
    exists o :: o in r.fragments && Collides(offset, data, o, r.fragments[o])
  }

  /** Rejected when the buffer would overflow, ignored when it collides, else stored. */
  function AddFragment(r: Reassembler, offset: nat, data: seq<Byte>): Reassembler {
    if r.buffered + |data| > r.maxBuffer || CollidesWithAny(r, offset, data) then r
    else r.(buffered := r.buffered + |data|, fragments := r.fragments[offset := data])
  }

  method AddFragmentInto(r: Reassembler, offset: nat, data: seq<Byte>) returns (r': Reassembler, ok: bool)
    ensures r' == AddFragment(r, offset, data)
    ensures ok <==> r.buffered + |data| <= r.maxBuffer
  {
    if r.buffered + |data| > r.maxBuffer {
      return r, false;
    }
    var rest := r.fragments.Keys;
    while rest != {}
      invariant rest <= r.fragments.Keys
      invariant forall o :: o in r.fragments.Keys - rest ==> !Collides(offset, data, o, r.fragments[o])
      decreases rest
    {
      var o: nat :| o in rest;
      var fragEnd := o + |r.fragments[o]|;
      if offset == o && offset + |data| == fragEnd {
        return r, true;
      }
      if offset < fragEnd && offset + |data| > o {
        return r, true;
      }
      rest := rest - {o};
    }
    return r.(buffered := r.buffered + |data|, fragments := r.fragments[offset := data]), true;
  }

  /** The bytes actually stored. */
  ghost function StoredBytes(fragments: map<nat, seq<Byte>>): nat {
    if fragments == map[] then 0
    else
      var o :| o in fragments;
      |fragments[o]| + StoredBytes(fragments - {o})
  }

  lemma {:induction false} StoredWithout(fragments: map<nat, seq<Byte>>, o: nat)
    requires o in fragments
    ensures StoredBytes(fragments) == |fragments[o]| + StoredBytes(fragments - {o})
    decreases fragments.Keys
  {
    var x :| x in fragments && StoredBytes(fragments) == |fragments[x]| + StoredBytes(fragments - {x});
    if x != o {
      StoredWithout(fragments - {x}, o);
      StoredWithout(fragments - {o}, x);
      assert fragments - {x} - {o} == fragments - {o} - {x};
    }
  }

  lemma StoredAfter(fragments: map<nat, seq<Byte>>, o: nat, data: seq<Byte>)
    ensures StoredBytes(fragments[o := data])
         == StoredBytes(fragments) + |data| - if o in fragments then |fragments[o]| else 0
  {
    StoredWithout(fragments[o := data], o);
    if o in fragments {
      StoredWithout(fragments, o);
      assert fragments[o := data] - {o} == fragments - {o};
    } else {
      assert fragments[o := data] - {o} == fragments;
    }
  }

  /** Fewer fragments store no more bytes. */
  lemma {:induction false} StoredPart(part: map<nat, seq<Byte>>, all: map<nat, seq<Byte>>)
    requires part.Keys <= all.Keys && forall o :: o in part ==> part[o] == all[o]
    ensures StoredBytes(part) <= StoredBytes(all)
    decreases all.Keys
  {
    if o :| o in all && o !in part {
      StoredWithout(all, o);
      StoredPart(part, all - {o});
    } else {
      assert part == all;
    }
  }

  /** No stream position is held by two fragments, and what is stored is within the limit. */
  ghost predicate Valid(r: Reassembler) {
    && StoredBytes(r.fragments) <= r.buffered <= r.maxBuffer
    && forall a, b :: a in r.fragments && b in r.fragments && a < b ==> a + |r.fragments[a]| <= b
  }

  lemma AddFragmentKeepsValid(r: Reassembler, offset: nat, data: seq<Byte>)
    requires Valid(r)
    ensures Valid(AddFragment(r, offset, data))
    ensures StoredBytes(AddFragment(r, offset, data).fragments) <= r.maxBuffer
  {
    var r' := AddFragment(r, offset, data);
    if r' != r {
      StoredAfter(r.fragments, offset, data);
      forall a | a in r.fragments && a != offset
        ensures a < offset ==> a + |r.fragments[a]| <= offset
        ensures offset < a ==> offset + |data| <= a
      {
        assert !Collides(offset, data, a, r.fragments[a]);
      }
    }
  }

  /** Position `pos` of the handshake stream has been received with value `b`. */
  ghost predicate Holds(r: Reassembler, pos: nat, b: Byte) {
    exists o :: o in r.fragments && o <= pos < o + |r.fragments[o]| && r.fragments[o][pos - o] == b
  }

  /**
   * "First write wins": a later fragment never changes or loses a byte already held, except
   * that an empty fragment at exactly the offset of a non-empty one replaces it.
   */
  lemma FirstWriteWins(r: Reassembler, offset: nat, data: seq<Byte>)
    requires Valid(r)
    ensures (forall pos: nat, b: Byte :: Holds(r, pos, b) ==> Holds(AddFragment(r, offset, data), pos, b))
       <==> !(data == [] && offset in r.fragments && r.fragments[offset] != [])
  {
    var r' := AddFragment(r, offset, data);
    if data == [] && offset in r.fragments && r.fragments[offset] != [] {
      EmptyFragmentErases(r, offset);
    } else {
      forall pos: nat, b: Byte | Holds(r, pos, b)
        ensures Holds(r', pos, b)
      {
        var o: nat :| o in r.fragments && o <= pos < o + |r.fragments[o]| && r.fragments[o][pos - o] == b;
        if r' != r {
          assert !Collides(offset, data, o, r.fragments[o]);
          assert o in r'.fragments && r'.fragments[o] == r.fragments[o];
        }
      }
    }
  }

  lemma EmptyFragmentErases(r: Reassembler, offset: nat)
    requires Valid(r) && offset in r.fragments && r.fragments[offset] != []
    ensures Holds(r, offset, r.fragments[offset][0])
    ensures !Holds(AddFragment(r, offset, []), offset, r.fragments[offset][0])
  {
    forall o | o in r.fragments
      ensures !Collides(offset, [], o, r.fragments[o])
    {
    }
    assert offset <= offset < offset + |r.fragments[offset]|;
  }

  // ---- Buffers as the program builds them ----

  datatype Fragment = Fragment(offset: nat, data: seq<Byte>)

  const MAX_BUFFER_SIZE: nat := 65536

  function Empty(): Reassembler { Reassembler(map[], None, 0, MAX_BUFFER_SIZE) }

  /** The fragments added one after the other. */
  function AddAll(r: Reassembler, frags: seq<Fragment>): Reassembler
    decreases |frags|
  {
    if frags == [] then r else AddAll(AddFragment(r, frags[0].offset, frags[0].data), frags[1..])
  }

  /** A buffer without an empty fragment: there, the first write always wins and every byte is accounted for. */
  ghost predicate Proper(r: Reassembler) {
    Valid(r) && StoredBytes(r.fragments) == r.buffered && forall o :: o in r.fragments ==> r.fragments[o] != []
  }

  lemma AddFragmentKeepsProper(r: Reassembler, offset: nat, data: seq<Byte>)
    requires Proper(r) && data != []
    ensures Proper(AddFragment(r, offset, data))
  {
    AddFragmentKeepsValid(r, offset, data);
    if offset in r.fragments {
      assert Collides(offset, data, offset, r.fragments[offset]);
    } else {
      StoredAfter(r.fragments, offset, data);
    }
  }

  /** From `r` to `m` the buffer stays sound and within its limit, and keeps this byte if it had it. */
  ghost predicate KeepsBytes(r: Reassembler, m: Reassembler, pos: nat, b: Byte) {
    && Valid(m) && StoredBytes(m.fragments) <= m.maxBuffer == r.maxBuffer
    && (Proper(r) ==> Proper(m))
    && (Holds(r, pos, b) ==> Holds(m, pos, b))
  }

  lemma KeepsThrough(r: Reassembler, m: Reassembler, s: Reassembler, pos: nat, b: Byte)
    requires KeepsBytes(r, m, pos, b) && KeepsBytes(m, s, pos, b)
    ensures KeepsBytes(r, s, pos, b)
  {
  }

  lemma AddKeepsBytes(r: Reassembler, offset: nat, data: seq<Byte>, pos: nat, b: Byte)
    requires Valid(r) && data != []
    ensures KeepsBytes(r, AddFragment(r, offset, data), pos, b)
  {
    AddFragmentKeepsValid(r, offset, data);
    FirstWriteWins(r, offset, data);
    if Proper(r) {
      AddFragmentKeepsProper(r, offset, data);
    }
  }

  lemma ThenAdd(r: Reassembler, m: Reassembler, offset: nat, data: seq<Byte>, pos: nat, b: Byte)
    requires KeepsBytes(r, m, pos, b) && data != []
    ensures KeepsBytes(r, AddFragment(m, offset, data), pos, b)
  {
    AddKeepsBytes(m, offset, data, pos, b);
    KeepsThrough(r, m, AddFragment(m, offset, data), pos, b);
  }

  /** What is added is what arrives: a fragment that fits and overlaps nothing is stored byte for byte. */
  lemma AddedBytesArrive(r: Reassembler, offset: nat, data: seq<Byte>, i: nat)
    requires i < |data| && r.buffered + |data| <= r.maxBuffer
    requires forall o :: o in r.fragments ==> offset + |data| <= o || o + |r.fragments[o]| <= offset
    ensures Holds(AddFragment(r, offset, data), offset + i, data[i])
    ensures AddFragment(r, offset, data).buffered == r.buffered + |data|
  {
    forall o | o in r.fragments
      ensures !Collides(offset, data, o, r.fragments[o])
    {
    }
    var r' := AddFragment(r, offset, data);
    assert offset in r'.fragments && r'.fragments[offset] == data;
  }

  lemma {:induction false} AddAllKeepsProper(r: Reassembler, frags: seq<Fragment>)
    requires Proper(r) && forall f :: f in frags ==> f.data != []
    ensures Proper(AddAll(r, frags)) && AddAll(r, frags).maxBuffer == r.maxBuffer
    decreases |frags|
  {
    if frags != [] {
      assert frags[0] in frags;
      AddFragmentKeepsProper(r, frags[0].offset, frags[0].data);
      AddAllKeepsProper(AddFragment(r, frags[0].offset, frags[0].data), frags[1..]);
    }
  }

  /**
   * What the parser adds is never empty. So a buffer it builds holds no empty fragment and no
   * overlap, and never more bytes than the limit.
   */
  lemma BuiltBuffersAreProper(frags: seq<Fragment>)
    requires forall f :: f in frags ==> f.data != []
    ensures var r := AddAll(Empty(), frags);
            Proper(r) && StoredBytes(r.fragments) <= MAX_BUFFER_SIZE
  {
    AddAllKeepsProper(Empty(), frags);
  }

  // ---- Arrival order ----

  predicate Apart(a: Fragment, b: Fragment) {
    && a.data != [] && b.data != [] && a.offset != b.offset
    && !Collides(a.offset, a.data, b.offset, b.data)
  }

  ghost predicate AllApart(frags: seq<Fragment>) {
    forall i, j :: 0 <= i < j < |frags| ==> Apart(frags[i], frags[j])
  }

  function Sizes(frags: seq<Fragment>): nat
    decreases |frags|
  {
    if frags == [] then 0 else |frags[0].data| + Sizes(frags[1..])
  }

  /** Two fragments that fit and are apart may change places. */
  lemma SwapTwo(r: Reassembler, a: Fragment, b: Fragment)
    requires Apart(a, b) && r.buffered + |a.data| + |b.data| <= r.maxBuffer
    ensures AddFragment(AddFragment(r, a.offset, a.data), b.offset, b.data)
         == AddFragment(AddFragment(r, b.offset, b.data), a.offset, a.data)
  {
    AddKeepsCollisions(r, a.offset, a.data, b.offset, b.data);
    AddKeepsCollisions(r, b.offset, b.data, a.offset, a.data);
    assert r.fragments[a.offset := a.data][b.offset := b.data] == r.fragments[b.offset := b.data][a.offset := a.data];
  }

  lemma {:induction false} SizesSplit(a: seq<Fragment>, b: seq<Fragment>)
    ensures Sizes(a + b) == Sizes(a) + Sizes(b)
    decreases |a|
  {
    if a == [] {
      assert a + b == b;
    } else {
      SizesSplit(a[1..], b);
      assert (a + b)[1..] == a[1..] + b;
    }
  }

  lemma {:induction false} AddAllSplits(r: Reassembler, a: seq<Fragment>, b: seq<Fragment>)
    ensures AddAll(r, a + b) == AddAll(AddAll(r, a), b)
    decreases |a|
  {
    if a == [] {
      assert a + b == b;
    } else {
      AddAllSplits(AddFragment(r, a[0].offset, a[0].data), a[1..], b);
      assert (a + b)[1..] == a[1..] + b;
    }
  }

  /** The last of several fragments may as well come first. */
  lemma {:induction false} LastMayComeFirst(r: Reassembler, before: seq<Fragment>, f: Fragment)
    requires (forall g :: g in before ==> Apart(g, f)) && r.buffered + Sizes(before) + |f.data| <= r.maxBuffer
    ensures AddFragment(AddAll(r, before), f.offset, f.data) == AddAll(AddFragment(r, f.offset, f.data), before)
    decreases |before|
  {
    if before != [] {
      var g := before[0];
      assert g in before;
      LastMayComeFirst(AddFragment(r, g.offset, g.data), before[1..], f);
      SwapTwo(r, g, f);
    }
  }

  lemma StillApart(b: seq<Fragment>, j: nat)
    requires j < |b| && AllApart(b)
    ensures AllApart(b[..j] + b[j + 1..])
  {
    var c := b[..j] + b[j + 1..];
    forall i, k | 0 <= i < k < |c|
      ensures Apart(c[i], c[k])
    {
      assert c[i] == b[if i < j then i else i + 1] && c[k] == b[if k < j then k else k + 1];
    }
  }

  lemma MultisetAround<T>(b: seq<T>, j: nat)
    requires j < |b|
    ensures multiset(b) == multiset(b[..j] + b[j + 1..]) + multiset{b[j]}
  {
    assert b == b[..j] + ([b[j]] + b[j + 1..]);
  }

  lemma MultisetHead<T>(a: seq<T>)
    requires a != []
    ensures multiset(a) == multiset(a[1..]) + multiset{a[0]}
  {
    assert a == [a[0]] + a[1..];
  }

  lemma IndexOf<T>(b: seq<T>, x: T) returns (j: nat)
    requires multiset(b)[x] > 0
    ensures j < |b| && b[j] == x
  {
    j :| 0 <= j < |b| && b[j] == x;
  }

  lemma HeadCount<T>(a: seq<T>)
    requires a != []
    ensures multiset(a)[a[0]] > 0
  {
  }

  /** The head of one of two permutations, found in the other and taken out of both. */
  lemma HeadElsewhere<T>(a: seq<T>, b: seq<T>) returns (j: nat)
    requires multiset(a) == multiset(b) && a != []
    ensures j < |b| && b[j] == a[0] && multiset(a[1..]) == multiset(b[..j] + b[j + 1..])
  {
    HeadCount(a);
    j := IndexOf(b, a[0]);
    MultisetHead(a);
    MultisetAround(b, j);
    Cancel(multiset(a[1..]), multiset(b[..j] + b[j + 1..]), a[0]);
  }

  lemma Cancel<T>(x: multiset<T>, y: multiset<T>, e: T)
    requires x + multiset{e} == y + multiset{e}
    ensures x == y
  {
    assert x == (x + multiset{e}) - multiset{e};
    assert y == (y + multiset{e}) - multiset{e};
  }

  /** Fragments that fit and are pairwise apart give the same buffer in every order of arrival. */
  lemma {:induction false} ArrivalOrderIsIrrelevant(r: Reassembler, a: seq<Fragment>, b: seq<Fragment>)
    requires multiset(a) == multiset(b) && AllApart(b) && r.buffered + Sizes(b) <= r.maxBuffer
    ensures AddAll(r, a) == AddAll(r, b)
    decreases |a|
  {
    assert |multiset(a)| == |a| && |multiset(b)| == |b|;
    if a != [] {
      var j := HeadElsewhere(a, b);
      MovedForward(r, b, j);
      StillApart(b, j);
      FitsWithout(r, b, j);
      ArrivalOrderIsIrrelevant(AddFragment(r, a[0].offset, a[0].data), a[1..], b[..j] + b[j + 1..]);
    }
  }

  lemma FitsWithout(r: Reassembler, b: seq<Fragment>, j: nat)
    requires j < |b| && AllApart(b) && r.buffered + Sizes(b) <= r.maxBuffer
    ensures var r' := AddFragment(r, b[j].offset, b[j].data);
            r'.buffered + Sizes(b[..j] + b[j + 1..]) <= r'.maxBuffer
  {
    Around(b, j);
    SizesSplit(b[..j], b[j + 1..]);
  }

  lemma AddsFirst(r: Reassembler, f: Fragment, after: seq<Fragment>)
    ensures AddAll(r, [f] + after) == AddAll(AddFragment(r, f.offset, f.data), after)
  {
    assert ([f] + after)[1..] == after;
  }

  lemma Around(b: seq<Fragment>, j: nat)
    requires j < |b| && AllApart(b)
    ensures b == b[..j] + ([b[j]] + b[j + 1..])
    ensures Sizes(b) == Sizes(b[..j]) + |b[j].data| + Sizes(b[j + 1..])
    ensures forall g :: g in b[..j] ==> Apart(g, b[j])
  {
    assert b == b[..j] + ([b[j]] + b[j + 1..]);
    SizesSplit(b[..j], [b[j]] + b[j + 1..]);
    assert ([b[j]] + b[j + 1..])[1..] == b[j + 1..];
  }

  lemma MovedForward(r: Reassembler, b: seq<Fragment>, j: nat)
    requires j < |b| && AllApart(b) && r.buffered + Sizes(b) <= r.maxBuffer
    ensures AddAll(r, b) == AddAll(AddFragment(r, b[j].offset, b[j].data), b[..j] + b[j + 1..])
  {
    Around(b, j);
    AroundTheMiddle(r, b[..j], b[j], b[j + 1..]);
  }

  lemma AroundTheMiddle(r: Reassembler, before: seq<Fragment>, f: Fragment, after: seq<Fragment>)
    requires (forall g :: g in before ==> Apart(g, f)) && r.buffered + Sizes(before) + |f.data| <= r.maxBuffer
    ensures AddAll(r, before + ([f] + after)) == AddAll(AddFragment(r, f.offset, f.data), before + after)
  {
    AddAllSplits(r, before, [f] + after);
    AddsFirst(AddAll(r, before), f, after);
    LastMayComeFirst(r, before, f);
    AddAllSplits(AddFragment(r, f.offset, f.data), before, after);
  }

  lemma AddKeepsCollisions(r: Reassembler, o1: nat, d1: seq<Byte>, o2: nat, d2: seq<Byte>)
    requires d1 != [] && d2 != [] && o1 != o2 && !Collides(o1, d1, o2, d2)
    ensures CollidesWithAny(AddFragment(r, o1, d1), o2, d2) <==> CollidesWithAny(r, o2, d2)
  {
    var r1 := AddFragment(r, o1, d1);
    if r1 != r {
      if CollidesWithAny(r, o2, d2) {
        var o: nat :| o in r.fragments && Collides(o2, d2, o, r.fragments[o]);
        assert o in r1.fragments;
        assert o != o1;
      }
      if CollidesWithAny(r1, o2, d2) {
        var o: nat :| o in r1.fragments && Collides(o2, d2, o, r1.fragments[o]);
        assert o in r.fragments;
      }
    }
  }
}
