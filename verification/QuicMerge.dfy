/** Merging QUIC packets into one connection: state, reassembly and server-name extraction. */
module QuicMerge {
  import opened Wrappers
  import opened Tls
  import opened CryptoReassembler

  datatype QuicState = Unknown | Initial | Handshaking | Connected | Draining | Closed
  datatype PacketType = InitialPacket | ZeroRtt | Handshake | Retry | VersionNegotiation | OneRtt | UnknownPacket
  datatype CloseInfo = CloseInfo(frameType: nat, errorCode: nat)

  datatype QuicInfo = QuicInfo(
    versionString: Option<string>, packetType: PacketType,
    connectionId: seq<Byte>, connectionIdHex: Option<string>, state: QuicState,
    tls: Option<TlsInfo>, hasCryptoFrame: bool, reassembler: Option<Reassembler>,
    close: Option<CloseInfo>, idleTimeout: Option<nat>)

  /**
   * TLS extraction, which this model leaves open: it sees the reassembler and whether a partial
   * name will do, may record a result in the reassembler, and may find something.
   */
  type Extractor = (Reassembler, bool) -> (Reassembler, Option<TlsInfo>)

  function Priority(s: QuicState): nat {
    match s
    case Unknown => 0
    case Initial => 1
    case Handshaking => 2
    case Connected => 3
    case Draining => 4
    case Closed => 5
  }

  // ---- The merge, stage by stage ----

  function StateAfterClose(c: CloseInfo): QuicState {
    if c.frameType == 0x1c && c.errorCode == 0 then Draining else Closed
  }

  function MergeState(prev: QuicState, next: QuicState, close: Option<CloseInfo>): QuicState {
    if close.Some? then StateAfterClose(close.value)
    else if Priority(next) > Priority(prev) then next else prev
  }

  /** Adds the fragments at offsets below `n`, in ascending order. */
  ghost function MergeFragments(r: Reassembler, frags: map<nat, seq<Byte>>, n: nat): Reassembler {
    if n == 0 then r
    else
      var r' := MergeFragments(r, frags, n - 1);
      if n - 1 in frags then AddFragment(r', n - 1, frags[n - 1]) else r'
  }

  /** A bound above every offset. */
  ghost function Above(offsets: set<nat>): (n: nat)
    ensures forall o :: o in offsets ==> o < n
  {
    if offsets == {} then 0
    else
      var o :| o in offsets;
      var n := Above(offsets - {o});
      assert offsets == offsets - {o} + {o};
      if n > o then n else o + 1
  }

  predicate WantsBetterSni(tls: Option<TlsInfo>) {
    SniOf(tls).None? || HasPartialSni(SniOf(tls))
  }

  /** Re-extraction from the merged fragments: first a complete name, else a partial one. */
  function Reextract(ext: Extractor, r: Reassembler): (Reassembler, Option<TlsInfo>) {
    var (r1, t1) := ext(r, false);
    if t1.Some? then (r1, t1) else ext(r1, true)
  }

  function RetryTls(ext: Extractor, r: Reassembler, tls: Option<TlsInfo>): (Reassembler, Option<TlsInfo>) {
    if !WantsBetterSni(tls) then (r, tls)
    else var (r', t) := Reextract(ext, r); (r', if t.Some? then t else tls)
  }

  function TakeCached(tls: Option<TlsInfo>, cached: Option<TlsInfo>): Option<TlsInfo> {
    if cached.Some? && (SniOf(tls).None? || (HasPartialSni(SniOf(tls)) && HasCompleteSni(cached.value.sni)))
    then cached else tls
  }

  function MergeSni(prev: Option<string>, next: Option<string>): Option<string> {
    if prev.None? || (HasPartialSni(prev) && HasCompleteSni(next)) then next else prev
  }

  function MergeTls(prev: Option<TlsInfo>, next: Option<TlsInfo>): Option<TlsInfo> {
    if prev.None? then next
    else if next.None? then prev
    else
      var (o, n) := (prev.value, next.value);
      Some(TlsInfo(FirstOf(o.version, n.version), MergeSni(o.sni, n.sni),
                   if o.alpn == [] then n.alpn else o.alpn, FirstOf(o.cipherSuite, n.cipherSuite)))
  }

  ghost function MergedReassembler(prev: Reassembler, next: Reassembler): Reassembler {
    MergeFragments(prev, next.fragments, Above(next.fragments.Keys))
  }

  /** Reassembly and re-extraction, before the packet's own TLS information is considered. */
  ghost function Reassemble(ext: Extractor, prev: QuicInfo, next: QuicInfo): (Option<Reassembler>, Option<TlsInfo>) {
    if next.reassembler.None? then (prev.reassembler, prev.tls)
    else if prev.reassembler.None? then (next.reassembler, prev.tls)
    else
      var (r, t) := RetryTls(ext, MergedReassembler(prev.reassembler.value, next.reassembler.value), prev.tls);
      (Some(r), TakeCached(t, next.reassembler.value.complete))
  }

  ghost function MergeQuic(ext: Extractor, prev: QuicInfo, next: QuicInfo): QuicInfo {
    var (r, t) := Reassemble(ext, prev, next);
    var takeId := prev.connectionId == [] && next.connectionId != [];
    QuicInfo(
      FirstOf(prev.versionString, next.versionString), next.packetType,
      if takeId then next.connectionId else prev.connectionId,
      if takeId then next.connectionIdHex else prev.connectionIdHex,
      MergeState(prev.state, next.state, next.close),
      MergeTls(t, next.tls), prev.hasCryptoFrame || next.hasCryptoFrame, r,
      FirstOf(next.close, prev.close), FirstOf(next.idleTimeout, prev.idleTimeout))
  }

  // ---- The merge, statement by statement ----

  method LeastOf(s: set<nat>) returns (m: nat)
    requires s != {}
    ensures m in s && forall x :: x in s ==> m <= x
  {
    m :| m in s;
    var rest := s - {m};
    while rest != {}
      invariant rest <= s && m in s
      invariant forall x :: x in s && x !in rest ==> m <= x
      decreases rest
    {
      var x: nat :| x in rest;
      if x < m {
        m := x;
      }
      rest := rest - {x};
    }
  }

  lemma {:induction false} MergeSkipsGaps(r: Reassembler, frags: map<nat, seq<Byte>>, m: nat, n: nat)
    requires m <= n && forall o :: o in frags ==> !(m <= o < n)
    ensures MergeFragments(r, frags, m) == MergeFragments(r, frags, n)
  {
    if m < n {
      MergeSkipsGaps(r, frags, m, n - 1);
    }
  }

  method MergeFragmentsInto(prev: Reassembler, frags: map<nat, seq<Byte>>) returns (r: Reassembler)
    ensures r == MergeFragments(prev, frags, Above(frags.Keys))
  {
    r := prev;
    var rest := frags.Keys;
    ghost var done: nat := 0;
    while rest != {}
      invariant rest <= frags.Keys
      invariant r == MergeFragments(prev, frags, done)
      invariant forall o :: o in frags ==> (o in rest <==> o >= done)
      decreases rest
    {
      var o := LeastOf(rest);
      MergeSkipsGaps(prev, frags, done, o);
      var ok;
      r, ok := AddFragmentInto(r, o, frags[o]);
      rest := rest - {o};
      done := o + 1;
    }
    if done <= Above(frags.Keys) {
      MergeSkipsGaps(prev, frags, done, Above(frags.Keys));
    } else {
      MergeSkipsGaps(prev, frags, Above(frags.Keys), done);
    }
  }

  method ReassembleInto(ext: Extractor, prev: Reassembler, next: Reassembler, known: Option<TlsInfo>)
    returns (r: Option<Reassembler>, tls: Option<TlsInfo>)
    ensures var (m, t) := RetryTls(ext, MergedReassembler(prev, next), known);
            r == Some(m) && tls == TakeCached(t, next.complete)
  {
    var merged := MergeFragmentsInto(prev, next.fragments);
    tls := known;
    if WantsBetterSni(tls) {
      var (r1, complete) := ext(merged, false);
      merged := r1;
      if complete.Some? {
        tls := complete;
      } else {
        var (r2, partial) := ext(merged, true);
        merged := r2;
        if partial.Some? {
          tls := partial;
        }
      }
    }
    if next.complete.Some? {
      var newIsComplete := HasCompleteSni(next.complete.value.sni);
      if tls.None? || tls.value.sni.None? || (HasPartialSni(tls.value.sni) && newIsComplete) {
        tls := next.complete;
      }
    }
    r := Some(merged);
  }

  method MergeQuicInfo(ext: Extractor, prev: QuicInfo, next: QuicInfo) returns (info: QuicInfo)
    ensures info == MergeQuic(ext, prev, next)
  {
    var QuicInfo(version, packetType, id, hex, state, tls, hasCrypto, r, close, idle) := prev;
    if Priority(next.state) > Priority(state) {
      state := next.state;
    }
    packetType := next.packetType;
    if id == [] && next.connectionId != [] {
      id := next.connectionId;
      hex := next.connectionIdHex;
    }
    if version.None? && next.versionString.Some? {
      version := next.versionString;
    }
    if next.reassembler.Some? {
      if r.None? {
        r := next.reassembler;
      } else {
        r, tls := ReassembleInto(ext, r.value, next.reassembler.value, tls);
      }
    }
    tls := MergePacketTls(tls, next.tls);
    if next.hasCryptoFrame {
      hasCrypto := true;
    }
    if next.close.Some? {
      close := next.close;
      state := StateAfterClose(next.close.value);
    }
    if next.idleTimeout.Some? {
      idle := next.idleTimeout;
    }
    info := QuicInfo(version, packetType, id, hex, state, tls, hasCrypto, r, close, idle);
  }

  /** The packet's own TLS information: only fields that are missing or partial are taken. */
  function MergePacketTls(prev: Option<TlsInfo>, next: Option<TlsInfo>): (r: Option<TlsInfo>)
    ensures r == MergeTls(prev, next)
  {
    match (prev, next)
    case (None, Some(n)) => Some(n)
    case (Some(o), Some(n)) =>
      var sni := if o.sni.None? && n.sni.Some? then n.sni
                 else if HasPartialSni(o.sni) && n.sni.Some? && !HasPartialSni(n.sni) then n.sni
                 else o.sni;
      var alpn := if o.alpn == [] && n.alpn != [] then n.alpn else o.alpn;
      var version := if o.version.None? && n.version.Some? then n.version else o.version;
      var suite := if o.cipherSuite.None? && n.cipherSuite.Some? then n.cipherSuite else o.cipherSuite;
      Some(TlsInfo(version, sni, alpn, suite))
    case _ => prev
  }

  /** What storing a non-empty fragment keeps, merging the rest of a packet's fragments keeps. */
  lemma {:induction false} MergeKeeps(
    r: Reassembler, frags: map<nat, seq<Byte>>, k: nat, n: nat, p: Reassembler -> bool)
    requires k <= n && p(MergeFragments(r, frags, k)) && forall o :: o in frags ==> frags[o] != []
    requires forall m, o, d {:trigger AddFragment(m, o, d)} :: p(m) && d != [] ==> p(AddFragment(m, o, d))
    ensures p(MergeFragments(r, frags, n))
    decreases n
  {
    if k < n {
      MergeKeeps(r, frags, k, n - 1, p);
    }
  }

  /**
   * Merging the fragments of a packet into a connection's buffer never overlaps two fragments,
   * never stores more than the limit and never changes or loses a handshake byte already there.
   */
  lemma MergeKeepsBytes(r: Reassembler, frags: map<nat, seq<Byte>>, n: nat, pos: nat, b: Byte)
    requires CryptoReassembler.Valid(r) && forall o :: o in frags ==> frags[o] != []
    ensures KeepsBytes(r, MergeFragments(r, frags, n), pos, b)
  {
    var keeps: Reassembler -> bool := m => KeepsBytes(r, m, pos, b);
    forall m, o, d {:trigger AddFragment(m, o, d)} | keeps(m) && d != []
      ensures keeps(AddFragment(m, o, d))
    {
      ThenAdd(r, m, o, d, pos, b);
    }
    MergeKeeps(r, frags, 0, n, keeps);
  }

  // ---- A packet's own bytes arrive ----

  function Below(frags: map<nat, seq<Byte>>, n: nat): map<nat, seq<Byte>> { map o | o in frags && o < n :: frags[o] }

  lemma BelowGrows(frags: map<nat, seq<Byte>>, n: nat)
    ensures StoredBytes(Below(frags, n + 1))
         == StoredBytes(Below(frags, n)) + if n in frags then |frags[n]| else 0
  {
    if n in frags {
      StoredAfter(Below(frags, n), n, frags[n]);
      assert Below(frags, n + 1) == Below(frags, n)[n := frags[n]];
    } else {
      assert Below(frags, n + 1) == Below(frags, n);
    }
  }

  /** The buffer `m` holds fragments of `r` and of the packet's below `n`, and no more than they take. */
  ghost predicate MadeOf(m: Reassembler, r: Reassembler, frags: map<nat, seq<Byte>>, n: nat) {
    && (forall x :: x in m.fragments ==>
          (x in r.fragments && m.fragments[x] == r.fragments[x]) || (x in frags && x < n && m.fragments[x] == frags[x]))
    && m.buffered <= r.buffered + StoredBytes(Below(frags, n))
    && m.maxBuffer == r.maxBuffer
  }

  lemma StillMadeOf(m: Reassembler, r: Reassembler, frags: map<nat, seq<Byte>>, n: nat)
    requires MadeOf(m, r, frags, n)
    ensures MadeOf(if n in frags then AddFragment(m, n, frags[n]) else m, r, frags, n + 1)
  {
    BelowGrows(frags, n);
  }

  lemma {:induction false} MergeIsMadeOf(r: Reassembler, frags: map<nat, seq<Byte>>, n: nat)
    ensures MadeOf(MergeFragments(r, frags, n), r, frags, n)
  {
    if n == 0 {
      assert Below(frags, 0) == map[];
    } else {
      MergeIsMadeOf(r, frags, n - 1);
      StillMadeOf(MergeFragments(r, frags, n - 1), r, frags, n - 1);
    }
  }

  /** The packet's fragment at `o` fits beside those of `r`, and so it is stored when its turn comes. */
  lemma {:induction false} StoredInTurn(r: Reassembler, frags: map<nat, seq<Byte>>, o: nat, i: nat)
    requires o in frags && i < |frags[o]| && r.buffered + StoredBytes(frags) <= r.maxBuffer
    requires forall x :: x in r.fragments ==> o + |frags[o]| <= x || x + |r.fragments[x]| <= o
    requires forall x, y :: x in frags && y in frags && x < y ==> x + |frags[x]| <= y
    ensures Holds(MergeFragments(r, frags, o + 1), o + i, frags[o][i])
  {
    var m := MergeFragments(r, frags, o);
    MergeIsMadeOf(r, frags, o);
    BelowGrows(frags, o);
    StoredPart(Below(frags, o + 1), frags);
    AddedBytesArrive(m, o, frags[o], i);
  }

  /** What is held after `k` offsets is held after all of them. */
  lemma StaysHeld(r: Reassembler, frags: map<nat, seq<Byte>>, k: nat, n: nat, pos: nat, b: Byte)
    requires CryptoReassembler.Valid(r) && (forall o :: o in frags ==> frags[o] != []) && k <= n
    requires Holds(MergeFragments(r, frags, k), pos, b)
    ensures Holds(MergeFragments(r, frags, n), pos, b)
  {
    MergeKeepsBytes(r, frags, k, pos, b);
    var held: Reassembler -> bool := m => CryptoReassembler.Valid(m) && Holds(m, pos, b);
    forall m, o, d {:trigger AddFragment(m, o, d)} | held(m) && d != []
      ensures held(AddFragment(m, o, d))
    {
      AddKeepsBytes(m, o, d, pos, b);
    }
    MergeKeeps(r, frags, k, n, held);
  }

  /** Where the packet's buffer has a fragment that overlaps nothing in the connection's. */
  ghost predicate BringsNew(prev: Reassembler, next: Reassembler, o: nat) {
    && o in next.fragments
    && forall x :: x in prev.fragments ==> o + |next.fragments[o]| <= x || x + |prev.fragments[x]| <= o
  }

  /** Every byte of a fragment that is new to the connection arrives, as long as the packet's fragments fit. */
  lemma PacketBytesMerged(prev: Reassembler, next: Reassembler, o: nat, i: nat)
    requires Proper(prev) && Proper(next) && prev.buffered + next.buffered <= prev.maxBuffer
    requires BringsNew(prev, next, o) && i < |next.fragments[o]|
    ensures Holds(MergedReassembler(prev, next), o + i, next.fragments[o][i])
  {
    var frags := next.fragments;
    StoredInTurn(prev, frags, o, i);
    StaysHeld(prev, frags, o + 1, Above(frags.Keys), o + i, frags[o][i]);
  }

  // ---- Whole runs ----

  /** The record after merging all packets into the first one's. */
  ghost function Run(ext: Extractor, first: QuicInfo, packets: seq<QuicInfo>): QuicInfo {
    if packets == [] then first
    else MergeQuic(ext, Run(ext, first, packets[..|packets| - 1]), packets[|packets| - 1])
  }

  /** The stages of a connection, in order. */
  const STAGES: seq<QuicState> := [Unknown, Initial, Handshaking, Connected, Draining, Closed]

  /** A packet that closes nothing moves the connection on to its own stage, or not at all. */
  lemma StagesInOrder(ext: Extractor, prev: QuicInfo, next: QuicInfo, i: nat, j: nat)
    requires i < |STAGES| && j < |STAGES| && prev.state == STAGES[i] && next.state == STAGES[j] && next.close.None?
    ensures MergeQuic(ext, prev, next).state == STAGES[if i < j then j else i]
  {
  }

  /** The better of two server names, the first if they are as good. */
  function Better(a: Option<string>, b: Option<string>): Option<string> { if SniRank(b) > SniRank(a) then b else a }

  lemma BetterNameIsKept(a: Option<TlsInfo>, b: Option<TlsInfo>)
    ensures SniOf(MergeTls(a, b)) == Better(SniOf(a), SniOf(b))
    ensures SniOf(TakeCached(a, b)) == Better(SniOf(a), SniOf(b))
  {
  }

  /**
   * Where the server name after a merge comes from. With fragments on both sides a name that is
   * not complete is looked for again in the merged fragments, completely first and then partially;
   * after that the best of it, the packet's remembered name and the packet's own name counts.
   */
  lemma ServerNameLaw(ext: Extractor, prev: QuicInfo, next: QuicInfo)
    ensures var (known, own, merged) := (SniOf(prev.tls), SniOf(next.tls), SniOf(MergeQuic(ext, prev, next).tls));
            if prev.reassembler.None? || next.reassembler.None? then merged == Better(known, own)
            else
              var complete := ext(MergedReassembler(prev.reassembler.value, next.reassembler.value), false);
              var answer := if complete.1.Some? then complete.1 else ext(complete.0, true).1;
              var found := if HasCompleteSni(known) || answer.None? then known else SniOf(answer);
              merged == Better(Better(found, SniOf(next.reassembler.value.complete)), own)
  {
    BetterNameIsKept(Reassemble(ext, prev, next).1, next.tls);
    if prev.reassembler.Some? && next.reassembler.Some? {
      var merged := MergedReassembler(prev.reassembler.value, next.reassembler.value);
      BetterNameIsKept(RetryTls(ext, merged, prev.tls).1, next.reassembler.value.complete);
    }
  }

  /**
   * The rest of the TLS information. An answer found in the merged fragments replaces all that is
   * known, and so does what the packet's buffer remembers if its name is better or none is known
   * yet; the packet's own information only fills in what is then missing, field by field.
   */
  lemma TlsSourceLaw(ext: Extractor, prev: QuicInfo, next: QuicInfo)
    ensures var (r, own) := (MergeQuic(ext, prev, next).tls, next.tls);
            var base :=
              if prev.reassembler.None? || next.reassembler.None? then prev.tls
              else
                var complete := ext(MergedReassembler(prev.reassembler.value, next.reassembler.value), false);
                var answer := if complete.1.Some? then complete.1 else ext(complete.0, true).1;
                var found := if HasCompleteSni(SniOf(prev.tls)) || answer.None? then prev.tls else answer;
                var cached := next.reassembler.value.complete;
                if cached.Some? && (SniRank(SniOf(cached)) > SniRank(SniOf(found)) || SniOf(found).None?)
                then cached else found;
            if base.None? then r == own
            else if own.None? then r == base
            else
              && r.Some?
              && r.value.version == (if base.value.version.Some? then base.value.version else own.value.version)
              && r.value.alpn == (if base.value.alpn != [] then base.value.alpn else own.value.alpn)
              && r.value.cipherSuite
                 == (if base.value.cipherSuite.Some? then base.value.cipherSuite else own.value.cipherSuite)
  {
  }

  function Progress(s: QuicState): nat { if Priority(s) < 4 then Priority(s) else 4 }

  /**
   * The state never falls back below Draining and never moves backward before it, whatever
   * arrives: Draining and Closed together are absorbing, as sections 10.2 and 19.19 of RFC 9000
   * ask of a closed connection.
   */
  lemma {:induction false} ProgressNeverFalls(ext: Extractor, first: QuicInfo, packets: seq<QuicInfo>, k: nat)
    requires k <= |packets|
    ensures Progress(Run(ext, first, packets[..k]).state) <= Progress(Run(ext, first, packets).state)
  {
    if k < |packets| {
      var init := packets[..|packets| - 1];
      assert init[..k] == packets[..k];
      ProgressNeverFalls(ext, first, init, k);
    } else {
      assert packets[..k] == packets;
    }
  }

  /** An error-free transport close, the only one that ends in Draining. */
  predicate ClosesWithoutError(p: QuicInfo) { p.close.Some? && p.close.value == CloseInfo(0x1c, 0) }

  /** Within the absorbing pair the order is not kept: a merge loses ground exactly like this. */
  lemma ClosedCanReturnToDraining(ext: Extractor, prev: QuicInfo, next: QuicInfo)
    ensures Priority(MergeQuic(ext, prev, next).state) < Priority(prev.state)
       <==> prev.state.Closed? && ClosesWithoutError(next)
  {
  }

  /** The priority of the state after the first `k` packets. */
  ghost function PriorityAt(ext: Extractor, first: QuicInfo, packets: seq<QuicInfo>, k: nat): nat
    requires k <= |packets|
  {
    Priority(Run(ext, first, packets[..k]).state)
  }

  /** Packet number `k` closes without error a connection that is already Closed. */
  ghost predicate Reopens(ext: Extractor, first: QuicInfo, packets: seq<QuicInfo>, k: nat)
    requires k < |packets|
  {
    Run(ext, first, packets[..k]).state.Closed? && ClosesWithoutError(packets[k])
  }

  lemma FallsAtReopening(ext: Extractor, first: QuicInfo, packets: seq<QuicInfo>, k: nat)
    requires k < |packets|
    ensures PriorityAt(ext, first, packets, k + 1) < PriorityAt(ext, first, packets, k)
       <==> Reopens(ext, first, packets, k)
  {
    assert packets[..k + 1][..k] == packets[..k];
    ClosedCanReturnToDraining(ext, Run(ext, first, packets[..k]), packets[k]);
  }

  lemma {:induction false} StepsAddUp(ext: Extractor, first: QuicInfo, packets: seq<QuicInfo>, i: nat, j: nat)
    requires i <= j <= |packets|
    requires forall k :: 0 <= k < |packets| ==> !Reopens(ext, first, packets, k)
    ensures PriorityAt(ext, first, packets, i) <= PriorityAt(ext, first, packets, j)
    decreases j
  {
    if i < j {
      StepsAddUp(ext, first, packets, i, j - 1);
      FallsAtReopening(ext, first, packets, j - 1);
    }
  }

  /**
   * Over a whole run the full priority never falls exactly if no error-free transport close
   * arrives while the connection is Closed.
   */
  lemma NeverFallsExactlyWhen(ext: Extractor, first: QuicInfo, packets: seq<QuicInfo>)
    ensures (forall i, j :: 0 <= i <= j <= |packets| ==>
               PriorityAt(ext, first, packets, i) <= PriorityAt(ext, first, packets, j))
       <==> forall k :: 0 <= k < |packets| ==> !Reopens(ext, first, packets, k)
  {
    if k: nat :| k < |packets| && Reopens(ext, first, packets, k) {
      FallsAtReopening(ext, first, packets, k);
    } else {
      forall i, j | 0 <= i <= j <= |packets|
        ensures PriorityAt(ext, first, packets, i) <= PriorityAt(ext, first, packets, j)
      {
        StepsAddUp(ext, first, packets, i, j);
      }
    }
  }

  function MaxPriority(first: QuicInfo, packets: seq<QuicInfo>): nat {
    if packets == [] then Priority(first.state)
    else
      var m, p := MaxPriority(first, packets[..|packets| - 1]), Priority(packets[|packets| - 1].state);
      if p > m then p else m
  }

  /** Without a CONNECTION_CLOSE the run ends in the furthest state seen. */
  lemma {:induction false} EndsInFurthestState(ext: Extractor, first: QuicInfo, packets: seq<QuicInfo>)
    requires forall p :: p in packets ==> p.close.None?
    ensures Priority(Run(ext, first, packets).state) == MaxPriority(first, packets)
  {
    if packets != [] {
      assert packets[|packets| - 1] in packets;
      EndsInFurthestState(ext, first, packets[..|packets| - 1]);
    }
  }

  /** With one, the run ends in the furthest of the last close and the states seen after it. */
  lemma {:induction false} EndsAfterLastClose(
    ext: Extractor, first: QuicInfo, before: seq<QuicInfo>, p: QuicInfo, after: seq<QuicInfo>)
    requires p.close.Some? && forall q :: q in after ==> q.close.None?
    ensures Priority(Run(ext, first, before + [p] + after).state)
         == MaxPriority(p.(state := StateAfterClose(p.close.value)), after)
  {
    var all := before + [p] + after;
    if after == [] {
      assert all[..|before|] == before;
    } else {
      var init, last := after[..|after| - 1], after[|after| - 1];
      assert last in after;
      assert all[..|all| - 1] == before + [p] + init;
      EndsAfterLastClose(ext, first, before, p, init);
    }
  }

  lemma {:induction false} MaxIgnoresOrder(first: QuicInfo, packets: seq<QuicInfo>)
    ensures MaxPriority(first, packets) >= Priority(first.state)
    ensures forall p :: p in packets ==> MaxPriority(first, packets) >= Priority(p.state)
    ensures MaxPriority(first, packets) == Priority(first.state)
            || exists p :: p in packets && MaxPriority(first, packets) == Priority(p.state)
  {
    if packets != [] {
      var init, last := packets[..|packets| - 1], packets[|packets| - 1];
      MaxIgnoresOrder(first, init);
      assert packets == init + [last];
      assert last in packets;
    }
  }

  /** Two arrival orders of the same packets, none closing the connection, end in the same state. */
  lemma StateIgnoresPacketOrder(ext: Extractor, first: QuicInfo, a: seq<QuicInfo>, b: seq<QuicInfo>)
    requires multiset(a) == multiset(b)
    requires forall p :: p in a ==> p.close.None?
    ensures Run(ext, first, a).state == Run(ext, first, b).state
  {
    SameMembers(a, b);
    EndsInFurthestState(ext, first, a);
    EndsInFurthestState(ext, first, b);
    MaxIgnoresOrder(first, a);
    MaxIgnoresOrder(first, b);
    PriorityIsInjective(Run(ext, first, a).state, Run(ext, first, b).state);
  }

  lemma SameMembers<T>(a: seq<T>, b: seq<T>)
    requires multiset(a) == multiset(b)
    ensures forall x :: x in a <==> x in b
  {
    forall x
      ensures x in a <==> x in b
    {
      assert x in a <==> x in multiset(a);
      assert x in b <==> x in multiset(b);
    }
  }

  lemma PriorityIsInjective(s: QuicState, t: QuicState)
    ensures Priority(s) == Priority(t) <==> s == t
  {
  }

  /** A complete server name is never changed again, for any extractor and any later packets. */
  lemma {:induction false} CompleteSniIsKept(ext: Extractor, first: QuicInfo, packets: seq<QuicInfo>, k: nat)
    requires k <= |packets| && HasCompleteSni(SniOf(Run(ext, first, packets[..k]).tls))
    ensures SniOf(Run(ext, first, packets).tls) == SniOf(Run(ext, first, packets[..k]).tls)
  {
    if k < |packets| {
      var init := packets[..|packets| - 1];
      assert init[..k] == packets[..k];
      CompleteSniIsKept(ext, first, init, k);
    } else {
      assert packets[..k] == packets;
    }
  }

  predicate FindsNoName(t: Option<TlsInfo>) { t.Some? && t.value.sni.None? }

  /**
   * A partial name is not safe in the same way. One merge loses ground exactly when it finds a
   * partial name, re-extracts from the merged fragments something that has no name, and neither
   * the packet's cached nor its own TLS information brings one.
   */
  lemma PartialSniIsLostExactlyWhen(ext: Extractor, prev: QuicInfo, next: QuicInfo)
    ensures SniRank(SniOf(MergeQuic(ext, prev, next).tls)) < SniRank(SniOf(prev.tls))
       <==> && HasPartialSni(SniOf(prev.tls))
            && prev.reassembler.Some? && next.reassembler.Some?
            && FindsNoName(Reextract(ext, MergedReassembler(prev.reassembler.value, next.reassembler.value)).1)
            && SniOf(next.reassembler.value.complete).None?
            && SniOf(next.tls).None?
  {
  }

  /** The connection knows a server name, and after one more packet it knows none. */
  ghost predicate LosesName(ext: Extractor, first: QuicInfo, packet: QuicInfo, name: string) {
    SniOf(Run(ext, first, []).tls) == Some(name) && SniOf(Run(ext, first, [packet]).tls) == None
  }

  /** Finds protocol names but no server, and only once the handshake is there from its beginning. */
  function NamesNoServer(r: Reassembler, partial: bool): (Reassembler, Option<TlsInfo>) {
    (r, if 0 in r.fragments then Some(TlsInfo(None, None, ["h3"], None)) else None)
  }

  /**
   * A real loss: a partial name is known from a later fragment, a packet brings the beginning of
   * the handshake, and re-extraction finds protocol names there but no server.
   */
  lemma PartialSniCanBeLost(name: string)
    ensures exists first, packet ::
              && ProperInfo(first) && ProperInfo(packet) && OnlyRemembers(NamesNoServer)
              && LosesName(NamesNoServer, first, packet, name + PARTIAL_SNI_MARKER)
  {
    var start: seq<Byte> := seq(100, _ => 0);
    var late, early := AddFragment(Empty(), 100, [0]), AddFragment(Empty(), 0, start);
    BuiltBuffersAreProper([Fragment(100, [0])]);
    AddsFirst(Empty(), Fragment(100, [0]), []);
    BuiltBuffersAreProper([Fragment(0, start)]);
    AddsFirst(Empty(), Fragment(0, start), []);
    var packet := QuicInfo(None, InitialPacket, [], None, Initial, None, true, Some(early), None, None);
    var known := Some(TlsInfo(None, Some(name + PARTIAL_SNI_MARKER), [], None));
    var first := packet.(tls := known, reassembler := Some(late));
    assert IsPartialSni(name + PARTIAL_SNI_MARKER);
    BeginningArrives(late, early);
    assert [packet][..0] == [];
    PartialSniIsLostExactlyWhen(NamesNoServer, first, packet);
    assert LosesName(NamesNoServer, first, packet, name + PARTIAL_SNI_MARKER);
  }

  lemma BeginningArrives(late: Reassembler, early: Reassembler)
    requires early.fragments.Keys == {0} && late.buffered + |early.fragments[0]| <= late.maxBuffer
    requires forall o :: o in late.fragments ==> o >= |early.fragments[0]| > 0
    ensures 0 in MergedReassembler(late, early).fragments
  {
    var frags := early.fragments;
    MergeSkipsGaps(late, frags, 1, Above(frags.Keys));
    assert MergeFragments(late, frags, 0) == late;
    assert !CollidesWithAny(late, 0, frags[0]);
  }

  // ---- The handshake bytes of a whole connection ----

  /** Extraction reads the fragments and may only remember a result. */
  ghost predicate OnlyRemembers(ext: Extractor) {
    forall r, partial {:trigger ext(r, partial)} ::
      var r' := ext(r, partial).0;
      r'.fragments == r.fragments && r'.buffered == r.buffered && r'.maxBuffer == r.maxBuffer
  }

  ghost predicate ProperInfo(q: QuicInfo) { q.reassembler.Some? ==> Proper(q.reassembler.value) }

  ghost predicate HeldBy(q: QuicInfo, pos: nat, b: Byte) {
    q.reassembler.Some? && Holds(q.reassembler.value, pos, b)
  }

  lemma ReextractOnlyRemembers(ext: Extractor, r: Reassembler, tls: Option<TlsInfo>)
    requires OnlyRemembers(ext)
    ensures var r' := RetryTls(ext, r, tls).0;
            r'.fragments == r.fragments && r'.buffered == r.buffered && r'.maxBuffer == r.maxBuffer
  {
    assert ext(r, false).0.fragments == r.fragments;
    assert ext(ext(r, false).0, true).0.fragments == r.fragments;
  }

  lemma MergeKeepsHandshake(ext: Extractor, prev: QuicInfo, next: QuicInfo, pos: nat, b: Byte)
    requires OnlyRemembers(ext) && ProperInfo(prev) && ProperInfo(next)
    ensures ProperInfo(MergeQuic(ext, prev, next))
    ensures HeldBy(prev, pos, b) ==> HeldBy(MergeQuic(ext, prev, next), pos, b)
  {
    if prev.reassembler.Some? && next.reassembler.Some? {
      var (r, frags) := (prev.reassembler.value, next.reassembler.value.fragments);
      MergeKeepsBytes(r, frags, Above(frags.Keys), pos, b);
      var m := MergedReassembler(r, next.reassembler.value);
      ReextractOnlyRemembers(ext, m, prev.tls);
      assert MergeQuic(ext, prev, next).reassembler == Some(RetryTls(ext, m, prev.tls).0);
      SameFragmentsSameFacts(m, RetryTls(ext, m, prev.tls).0, pos, b);
    }
  }

  /**
   * After a packet the connection holds the packet's handshake bytes: all of them if it held none,
   * and otherwise those of every fragment that overlaps nothing it held, as long as they fit.
   */
  lemma PacketBytesArrive(ext: Extractor, prev: QuicInfo, next: QuicInfo, o: nat, i: nat)
    requires OnlyRemembers(ext) && ProperInfo(prev) && ProperInfo(next) && next.reassembler.Some?
    requires o in next.reassembler.value.fragments && i < |next.reassembler.value.fragments[o]|
    requires prev.reassembler.Some? ==>
               && prev.reassembler.value.buffered + next.reassembler.value.buffered <= prev.reassembler.value.maxBuffer
               && BringsNew(prev.reassembler.value, next.reassembler.value, o)
    ensures HeldBy(MergeQuic(ext, prev, next), o + i, next.reassembler.value.fragments[o][i])
  {
    var b := next.reassembler.value.fragments[o][i];
    if prev.reassembler.Some? {
      PacketBytesMerged(prev.reassembler.value, next.reassembler.value, o, i);
      var m := MergedReassembler(prev.reassembler.value, next.reassembler.value);
      ReextractOnlyRemembers(ext, m, prev.tls);
      SameFragmentsSameFacts(m, RetryTls(ext, m, prev.tls).0, o + i, b);
      assert MergeQuic(ext, prev, next).reassembler == Some(RetryTls(ext, m, prev.tls).0);
    } else {
      assert Holds(next.reassembler.value, o + i, b);
      assert MergeQuic(ext, prev, next).reassembler == next.reassembler;
    }
  }

  lemma SameFragmentsSameFacts(r: Reassembler, r': Reassembler, pos: nat, b: Byte)
    requires r'.fragments == r.fragments && r'.buffered == r.buffered && r'.maxBuffer == r.maxBuffer
    ensures Proper(r') <==> Proper(r)
    ensures Holds(r', pos, b) <==> Holds(r, pos, b)
  {
  }

  /**
   * The first write wins over the whole life of a connection, without exception: whatever packets
   * the parser builds arrive, a handshake byte once received stays as it is, and the connection
   * never stores more than its limit.
   */
  lemma {:induction false} HandshakeBytesAreKept(
    ext: Extractor, first: QuicInfo, packets: seq<QuicInfo>, k: nat, pos: nat, b: Byte)
    requires OnlyRemembers(ext) && ProperInfo(first) && (forall p :: p in packets ==> ProperInfo(p)) && k <= |packets|
    ensures var q := Run(ext, first, packets);
            && ProperInfo(q)
            && (HeldBy(Run(ext, first, packets[..k]), pos, b) ==> HeldBy(q, pos, b))
            && (q.reassembler.Some? ==>
                  StoredBytes(q.reassembler.value.fragments) <= q.reassembler.value.maxBuffer)
  {
    if packets != [] {
      var n := |packets| - 1;
      var init, last := packets[..n], packets[n];
      assert packets == init + [last];
      if k <= n {
        assert init[..k] == packets[..k];
        HandshakeBytesAreKept(ext, first, init, k, pos, b);
      } else {
        assert packets[..k] == packets;
        HandshakeBytesAreKept(ext, first, init, 0, pos, b);
      }
      MergeKeepsHandshake(ext, Run(ext, first, init), last, pos, b);
    }
  }
}
