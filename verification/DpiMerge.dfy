/** Merging what deep packet inspection finds in later packets of a connection. */
module DpiMerge {
  import opened Wrappers
  import opened Tls
  import opened QuicMerge
  import opened Addresses

  /** The most DNS response addresses one connection accumulates. */
  const MAX_MERGED_RESPONSE_IPS: nat := 64

  datatype HttpInfo = HttpInfo(
    httpVersion: nat, method_: Option<string>, host: Option<string>, path: Option<string>,
    statusCode: Option<nat>, userAgent: Option<string>)

  datatype HttpsInfo = HttpsInfo(tls: Option<TlsInfo>)

  datatype DnsInfo = DnsInfo(
    queryName: Option<string>, queryType: Option<nat>, responseIps: seq<Ip>, isResponse: bool)

  datatype SshState = Banner | KeyExchange | Authentication | SshEstablished

  datatype SshInfo = SshInfo(
    version: Option<nat>, clientSoftware: Option<string>, serverSoftware: Option<string>,
    state: SshState, algorithms: seq<string>, authMethod: Option<string>)

  datatype BitTorrentInfo = BitTorrentInfo(infoHash: Option<string>, client: Option<string>)

  datatype MqttInfo = MqttInfo(
    version: Option<nat>, packetType: nat, clientId: Option<string>, topic: Option<string>, qos: Option<nat>)

  datatype FtpInfo = FtpInfo(
    isRequest: bool, command: Option<string>, args: Option<string>, responseCode: Option<nat>,
    responseMessage: Option<string>, username: Option<string>, serverSoftware: Option<string>,
    systemType: Option<string>)

  /** The protocols whose first packet decides everything; their facts are not looked into. */
  datatype UnmergedProtocol = Ntp | Mdns | Llmnr | Dhcp | Snmp | Ssdp | NetBios | Stun

  datatype Application =
    | Http(http: HttpInfo) | Https(https: HttpsInfo) | Dns(dns: DnsInfo) | Ssh(ssh: SshInfo)
    | Quic(quic: QuicInfo) | BitTorrent(torrent: BitTorrentInfo) | Mqtt(mqtt: MqttInfo)
    | Ftp(ftp: FtpInfo) | Unmerged(protocol: UnmergedProtocol, facts: string)

  /** The record after merging later packets into the first one's. */
  function Fold<R>(merge: (R, R) -> R, first: R, packets: seq<R>): R {
    if packets == [] then first else merge(Fold(merge, first, packets[..|packets| - 1]), packets[|packets| - 1])
  }

  // ---- Records without loops ----

  function MergeHttp(a: HttpInfo, b: HttpInfo): HttpInfo {
    HttpInfo(a.httpVersion, FirstOf(a.method_, b.method_), FirstOf(a.host, b.host), FirstOf(a.path, b.path),
             FirstOf(a.statusCode, b.statusCode), FirstOf(a.userAgent, b.userAgent))
  }

  /** Fields are filled one by one, a partial server name included: no name replaces another. */
  function MergeHttps(a: HttpsInfo, b: HttpsInfo): HttpsInfo {
    if a.tls.None? then b
    else if b.tls.None? then a
    else
      var (o, n) := (a.tls.value, b.tls.value);
      HttpsInfo(Some(TlsInfo(FirstOf(o.version, n.version), FirstOf(o.sni, n.sni),
                             if o.alpn == [] then n.alpn else o.alpn, FirstOf(o.cipherSuite, n.cipherSuite))))
  }

  function MergeBitTorrent(a: BitTorrentInfo, b: BitTorrentInfo): BitTorrentInfo {
    BitTorrentInfo(FirstOf(a.infoHash, b.infoHash), FirstOf(a.client, b.client))
  }

  function MergeMqtt(a: MqttInfo, b: MqttInfo): MqttInfo {
    MqttInfo(FirstOf(a.version, b.version), b.packetType, FirstOf(a.clientId, b.clientId),
             FirstOf(a.topic, b.topic), FirstOf(a.qos, b.qos))
  }

  /** Identity is first-wins, dialog state is latest-wins. */
  function MergeFtp(a: FtpInfo, b: FtpInfo): FtpInfo {
    FtpInfo(b.isRequest, FirstOf(b.command, a.command), FirstOf(b.args, a.args),
            FirstOf(b.responseCode, a.responseCode), FirstOf(b.responseMessage, a.responseMessage),
            FirstOf(a.username, b.username), FirstOf(a.serverSoftware, b.serverSoftware),
            FirstOf(a.systemType, b.systemType))
  }

  // ---- DNS ----

  function AddIp(ips: seq<Ip>, ip: Ip): seq<Ip> {
    if |ips| >= MAX_MERGED_RESPONSE_IPS || ip in ips then ips else ips + [ip]
  }

  function AddIps(ips: seq<Ip>, more: seq<Ip>): seq<Ip> {
    if more == [] then ips else AddIp(AddIps(ips, more[..|more| - 1]), more[|more| - 1])
  }

  function MergeDns(a: DnsInfo, b: DnsInfo): DnsInfo {
    DnsInfo(FirstOf(a.queryName, b.queryName), FirstOf(a.queryType, b.queryType),
            AddIps(a.responseIps, b.responseIps), a.isResponse || b.isResponse)
  }

  lemma {:induction false} FullStaysFull(ips: seq<Ip>, more: seq<Ip>)
    requires |ips| >= MAX_MERGED_RESPONSE_IPS
    ensures AddIps(ips, more) == ips
  {
    if more != [] {
      FullStaysFull(ips, more[..|more| - 1]);
    }
  }

  lemma {:induction false} AddIpsSplits(ips: seq<Ip>, a: seq<Ip>, b: seq<Ip>)
    ensures AddIps(ips, a + b) == AddIps(AddIps(ips, a), b)
  {
    if b == [] {
      assert a + b == a;
    } else {
      assert (a + b)[..|a + b| - 1] == a + b[..|b| - 1];
      AddIpsSplits(ips, a, b[..|b| - 1]);
    }
  }

  method MergeDnsInfo(prev: DnsInfo, next: DnsInfo) returns (info: DnsInfo)
    ensures info == MergeDns(prev, next)
  {
    info := prev;
    if info.queryName.None? && next.queryName.Some? {
      info := info.(queryName := next.queryName);
    }
    if info.queryType.None? && next.queryType.Some? {
      info := info.(queryType := next.queryType);
    }
    var ips, i := info.responseIps, 0;
    while i < |next.responseIps|
      invariant 0 <= i <= |next.responseIps|
      invariant ips == AddIps(prev.responseIps, next.responseIps[..i])
    {
      if |ips| >= MAX_MERGED_RESPONSE_IPS {
        AddIpsSplits(prev.responseIps, next.responseIps[..i], next.responseIps[i..]);
        FullStaysFull(ips, next.responseIps[i..]);
        assert next.responseIps[..i] + next.responseIps[i..] == next.responseIps;
        break;
      }
      assert next.responseIps[..i + 1][..i] == next.responseIps[..i];
      if next.responseIps[i] !in ips {
        ips := ips + [next.responseIps[i]];
      }
      i := i + 1;
    }
    assert i == |next.responseIps| ==> next.responseIps[..i] == next.responseIps;
    info := info.(responseIps := ips);
    if next.isResponse {
      info := info.(isResponse := true);
    }
  }

  function AllIps(packets: seq<DnsInfo>): seq<Ip> {
    if packets == [] then [] else AllIps(packets[..|packets| - 1]) + packets[|packets| - 1].responseIps
  }

  /** The first occurrences, in order. */
  function Dedup(s: seq<Ip>): seq<Ip> {
    if s == [] then []
    else var d, x := Dedup(s[..|s| - 1]), s[|s| - 1]; if x in d then d else d + [x]
  }

  function Capped(s: seq<Ip>): seq<Ip> {
    if |s| <= MAX_MERGED_RESPONSE_IPS then s else s[..MAX_MERGED_RESPONSE_IPS]
  }

  lemma {:induction false} DedupIsDistinct(s: seq<Ip>)
    ensures Distinct(Dedup(s))
    ensures Distinct(s) ==> Dedup(s) == s
    ensures forall x :: x in Dedup(s) <==> x in s
  {
    if s != [] {
      var n := |s| - 1;
      DedupIsDistinct(s[..n]);
      assert s == s[..n] + [s[n]];
    }
  }

  lemma {:induction false} AddIpsIsCappedDedup(a: seq<Ip>, b: seq<Ip>)
    ensures AddIps(Capped(Dedup(a)), b) == Capped(Dedup(a + b))
  {
    if b == [] {
      assert a + b == a;
    } else {
      var n := |b| - 1;
      AddIpsIsCappedDedup(a, b[..n]);
      assert (a + b)[..|a + b| - 1] == a + b[..n];
    }
  }

  lemma {:induction false} AddIpsKeepsPrefix(ips: seq<Ip>, more: seq<Ip>)
    ensures ips <= AddIps(ips, more)
  {
    if more != [] {
      AddIpsKeepsPrefix(ips, more[..|more| - 1]);
    }
  }

  lemma {:induction false} RunDnsIps(first: DnsInfo, packets: seq<DnsInfo>)
    ensures Fold(MergeDns, first, packets).responseIps == AddIps(first.responseIps, AllIps(packets))
  {
    if packets != [] {
      var init, last := packets[..|packets| - 1], packets[|packets| - 1];
      RunDnsIps(first, init);
      AddIpsSplits(first.responseIps, AllIps(init), last.responseIps);
    }
  }

  /**
   * For every packet sequence: the accumulated addresses are the first 64 distinct ones in order
   * of arrival, exactly if the first packet's own list already was distinct and within the cap.
   */
  lemma ResponseIpsLaw(first: DnsInfo, packets: seq<DnsInfo>)
    ensures Fold(MergeDns, first, packets).responseIps == Capped(Dedup(first.responseIps + AllIps(packets)))
       <==> Distinct(first.responseIps) && |first.responseIps| <= MAX_MERGED_RESPONSE_IPS
  {
    var f, rest := first.responseIps, AllIps(packets);
    RunDnsIps(first, packets);
    DedupIsDistinct(f);
    DedupIsDistinct(f + rest);
    AddIpsKeepsPrefix(f, rest);
    if Distinct(f) && |f| <= MAX_MERGED_RESPONSE_IPS {
      AddIpsIsCappedDedup(f, rest);
    }
  }

  // ---- SSH ----

  function SshRank(s: SshState): nat {
    match s
    case Banner => 0
    case KeyExchange => 1
    case Authentication => 2
    case SshEstablished => 3
  }

  function AddNew(algos: seq<string>, more: seq<string>): seq<string> {
    if more == [] then algos
    else
      var a, x := AddNew(algos, more[..|more| - 1]), more[|more| - 1];
      if x in a then a else a + [x]
  }

  /** The packet carries the negotiated algorithms. */
  predicate Negotiated(s: SshInfo) { s.state.SshEstablished? && s.algorithms != [] }

  function MergeSshState(a: SshState, b: SshState): SshState {
    match (a, b)
    case (Banner, _) => b
    case (KeyExchange, Authentication) => b
    case (KeyExchange, SshEstablished) => b
    case (Authentication, SshEstablished) => b
    case _ => a
  }

  function MergeSsh(a: SshInfo, b: SshInfo): SshInfo {
    SshInfo(FirstOf(a.version, b.version), FirstOf(a.clientSoftware, b.clientSoftware),
            FirstOf(a.serverSoftware, b.serverSoftware), MergeSshState(a.state, b.state),
            if Negotiated(b) then b.algorithms else AddNew(a.algorithms, b.algorithms),
            FirstOf(a.authMethod, b.authMethod))
  }

  method AddNewInto(algos: seq<string>, more: seq<string>) returns (r: seq<string>)
    ensures r == AddNew(algos, more)
  {
    r := algos;
    for i := 0 to |more|
      invariant r == AddNew(algos, more[..i])
    {
      assert more[..i + 1][..i] == more[..i];
      if more[i] !in r {
        r := r + [more[i]];
      }
    }
    assert more[..|more|] == more;
  }

  method MergeSshInfo(prev: SshInfo, next: SshInfo) returns (info: SshInfo)
    ensures info == MergeSsh(prev, next)
  {
    var SshInfo(version, client, server, state, algorithms, auth) := prev;
    if version.None? && next.version.Some? {
      version := next.version;
    }
    if client.None? && next.clientSoftware.Some? {
      client := next.clientSoftware;
    }
    if server.None? && next.serverSoftware.Some? {
      server := next.serverSoftware;
    }
    state := MergeSshState(state, next.state);
    if next.state.SshEstablished? && next.algorithms != [] {
      algorithms := next.algorithms;
    } else {
      algorithms := AddNewInto(algorithms, next.algorithms);
    }
    if auth.None? && next.authMethod.Some? {
      auth := next.authMethod;
    }
    info := SshInfo(version, client, server, state, algorithms, auth);
  }

  /** The session ends in the furthest stage any packet showed. */
  lemma {:induction false} SshEndsFurthest(first: SshInfo, packets: seq<SshInfo>)
    ensures forall p :: p in [first] + packets ==> SshRank(p.state) <= SshRank(Fold(MergeSsh, first, packets).state)
    ensures exists p :: p in [first] + packets && p.state == Fold(MergeSsh, first, packets).state
  {
    if packets == [] {
      assert first in [first] + packets;
    } else {
      var init, last := packets[..|packets| - 1], packets[|packets| - 1];
      SshEndsFurthest(first, init);
      assert [first] + packets == ([first] + init) + [last];
      var p :| p in [first] + init && p.state == Fold(MergeSsh, first, init).state;
      assert p in [first] + packets && last in [first] + packets;
    }
  }

  /** The stages of an SSH session, in order. */
  const SSH_STAGES: seq<SshState> := [Banner, KeyExchange, Authentication, SshEstablished]

  lemma SshStagesInOrder(a: SshInfo, b: SshInfo, i: nat, j: nat)
    requires i < |SSH_STAGES| && j < |SSH_STAGES| && a.state == SSH_STAGES[i] && b.state == SSH_STAGES[j]
    ensures MergeSsh(a, b).state == SSH_STAGES[if i < j then j else i]
    ensures SshRank(a.state) == i
  {
  }

  function AllAlgorithms(packets: seq<SshInfo>): seq<string> {
    if packets == [] then [] else AllAlgorithms(packets[..|packets| - 1]) + packets[|packets| - 1].algorithms
  }

  lemma {:induction false} AddNewSplits(algos: seq<string>, a: seq<string>, b: seq<string>)
    ensures AddNew(algos, a + b) == AddNew(AddNew(algos, a), b)
  {
    if b == [] {
      assert a + b == a;
    } else {
      assert (a + b)[..|a + b| - 1] == a + b[..|b| - 1];
      AddNewSplits(algos, a, b[..|b| - 1]);
    }
  }

  lemma SshStep(first: SshInfo, packets: seq<SshInfo>, last: SshInfo)
    ensures Fold(MergeSsh, first, packets + [last]).algorithms
         == if Negotiated(last) then last.algorithms
            else AddNew(Fold(MergeSsh, first, packets).algorithms, last.algorithms)
  {
    assert (packets + [last])[..|packets|] == packets;
  }

  lemma AlgorithmsStep(known: seq<string>, packets: seq<SshInfo>, last: SshInfo)
    ensures AddNew(known, AllAlgorithms(packets + [last]))
         == AddNew(AddNew(known, AllAlgorithms(packets)), last.algorithms)
  {
    assert (packets + [last])[..|packets|] == packets;
    AddNewSplits(known, AllAlgorithms(packets), last.algorithms);
  }

  /**
   * The algorithm list forgets everything before the last packet that carried the negotiated
   * algorithms, and is only added to after it: two such packets never merge their lists.
   */
  lemma {:induction false} AlgorithmsRestart(first: SshInfo, before: seq<SshInfo>, p: SshInfo, after: seq<SshInfo>)
    requires Negotiated(p) && forall q :: q in after ==> !Negotiated(q)
    ensures Fold(MergeSsh, first, before + [p] + after).algorithms == AddNew(p.algorithms, AllAlgorithms(after))
    decreases |after|
  {
    if after == [] {
      SshStep(first, before, p);
      assert before + [p] + after == before + [p];
    } else {
      var init, last := after[..|after| - 1], after[|after| - 1];
      assert after == init + [last] && !Negotiated(last);
      AlgorithmsRestart(first, before, p, init);
      assert before + [p] + after == before + [p] + init + [last];
      SshStep(first, before + [p] + init, last);
      AlgorithmsStep(p.algorithms, init, last);
    }
  }

  lemma {:induction false} AddNewLaw(algos: seq<string>, more: seq<string>)
    ensures algos <= AddNew(algos, more)
    ensures forall x :: x in AddNew(algos, more) <==> x in algos || x in more
    ensures Distinct(algos) ==> Distinct(AddNew(algos, more))
    ensures forall i, j :: |algos| <= j < |AddNew(algos, more)| && 0 <= i < j ==>
              AddNew(algos, more)[i] != AddNew(algos, more)[j]
  {
    if more != [] {
      var n := |more| - 1;
      AddNewLaw(algos, more[..n]);
      assert more == more[..n] + [more[n]];
    }
  }

  /** Without such a packet the first list is kept and every new name is taken in once, in order. */
  lemma AlgorithmsAccumulate(first: SshInfo, packets: seq<SshInfo>)
    requires forall q :: q in packets ==> !Negotiated(q)
    ensures var (all, seen) := (Fold(MergeSsh, first, packets).algorithms, AllAlgorithms(packets));
            && all == AddNew(first.algorithms, seen)
            && first.algorithms <= all
            && (forall x :: x in all <==> x in first.algorithms || x in seen)
            && (Distinct(first.algorithms) ==> Distinct(all))
            && (forall i, j :: |first.algorithms| <= j < |all| && 0 <= i < j ==> all[i] != all[j])
  {
    AlgorithmsFold(first, packets);
    AddNewLaw(first.algorithms, AllAlgorithms(packets));
  }

  lemma {:induction false} AlgorithmsFold(first: SshInfo, packets: seq<SshInfo>)
    requires forall q :: q in packets ==> !Negotiated(q)
    ensures Fold(MergeSsh, first, packets).algorithms == AddNew(first.algorithms, AllAlgorithms(packets))
  {
    if packets != [] {
      var init, last := packets[..|packets| - 1], packets[|packets| - 1];
      assert packets == init + [last] && !Negotiated(last);
      AlgorithmsFold(first, init);
      SshStep(first, init, last);
      AlgorithmsStep(first.algorithms, init, last);
    }
  }

  // ---- First-wins and latest-wins over whole runs ----

  /** `v` is the first present value of the field among all records. */
  ghost predicate IsFirst<R, T>(v: Option<T>, field: R -> Option<T>, all: seq<R>) {
    if v.None? then forall i :: 0 <= i < |all| ==> field(all[i]).None?
    else exists i :: 0 <= i < |all| && field(all[i]) == v && forall j :: 0 <= j < i ==> field(all[j]).None?
  }

  ghost predicate IsLatest<R, T>(v: Option<T>, field: R -> Option<T>, all: seq<R>) {
    if v.None? then forall i :: 0 <= i < |all| ==> field(all[i]).None?
    else exists i :: 0 <= i < |all| && field(all[i]) == v && forall j :: i < j < |all| ==> field(all[j]).None?
  }

  lemma FirstExtends<R, T>(v: Option<T>, field: R -> Option<T>, all: seq<R>, x: R)
    requires IsFirst(v, field, all)
    ensures IsFirst(FirstOf(v, field(x)), field, all + [x])
  {
    var all' := all + [x];
    if v.Some? {
      var i :| 0 <= i < |all| && field(all[i]) == v && forall j :: 0 <= j < i ==> field(all[j]).None?;
      assert all'[i] == all[i];
    } else {
      assert all'[|all|] == x;
    }
  }

  lemma LatestExtends<R, T>(v: Option<T>, field: R -> Option<T>, all: seq<R>, x: R)
    requires IsLatest(v, field, all)
    ensures IsLatest(FirstOf(field(x), v), field, all + [x])
  {
    var all' := all + [x];
    if field(x).Some? {
      assert all'[|all|] == x;
    } else if v.Some? {
      var i :| 0 <= i < |all| && field(all[i]) == v && forall j :: i < j < |all| ==> field(all[j]).None?;
      assert all'[i] == all[i];
    }
  }

  lemma {:induction false} FirstWinsLaw<R(!new), T>(
    merge: (R, R) -> R, field: R -> Option<T>, first: R, packets: seq<R>)
    requires forall a, b {:trigger merge(a, b)} :: field(merge(a, b)) == FirstOf(field(a), field(b))
    ensures IsFirst(field(Fold(merge, first, packets)), field, [first] + packets)
  {
    if packets == [] {
      assert ([first] + packets)[0] == first;
    } else {
      var init, last := packets[..|packets| - 1], packets[|packets| - 1];
      FirstWinsLaw(merge, field, first, init);
      var all, r := [first] + init, Fold(merge, first, init);
      assert field(merge(r, last)) == FirstOf(field(r), field(last));
      FirstExtends(field(r), field, all, last);
      assert [first] + packets == all + [last];
      assert Fold(merge, first, packets) == merge(r, last);
    }
  }

  lemma {:induction false} LatestWinsLaw<R(!new), T>(
    merge: (R, R) -> R, field: R -> Option<T>, first: R, packets: seq<R>)
    requires forall a, b {:trigger merge(a, b)} :: field(merge(a, b)) == FirstOf(field(b), field(a))
    ensures IsLatest(field(Fold(merge, first, packets)), field, [first] + packets)
  {
    if packets == [] {
      assert ([first] + packets)[0] == first;
    } else {
      var init, last := packets[..|packets| - 1], packets[|packets| - 1];
      LatestWinsLaw(merge, field, first, init);
      var all, r := [first] + init, Fold(merge, first, init);
      assert field(merge(r, last)) == FirstOf(field(last), field(r));
      LatestExtends(field(r), field, all, last);
      assert [first] + packets == all + [last];
      assert Fold(merge, first, packets) == merge(r, last);
    }
  }

  function FtpUser(f: FtpInfo): Option<string> { f.username }
  function FtpServer(f: FtpInfo): Option<string> { f.serverSoftware }
  function FtpSystem(f: FtpInfo): Option<string> { f.systemType }
  function FtpCommand(f: FtpInfo): Option<string> { f.command }
  function FtpArgs(f: FtpInfo): Option<string> { f.args }
  function FtpCode(f: FtpInfo): Option<nat> { f.responseCode }
  function FtpMessage(f: FtpInfo): Option<string> { f.responseMessage }

  /** Over a whole control connection: who and what is the first seen, the dialog is the latest. */
  lemma FtpFieldLaw(first: FtpInfo, packets: seq<FtpInfo>)
    ensures var (r, all) := (Fold(MergeFtp, first, packets), [first] + packets);
            && IsFirst(r.username, FtpUser, all) && IsFirst(r.serverSoftware, FtpServer, all)
            && IsFirst(r.systemType, FtpSystem, all)
            && IsLatest(r.command, FtpCommand, all) && IsLatest(r.args, FtpArgs, all)
            && IsLatest(r.responseCode, FtpCode, all) && IsLatest(r.responseMessage, FtpMessage, all)
            && r.isRequest == all[|all| - 1].isRequest
  {
    FirstWinsLaw(MergeFtp, FtpUser, first, packets);
    FirstWinsLaw(MergeFtp, FtpServer, first, packets);
    FirstWinsLaw(MergeFtp, FtpSystem, first, packets);
    LatestWinsLaw(MergeFtp, FtpCommand, first, packets);
    LatestWinsLaw(MergeFtp, FtpArgs, first, packets);
    LatestWinsLaw(MergeFtp, FtpCode, first, packets);
    LatestWinsLaw(MergeFtp, FtpMessage, first, packets);
  }

  function HttpMethod(h: HttpInfo): Option<string> { h.method_ }
  function HttpHost(h: HttpInfo): Option<string> { h.host }
  function HttpPath(h: HttpInfo): Option<string> { h.path }
  function HttpStatus(h: HttpInfo): Option<nat> { h.statusCode }
  function HttpAgent(h: HttpInfo): Option<string> { h.userAgent }

  /** A keep-alive connection shows its first request and first response only. */
  lemma HttpFieldLaw(first: HttpInfo, packets: seq<HttpInfo>)
    ensures var (r, all) := (Fold(MergeHttp, first, packets), [first] + packets);
            && IsFirst(r.method_, HttpMethod, all) && IsFirst(r.host, HttpHost, all)
            && IsFirst(r.path, HttpPath, all) && IsFirst(r.statusCode, HttpStatus, all)
            && IsFirst(r.userAgent, HttpAgent, all) && r.httpVersion == first.httpVersion
  {
    FirstWinsLaw(MergeHttp, HttpMethod, first, packets);
    FirstWinsLaw(MergeHttp, HttpHost, first, packets);
    FirstWinsLaw(MergeHttp, HttpPath, first, packets);
    FirstWinsLaw(MergeHttp, HttpStatus, first, packets);
    FirstWinsLaw(MergeHttp, HttpAgent, first, packets);
    HttpVersionStays(first, packets);
  }

  lemma {:induction false} HttpVersionStays(first: HttpInfo, packets: seq<HttpInfo>)
    ensures Fold(MergeHttp, first, packets).httpVersion == first.httpVersion
  {
    if packets != [] {
      HttpVersionStays(first, packets[..|packets| - 1]);
    }
  }

  function HttpsSni(h: HttpsInfo): Option<string> { SniOf(h.tls) }
  function HttpsVersion(h: HttpsInfo): Option<TlsVersion> { if h.tls.Some? then h.tls.value.version else None }
  function HttpsAlpn(h: HttpsInfo): Option<seq<string>> {
    if h.tls.Some? && h.tls.value.alpn != [] then Some(h.tls.value.alpn) else None
  }
  function HttpsSuite(h: HttpsInfo): Option<nat> { if h.tls.Some? then h.tls.value.cipherSuite else None }

  /** Fields of several handshake packets combine; the first server name seen stays. */
  lemma HttpsFieldLaw(first: HttpsInfo, packets: seq<HttpsInfo>)
    ensures var (r, all) := (Fold(MergeHttps, first, packets), [first] + packets);
            && IsFirst(HttpsSni(r), HttpsSni, all) && IsFirst(HttpsVersion(r), HttpsVersion, all)
            && IsFirst(HttpsSuite(r), HttpsSuite, all) && IsFirst(HttpsAlpn(r), HttpsAlpn, all)
  {
    FirstWinsLaw(MergeHttps, HttpsSni, first, packets);
    FirstWinsLaw(MergeHttps, HttpsVersion, first, packets);
    FirstWinsLaw(MergeHttps, HttpsSuite, first, packets);
    FirstWinsLaw(MergeHttps, HttpsAlpn, first, packets);
  }

  function MqttClient(m: MqttInfo): Option<string> { m.clientId }
  function MqttTopic(m: MqttInfo): Option<string> { m.topic }
  function MqttVersion(m: MqttInfo): Option<nat> { m.version }
  function MqttQos(m: MqttInfo): Option<nat> { m.qos }

  lemma MqttFieldLaw(first: MqttInfo, packets: seq<MqttInfo>)
    ensures var (r, all) := (Fold(MergeMqtt, first, packets), [first] + packets);
            && IsFirst(r.clientId, MqttClient, all) && IsFirst(r.topic, MqttTopic, all)
            && IsFirst(r.version, MqttVersion, all) && IsFirst(r.qos, MqttQos, all)
            && r.packetType == all[|all| - 1].packetType
  {
    FirstWinsLaw(MergeMqtt, MqttClient, first, packets);
    FirstWinsLaw(MergeMqtt, MqttTopic, first, packets);
    FirstWinsLaw(MergeMqtt, MqttVersion, first, packets);
    FirstWinsLaw(MergeMqtt, MqttQos, first, packets);
  }

  function DnsName(d: DnsInfo): Option<string> { d.queryName }
  function DnsType(d: DnsInfo): Option<nat> { d.queryType }

  lemma DnsFieldLaw(first: DnsInfo, packets: seq<DnsInfo>)
    ensures var (r, all) := (Fold(MergeDns, first, packets), [first] + packets);
            && IsFirst(r.queryName, DnsName, all) && IsFirst(r.queryType, DnsType, all)
            && (r.isResponse <==> exists d :: d in all && d.isResponse)
  {
    FirstWinsLaw(MergeDns, DnsName, first, packets);
    FirstWinsLaw(MergeDns, DnsType, first, packets);
    SomeResponse(first, packets);
  }

  lemma {:induction false} SomeResponse(first: DnsInfo, packets: seq<DnsInfo>)
    ensures Fold(MergeDns, first, packets).isResponse <==> exists d :: d in [first] + packets && d.isResponse
  {
    if packets == [] {
      assert first in [first] + packets;
    } else {
      var init, last := packets[..|packets| - 1], packets[|packets| - 1];
      SomeResponse(first, init);
      assert [first] + packets == ([first] + init) + [last];
    }
  }

  function SshVersion(s: SshInfo): Option<nat> { s.version }
  function SshClient(s: SshInfo): Option<string> { s.clientSoftware }
  function SshServer(s: SshInfo): Option<string> { s.serverSoftware }
  function SshAuth(s: SshInfo): Option<string> { s.authMethod }

  lemma SshFieldLaw(first: SshInfo, packets: seq<SshInfo>)
    ensures var (r, all) := (Fold(MergeSsh, first, packets), [first] + packets);
            && IsFirst(r.version, SshVersion, all) && IsFirst(r.clientSoftware, SshClient, all)
            && IsFirst(r.serverSoftware, SshServer, all) && IsFirst(r.authMethod, SshAuth, all)
  {
    FirstWinsLaw(MergeSsh, SshVersion, first, packets);
    FirstWinsLaw(MergeSsh, SshClient, first, packets);
    FirstWinsLaw(MergeSsh, SshServer, first, packets);
    FirstWinsLaw(MergeSsh, SshAuth, first, packets);
  }

  function TorrentHash(b: BitTorrentInfo): Option<string> { b.infoHash }
  function TorrentClient(b: BitTorrentInfo): Option<string> { b.client }

  lemma BitTorrentFieldLaw(first: BitTorrentInfo, packets: seq<BitTorrentInfo>)
    ensures var (r, all) := (Fold(MergeBitTorrent, first, packets), [first] + packets);
            IsFirst(r.infoHash, TorrentHash, all) && IsFirst(r.client, TorrentClient, all)
  {
    FirstWinsLaw(MergeBitTorrent, TorrentHash, first, packets);
    FirstWinsLaw(MergeBitTorrent, TorrentClient, first, packets);
  }

  function QuicVersion(q: QuicInfo): Option<string> { q.versionString }
  function QuicId(q: QuicInfo): Option<(seq<Byte>, Option<string>)> {
    if q.connectionId == [] then None else Some((q.connectionId, q.connectionIdHex))
  }
  function QuicClose(q: QuicInfo): Option<CloseInfo> { q.close }
  function QuicIdle(q: QuicInfo): Option<nat> { q.idleTimeout }

  /**
   * Version and connection ID, with its printed form, are the first seen; close frame, idle
   * timeout and packet type the latest; and CRYPTO frames were seen if any packet had one.
   */
  lemma QuicFieldLaw(ext: Extractor, first: QuicInfo, packets: seq<QuicInfo>)
    ensures var (r, all) := (QuicMerge.Run(ext, first, packets), [first] + packets);
            && IsFirst(r.versionString, QuicVersion, all) && IsFirst(QuicId(r), QuicId, all)
            && IsLatest(r.close, QuicClose, all) && IsLatest(r.idleTimeout, QuicIdle, all)
            && r.packetType == all[|all| - 1].packetType
            && (r.hasCryptoFrame <==> exists q :: q in all && q.hasCryptoFrame)
  {
    ghost var merge := (a, b) => MergeQuic(ext, a, b);
    RunIsFold(ext, merge, first, packets);
    FirstWinsLaw(merge, QuicVersion, first, packets);
    FirstWinsLaw(merge, QuicId, first, packets);
    LatestWinsLaw(merge, QuicClose, first, packets);
    LatestWinsLaw(merge, QuicIdle, first, packets);
    SomeCrypto(ext, first, packets);
  }

  lemma {:induction false} SomeCrypto(ext: Extractor, first: QuicInfo, packets: seq<QuicInfo>)
    ensures QuicMerge.Run(ext, first, packets).hasCryptoFrame
       <==> exists q :: q in [first] + packets && q.hasCryptoFrame
  {
    if packets == [] {
      assert first in [first] + packets;
    } else {
      var init, last := packets[..|packets| - 1], packets[|packets| - 1];
      SomeCrypto(ext, first, init);
      assert [first] + packets == ([first] + init) + [last];
    }
  }

  function QuicTlsVersion(q: QuicInfo): Option<TlsVersion> { if q.tls.Some? then q.tls.value.version else None }
  function QuicTlsSuite(q: QuicInfo): Option<nat> { if q.tls.Some? then q.tls.value.cipherSuite else None }
  function QuicTlsAlpn(q: QuicInfo): Option<seq<string>> {
    if q.tls.Some? && q.tls.value.alpn != [] then Some(q.tls.value.alpn) else None
  }
  function CompleteSni(q: QuicInfo): Option<string> { if HasCompleteSni(SniOf(q.tls)) then SniOf(q.tls) else None }

  /**
   * The TLS information of packets without fragments: version, protocol names and cipher suite
   * are the first seen, and so is the complete server name, whatever partial ones came before.
   */
  lemma QuicTlsLaw(ext: Extractor, first: QuicInfo, packets: seq<QuicInfo>)
    requires forall p :: p in packets ==> p.reassembler.None?
    ensures var (r, all) := (QuicMerge.Run(ext, first, packets), [first] + packets);
            && IsFirst(QuicTlsVersion(r), QuicTlsVersion, all) && IsFirst(QuicTlsSuite(r), QuicTlsSuite, all)
            && IsFirst(QuicTlsAlpn(r), QuicTlsAlpn, all) && IsFirst(CompleteSni(r), CompleteSni, all)
  {
    ghost var merge := (a, b: QuicInfo) => MergeQuic(ext, a, b.(reassembler := None));
    RunWithoutFragments(ext, merge, first, packets);
    PlainVersion(ext, merge, first, packets);
    PlainAlpn(ext, merge, first, packets);
    PlainName(ext, merge, first, packets);
  }

  lemma PlainVersion(ext: Extractor, merge: (QuicInfo, QuicInfo) -> QuicInfo, first: QuicInfo, packets: seq<QuicInfo>)
    requires forall a, b {:trigger merge(a, b)} :: merge(a, b) == MergeQuic(ext, a, b.(reassembler := None))
    ensures var (r, all) := (Fold(merge, first, packets), [first] + packets);
            IsFirst(QuicTlsVersion(r), QuicTlsVersion, all) && IsFirst(QuicTlsSuite(r), QuicTlsSuite, all)
  {
    FirstWinsLaw(merge, QuicTlsVersion, first, packets);
    FirstWinsLaw(merge, QuicTlsSuite, first, packets);
  }

  lemma PlainAlpn(ext: Extractor, merge: (QuicInfo, QuicInfo) -> QuicInfo, first: QuicInfo, packets: seq<QuicInfo>)
    requires forall a, b {:trigger merge(a, b)} :: merge(a, b) == MergeQuic(ext, a, b.(reassembler := None))
    ensures IsFirst(QuicTlsAlpn(Fold(merge, first, packets)), QuicTlsAlpn, [first] + packets)
  {
    FirstWinsLaw(merge, QuicTlsAlpn, first, packets);
  }

  lemma PlainName(ext: Extractor, merge: (QuicInfo, QuicInfo) -> QuicInfo, first: QuicInfo, packets: seq<QuicInfo>)
    requires forall a, b {:trigger merge(a, b)} :: merge(a, b) == MergeQuic(ext, a, b.(reassembler := None))
    ensures IsFirst(CompleteSni(Fold(merge, first, packets)), CompleteSni, [first] + packets)
  {
    FirstWinsLaw(merge, CompleteSni, first, packets);
  }

  lemma {:induction false} RunWithoutFragments(
    ext: Extractor, merge: (QuicInfo, QuicInfo) -> QuicInfo, first: QuicInfo, packets: seq<QuicInfo>)
    requires forall a, b {:trigger merge(a, b)} :: merge(a, b) == MergeQuic(ext, a, b.(reassembler := None))
    requires forall p :: p in packets ==> p.reassembler.None?
    ensures QuicMerge.Run(ext, first, packets) == Fold(merge, first, packets)
  {
    if packets != [] {
      var init, last := packets[..|packets| - 1], packets[|packets| - 1];
      assert last in packets && last.(reassembler := None) == last;
      RunWithoutFragments(ext, merge, first, init);
    }
  }

  lemma {:induction false} RunIsFold(
    ext: Extractor, merge: (QuicInfo, QuicInfo) -> QuicInfo, first: QuicInfo, packets: seq<QuicInfo>)
    requires forall a, b {:trigger merge(a, b)} :: merge(a, b) == MergeQuic(ext, a, b)
    ensures QuicMerge.Run(ext, first, packets) == Fold(merge, first, packets)
    ensures QuicMerge.Run(ext, first, packets).packetType == ([first] + packets)[|packets|].packetType
  {
    if packets != [] {
      RunIsFold(ext, merge, first, packets[..|packets| - 1]);
    }
  }

  // ---- Dispatch on the application protocol ----

  /** A packet of another protocol never changes what is recorded. */
  ghost function MergeApplication(ext: Extractor, a: Application, b: Application): Application {
    match (a, b)
    case (Http(x), Http(y)) => Http(MergeHttp(x, y))
    case (Https(x), Https(y)) => Https(MergeHttps(x, y))
    case (Quic(x), Quic(y)) => Quic(MergeQuic(ext, x, y))
    case (Dns(x), Dns(y)) => Dns(MergeDns(x, y))
    case (Ssh(x), Ssh(y)) => Ssh(MergeSsh(x, y))
    case (BitTorrent(x), BitTorrent(y)) => BitTorrent(MergeBitTorrent(x, y))
    case (Mqtt(x), Mqtt(y)) => Mqtt(MergeMqtt(x, y))
    case (Ftp(x), Ftp(y)) => Ftp(MergeFtp(x, y))
    case _ => a
  }

  method MergeApplicationInto(ext: Extractor, a: Application, b: Application) returns (r: Application)
    ensures r == MergeApplication(ext, a, b)
  {
    r := a;
    match (a, b)
    case (Http(x), Http(y)) => r := Http(MergeHttp(x, y));
    case (Https(x), Https(y)) => r := Https(MergeHttps(x, y));
    case (Quic(x), Quic(y)) => var q := MergeQuicInfo(ext, x, y); r := Quic(q);
    case (Dns(x), Dns(y)) => var d := MergeDnsInfo(x, y); r := Dns(d);
    case (Ssh(x), Ssh(y)) => var s := MergeSshInfo(x, y); r := Ssh(s);
    case (BitTorrent(x), BitTorrent(y)) => r := BitTorrent(MergeBitTorrent(x, y));
    case (Mqtt(x), Mqtt(y)) => r := Mqtt(MergeMqtt(x, y));
    case (Ftp(x), Ftp(y)) => r := Ftp(MergeFtp(x, y));
    case _ =>
  }
}
