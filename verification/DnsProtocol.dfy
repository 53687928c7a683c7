/**
 * The resolver's threads as interleaved atomic steps: any number of requesters and resolver
 * threads and the cleanup thread, over one shared cache whose entry operations are atomic.
 */
module DnsProtocol {
  import opened Wrappers
  import opened Addresses
  import opened DnsCache

  /** Where a resolver thread is: waiting, with a request taken, past its check, or in a lookup. */
  datatype Worker = Idle | Taken(ip: Ip) | Checked(ip: Ip) | LookingUp(ip: Ip) | Stopped

  datatype Answer = Answer(ip: Ip, name: string)

  /** `asking` are requesters past their check; `answers` remembers what lookups have said. */
  datatype World = World(cache: Cache, asking: seq<Ip>, queue: seq<Ip>, workers: seq<Worker>, now: int,
                         answers: set<Answer>)

  datatype Action =
    | Ask(ip: Ip)
    | Enqueue
    | Receive(w: nat)
    | Examine(w: nat)
    | Mark(w: nat)
    | Answering(w: nat, result: Option<string>)
    | Expire(ip: Ip)
    | Evict(ip: Ip)
    | Tick(to: int)
    | Quit(w: nat)

  ghost predicate Step(cfg: Config, s: World, act: Action, s': World) {
    match act
    // A requester checks the cache, and only later sends.
    case Ask(ip) => s' == if Wanted(cfg, s.cache, ip, s.now) then s.(asking := s.asking + [ip]) else s
    case Enqueue => s.asking != [] && s' == s.(asking := s.asking[1..], queue := s.queue + [s.asking[0]])
    case Receive(w) =>
      && w < |s.workers| && s.workers[w].Idle? && s.queue != []
      && s' == s.(queue := s.queue[1..], workers := s.workers[w := Taken(s.queue[0])])
    case Examine(w) =>
      && w < |s.workers| && s.workers[w].Taken?
      && var ip := s.workers[w].ip;
         var done := IsSettled(cfg, s.cache, ip, s.now);
         s' == s.(workers := s.workers[w := if done then Idle else Checked(ip)])
    case Mark(w) =>
      && w < |s.workers| && s.workers[w].Checked?
      && var ip := s.workers[w].ip;
         s' == s.(cache := s.cache[ip := CachedHostname(None, s.now, Pending)],
                  workers := s.workers[w := LookingUp(ip)])
    case Answering(w, result) =>
      && w < |s.workers| && s.workers[w].LookingUp?
      && var ip := s.workers[w].ip;
         s' == s.(cache := s.cache[ip := Answered(result, s.now)], workers := s.workers[w := Idle],
                  answers := s.answers + if result.Some? then {Answer(ip, result.value)} else {})
    case Expire(ip) => ip in s.cache && !Retained(cfg, s.cache[ip], s.now) && s' == s.(cache := s.cache - {ip})
    // Which entries are the oldest was read off earlier: any entry may be hit.
    case Evict(ip) => s' == s.(cache := s.cache - {ip})
    case Tick(to) => s.now <= to && s' == s.(now := to)
    case Quit(w) => w < |s.workers| && s.workers[w].Idle? && s' == s.(workers := s.workers[w := Stopped])
  }

  function Start(n: nat): World { World(map[], [], [], seq(n, _ => Idle), 0, {}) }

  ghost predicate IsRun(cfg: Config, n: nat, states: seq<World>, acts: seq<Action>) {
    && |states| == |acts| + 1
    && states[0] == Start(n)
    && forall i :: 0 <= i < |acts| ==> Step(cfg, states[i], acts[i], states[i + 1])
  }

  // ---- Without interference the steps do what the object's methods do ----

  /** Compare `RequestResolution`. */
  lemma UndisturbedRequest(cfg: Config, s: World, ip: Ip, s1: World, s2: World)
    requires s.asking == [] && Step(cfg, s, Ask(ip), s1)
    requires if Wanted(cfg, s.cache, ip, s.now) then Step(cfg, s1, Enqueue, s2) else s2 == s1
    ensures s2 == if Wanted(cfg, s.cache, ip, s.now) then s.(queue := s.queue + [ip]) else s
  {
    assert [ip][1..] == [];
  }

  /** Compare `ServeRequest`: the oldest request is served, by one lookup unless an entry settles it. */
  lemma UndisturbedTurn(
    cfg: Config, s: World, w: nat, result: Option<string>, s1: World, s2: World, s3: World, s4: World)
    requires Step(cfg, s, Receive(w), s1) && Step(cfg, s1, Examine(w), s2)
    requires if s2.workers[w].Idle? then s4 == s2
             else Step(cfg, s2, Mark(w), s3) && Step(cfg, s3, Answering(w, result), s4)
    ensures s4.queue == s.queue[1..] && s4.workers == s.workers
    ensures var ip := s.queue[0];
            s4.cache == if IsSettled(cfg, s.cache, ip, s.now) then s.cache
                        else s.cache[ip := CachedHostname(result, s.now, if result.Some? then Resolved else Failed)]
  {
    assert s4.workers == s.workers[w := Idle] == s.workers;
  }

  // ---- What holds in every interleaving ----

  predicate WorkerOk(w: Worker) {
    w.Taken? || w.Checked? || w.LookingUp? ==> !NeverResolved(w.ip)
  }

  /** A pending entry has a lookup in flight; a name in the cache came from a lookup of its address. */
  predicate EntryOk(s: World, ip: Ip, e: CachedHostname) {
    && !NeverResolved(ip)
    && e.resolvedAt <= s.now
    && (e.state.Resolved? <==> e.hostname.Some?)
    && (e.state.Pending? ==> LookingUp(ip) in s.workers)
    && (e.state.Resolved? ==> Answer(ip, e.hostname.value) in s.answers)
  }

  ghost predicate Sound(s: World) {
    && (forall ip :: ip in s.cache ==> EntryOk(s, ip, s.cache[ip]))
    && (forall ip :: ip in s.asking || ip in s.queue ==> !NeverResolved(ip))
    && (forall w :: w in s.workers ==> WorkerOk(w))
  }

  lemma OthersStay<T>(s: seq<T>, i: nat, t: T, other: T)
    requires i < |s| && other in s && s[i] != other
    ensures other in s[i := t]
  {
    var j :| 0 <= j < |s| && s[j] == other;
    assert s[i := t][j] == other;
  }

  lemma WorkersStayOk(ws: seq<Worker>, i: nat, w: Worker)
    requires i < |ws| && WorkerOk(w) && forall v :: v in ws ==> WorkerOk(v)
    ensures forall v :: v in ws[i := w] ==> WorkerOk(v)
  {
    forall v | v in ws[i := w]
      ensures WorkerOk(v)
    {
      assert v == w || v in ws;
    }
  }

  predicate ByWorker(act: Action) {
    act.Receive? || act.Examine? || act.Mark? || act.Answering? || act.Quit?
  }

  lemma WorkerStepKeepsEntries(cfg: Config, s: World, act: Action, s': World)
    requires Sound(s) && Step(cfg, s, act, s') && ByWorker(act)
    ensures forall ip :: ip in s'.cache ==> EntryOk(s', ip, s'.cache[ip])
  {
    assert s.workers[act.w] in s.workers && WorkerOk(s.workers[act.w]);
    assert s'.workers[act.w] in s'.workers;
    forall ip | ip in s'.cache
      ensures EntryOk(s', ip, s'.cache[ip])
    {
      if ip in s.cache && s.cache[ip] == s'.cache[ip] {
        assert EntryOk(s, ip, s.cache[ip]);
        if s.cache[ip].state.Pending? && s.workers[act.w] != LookingUp(ip) {
          OthersStay(s.workers, act.w, s'.workers[act.w], LookingUp(ip));
        }
      }
    }
  }

  lemma StepKeepsSound(cfg: Config, s: World, act: Action, s': World)
    requires Sound(s) && Step(cfg, s, act, s')
    ensures Sound(s')
  {
    if ByWorker(act) {
      WorkerStepKeepsEntries(cfg, s, act, s');
      assert WorkerOk(s.workers[act.w]);
      if act.Receive? {
        assert s.queue[0] in s.queue;
      }
      WorkersStayOk(s.workers, act.w, s'.workers[act.w]);
    } else {
      forall ip | ip in s'.cache
        ensures EntryOk(s', ip, s'.cache[ip])
      {
        assert EntryOk(s, ip, s.cache[ip]);
      }
    }
  }

  /**
   * For any number of resolver threads: no pending entry is orphaned, an entry is resolved
   * exactly if it has a name, and whatever name is handed out some lookup of that very address
   * gave. Loopback and link-local addresses never get anywhere.
   */
  lemma {:induction false} NoOrphanedPending(cfg: Config, n: nat, states: seq<World>, acts: seq<Action>, ip: Ip)
    requires IsRun(cfg, n, states, acts)
    ensures var s := states[|acts|];
            && Sound(s)
            && (ip in s.cache && s.cache[ip].state.Pending? ==> LookingUp(ip) in s.workers)
            && (HostnameIn(s.cache, ip).Some? <==> ip in s.cache && s.cache[ip].state.Resolved?)
            && (HostnameIn(s.cache, ip).Some? ==> Answer(ip, HostnameIn(s.cache, ip).value) in s.answers)
            && (NeverResolved(ip) ==> ip !in s.cache && ip !in s.queue && LookingUp(ip) !in s.workers)
  {
    if acts != [] {
      var k := |acts| - 1;
      NoOrphanedPending(cfg, n, states[..k + 1], acts[..k], ip);
      StepKeepsSound(cfg, states[k], acts[k], states[k + 1]);
    }
    var s := states[|acts|];
    assert ip in s.cache ==> EntryOk(s, ip, s.cache[ip]);
    assert LookingUp(ip) in s.workers ==> WorkerOk(LookingUp(ip));
  }

  // ---- How long an answer lasts ----

  /** With a single resolver thread nobody else can settle the address it is working on. */
  ghost predicate Alone(cfg: Config, s: World) {
    && |s.workers| == 1
    && var w := s.workers[0];
       && (w.Checked? ==> !IsSettled(cfg, s.cache, w.ip, s.now))
       && (w.LookingUp? && w.ip in s.cache ==> s.cache[w.ip].state.Pending?)
  }

  lemma StepKeepsAlone(cfg: Config, s: World, act: Action, s': World)
    requires Alone(cfg, s) && Sound(s) && Step(cfg, s, act, s')
    ensures Alone(cfg, s')
  {
    var w := s.workers[0];
    if w.Checked? && w.ip in s.cache {
      assert EntryOk(s, w.ip, s.cache[w.ip]);
    }
  }

  lemma {:induction false} StaysAlone(cfg: Config, states: seq<World>, acts: seq<Action>, k: nat)
    requires IsRun(cfg, 1, states, acts) && k <= |acts|
    ensures Alone(cfg, states[k]) && Sound(states[k])
  {
    if k > 0 {
      StaysAlone(cfg, states, acts, k - 1);
      StepKeepsAlone(cfg, states[k - 1], acts[k - 1], states[k]);
      StepKeepsSound(cfg, states[k - 1], acts[k - 1], states[k]);
    }
  }

  predicate IsFresh(cfg: Config, s: World, ip: Ip, e: CachedHostname) {
    && ip in s.cache && s.cache[ip] == e && e.state.Resolved? && s.now - e.resolvedAt < cfg.cacheTtl
  }

  /**
   * With one resolver thread an answer lasts for its whole time to live: as long as the entry
   * is not evicted for space, later states hold the very same entry until it expires.
   */
  lemma {:induction false} AnswerLasts(
    cfg: Config, states: seq<World>, acts: seq<Action>, i: nat, j: nat, ip: Ip, e: CachedHostname)
    requires IsRun(cfg, 1, states, acts) && i <= j <= |acts|
    requires ip in states[i].cache && states[i].cache[ip] == e && e.state.Resolved?
    requires states[j].now - e.resolvedAt < cfg.cacheTtl
    requires forall k :: i <= k < j ==> acts[k] != Evict(ip)
    ensures IsFresh(cfg, states[j], ip, e) && HostnameIn(states[j].cache, ip) == e.hostname
    decreases j
  {
    if i < j {
      assert Step(cfg, states[j - 1], acts[j - 1], states[j]);
      AnswerLasts(cfg, states, acts, i, j - 1, ip, e);
      StaysAlone(cfg, states, acts, j - 1);
      assert acts[j - 1] != Evict(ip);
    }
  }

  ghost predicate Reachable(cfg: Config, n: nat, s: World) {
    exists states, acts :: IsRun(cfg, n, states, acts) && states[|acts|] == s
  }

  lemma ReachStep(cfg: Config, n: nat, s: World, act: Action, s': World)
    requires Reachable(cfg, n, s) && Step(cfg, s, act, s')
    ensures Reachable(cfg, n, s')
  {
    var states, acts :| IsRun(cfg, n, states, acts) && states[|acts|] == s;
    assert IsRun(cfg, n, states + [s'], acts + [act]);
    assert (states + [s'])[|acts + [act]|] == s';
  }

  /** Two requesters both found nothing in the cache and sent the same address. */
  lemma QueuedTwice(cfg: Config, n: nat, ip: Ip) returns (s: World)
    requires !NeverResolved(ip)
    ensures Reachable(cfg, n, s) && s == Start(n).(queue := [ip, ip])
  {
    var s0 := Start(n);
    var none: seq<Action> := [];
    assert IsRun(cfg, n, [s0], none) && [s0][|none|] == s0;
    var s1 := s0.(asking := [ip]);
    ReachStep(cfg, n, s0, Ask(ip), s1);
    var s2 := s1.(asking := [ip, ip]);
    ReachStep(cfg, n, s1, Ask(ip), s2);
    var s3 := s2.(asking := [ip], queue := [ip]);
    ReachStep(cfg, n, s2, Enqueue, s3);
    s := s3.(asking := [], queue := [ip, ip]);
    ReachStep(cfg, n, s3, Enqueue, s);
  }

  /** Both threads have taken the same request and found nothing in the cache. */
  lemma BothPastCheck(cfg: Config, n: nat, ip: Ip) returns (s: World)
    requires n >= 2 && !NeverResolved(ip)
    ensures Reachable(cfg, n, s) && s.cache == map[] && |s.workers| == n && s.now == 0
    ensures s.workers[0] == s.workers[1] == Checked(ip)
  {
    var s0 := QueuedTwice(cfg, n, ip);
    var s1 := s0.(queue := [ip], workers := s0.workers[0 := Taken(ip)]);
    ReachStep(cfg, n, s0, Receive(0), s1);
    var s2 := s1.(queue := [], workers := s1.workers[1 := Taken(ip)]);
    ReachStep(cfg, n, s1, Receive(1), s2);
    var s3 := s2.(workers := s2.workers[0 := Checked(ip)]);
    ReachStep(cfg, n, s2, Examine(0), s3);
    s := s3.(workers := s3.workers[1 := Checked(ip)]);
    ReachStep(cfg, n, s3, Examine(1), s);
  }

  /**
   * With two or more resolver threads an answer that is still fresh can vanish without being
   * evicted: a thread that checked before the answer arrived marks the entry pending again.
   */
  lemma FreshAnswerCanVanish(cfg: Config, n: nat, ip: Ip, name: string)
    requires n >= 2 && !NeverResolved(ip) && cfg.cacheTtl > 0
    ensures exists s, s', w, e ::
              && Reachable(cfg, n, s) && Step(cfg, s, Mark(w), s')
              && IsFresh(cfg, s, ip, e) && HostnameIn(s.cache, ip) == Some(name)
              && HostnameIn(s'.cache, ip) == None
  {
    var s0 := BothPastCheck(cfg, n, ip);
    var s1 := s0.(cache := map[ip := CachedHostname(None, 0, Pending)], workers := s0.workers[0 := LookingUp(ip)]);
    ReachStep(cfg, n, s0, Mark(0), s1);
    var e := CachedHostname(Some(name), 0, Resolved);
    var s := s1.(cache := map[ip := e], workers := s1.workers[0 := Idle], answers := s1.answers + {Answer(ip, name)});
    ReachStep(cfg, n, s1, Answering(0, Some(name)), s);
    var s' := s.(cache := map[ip := CachedHostname(None, 0, Pending)], workers := s.workers[1 := LookingUp(ip)]);
    assert Step(cfg, s, Mark(1), s') && IsFresh(cfg, s, ip, e);
  }
}
