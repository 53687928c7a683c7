/** The reverse-DNS resolver: its cache as an object, then its threads as interleaved steps. */
module DnsCache {
  import opened Wrappers
  import opened Addresses
  import opened Eviction

  datatype ResolutionState = Pending | Resolved | Failed

  datatype CachedHostname = CachedHostname(hostname: Option<string>, resolvedAt: int, state: ResolutionState)

  datatype Config = Config(cacheTtl: int, negativeTtl: int, maxCacheSize: nat)

  const PENDING_TIMEOUT: int := 30

  type Cache = map<Ip, CachedHostname>

  function Answered(result: Option<string>, now: int): CachedHostname {
    if result.Some? then CachedHostname(result, now, Resolved) else CachedHostname(None, now, Failed)
  }

  /** An entry that makes another lookup unnecessary; a pending one always does. */
  predicate Settles(cfg: Config, e: CachedHostname, now: int) {
    match e.state
    case Pending => true
    case Resolved => now - e.resolvedAt < cfg.cacheTtl
    case Failed => now - e.resolvedAt < cfg.negativeTtl
  }

  /** An entry the cleanup pass keeps; it gives up on a pending one. */
  predicate Retained(cfg: Config, e: CachedHostname, now: int) {
    match e.state
    case Pending => now - e.resolvedAt < PENDING_TIMEOUT
    case Resolved => now - e.resolvedAt < cfg.cacheTtl
    case Failed => now - e.resolvedAt < cfg.negativeTtl
  }

  predicate IsSettled(cfg: Config, cache: Cache, ip: Ip, now: int) {
    ip in cache && Settles(cfg, cache[ip], now)
  }

  predicate NeverResolved(ip: Ip) { IsLoopback(ip) || IsLinkLocal(ip) }

  predicate Wanted(cfg: Config, cache: Cache, ip: Ip, now: int) {
    !NeverResolved(ip) && !IsSettled(cfg, cache, ip, now)
  }

  function HostnameIn(cache: Cache, ip: Ip): Option<string> {
    if ip in cache && cache[ip].state.Resolved? then cache[ip].hostname else None
  }

  function Survivors(cfg: Config, cache: Cache, now: int): Cache {
    map ip | ip in cache && Retained(cfg, cache[ip], now) :: cache[ip]
  }

  function Stamps(cache: Cache): map<Ip, int> { map ip | ip in cache :: cache[ip].resolvedAt }

  /**
   * What an answer is good for. Stored at time t, it is what the address is called, and until its
   * time to live is over nobody asks again and the cleanup pass keeps it; from then on neither
   * holds. No other address notices.
   */
  lemma AnswerLaw(cfg: Config, cache: Cache, ip: Ip, result: Option<string>, t: int, now: int, other: Ip)
    requires other != ip
    ensures var after := cache[ip := Answered(result, t)];
            var end := t + if result.Some? then cfg.cacheTtl else cfg.negativeTtl;
            && HostnameIn(after, ip) == result
            && (IsSettled(cfg, after, ip, now) <==> now < end)
            && (Wanted(cfg, after, ip, now) <==> !IsLoopback(ip) && !IsLinkLocal(ip) && now >= end)
            && (ip in Survivors(cfg, after, now) <==> now < end)
            && HostnameIn(after, other) == HostnameIn(cache, other)
            && (Wanted(cfg, after, other, now) <==> Wanted(cfg, cache, other, now))
  {
    assert cache[ip := Answered(result, t)][ip].resolvedAt == t;
  }

  /**
   * An address nobody has asked for has no name and is wanted unless it is local. While a lookup
   * is pending the address has no name and nobody asks again, however long it takes, unless the
   * cleanup pass gives up on it after thirty seconds.
   */
  lemma PendingLaw(cfg: Config, cache: Cache, ip: Ip, t: int, now: int)
    ensures ip !in cache ==>
              && HostnameIn(cache, ip) == None && ip !in Survivors(cfg, cache, now)
              && (Wanted(cfg, cache, ip, now) <==> !IsLoopback(ip) && !IsLinkLocal(ip))
    ensures var during := cache[ip := CachedHostname(None, t, Pending)];
            && HostnameIn(during, ip) == None
            && IsSettled(cfg, during, ip, now) && !Wanted(cfg, during, ip, now)
            && (ip in Survivors(cfg, during, now) <==> now < t + 30)
  {
    assert cache[ip := CachedHostname(None, t, Pending)][ip].resolvedAt == t;
  }

  class DnsResolver {
    const config: Config
    var cache: Cache
    var requests: seq<Ip>

    constructor (config: Config)
      ensures this.config == config && cache == map[] && requests == []
    {
      this.config := config;
      cache, requests := map[], [];
    }

    method RequestResolution(ip: Ip, now: int)
      modifies this`requests
      ensures requests == if Wanted(config, cache, ip, now) then old(requests) + [ip] else old(requests)
    {
      if IsLoopback(ip) || IsLinkLocal(ip) {
        return;
      }
      if ip in cache {
        var entry := cache[ip];
        var age := now - entry.resolvedAt;
        match entry.state {
          case Pending => return;
          case Resolved => if age < config.cacheTtl { return; }
          case Failed => if age < config.negativeTtl { return; }
        }
      }
      requests := requests + [ip];
    }

    method GetHostname(ip: Ip, now: int) returns (name: Option<string>)
      modifies this`requests
      ensures requests == if Wanted(config, cache, ip, now) then old(requests) + [ip] else old(requests)
      ensures name.Some? ==> ip in cache && cache[ip].state.Resolved? && cache[ip].hostname == name
      ensures ip in cache && cache[ip].state.Resolved? ==> name == cache[ip].hostname
    {
      RequestResolution(ip, now);
      name := None;
      if ip in cache && cache[ip].state == Resolved {
        name := cache[ip].hostname;
      }
    }

    /** One turn of a resolver thread that no other thread interrupts. */
    method ServeRequest(examined: int, answered: int, lookup: Ip -> Option<string>)
      requires requests != []
      modifies this
      ensures requests == old(requests)[1..]
      ensures var ip := old(requests)[0];
              cache == if IsSettled(config, old(cache), ip, examined) then old(cache)
                       else old(cache)[ip := Answered(lookup(ip), answered)]
    {
      var ip := requests[0];
      requests := requests[1..];
      if ip in cache {
        var entry := cache[ip];
        var age := examined - entry.resolvedAt;
        match entry.state {
          case Pending => return;
          case Resolved => if age < config.cacheTtl { return; }
          case Failed => if age < config.negativeTtl { return; }
        }
      }
      cache := cache[ip := CachedHostname(None, examined, Pending)];
      var result := lookup(ip);
      if result.Some? {
        cache := cache[ip := CachedHostname(result, answered, Resolved)];
      } else {
        cache := cache[ip := CachedHostname(None, answered, Failed)];
      }
      assert cache == old(cache)[ip := Answered(result, answered)];
    }

    method RetainFresh(now: int)
      modifies this`cache
      ensures cache == Survivors(config, old(cache), now)
    {
      var rest := cache.Keys;
      while rest != {}
        invariant rest <= old(cache).Keys
        invariant forall ip :: ip in cache <==>
                    ip in old(cache) && (ip in rest || Retained(config, old(cache)[ip], now))
        invariant forall ip :: ip in cache ==> cache[ip] == old(cache)[ip]
        decreases rest
      {
        var ip :| ip in rest;
        var entry := cache[ip];
        if !Retained(config, entry, now) {
          cache := cache - {ip};
        }
        rest := rest - {ip};
      }
    }

    /**
     * The periodic pass: expired entries go; if still too many are left, exactly the surplus
     * goes, and nothing older than what goes stays.
     */
    method CleanUp(now: int)
      modifies this`cache
      ensures var kept := Survivors(config, old(cache), now);
              var surplus := if |kept| > config.maxCacheSize then |kept| - config.maxCacheSize else 0;
              EvictsOldest(Stamps(kept), cache.Keys, surplus) && |cache| == |kept| - surplus
      ensures forall ip :: ip in cache ==>
                ip in old(cache) && cache[ip] == old(cache)[ip] && Retained(config, cache[ip], now)
      ensures var kept := Survivors(config, old(cache), now);
              && (|kept| <= config.maxCacheSize ==> cache == kept)
              && (|kept| > config.maxCacheSize ==> |cache| == config.maxCacheSize)
              && forall gone, stays :: gone in kept && gone !in cache && stays in cache ==>
                   kept[gone].resolvedAt <= kept[stays].resolvedAt
    {
      RetainFresh(now);
      ghost var kept := cache;
      assert Stamps(kept).Keys == kept.Keys;
      assert |Stamps(kept)| == |Stamps(kept).Keys| && |kept| == |kept.Keys|;
      if |cache| > config.maxCacheSize {
        var surplus := |cache| - config.maxCacheSize;
        cache := RemoveOldest(cache, Stamps(cache), surplus);
        assert |cache| == |cache.Keys|;
        forall gone, stays | gone in kept && gone !in cache && stays in cache
          ensures kept[gone].resolvedAt <= kept[stays].resolvedAt
        {
          assert Stamps(kept)[gone] <= Stamps(kept)[stays];
        }
      }
    }
  }
}
