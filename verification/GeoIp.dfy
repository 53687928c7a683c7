/** The GeoIP lookup: a cache over immutable databases, evicted oldest first. */
module GeoIp {
  import opened Wrappers
  import opened Addresses
  import opened Eviction

  datatype Country = Country(code: Option<string>, name: Option<string>)
  datatype Asn = Asn(number: Option<nat>, org: Option<string>)
  datatype City = City(postalCode: Option<string>, name: Option<string>, country: Country)

  datatype GeoIpInfo = GeoIpInfo(
    countryCode: Option<string>, countryName: Option<string>, asn: Option<nat>, asOrg: Option<string>,
    city: Option<string>, postalCode: Option<string>)

  const NOTHING := GeoIpInfo(None, None, None, None, None, None)

  /** Whichever databases were loaded; a lookup that fails or finds nothing answers None. */
  datatype Databases = Databases(
    country: Option<Ip -> Option<Country>>, asn: Option<Ip -> Option<Asn>>, city: Option<Ip -> Option<City>>)

  function Ask<T>(reader: Option<Ip -> Option<T>>, ip: Ip): Option<T> {
    if reader.Some? then reader.value(ip) else None
  }

  /** The country comes from the country database unless that has no code for it. */
  function InCountry(country: Option<Country>, city: Option<City>): Country {
    var first := if country.Some? then country.value else Country(None, None);
    if first.code.None? && city.Some? then city.value.country else first
  }

  function FromDatabases(db: Databases, ip: Ip): GeoIpInfo {
    var asn, city := Ask(db.asn, ip), Ask(db.city, ip);
    var country := InCountry(Ask(db.country, ip), city);
    GeoIpInfo(country.code, country.name,
              if asn.Some? then asn.value.number else None, if asn.Some? then asn.value.org else None,
              if city.Some? then city.value.name else None, if city.Some? then city.value.postalCode else None)
  }

  /** What a lookup answers without any cache. */
  function Uncached(db: Databases, ip: Ip): GeoIpInfo {
    if IsPrivateOrLocal(ip) then NOTHING else FromDatabases(db, ip)
  }

  datatype CachedGeoIp = CachedGeoIp(info: GeoIpInfo, cachedAt: int)

  datatype Config = Config(cacheTtl: int, maxCacheSize: nat)

  type Cache = map<Ip, CachedGeoIp>

  function Stamps(cache: Cache): (r: map<Ip, int>)
    ensures |r| == |cache|
  {
    var r := map ip | ip in cache :: cache[ip].cachedAt;
    assert r.Keys == cache.Keys;
    r
  }

  function TargetSize(cfg: Config): nat { cfg.maxCacheSize * 3 / 4 }

  /** Two readings of the clock belong to a lookup, before and after asking the databases. */
  datatype Request = Request(ip: Ip, now: int, later: int)

  predicate IsMiss(cfg: Config, cache: Cache, q: Request) {
    && !IsPrivateOrLocal(q.ip)
    && !(q.ip in cache && q.now - cache[q.ip].cachedAt < cfg.cacheTtl)
  }

  function Grown(db: Databases, cache: Cache, q: Request): Cache {
    cache[q.ip := CachedGeoIp(FromDatabases(db, q.ip), q.later)]
  }

  predicate Overflows(cfg: Config, db: Databases, cache: Cache, q: Request) {
    IsMiss(cfg, cache, q) && |Grown(db, cache, q)| > cfg.maxCacheSize
  }

  function Surplus(cfg: Config, cache: Cache): nat {
    if |cache| > TargetSize(cfg) then |cache| - TargetSize(cfg) else 0
  }

  /** Down to three quarters, oldest first; among equals the choice is open. */
  ghost predicate Evicted(cfg: Config, cache: Cache, cache': Cache) {
    && EvictsOldest(Stamps(cache), cache'.Keys, Surplus(cfg, cache))
    && forall ip :: ip in cache' ==> ip in cache && cache'[ip] == cache[ip]
  }

  /** Every entry of `part` is one of `whole`, and none that is missing is younger than it. */
  ghost predicate IsYoungerPart(part: Cache, whole: Cache) {
    && (forall ip :: ip in part ==> ip in whole && part[ip] == whole[ip])
    && (forall gone, stays :: gone in whole && gone !in part && stays in part ==>
          whole[gone].cachedAt <= whole[stays].cachedAt)
  }

  /** An eviction in plain terms: what is left is as much as fits three quarters, and the younger part. */
  lemma EvictedIsYounger(cfg: Config, cache: Cache, cache': Cache)
    requires Evicted(cfg, cache, cache')
    ensures IsYoungerPart(cache', cache)
    ensures if 4 * |cache| > 3 * cfg.maxCacheSize then 4 * |cache'| <= 3 * cfg.maxCacheSize < 4 * (|cache'| + 1)
            else cache' == cache
  {
    var stamps := Stamps(cache);
    assert |cache'.Keys| == |cache'| && |cache.Keys| == |cache|;
    forall gone, stays | gone in cache && gone !in cache' && stays in cache'
      ensures cache[gone].cachedAt <= cache[stays].cachedAt
    {
      assert stamps[gone] <= stamps[stays];
    }
    if Surplus(cfg, cache) == 0 {
      SameSize(cache'.Keys, cache.Keys);
    }
  }

  lemma SameSize<K>(a: set<K>, b: set<K>)
    requires a <= b && |a| == |b|
    ensures a == b
  {
    assert |b - a| == |b| - |a|;
  }

  ghost predicate LookupStep(cfg: Config, db: Databases, cache: Cache, q: Request, cache': Cache, info: GeoIpInfo) {
    if !IsMiss(cfg, cache, q) then
      cache' == cache && info == if IsPrivateOrLocal(q.ip) then NOTHING else cache[q.ip].info
    else
      && info == FromDatabases(db, q.ip)
      && var grown := Grown(db, cache, q);
         if Overflows(cfg, db, cache, q) then Evicted(cfg, grown, cache') else cache' == grown
  }

  class GeoIpResolver {
    const databases: Databases
    const config: Config
    var cache: Cache

    constructor (databases: Databases, config: Config)
      ensures this.databases == databases && this.config == config && cache == map[]
    {
      this.databases, this.config := databases, config;
      cache := map[];
    }

    method Lookup(ip: Ip, now: int, later: int) returns (info: GeoIpInfo)
      modifies this`cache
      ensures LookupStep(config, databases, old(cache), Request(ip, now, later), cache, info)
      ensures IsPrivateOrLocal(ip) ==>
                info == GeoIpInfo(None, None, None, None, None, None) && cache == old(cache)
      ensures !IsPrivateOrLocal(ip) && ip in old(cache) && now - old(cache)[ip].cachedAt < config.cacheTtl ==>
                info == old(cache)[ip].info && cache == old(cache)
      ensures !IsPrivateOrLocal(ip) && (ip !in old(cache) || now - old(cache)[ip].cachedAt >= config.cacheTtl) ==>
                var grown := old(cache)[ip := CachedGeoIp(info, later)];
                if |grown| <= config.maxCacheSize then cache == grown
                else IsYoungerPart(cache, grown)
                     && 4 * |cache| <= 3 * config.maxCacheSize < 4 * (|cache| + 1)
    {
      if IsPrivateOrLocal(ip) {
        return NOTHING;
      }
      if ip in cache {
        var cached := cache[ip];
        if now - cached.cachedAt < config.cacheTtl {
          return cached.info;
        }
      }
      info := DoLookup(ip);
      cache := cache[ip := CachedGeoIp(info, later)];
      if |cache| > config.maxCacheSize {
        EvictOldestEntries();
      }
    }

    method DoLookup(ip: Ip) returns (info: GeoIpInfo)
      ensures info == FromDatabases(databases, ip)
      ensures var a := if databases.asn.Some? then databases.asn.value(ip) else None;
              && info.asn == (if a.Some? then a.value.number else None)
              && info.asOrg == (if a.Some? then a.value.org else None)
      ensures var c := if databases.city.Some? then databases.city.value(ip) else None;
              && info.city == (if c.Some? then c.value.name else None)
              && info.postalCode == (if c.Some? then c.value.postalCode else None)
      ensures var (r, c) := (databases.country, databases.city);
              && (r.Some? && r.value(ip).Some? && r.value(ip).value.code.Some? ==>
                    Country(info.countryCode, info.countryName) == r.value(ip).value)
              && ((r.Some? && r.value(ip).Some? ==> r.value(ip).value.code.None?) ==>
                    if c.Some? && c.value(ip).Some? then
                      Country(info.countryCode, info.countryName) == c.value(ip).value.country
                    else
                      && info.countryCode == None
                      && info.countryName == if r.Some? && r.value(ip).Some? then r.value(ip).value.name else None)
    {
      info := NOTHING;
      var country := Ask(databases.country, ip);
      if country.Some? {
        info := info.(countryCode := country.value.code, countryName := country.value.name);
      }
      var asn := Ask(databases.asn, ip);
      if asn.Some? {
        info := info.(asn := asn.value.number, asOrg := asn.value.org);
      }
      var city := Ask(databases.city, ip);
      if city.Some? {
        info := info.(postalCode := city.value.postalCode, city := city.value.name);
        if info.countryCode.None? {
          info := info.(countryCode := city.value.country.code, countryName := city.value.country.name);
        }
      }
    }

    method EvictOldestEntries()
      modifies this`cache
      ensures Evicted(config, old(cache), cache)
      ensures IsYoungerPart(cache, old(cache))
      ensures if 4 * |old(cache)| > 3 * config.maxCacheSize then
                4 * |cache| <= 3 * config.maxCacheSize < 4 * (|cache| + 1)
              else cache == old(cache)
    {
      var surplus := Surplus(config, cache);
      if surplus == 0 {
        assert Stamps(cache).Keys == cache.Keys;
        return;
      }
      cache := RemoveOldest(cache, Stamps(cache), surplus);
      EvictedIsYounger(config, old(cache), cache);
    }
  }

  // ---- Whole runs of lookups ----

  ghost predicate IsRun(cfg: Config, db: Databases, caches: seq<Cache>, qs: seq<Request>, infos: seq<GeoIpInfo>) {
    && |caches| == |qs| + 1 && |infos| == |qs|
    && caches[0] == map[]
    && forall i :: 0 <= i < |qs| ==> LookupStep(cfg, db, caches[i], qs[i], caches[i + 1], infos[i])
  }

  /** Everything cached is what the databases say. */
  ghost predicate Truthful(db: Databases, cache: Cache) {
    forall ip :: ip in cache ==> !IsPrivateOrLocal(ip) && cache[ip].info == FromDatabases(db, ip)
  }

  lemma GrowsByOne(db: Databases, cache: Cache, q: Request)
    ensures |Grown(db, cache, q)| <= |cache| + 1
    ensures q.ip !in cache ==> |Grown(db, cache, q)| == |cache| + 1
    ensures q.ip in cache ==> |Grown(db, cache, q)| == |cache|
  {
    var grown := Grown(db, cache, q);
    assert grown.Keys == cache.Keys + {q.ip};
    assert |grown.Keys| == |grown| && |cache.Keys| == |cache|;
  }

  lemma EvictionHitsTarget(cfg: Config, cache: Cache, cache': Cache)
    requires |cache| >= TargetSize(cfg) && Evicted(cfg, cache, cache')
    ensures |cache'| == TargetSize(cfg)
  {
    assert |cache'.Keys| == |cache'|;
  }

  /**
   * The cache can neither be noticed nor overflow: over any run and any clock, even one that
   * jumps, every lookup answers what it would without a cache, and the cache keeps its limit.
   */
  lemma {:induction false} CacheIsTransparent(
    cfg: Config, db: Databases, caches: seq<Cache>, qs: seq<Request>, infos: seq<GeoIpInfo>)
    requires IsRun(cfg, db, caches, qs, infos)
    ensures forall i :: 0 <= i < |qs| ==> infos[i] == Uncached(db, qs[i].ip)
    ensures Truthful(db, caches[|qs|]) && |caches[|qs|]| <= cfg.maxCacheSize
  {
    if qs != [] {
      var k := |qs| - 1;
      CacheIsTransparent(cfg, db, caches[..k + 1], qs[..k], infos[..k]);
      assert forall i :: 0 <= i < k ==> infos[i] == infos[..k][i] && qs[i] == qs[..k][i];
      assert LookupStep(cfg, db, caches[k], qs[k], caches[k + 1], infos[k]);
      GrowsByOne(db, caches[k], qs[k]);
      if Overflows(cfg, db, caches[k], qs[k]) {
        EvictionHitsTarget(cfg, Grown(db, caches[k], qs[k]), caches[k + 1]);
      }
    }
  }

  function Misses(cfg: Config, caches: seq<Cache>, qs: seq<Request>, lo: nat, hi: nat): nat
    requires lo <= hi <= |qs| <= |caches|
    decreases hi
  {
    if lo == hi then 0
    else Misses(cfg, caches, qs, lo, hi - 1) + if IsMiss(cfg, caches[hi - 1], qs[hi - 1]) then 1 else 0
  }

  lemma SizeAfter(cfg: Config, db: Databases, cache: Cache, q: Request, cache': Cache, info: GeoIpInfo)
    requires LookupStep(cfg, db, cache, q, cache', info)
    ensures if Overflows(cfg, db, cache, q) then |cache'| == TargetSize(cfg)
            else |cache'| <= |cache| + if IsMiss(cfg, cache, q) then 1 else 0
  {
    GrowsByOne(db, cache, q);
    if Overflows(cfg, db, cache, q) {
      EvictionHitsTarget(cfg, Grown(db, cache, q), cache');
    }
  }

  /** After an eviction at step i the cache is at most as many entries above target as there were misses. */
  lemma {:induction false} MissesFill(
    cfg: Config, db: Databases, caches: seq<Cache>, qs: seq<Request>, infos: seq<GeoIpInfo>, i: nat, j: nat)
    requires IsRun(cfg, db, caches, qs, infos) && i < j <= |qs|
    requires Overflows(cfg, db, caches[i], qs[i])
    ensures |caches[j]| <= TargetSize(cfg) + Misses(cfg, caches, qs, i + 1, j)
    decreases j
  {
    SizeAfter(cfg, db, caches[j - 1], qs[j - 1], caches[j], infos[j - 1]);
    if i < j - 1 {
      MissesFill(cfg, db, caches, qs, infos, i, j - 1);
    }
  }

  /** Evictions are rare: from one to the next there are more than a quarter of the limit in misses. */
  lemma EvictionsAreSpaced(
    cfg: Config, db: Databases, caches: seq<Cache>, qs: seq<Request>, infos: seq<GeoIpInfo>, i: nat, j: nat)
    requires IsRun(cfg, db, caches, qs, infos) && i < j < |qs|
    requires Overflows(cfg, db, caches[i], qs[i]) && Overflows(cfg, db, caches[j], qs[j])
    ensures Misses(cfg, caches, qs, i + 1, j + 1) >= cfg.maxCacheSize - TargetSize(cfg) + 1
    ensures 4 * Misses(cfg, caches, qs, i + 1, j + 1) > cfg.maxCacheSize
  {
    MissesFill(cfg, db, caches, qs, infos, i, j);
    GrowsByOne(db, caches[j], qs[j]);
  }

  /** An eviction leaves exactly the target size and, if its stamp is the newest, the entry just added. */
  lemma NewestSurvives(
    cfg: Config, db: Databases, cache: Cache, q: Request, cache': Cache, info: GeoIpInfo)
    requires LookupStep(cfg, db, cache, q, cache', info) && Overflows(cfg, db, cache, q)
    requires TargetSize(cfg) > 0 && forall ip :: ip in cache && ip != q.ip ==> cache[ip].cachedAt < q.later
    ensures |cache'| == TargetSize(cfg) && q.ip in cache' && cache'[q.ip] == CachedGeoIp(info, q.later)
  {
    var grown := Grown(db, cache, q);
    EvictionHitsTarget(cfg, grown, cache');
    assert |cache'.Keys| == |cache'|;
    var other :| other in cache'.Keys;
    if other != q.ip {
      assert !(Stamps(grown)[q.ip] <= Stamps(grown)[other]);
    }
  }
}
