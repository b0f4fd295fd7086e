/**
 The in-memory route cache of route_cache.rs. `resolve` is three steps to the
 rest of the system (look up, load, store); the class runs them back to back.
 */
module Routes {
  import opened Common
  import opened Meter

  /** The part of a service row that a cached route carries into a request. */
  datatype Route = Route(price: int, proxyEnabled: bool, breakerOpen: bool, breakerUntil: Option<Time>)

  datatype Entry = Entry(route: Route, insertedAt: Time)

  type Cache = map<Slug, Entry>

  function RouteOf(row: Service): Route {
    Route(row.price, row.proxyEnabled, row.breakerOpen, row.breakerUntil)
  }

  function SelectRoute(services: map<Slug, Service>, slug: Slug): Option<Route> {
    if slug in services then Some(RouteOf(services[slug])) else None
  }

  /** The look-up step: the cached route, if there is one younger than the TTL. */
  function Hit(cache: Cache, slug: Slug, now: Time, ttl: nat): Option<Route> {
    if slug in cache && Elapsed(cache[slug].insertedAt, now) < ttl then Some(cache[slug].route) else None
  }

  /** The store step: an unknown slug loses any entry it had. */
  function Store(cache: Cache, slug: Slug, found: Option<Route>, now: Time): Cache {
    match found
    case Some(route) => cache[slug := Entry(route, now)]
    case None => cache - {slug}
  }

  function Evict(cache: Cache, slug: Slug): Cache {
    cache - {slug}
  }

  // ---------------------------------------------------------------- what a route is a copy of

  /** The route has the row's own columns. */
  ghost predicate IsRow(route: Route, row: Service) {
    && route.price == row.price && route.proxyEnabled == row.proxyEnabled
    && route.breakerOpen == row.breakerOpen && route.breakerUntil == row.breakerUntil
  }

  /** The entry is there, and younger than the TTL. */
  ghost predicate IsFresh(entries: Cache, slug: Slug, now: Time, ttl: nat) {
    slug in entries && 0 < ttl && now < entries[slug].insertedAt + ttl
  }

  /** The route a request would use: the cached one while it is fresh, else the row's own columns. */
  ghost function RouteInUse(services: map<Slug, Service>, entries: Cache, slug: Slug, now: Time, ttl: nat): Option<Route> {
    if IsFresh(entries, slug, now, ttl) then Some(entries[slug].route)
    else if slug in services then
      var row := services[slug];
      Some(Route(row.price, row.proxyEnabled, row.breakerOpen, row.breakerUntil))
    else None
  }

  lemma InUseResolves(services: map<Slug, Service>, entries: Cache, slug: Slug, now: Time, ttl: nat)
    ensures Hit(entries, slug, now, ttl).Some? <==> IsFresh(entries, slug, now, ttl)
    ensures
      var hit := Hit(entries, slug, now, ttl);
      RouteInUse(services, entries, slug, now, ttl) == if hit.Some? then hit else SelectRoute(services, slug)
  {
  }

  class RouteCache {
    var entries: Cache
    const ttl: nat

    constructor (ttl: nat)
      ensures entries == map[] && this.ttl == ttl
    {
      entries := map[];
      this.ttl := ttl;
    }

    /** `services` is what the SELECT sees; `readOk` whether it succeeds; the clock is read twice. */
    method Resolve(services: map<Slug, Service>, readOk: bool, slug: Slug, lookedUpAt: Time, storedAt: Time)
      returns (found: Result<Option<Route>, ()>)
      modifies this
      ensures
        var hit := Hit(old(entries), slug, lookedUpAt, ttl);
        if hit.Some? then found == Success(hit) && entries == old(entries)
        else if !readOk then found == Failure(()) && entries == old(entries)
        else
          && found == Success(SelectRoute(services, slug))
          && entries == Store(old(entries), slug, SelectRoute(services, slug), storedAt)
      ensures found.Failure? <==> !IsFresh(old(entries), slug, lookedUpAt, ttl) && !readOk
      ensures found.Success? ==> found.value == RouteInUse(services, old(entries), slug, lookedUpAt, ttl)
      ensures found.Success? && found.value.Some? ==> slug in entries && entries[slug].route == found.value.value
    {
      if slug in entries {
        var entry := entries[slug];
        if Elapsed(entry.insertedAt, lookedUpAt) < ttl {
          return Success(Some(entry.route));
        }
      }
      if !readOk {
        return Failure(());
      }
      if slug in services {
        var route := RouteOf(services[slug]);
        entries := entries[slug := Entry(route, storedAt)];
        found := Success(Some(route));
      } else {
        entries := entries - {slug};
        found := Success(None);
      }
    }

    /** Evicts `slug` and nothing else; the next look-up of it misses. */
    method Invalidate(slug: Slug)
      modifies this
      ensures entries == Evict(old(entries), slug)
      ensures forall now :: Hit(entries, slug, now, ttl).None?
      ensures forall other, now :: other != slug ==> Hit(entries, other, now, ttl) == Hit(old(entries), other, now, ttl)
    {
      entries := entries - {slug};
    }
  }
}
