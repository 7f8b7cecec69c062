/** What the routers know about a tenant, and for how long they believe it. */
module TenantMeta {
  import opened GoStrings

  /** `dsn` is the address of the tenant's own database or message queue. */
  datatype Meta = Meta(mode: string, dsn: string, active: bool)

  datatype Cached = Cached(meta: Meta, fetchedAt: int)

  const SECOND := 1_000_000_000
  const CACHE_TTL := 30 * SECOND

  /** What a metadata cache still answers for. */
  function Fresh(cache: map<string, Cached>, t: string, now: int): Option<Meta> {
    if t in cache && now - cache[t].fetchedAt < CACHE_TTL then Some(cache[t].meta) else None
  }

  datatype Decision = Refuse | UseShared | UseDedicated(dsn: string)

  function Decide(m: Meta): Decision {
    if !m.active then Refuse
    else if m.mode != "dedicated" || IsBlank(m.dsn) then UseShared
    else UseDedicated(m.dsn)
  }
}

/** Routing a tenant to its database: a metadata cache with a lifetime, and
    dedicated pools opened on first use (server/common/infra/db/tenant_db_router.go). */
module TenantRouter {
  import opened GoStrings
  import opened TenantMeta
  import opened Ledger

  // ---------- metadata ----------

  /** The columns of the tenants table that matter here. */
  datatype Row = Row(name: string, mode: string, dsn: string, userThreshold: int, active: bool)

  /** GetTenantDBMeta */
  function ProviderMeta(row: Row): Meta {
    Meta(ToLower(TrimSpace(row.mode)), row.dsn, row.active)
  }

  // ---------- the router's lock-protected sections ----------

  /** Pools are numbered in the order they are opened; `pools` records for each
      its DSN, the tenant it was opened for, and how often it was closed. */
  datatype Router = Router(
    metaCache: map<string, Cached>,
    dedicated: map<string, nat>,
    pools: seq<Item<string>>)

  const EMPTY := Router(map[], map[], [])

  function CachedMeta(r: Router, t: string, now: int): Option<Meta> { Fresh(r.metaCache, t, now) }

  function StoreMeta(r: Router, t: string, m: Meta, now: int): Router {
    r.(metaCache := r.metaCache[t := Cached(m, now)])
  }

  /** The second look under the write lock, then pgxpool.New. */
  function OpenPool(r: Router, t: string, dsn: string, ok: bool): (Router, Option<nat>) {
    if t in r.dedicated then (r, Some(r.dedicated[t]))
    else if !ok then (r, None)
    else (r.(dedicated := r.dedicated[t := |r.pools|], pools := r.pools + [Item(dsn, t, 0)]), Some(|r.pools|))
  }

  function Invalidate(r: Router, t: string): Router {
    var id := TrimSpace(t);
    if id == "" then r
    else if id !in r.dedicated then r.(metaCache := r.metaCache - {id})
    else Router(r.metaCache - {id}, r.dedicated - {id}, Shut(r.pools, r.dedicated[id]))
  }

  function CloseAll(r: Router): Router {
    r.(dedicated := map[], pools := ShutAll(r.dedicated, r.pools))
  }

  /** No pool is leaked, shared between tenants, or closed twice. */
  ghost predicate Owned(r: Router) {
    Balanced(r.dedicated, r.pools)
  }

  lemma OpenKeepsOwned(r: Router, t: string, dsn: string, ok: bool)
    requires Owned(r)
    ensures Owned(OpenPool(r, t, dsn, ok).0)
  {
    if t !in r.dedicated { BalancedOpen(r.dedicated, r.pools, t, dsn); }
  }

  lemma InvalidateKeepsOwned(r: Router, t: string)
    requires Owned(r)
    ensures Owned(Invalidate(r, t))
  {
    if TrimSpace(t) in r.dedicated { BalancedShut(r.dedicated, r.pools, TrimSpace(t)); }
  }

  lemma CloseKeepsOwned(r: Router)
    requires Owned(r)
    ensures Owned(CloseAll(r))
  {
    BalancedShutAll(r.dedicated, r.pools);
  }

  // ---------- one routing call without interference ----------

  datatype Answer = SharedPool | Pool(id: nat) | MetaError | InactiveError | OpenError

  function RouteWithMeta(r: Router, t: string, m: Meta, openOk: bool): (Router, Answer) {
    match Decide(m)
    case Refuse => (r, InactiveError)
    case UseShared => (r, SharedPool)
    case UseDedicated(dsn) =>
      var (r', p) := OpenPool(r, t, dsn, openOk);
      (r', if p.Some? then Pool(p.value) else OpenError)
  }

  /** `fetched` is what the provider would answer now; None is its error. */
  function Route(r: Router, t: string, now: int, fetched: Option<Meta>, openOk: bool): (Router, Answer) {
    if IsBlank(t) then (r, SharedPool)
    else match CachedMeta(r, t, now)
      case Some(m) => RouteWithMeta(r, t, m, openOk)
      case None =>
        if fetched.None? then (r, MetaError)
        else RouteWithMeta(StoreMeta(r, t, fetched.value, now), t, fetched.value, openOk)
  }

  class TenantDBRouter {
    var metaCache: map<string, Cached>
    var dedicated: map<string, nat>
    var pools: seq<Item<string>>

    ghost function View(): Router reads this { Router(metaCache, dedicated, pools) }

    ghost predicate Valid() reads this { Owned(View()) }

    constructor ()
      ensures Valid() && View() == EMPTY
    {
      metaCache, dedicated, pools := map[], map[], [];
    }

    method LoadTenantMeta(t: string, now: int, fetched: Option<Meta>) returns (m: Option<Meta>)
      requires Valid()
      modifies this
      ensures Valid()
      ensures CachedMeta(old(View()), t, now).Some? ==> m == CachedMeta(old(View()), t, now) && View() == old(View())
      ensures CachedMeta(old(View()), t, now).None? ==>
        m == fetched && View() == if fetched.None? then old(View()) else StoreMeta(old(View()), t, fetched.value, now)
    {
      if t in metaCache && now - metaCache[t].fetchedAt < CACHE_TTL {
        return Some(metaCache[t].meta);
      }
      if fetched.None? { return None; }
      metaCache := metaCache[t := Cached(fetched.value, now)];
      return fetched;
    }

    method DBForTenant(t: string, now: int, fetched: Option<Meta>, openOk: bool) returns (a: Answer)
      requires Valid()
      modifies this
      ensures Valid()
      ensures (View(), a) == Route(old(View()), t, now, fetched, openOk)
    {
      if IsBlank(t) { return SharedPool; }
      var m := LoadTenantMeta(t, now, fetched);
      if m.None? { return MetaError; }
      if !m.value.active { return InactiveError; }
      if m.value.mode != "dedicated" || IsBlank(m.value.dsn) { return SharedPool; }
      if t in dedicated { return Pool(dedicated[t]); }
      if !openOk { return OpenError; }
      OpenKeepsOwned(View(), t, m.value.dsn, true);
      dedicated := dedicated[t := |pools|];
      pools := pools + [Item(m.value.dsn, t, 0)];
      a := Pool(dedicated[t]);
    }

    method InvalidateTenant(t: string)
      requires Valid()
      modifies this
      ensures Valid() && View() == Invalidate(old(View()), t)
    {
      InvalidateKeepsOwned(View(), t);
      var id := TrimSpace(t);
      if id == "" { return; }
      metaCache := metaCache - {id};
      if id in dedicated {
        pools := Shut(pools, dedicated[id]);
        dedicated := dedicated - {id};
      }
    }

    method Close()
      requires Valid()
      modifies this
      ensures Valid() && View() == CloseAll(old(View()))
    {
      CloseKeepsOwned(View());
      var left := dedicated.Keys;
      while left != {}
        invariant left == dedicated.Keys && Valid()
        invariant metaCache == old(metaCache)
        invariant ShutAll(dedicated, pools) == ShutAll(old(dedicated), old(pools))
      {
        var t :| t in left;
        ShutAllStep(dedicated, pools, t);
        BalancedShut(dedicated, pools, t);
        pools := Shut(pools, dedicated[t]);
        dedicated := dedicated - {t};
        left := left - {t};
      }
      assert dedicated == map[];
      assert ShutAll(dedicated, pools) == pools;
    }
  }

  // ---------- what the sections mean for one tenant and for the others ----------

  /** What metadata leads to, case by case. */
  lemma RouteByMeta(r: Router, t: string, m: Meta, openOk: bool)
    requires Owned(r)
    ensures var (r', a) := RouteWithMeta(r, t, m, openOk);
            var dedicated := m.active && m.mode == "dedicated" && !IsBlank(m.dsn);
      && (a == InactiveError <==> !m.active)
      && (a == SharedPool <==> m.active && (m.mode != "dedicated" || IsBlank(m.dsn)))
      && (a == OpenError <==> dedicated && t !in r.dedicated && !openOk)
      && (a.Pool? <==> dedicated && (t in r.dedicated || openOk))
      && (dedicated && t in r.dedicated ==> r' == r && a == Pool(r.dedicated[t]))
      && (dedicated && t !in r.dedicated && openOk ==>
            && a == Pool(|r.pools|) && r'.dedicated == r.dedicated[t := |r.pools|]
            && r'.pools == r.pools + [Item(m.dsn, t, 0)] && r'.metaCache == r.metaCache)
      && (!a.Pool? ==> r' == r)
  {}

  /** The first route asks the provider; for the next 30 seconds the answer is used
      without asking, whatever the provider would say, and not for longer. */
  lemma AnswerIsCached(r: Router, t: string, m: Meta, now: int, later: int, fetched: Option<Meta>, openOk: bool)
    requires !IsBlank(t) && CachedMeta(r, t, now).None? && now <= later
    ensures var r' := Route(r, t, now, Some(m), openOk).0;
      && (later - now < 30_000_000_000 ==> Route(r', t, later, fetched, openOk) == RouteWithMeta(r', t, m, openOk))
      && (later - now >= 30_000_000_000 && fetched.None? ==> Route(r', t, later, fetched, openOk) == (r', MetaError))
      && (later - now >= 30_000_000_000 && fetched.Some? ==>
            Route(r', t, later, fetched, openOk) == RouteWithMeta(StoreMeta(r', t, fetched.value, later), t, fetched.value, openOk))
  {}

  lemma BlankIsShared(r: Router, t: string, now: int, fetched: Option<Meta>, openOk: bool)
    requires IsBlank(t)
    ensures Route(r, t, now, fetched, openOk) == (r, SharedPool)
  {}

  /** An invalidation forgets the trimmed tenant and closes its pool, and leaves all other
      tenants and pools as they are; a blank id does nothing. */
  lemma InvalidateIsLocal(r: Router, t: string)
    requires Owned(r)
    ensures var r', id := Invalidate(r, t), TrimSpace(t);
      && (id == "" ==> r' == r)
      && (id != "" ==> id !in r'.metaCache && id !in r'.dedicated)
      && (forall u :: u != id ==>
            && (u in r'.metaCache <==> u in r.metaCache) && (u in r.metaCache ==> r'.metaCache[u] == r.metaCache[u])
            && (u in r'.dedicated <==> u in r.dedicated) && (u in r.dedicated ==> r'.dedicated[u] == r.dedicated[u]))
      && |r'.pools| == |r.pools|
      && (forall p :: 0 <= p < |r.pools| ==>
            r'.pools[p] == if id != "" && id in r.dedicated && r.dedicated[id] == p
                           then Item(r.pools[p].info, r.pools[p].tenant, 1) else r.pools[p])
  {}

  /** A shutdown closes every pool that is still open, and forgets them all. */
  lemma CloseClosesAll(r: Router)
    requires Owned(r)
    ensures CloseAll(r).dedicated == map[] && CloseAll(r).metaCache == r.metaCache && |CloseAll(r).pools| == |r.pools|
    ensures forall p :: 0 <= p < |r.pools| ==> CloseAll(r).pools[p] == Item(r.pools[p].info, r.pools[p].tenant, 1)
  {}
}
