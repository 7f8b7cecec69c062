/** Tenant configuration changes and routing calls, one after the other: the cached
    route agrees with the current row (server/dbman/service/tenant_service.go). */
module RouterCoherence {
  import opened GoStrings
  import opened Ledger
  import opened TenantMeta
  import opened TenantRouter

  datatype System = System(rows: map<string, Row>, router: Router)

  function NormalMode(mode: string): string { ToLower(TrimSpace(mode)) }

  /** validateTenant */
  predicate Acceptable(t: string, row: Row) {
    var mode := NormalMode(row.mode);
    && !IsBlank(t) && !IsBlank(row.name) && row.userThreshold > 0
    && (mode == "shared" || mode == "dedicated")
    && (mode == "dedicated" ==> !IsBlank(row.dsn))
  }

  /** Create and UpdateConfig; `dbOk` is false when the statement itself fails. */
  function Save(s: System, t: string, row: Row, isNew: bool, dbOk: bool): System {
    var item := row.(mode := NormalMode(row.mode));
    if !Acceptable(t, item) || !dbOk || (t in s.rows) == isNew then s
    else
      var stored := if isNew then item.(mode := NormalMode(item.mode)) else item;
      System(s.rows[t := stored], Invalidate(s.router, t))
  }

  function Fetch(s: System, t: string, providerUp: bool): Option<Meta> {
    if providerUp && t in s.rows then Some(ProviderMeta(s.rows[t])) else None
  }

  datatype Op =
    | SaveOp(t: string, row: Row, isNew: bool, dbOk: bool)
    | RouteOp(t: string, now: int, providerUp: bool, openOk: bool)
    | CloseOp

  function Step(s: System, op: Op): System {
    match op
    case SaveOp(t, row, isNew, dbOk) => Save(s, t, row, isNew, dbOk)
    case RouteOp(t, now, up, openOk) => s.(router := Route(s.router, t, now, Fetch(s, t, up), openOk).0)
    case CloseOp => s.(router := CloseAll(s.router))
  }

  function Run(rows: map<string, Row>, ops: seq<Op>): System {
    if ops == [] then System(rows, EMPTY) else Step(Run(rows, ops[..|ops| - 1]), ops[|ops| - 1])
  }

  /** The answer is the uncached decision on the current row, and a dedicated pool
      is open and was opened for this tenant with the current DSN. */
  ghost predicate Agrees(s: System, after: Router, op: Op, a: Answer)
    requires op.RouteOp?
  {
    if IsBlank(op.t) then a == SharedPool
    else if op.t !in s.rows then a == MetaError
    else
      || (a == MetaError && !op.providerUp)
      || match Decide(ProviderMeta(s.rows[op.t]))
         case Refuse => a == InactiveError
         case UseShared => a == SharedPool
         case UseDedicated(dsn) =>
           || (a == OpenError && !op.openOk)
           || (a.Pool? && a.id < |after.pools| && after.pools[a.id] == Item(dsn, op.t, 0))
  }

  /** Cache and pools speak for the current rows, for every id the invalidation reaches. */
  ghost predicate Coherent(s: System) {
    && Owned(s.router)
    && (forall t :: t in s.router.metaCache && TrimSpace(t) == t ==>
          t in s.rows && s.router.metaCache[t].meta == ProviderMeta(s.rows[t]))
    && (forall t :: t in s.router.dedicated && TrimSpace(t) == t ==>
          t in s.rows && s.router.pools[s.router.dedicated[t]].info == s.rows[t].dsn)
  }

  lemma SaveKeepsCoherent(s: System, t: string, row: Row, isNew: bool, dbOk: bool)
    requires Coherent(s)
    ensures Coherent(Save(s, t, row, isNew, dbOk))
  {
    InvalidateKeepsOwned(s.router, t);
  }

  lemma CloseKeepsCoherent(s: System)
    requires Coherent(s)
    ensures Coherent(s.(router := CloseAll(s.router)))
  {
    CloseKeepsOwned(s.router);
  }

  lemma MetaRouteAgrees(s: System, op: Op, r: Router, m: Meta)
    requires op.RouteOp? && TrimSpace(op.t) == op.t && !IsBlank(op.t) && op.t in s.rows
    requires Coherent(s.(router := r)) && m == ProviderMeta(s.rows[op.t])
    ensures var (r', a) := RouteWithMeta(r, op.t, m, op.openOk);
      Coherent(s.(router := r')) && Agrees(s, r', op, a)
  {
    if Decide(m).UseDedicated? { OpenKeepsOwned(r, op.t, Decide(m).dsn, op.openOk); }
  }

  lemma RouteAgrees(s: System, op: Op)
    requires op.RouteOp? && Coherent(s) && TrimSpace(op.t) == op.t
    ensures var (r, a) := Route(s.router, op.t, op.now, Fetch(s, op.t, op.providerUp), op.openOk);
      Coherent(Step(s, op)) && Agrees(s, r, op, a)
  {
    if !IsBlank(op.t) {
      match CachedMeta(s.router, op.t, op.now) {
        case Some(m) => MetaRouteAgrees(s, op, s.router, m);
        case None =>
          var f := Fetch(s, op.t, op.providerUp);
          if f.Some? { MetaRouteAgrees(s, op, StoreMeta(s.router, op.t, f.value, op.now), f.value); }
      }
    }
  }

  /** Routing an id that carries surrounding white space only touches its own entries. */
  lemma UntrimmedRouteKeepsCoherent(s: System, op: Op)
    requires op.RouteOp? && Coherent(s) && TrimSpace(op.t) != op.t
    ensures Coherent(Step(s, op))
  {
    var f := Fetch(s, op.t, op.providerUp);
    if !IsBlank(op.t) {
      match CachedMeta(s.router, op.t, op.now) {
        case Some(m) =>
          if Decide(m).UseDedicated? { OpenKeepsOwned(s.router, op.t, Decide(m).dsn, op.openOk); }
        case None =>
          if f.Some? && Decide(f.value).UseDedicated? {
            OpenKeepsOwned(StoreMeta(s.router, op.t, f.value, op.now), op.t, Decide(f.value).dsn, op.openOk);
          }
      }
    }
  }

  lemma {:induction false} RunIsCoherent(rows: map<string, Row>, ops: seq<Op>)
    ensures Coherent(Run(rows, ops))
  {
    if ops != [] {
      var s, op := Run(rows, ops[..|ops| - 1]), ops[|ops| - 1];
      RunIsCoherent(rows, ops[..|ops| - 1]);
      match op {
        case SaveOp(t, row, isNew, dbOk) => SaveKeepsCoherent(s, t, row, isNew, dbOk);
        case RouteOp(t, _, _, _) =>
          if TrimSpace(t) == t { RouteAgrees(s, op); } else { UntrimmedRouteKeepsCoherent(s, op); }
        case CloseOp => CloseKeepsCoherent(s);
      }
    }
  }

  /** The routing call `op` after `ops` agrees with the uncached decision. */
  ghost predicate AgreesAfter(rows: map<string, Row>, ops: seq<Op>, op: Op)
    requires op.RouteOp?
  {
    var s := Run(rows, ops);
    var (r, a) := Route(s.router, op.t, op.now, Fetch(s, op.t, op.providerUp), op.openOk);
    Agrees(s, r, op, a)
  }

  /** Over any sequence of configuration changes, routes and shutdowns, a route for a
      trimmed tenant id follows the current row. */
  lemma TrimmedRoutesAgree(rows: map<string, Row>, ops: seq<Op>, op: Op)
    requires op.RouteOp? && TrimSpace(op.t) == op.t
    ensures AgreesAfter(rows, ops, op)
  {
    RunIsCoherent(rows, ops);
    RouteAgrees(Run(rows, ops), op);
  }

  /** Which database a tenant gets, read off its current row: after every run, for a
      trimmed id, the answer is an error only without cached and provided metadata or for
      an inactive tenant or a failed open; the tenant's own pool, opened with the row's
      DSN, exactly for an active row in mode "dedicated" with a DSN; else the shared one. */
  lemma AnswerByRow(rows: map<string, Row>, ops: seq<Op>, op: Op)
    requires op.RouteOp? && TrimSpace(op.t) == op.t && !IsBlank(op.t)
    ensures var s := Run(rows, ops);
            var (r, a) := Route(s.router, op.t, op.now, Fetch(s, op.t, op.providerUp), op.openOk);
            var cached := op.t in s.router.metaCache && op.now - s.router.metaCache[op.t].fetchedAt < 30_000_000_000;
      && (a == MetaError <==> !cached && !(op.providerUp && op.t in s.rows))
      && (a != MetaError ==>
            op.t in s.rows &&
            var row := s.rows[op.t];
            var own := row.active && ToLower(TrimSpace(row.mode)) == "dedicated" && !IsBlank(row.dsn);
            && (a == InactiveError <==> !row.active)
            && (a == SharedPool <==> row.active && (ToLower(TrimSpace(row.mode)) != "dedicated" || IsBlank(row.dsn)))
            && (a == OpenError <==> own && op.t !in s.router.dedicated && !op.openOk)
            && (a.Pool? <==> own && (op.t in s.router.dedicated || op.openOk))
            && (a.Pool? ==> a.id < |r.pools| && r.pools[a.id] == Item(row.dsn, op.t, 0)))
  {
    var s := Run(rows, ops);
    RunIsCoherent(rows, ops);
    RouteAgrees(s, op);
    var f := Fetch(s, op.t, op.providerUp);
    if CachedMeta(s.router, op.t, op.now).Some? {
      RouteByMeta(s.router, op.t, CachedMeta(s.router, op.t, op.now).value, op.openOk);
    } else if f.Some? {
      RouteByMeta(StoreMeta(s.router, op.t, f.value, op.now), op.t, f.value, op.openOk);
    }
  }

  /** A tenant is stored exactly if its id and name are not blank, its threshold is
      positive, its mode is shared or dedicated in any spelling, a dedicated one has a
      DSN, the statement succeeds, and it is new or known as the call expects; it is then
      stored with the mode in lower case. */
  lemma SaveByFields(s: System, t: string, row: Row, isNew: bool, dbOk: bool)
    ensures var mode := ToLower(TrimSpace(row.mode));
            var accepted :=
              && !IsBlank(t) && !IsBlank(row.name) && row.userThreshold > 0
              && (mode == "shared" || (mode == "dedicated" && !IsBlank(row.dsn)))
              && dbOk && (t in s.rows <==> !isNew);
      Save(s, t, row, isNew, dbOk) ==
        if accepted
        then System(s.rows[t := Row(row.name, mode, row.dsn, row.userThreshold, row.active)], Invalidate(s.router, t))
        else s
  {
    NormalTwice(row.mode);
    NormalRow(t, row.(mode := NormalMode(row.mode)));
  }

  lemma NormalRow(t: string, row: Row)
    requires NormalMode(row.mode) == row.mode
    ensures Acceptable(t, row) <==>
      && !IsBlank(t) && !IsBlank(row.name) && row.userThreshold > 0
      && (row.mode == "shared" || (row.mode == "dedicated" && !IsBlank(row.dsn)))
  {}

  /** Normalizing again changes nothing. */
  lemma NormalTwice(mode: string)
    ensures NormalMode(NormalMode(mode)) == NormalMode(mode)
  {
    TrimmedLower(mode);
    LowerTwice(TrimSpace(mode));
  }

  const OPEN_ROW := Row("n", "shared", "", 1, true)
  const CLOSED_ROW := Row("n", "shared", "", 1, false)

  /** Create a tenant, route it, deactivate it. */
  function StaleRun(t: string): seq<Op> {
    [SaveOp(t, OPEN_ROW, true, true), RouteOp(t, 0, true, true), SaveOp(t, CLOSED_ROW, false, true)]
  }

  /** A row that is stored as it is. */
  predicate Storable(t: string, row: Row) { Acceptable(t, row) && NormalMode(row.mode) == row.mode }

  lemma RowsAreStorable(t: string)
    requires !IsBlank(t)
    ensures Storable(t, OPEN_ROW) && Storable(t, CLOSED_ROW)
    ensures Decide(ProviderMeta(OPEN_ROW)) == UseShared && Decide(ProviderMeta(CLOSED_ROW)) == Refuse
  {
    var w := "shared";
    assert LeadingSpace(w) == 0 && TrailingSpace(w) == 0;
    assert LeadingSpace("n") == 0 && TrailingSpace("n") == 0;
    LowerUnchanged(w);
  }

  lemma SaveStores(s: System, t: string, row: Row, isNew: bool)
    requires Storable(t, row) && (t in s.rows) != isNew
    ensures Step(s, SaveOp(t, row, isNew, true)) == System(s.rows[t := row], Invalidate(s.router, t))
  {}

  /** Routing a tenant that is not cached yet and is not dedicated. */
  lemma RouteStores(s: System, t: string, now: int)
    requires !IsBlank(t) && t in s.rows && t !in s.router.metaCache && !Decide(ProviderMeta(s.rows[t])).UseDedicated?
    ensures Step(s, RouteOp(t, now, true, true)) == s.(router := StoreMeta(s.router, t, ProviderMeta(s.rows[t]), now))
  {}

  /** An invalidation of an untrimmed id misses its cache entry. */
  lemma InvalidateMisses(t: string, m: Meta)
    requires TrimSpace(t) != t
    ensures var r := StoreMeta(EMPTY, t, m, 0); Invalidate(r, t) == r
  {
    var r := StoreMeta(EMPTY, t, m, 0);
    assert r.metaCache - {TrimSpace(t)} == r.metaCache;
  }

  lemma StaleState(t: string, open: Row, closed: Row)
    requires !IsBlank(t) && TrimSpace(t) != t && Storable(t, open) && Storable(t, closed)
    requires !Decide(ProviderMeta(open)).UseDedicated?
    ensures Run(map[], [SaveOp(t, open, true, true), RouteOp(t, 0, true, true), SaveOp(t, closed, false, true)])
         == System(map[t := closed], StoreMeta(EMPTY, t, ProviderMeta(open), 0))
  {
    var save, route, change := SaveOp(t, open, true, true), RouteOp(t, 0, true, true), SaveOp(t, closed, false, true);
    assert [save, route, change][..2] == [save, route] && [save, route][..1] == [save] && [save][..0] == [];
    SaveStores(System(map[], EMPTY), t, open, true);
    assert Invalidate(EMPTY, t) == EMPTY;
    var s := System(map[t := open], EMPTY);
    assert Run(map[], [save]) == s;
    RouteStores(s, t, 0);
    var s' := System(map[t := open], StoreMeta(EMPTY, t, ProviderMeta(open), 0));
    assert Run(map[], [save, route]) == s';
    SaveStores(s', t, closed, false);
    InvalidateMisses(t, ProviderMeta(open));
    assert map[t := open][t := closed] == map[t := closed];
  }

  lemma StaleRouteDisagrees(t: string, open: Row, closed: Row)
    requires !IsBlank(t) && TrimSpace(t) != t && Storable(t, open) && Storable(t, closed)
    requires Decide(ProviderMeta(open)) == UseShared && Decide(ProviderMeta(closed)) == Refuse
    ensures !AgreesAfter(map[], [SaveOp(t, open, true, true), RouteOp(t, 0, true, true), SaveOp(t, closed, false, true)],
                         RouteOp(t, 1, true, true))
  {
    StaleState(t, open, closed);
    var r := StoreMeta(EMPTY, t, ProviderMeta(open), 0);
    assert Route(r, t, 1, Some(ProviderMeta(closed)), true).1 == SharedPool;
  }

  /** For any other id the cache outlives a configuration change: UpdateConfig
      invalidates the trimmed id, which is not the one the router used. */
  lemma UntrimmedRouteDisagrees(t: string)
    requires !IsBlank(t) && TrimSpace(t) != t
    ensures !AgreesAfter(map[], StaleRun(t), RouteOp(t, 1, true, true))
  {
    RowsAreStorable(t);
    StaleRouteDisagrees(t, OPEN_ROW, CLOSED_ROW);
  }

  ghost predicate AlwaysAgrees(t: string) {
    forall rows: map<string, Row>, ops: seq<Op>, op: Op :: op.RouteOp? && op.t == t ==> AgreesAfter(rows, ops, op)
  }

  lemma TrimmedAlwaysAgrees(t: string)
    requires TrimSpace(t) == t
    ensures AlwaysAgrees(t)
  {
    forall rows: map<string, Row>, ops: seq<Op>, op: Op | op.RouteOp? && op.t == t ensures AgreesAfter(rows, ops, op) {
      TrimmedRoutesAgree(rows, ops, op);
    }
  }

  lemma UntrimmedMayDisagree(t: string, run: seq<Op>, op: Op)
    requires op.RouteOp? && op.t == t && !AgreesAfter(map[], run, op)
    ensures !AlwaysAgrees(t)
  {}

  /** Exactly the ids without surrounding white space are routed coherently. */
  lemma CoherentIffTrimmed(t: string)
    requires !IsBlank(t)
    ensures AlwaysAgrees(t) <==> TrimSpace(t) == t
  {
    if TrimSpace(t) == t {
      TrimmedAlwaysAgrees(t);
    } else {
      UntrimmedRouteDisagrees(t);
      UntrimmedMayDisagree(t, StaleRun(t), RouteOp(t, 1, true, true));
    }
  }
}

/** Routing calls, configuration changes, invalidations and shutdown interleaved at
    the granularity of the router's lock. */
module RouterInterleaving {
  import opened GoStrings
  import opened TenantMeta
  import opened TenantRouter

  /** Where a caller stands in DBForTenant; `began` is its time.Now(). */
  datatype Caller =
    | Idle
    | Began(t: string, began: int)
    | Missed(t: string, began: int)
    | Fetched(t: string, began: int, meta: Meta)
    | Using(t: string, began: int, meta: Meta)
    | Wanting(t: string, began: int, meta: Meta)
    | Locking(t: string, began: int, meta: Meta)

  /** The rows in force from `at` on. */
  datatype Version = Version(at: int, rows: map<string, Row>)

  datatype World = World(now: int, versions: seq<Version>, router: Router, callers: map<nat, Caller>)

  function At(w: World, c: nat): Caller { if c in w.callers then w.callers[c] else Idle }

  function Goto(w: World, c: nat, pc: Caller): World { w.(callers := w.callers[c := pc]) }

  datatype Action =
    | Tick(d: nat)
    | Change(t: string, row: Row)
    | Begin(c: nat, t: string)
    | CheckCache(c: nat)
    | Ask(c: nat, up: bool)
    | Keep(c: nat)
    | Choose(c: nat)
    | Peek(c: nat)
    | Open(c: nat, ok: bool)
    | Drop(t: string)
    | Shutdown

  predicate Sane(w: World) { w.versions != [] && w.versions[|w.versions| - 1].at <= w.now }

  function CurrentRows(w: World): map<string, Row>
    requires w.versions != []
  {
    w.versions[|w.versions| - 1].rows
  }

  /** One atomic step; an action that is not enabled changes nothing. */
  function Do(w: World, a: Action): World
    requires Sane(w)
  {
    match a
    case Tick(d) => w.(now := w.now + d)
    case Change(t, row) => w.(versions := w.versions + [Version(w.now, CurrentRows(w)[t := row])])
    case Begin(c, t) => if At(w, c).Idle? && !IsBlank(t) then Goto(w, c, Began(t, w.now)) else w
    case CheckCache(c) =>
      var pc := At(w, c);
      if !pc.Began? then w
      else
        var m := CachedMeta(w.router, pc.t, pc.began);
        Goto(w, c, if m.Some? then Using(pc.t, pc.began, m.value) else Missed(pc.t, pc.began))
    case Ask(c, up) =>
      var pc := At(w, c);
      if !pc.Missed? then w
      else if up && pc.t in CurrentRows(w) then Goto(w, c, Fetched(pc.t, pc.began, ProviderMeta(CurrentRows(w)[pc.t])))
      else Goto(w, c, Idle)
    case Keep(c) =>
      var pc := At(w, c);
      if !pc.Fetched? then w
      else Goto(w, c, Using(pc.t, pc.began, pc.meta)).(router := StoreMeta(w.router, pc.t, pc.meta, pc.began))
    case Choose(c) =>
      var pc := At(w, c);
      if !pc.Using? then w
      else if Decide(pc.meta).UseDedicated? then Goto(w, c, Wanting(pc.t, pc.began, pc.meta))
      else Goto(w, c, Idle)
    case Peek(c) =>
      var pc := At(w, c);
      if !pc.Wanting? then w
      else if pc.t in w.router.dedicated then Goto(w, c, Idle)
      else Goto(w, c, Locking(pc.t, pc.began, pc.meta))
    case Open(c, ok) =>
      var pc := At(w, c);
      if !pc.Locking? then w
      else Goto(w, c, Idle).(router := OpenPool(w.router, pc.t, pc.meta.dsn, ok).0)
    case Drop(t) => w.(router := Invalidate(w.router, t))
    case Shutdown => w.(router := CloseAll(w.router))
  }

  function Start(now: int, rows: map<string, Row>): World {
    World(now, [Version(now, rows)], EMPTY, map[])
  }

  lemma DoIsSane(w: World, a: Action)
    requires Sane(w)
    ensures Sane(Do(w, a)) && w.now <= Do(w, a).now
    ensures w.versions <= Do(w, a).versions
    ensures |Do(w, a).versions| > |w.versions| ==> Do(w, a).versions[|w.versions|].at == w.now
  {}

  ghost function Run(now: int, rows: map<string, Row>, actions: seq<Action>): (w: World)
    ensures Sane(w)
  {
    if actions == [] then Start(now, rows)
    else
      var w := Run(now, rows, actions[..|actions| - 1]);
      DoIsSane(w, actions[|actions| - 1]);
      Do(w, actions[|actions| - 1])
  }

  /** Version i was in force at instant `at`. */
  ghost predicate InForce(w: World, i: nat, at: int) {
    && i < |w.versions|
    && w.versions[i].at <= at <= (if i + 1 < |w.versions| then w.versions[i + 1].at else w.now)
  }

  /** `m` was the provider's true answer for `t` at some instant `from` or later. */
  ghost predicate TrueSince(w: World, t: string, m: Meta, from: int) {
    exists i: nat, at: int ::
      InForce(w, i, at) && from <= at && t in w.versions[i].rows && ProviderMeta(w.versions[i].rows[t]) == m
  }

  lemma TrueSinceStable(w: World, a: Action, t: string, m: Meta, from: int)
    requires Sane(w) && TrueSince(w, t, m, from)
    ensures TrueSince(Do(w, a), t, m, from)
  {
    var w' := Do(w, a);
    DoIsSane(w, a);
    var i: nat, at: int :|
      InForce(w, i, at) && from <= at && t in w.versions[i].rows && ProviderMeta(w.versions[i].rows[t]) == m;
    assert w'.versions[i] == w.versions[i];
    assert i + 1 < |w.versions| ==> w'.versions[i + 1] == w.versions[i + 1];
    assert InForce(w', i, at);
  }

  ghost predicate CacheIsTrue(w: World) {
    forall t :: t in w.router.metaCache ==> TrueSince(w, t, w.router.metaCache[t].meta, w.router.metaCache[t].fetchedAt)
  }

  /** The caller has metadata and acts on it. */
  predicate Acting(pc: Caller) { pc.Using? || pc.Wanting? || pc.Locking? }

  /** A caller's metadata is younger than its start minus the cache lifetime; fresh
      from the provider it is not older than its start. */
  ghost predicate CallerIsFresh(w: World, c: nat) {
    var pc := At(w, c);
    && (pc.Fetched? ==> TrueSince(w, pc.t, pc.meta, pc.began))
    && (Acting(pc) ==> TrueSince(w, pc.t, pc.meta, pc.began - CACHE_TTL + 1))
    && (!pc.Idle? ==> pc.began <= w.now)
  }

  ghost predicate Inv(w: World) {
    && Sane(w)
    && Owned(w.router)
    && CacheIsTrue(w)
    && (forall c :: CallerIsFresh(w, c))
  }

  lemma DoKeepsOwned(w: World, a: Action)
    requires Inv(w)
    ensures Owned(Do(w, a).router)
  {
    match a {
      case Open(c, ok) =>
        var pc := At(w, c);
        if pc.Locking? { OpenKeepsOwned(w.router, pc.t, pc.meta.dsn, ok); }
      case Drop(t) => InvalidateKeepsOwned(w.router, t);
      case Shutdown => CloseKeepsOwned(w.router);
      case _ =>
    }
  }

  lemma TrueSinceWeaken(w: World, t: string, m: Meta, from: int, earlier: int)
    requires TrueSince(w, t, m, from) && earlier <= from
    ensures TrueSince(w, t, m, earlier)
  {
    var i: nat, at: int :|
      InForce(w, i, at) && from <= at && t in w.versions[i].rows && ProviderMeta(w.versions[i].rows[t]) == m;
    assert InForce(w, i, at) && earlier <= at;
  }

  /** What the provider answers now is true now. */
  lemma AskIsTrue(w: World, t: string, from: int)
    requires Sane(w) && t in CurrentRows(w) && from <= w.now
    ensures TrueSince(w, t, ProviderMeta(CurrentRows(w)[t]), from)
  {
    assert InForce(w, |w.versions| - 1, w.now);
  }

  /** A new cache entry comes from a caller that has just fetched it. */
  lemma CacheSource(w: World, a: Action, t: string)
    requires Sane(w) && t in Do(w, a).router.metaCache
    ensures var entry := Do(w, a).router.metaCache[t];
      || (t in w.router.metaCache && w.router.metaCache[t] == entry)
      || (a.Keep? && At(w, a.c).Fetched? && At(w, a.c).t == t && entry == Cached(At(w, a.c).meta, At(w, a.c).began))
  {}

  lemma DoKeepsCache(w: World, a: Action)
    requires Inv(w)
    ensures CacheIsTrue(Do(w, a))
  {
    var w' := Do(w, a);
    forall t | t in w'.router.metaCache
      ensures TrueSince(w', t, w'.router.metaCache[t].meta, w'.router.metaCache[t].fetchedAt)
    {
      var entry := w'.router.metaCache[t];
      CacheSource(w, a, t);
      if a.Keep? { assert CallerIsFresh(w, a.c); }
      TrueSinceStable(w, a, t, entry.meta, entry.fetchedAt);
    }
  }

  /** Where a caller's metadata comes from. */
  lemma CallerSource(w: World, a: Action, c: nat)
    requires Sane(w)
    ensures var pc, pc' := At(w, c), At(Do(w, a), c);
      && (pc'.Fetched? && pc' != pc ==>
            pc.Missed? && pc'.t == pc.t && pc'.began == pc.began
            && pc.t in CurrentRows(w) && pc'.meta == ProviderMeta(CurrentRows(w)[pc.t]))
      && (Acting(pc') && !Acting(pc) ==>
            && pc'.t == pc.t && pc'.began == pc.began
            && if pc.Began? then CachedMeta(w.router, pc.t, pc.began) == Some(pc'.meta)
               else pc.Fetched? && pc'.meta == pc.meta)
      && (Acting(pc') && Acting(pc) ==> pc'.t == pc.t && pc'.began == pc.began && pc'.meta == pc.meta)
      && (!pc'.Idle? ==> pc'.began == if pc.Idle? then w.now else pc.began)
  {}

  lemma DoKeepsCaller(w: World, a: Action, c: nat)
    requires Inv(w)
    ensures CallerIsFresh(Do(w, a), c)
  {
    var pc, pc' := At(w, c), At(Do(w, a), c);
    DoIsSane(w, a);
    CallerSource(w, a, c);
    assert CallerIsFresh(w, c);
    if pc'.Fetched? {
      if pc != pc' { AskIsTrue(w, pc.t, pc.began); }
      TrueSinceStable(w, a, pc'.t, pc'.meta, pc'.began);
    } else if Acting(pc') {
      ActingIsFresh(w, a, c);
    }
  }

  lemma ActingIsFresh(w: World, a: Action, c: nat)
    requires Inv(w) && Acting(At(Do(w, a), c))
    ensures var pc' := At(Do(w, a), c);
      TrueSince(Do(w, a), pc'.t, pc'.meta, pc'.began - CACHE_TTL + 1)
  {
    var pc, pc' := At(w, c), At(Do(w, a), c);
    var from := pc'.began - CACHE_TTL + 1;
    CallerSource(w, a, c);
    assert CallerIsFresh(w, c);
    if pc.Began? {
      TrueSinceWeaken(w, pc.t, pc'.meta, w.router.metaCache[pc.t].fetchedAt, from);
    } else if pc.Fetched? {
      TrueSinceWeaken(w, pc.t, pc.meta, pc.began, from);
    }
    TrueSinceStable(w, a, pc'.t, pc'.meta, from);
  }

  lemma {:induction false} AlwaysInv(now: int, rows: map<string, Row>, actions: seq<Action>)
    ensures Inv(Run(now, rows, actions))
  {
    if actions != [] {
      var w, a := Run(now, rows, actions[..|actions| - 1]), actions[|actions| - 1];
      AlwaysInv(now, rows, actions[..|actions| - 1]);
      DoIsSane(w, a);
      DoKeepsOwned(w, a);
      DoKeepsCache(w, a);
      forall c ensures CallerIsFresh(Do(w, a), c) { DoKeepsCaller(w, a, c); }
    }
  }

  /** Bounded staleness: under every interleaving, the metadata a routing call acts on
      was true at an instant later than the call's start minus the cache lifetime. */
  lemma BoundedStaleness(now: int, rows: map<string, Row>, actions: seq<Action>, c: nat)
    ensures var w := Run(now, rows, actions);
            var pc := At(w, c);
      Acting(pc) ==>
        exists i: nat, at: int ::
          && InForce(w, i, at) && at > pc.began - CACHE_TTL
          && pc.t in w.versions[i].rows && ProviderMeta(w.versions[i].rows[pc.t]) == pc.meta
  {
    AlwaysInv(now, rows, actions);
    var w := Run(now, rows, actions);
    assert CallerIsFresh(w, c);
  }

  /** No leaks, no double closes, no shared pools, under every interleaving. */
  lemma PoolsAreAccountedFor(now: int, rows: map<string, Row>, actions: seq<Action>, p: nat)
    requires p < |Run(now, rows, actions).router.pools|
    ensures var r := Run(now, rows, actions).router;
      && ((exists t :: t in r.dedicated && r.dedicated[t] == p) <==> r.pools[p].closes == 0)
      && r.pools[p].closes <= 1
      && (forall t, u :: t in r.dedicated && u in r.dedicated && r.dedicated[t] == r.dedicated[u] ==> t == u)
  {
    AlwaysInv(now, rows, actions);
  }

  /** What everybody else's steps do: an invalidation and a shutdown are the router's own,
      a change adds a version of the rows, time only passes; no caller moves. */
  lemma OtherSteps(w: World, t: string, row: Row, d: nat)
    requires Sane(w)
    ensures Do(w, Drop(t)) == w.(router := Invalidate(w.router, t))
    ensures Do(w, Shutdown) == w.(router := CloseAll(w.router))
    ensures Do(w, Tick(d)) == w.(now := w.now + d)
    ensures var w' := Do(w, Change(t, row));
      w'.versions == w.versions + [Version(w.now, CurrentRows(w)[t := row])] && w'.router == w.router && w'.callers == w.callers
  {}

  // ---------- a caller left alone ----------

  function Fetchable(w: World, t: string, up: bool): Option<Meta>
    requires w.versions != []
  {
    if up && t in CurrentRows(w) then Some(ProviderMeta(CurrentRows(w)[t])) else None
  }

  /** The first four steps of a caller, and the last three. */
  ghost function Loading(w: World, c: nat, t: string, up: bool): (w': World)
    requires Sane(w)
    ensures Sane(w')
  {
    DoIsSane(w, Begin(c, t));
    var w1 := Do(w, Begin(c, t));
    DoIsSane(w1, CheckCache(c));
    var w2 := Do(w1, CheckCache(c));
    DoIsSane(w2, Ask(c, up));
    var w3 := Do(w2, Ask(c, up));
    DoIsSane(w3, Keep(c));
    Do(w3, Keep(c))
  }

  ghost function Serving(w: World, c: nat, openOk: bool): World
    requires Sane(w)
  {
    DoIsSane(w, Choose(c));
    var w1 := Do(w, Choose(c));
    DoIsSane(w1, Peek(c));
    Do(Do(w1, Peek(c)), Open(c, openOk))
  }

  lemma AloneServes(w: World, c: nat, t: string, began: int, m: Meta, openOk: bool)
    requires Sane(w) && At(w, c) == Using(t, began, m)
    ensures var w' := Serving(w, c, openOk);
      w'.router == RouteWithMeta(w.router, t, m, openOk).0 && At(w', c).Idle?
  {}

  lemma AloneLoads(w: World, c: nat, t: string, up: bool)
    requires Sane(w) && At(w, c).Idle? && !IsBlank(t)
    ensures var w' := Loading(w, c, t, up);
            var cached, f := CachedMeta(w.router, t, w.now), Fetchable(w, t, up);
      && (cached.Some? ==> At(w', c) == Using(t, w.now, cached.value) && w'.router == w.router)
      && (cached.None? && f.Some? ==> At(w', c) == Using(t, w.now, f.value) && w'.router == StoreMeta(w.router, t, f.value, w.now))
      && (cached.None? && f.None? ==> At(w', c).Idle? && w'.router == w.router)
  {}

  lemma IdleStays(w: World, c: nat, openOk: bool)
    requires Sane(w) && At(w, c).Idle?
    ensures Serving(w, c, openOk) == w
  {}

  /** The steps of a caller that nobody interrupts are the routing call. */
  lemma AloneIsRoute(w: World, c: nat, t: string, up: bool, openOk: bool)
    requires Sane(w) && At(w, c).Idle? && !IsBlank(t)
    ensures var w' := Serving(Loading(w, c, t, up), c, openOk);
      At(w', c).Idle? && w'.router == Route(w.router, t, w.now, Fetchable(w, t, up), openOk).0
  {
    var loaded := Loading(w, c, t, up);
    AloneLoads(w, c, t, up);
    if At(loaded, c).Idle? {
      IdleStays(loaded, c, openOk);
    } else {
      AloneServes(loaded, c, t, w.now, At(loaded, c).meta, openOk);
    }
  }
}
