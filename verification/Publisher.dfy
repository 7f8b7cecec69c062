/** Dedicated message-queue publishers: a connection and a channel per tenant, set
    up in stages and rolled back when a stage fails (server/chat/service/publisher.go). */
module Publisher {
  import opened GoStrings
  import opened Ledger
  import opened TenantMeta

  datatype Answer = Shared | Dedicated(pair: Pair) | MetaError | InactiveError | SetupError

  /** How far amqp.Dial, Channel and ExchangeDeclare get. */
  datatype Setup = DialFails | ChannelFails | DeclareFails | Ready

  datatype Pair = Pair(conn: nat, channel: nat)

  /** Connections remember their URL, channels the connection they belong to. */
  datatype State = State(
    metaCache: map<string, Cached>,
    dedicated: map<string, Pair>,
    conns: seq<Item<string>>,
    channels: seq<Item<nat>>)

  const EMPTY := State(map[], map[], [], [])

  /** What the metadata provider has to say, if there is one. */
  datatype Provider = NoProvider | ProviderError | Row(mode: string, url: string, active: bool)

  function ProviderMeta(p: Provider): Option<Meta> {
    match p
    case NoProvider => Some(Meta("shared", "", true))
    case ProviderError => None
    case Row(mode, url, active) => Some(Meta(ToLower(TrimSpace(mode)), TrimSpace(url), active))
  }

  /** loadMeta */
  function Load(s: State, t: string, now: int, p: Provider): (State, Option<Meta>) {
    if Fresh(s.metaCache, t, now).Some? then (s, Fresh(s.metaCache, t, now))
    else match ProviderMeta(p)
      case None => (s, None)
      case Some(m) => (s.(metaCache := s.metaCache[t := Cached(m, now)]), Some(m))
  }

  function ConnOf(d: map<string, Pair>): map<string, nat> { map t | t in d :: d[t].conn }

  function ChannelOf(d: map<string, Pair>): map<string, nat> { map t | t in d :: d[t].channel }

  /** The section of publisherForTenant under the write lock. */
  function OpenPublisher(s: State, t: string, url: string, setup: Setup): (State, Option<Pair>) {
    if t in s.dedicated then (s, Some(s.dedicated[t]))
    else match setup
      case DialFails => (s, None)
      case ChannelFails => (s.(conns := s.conns + [Item(url, t, 1)]), None)
      case DeclareFails =>
        (s.(conns := s.conns + [Item(url, t, 1)], channels := s.channels + [Item(|s.conns|, t, 1)]), None)
      case Ready =>
        var pair := Pair(|s.conns|, |s.channels|);
        (s.(dedicated := s.dedicated[t := pair], conns := s.conns + [Item(url, t, 0)], channels := s.channels + [Item(|s.conns|, t, 0)]),
         Some(pair))
  }

  function RouteWithMeta(s: State, t: string, m: Meta, setup: Setup): (State, Answer) {
    match Decide(m)
    case Refuse => (s, InactiveError)
    case UseShared => (s, Shared)
    case UseDedicated(url) =>
      var (s', pair) := OpenPublisher(s, t, url, setup);
      (s', if pair.Some? then Dedicated(pair.value) else SetupError)
  }

  function Route(s: State, t: string, now: int, p: Provider, setup: Setup): (State, Answer) {
    if IsBlank(t) then (s, Shared)
    else
      var (s', meta) := Load(s, t, now, p);
      if meta.None? then (s', MetaError) else RouteWithMeta(s', t, meta.value, setup)
  }

  /** Closing and forgetting one tenant's pair. */
  function GiveUp(s: State, t: string): State
    requires t in s.dedicated
  {
    s.(dedicated := s.dedicated - {t},
       conns := Shut(s.conns, s.dedicated[t].conn),
       channels := Shut(s.channels, s.dedicated[t].channel))
  }

  function Invalidate(s: State, t: string): State {
    var id := TrimSpace(t);
    if id == "" then s
    else
      var s' := s.(metaCache := s.metaCache - {id});
      if id in s'.dedicated then GiveUp(s', id) else s'
  }

  function CloseAll(s: State): State {
    s.(dedicated := map[],
       conns := ShutAll(ConnOf(s.dedicated), s.conns),
       channels := ShutAll(ChannelOf(s.dedicated), s.channels))
  }

  /** Connections and channels are each held by one tenant or closed once, and a
      held channel runs on the held connection. */
  ghost predicate Accounted(dedicated: map<string, Pair>, conns: seq<Item<string>>, channels: seq<Item<nat>>) {
    && Balanced(ConnOf(dedicated), conns)
    && Balanced(ChannelOf(dedicated), channels)
    && (forall t :: t in dedicated ==>
          dedicated[t].channel < |channels| && channels[dedicated[t].channel].info == dedicated[t].conn)
  }

  ghost predicate Owned(s: State) { Accounted(s.dedicated, s.conns, s.channels) }

  lemma ProjectionsAdd(d: map<string, Pair>, t: string, p: Pair)
    ensures ConnOf(d[t := p]) == ConnOf(d)[t := p.conn]
    ensures ChannelOf(d[t := p]) == ChannelOf(d)[t := p.channel]
  {}

  lemma ProjectionsRemove(d: map<string, Pair>, t: string)
    ensures ConnOf(d - {t}) == ConnOf(d) - {t}
    ensures ChannelOf(d - {t}) == ChannelOf(d) - {t}
  {}

  lemma OpenKeepsOwned(s: State, t: string, url: string, setup: Setup)
    requires Owned(s)
    ensures Owned(OpenPublisher(s, t, url, setup).0)
  {
    if t !in s.dedicated {
      match setup {
        case DialFails =>
        case ChannelFails => BalancedRollback(ConnOf(s.dedicated), s.conns, t, url);
        case DeclareFails =>
          BalancedRollback(ConnOf(s.dedicated), s.conns, t, url);
          BalancedRollback(ChannelOf(s.dedicated), s.channels, t, |s.conns|);
        case Ready =>
          ProjectionsAdd(s.dedicated, t, Pair(|s.conns|, |s.channels|));
          BalancedOpen(ConnOf(s.dedicated), s.conns, t, url);
          BalancedOpen(ChannelOf(s.dedicated), s.channels, t, |s.conns|);
      }
    }
  }

  lemma ShutKeepsOwned(s: State, t: string)
    requires Owned(s) && t in s.dedicated
    ensures Owned(GiveUp(s, t)) && CloseAll(GiveUp(s, t)) == CloseAll(s)
  {
    ProjectionsRemove(s.dedicated, t);
    BalancedShut(ConnOf(s.dedicated), s.conns, t);
    BalancedShut(ChannelOf(s.dedicated), s.channels, t);
    ShutAllStep(ConnOf(s.dedicated), s.conns, t);
    ShutAllStep(ChannelOf(s.dedicated), s.channels, t);
  }

  lemma CloseKeepsOwned(s: State)
    requires Owned(s)
    ensures Owned(CloseAll(s))
  {
    BalancedShutAll(ConnOf(s.dedicated), s.conns);
    BalancedShutAll(ChannelOf(s.dedicated), s.channels);
    assert ConnOf(map[]) == map[] && ChannelOf(map[]) == map[];
  }

  class AMQPPublisher {
    var metaCache: map<string, Cached>
    var dedicated: map<string, Pair>
    var conns: seq<Item<string>>
    var channels: seq<Item<nat>>

    ghost function View(): State reads this { State(metaCache, dedicated, conns, channels) }

    ghost predicate Valid() reads this { Owned(View()) }

    constructor ()
      ensures Valid() && View() == EMPTY
    {
      metaCache, dedicated, conns, channels := map[], map[], [], [];
    }

    method LoadMeta(t: string, now: int, p: Provider) returns (m: Option<Meta>)
      requires Valid()
      modifies this`metaCache
      ensures Valid()
      ensures (View(), m) == Load(old(View()), t, now, p)
    {
      if t in metaCache && now - metaCache[t].fetchedAt < CACHE_TTL { return Some(metaCache[t].meta); }
      if p.NoProvider? {
        metaCache := metaCache[t := Cached(Meta("shared", "", true), now)];
        return Some(metaCache[t].meta);
      }
      if p.ProviderError? { return None; }
      metaCache := metaCache[t := Cached(Meta(ToLower(TrimSpace(p.mode)), TrimSpace(p.url), p.active), now)];
      return Some(metaCache[t].meta);
    }

    method PublisherForTenant(t: string, now: int, p: Provider, setup: Setup) returns (a: Answer)
      requires Valid()
      modifies this
      ensures Valid()
      ensures (View(), a) == Route(old(View()), t, now, p, setup)
    {
      if IsBlank(t) { return Shared; }
      var m := LoadMeta(t, now, p);
      if m.None? { return MetaError; }
      a := PublisherForMeta(t, m.value, setup);
    }

    /** publisherForTenant from the active check on. */
    method PublisherForMeta(t: string, m: Meta, setup: Setup) returns (a: Answer)
      requires Valid()
      modifies this`dedicated, this`conns, this`channels
      ensures Valid()
      ensures (View(), a) == RouteWithMeta(old(View()), t, m, setup)
    {
      if !m.active { return InactiveError; }
      if m.mode != "dedicated" || IsBlank(m.dsn) {
        assert Decide(m) == UseShared;
        return Shared;
      }
      assert Decide(m) == UseDedicated(m.dsn);
      var pair := OpenKept(t, m.dsn, setup);
      return if pair.Some? then Dedicated(pair.value) else SetupError;
    }

    /** OpenDedicated keeps the accounting. */
    method OpenKept(t: string, url: string, setup: Setup) returns (pair: Option<Pair>)
      requires Valid()
      modifies this`dedicated, this`conns, this`channels
      ensures Valid() && (View(), pair) == OpenPublisher(old(View()), t, url, setup)
    {
      OpenKeepsOwned(View(), t, url, setup);
      pair := OpenDedicated(t, url, setup);
    }

    method OpenDedicated(t: string, url: string, setup: Setup) returns (pair: Option<Pair>)
      modifies this`dedicated, this`conns, this`channels
      ensures (View(), pair) == OpenPublisher(old(View()), t, url, setup)
    {
      if t in dedicated { return Some(dedicated[t]); }
      if setup.DialFails? { return None; }
      var conn := |conns|;
      ShutLast(conns, t, url);
      ShutLast(channels, t, conn);
      conns := conns + [Item(url, t, 0)];
      if setup.ChannelFails? {
        conns := Shut(conns, conn);
        return None;
      }
      var channel := |channels|;
      channels := channels + [Item(conn, t, 0)];
      if setup.DeclareFails? {
        channels := Shut(channels, channel);
        conns := Shut(conns, conn);
        return None;
      }
      dedicated := dedicated[t := Pair(conn, channel)];
      return Some(dedicated[t]);
    }

    /** The body that InvalidateTenant and Close share. */
    method CloseTenant(t: string)
      requires Valid() && t in dedicated
      modifies this`dedicated, this`conns, this`channels
      ensures Valid() && View() == GiveUp(old(View()), t)
    {
      ShutKeepsOwned(View(), t);
      channels := Shut(channels, dedicated[t].channel);
      conns := Shut(conns, dedicated[t].conn);
      dedicated := dedicated - {t};
    }

    method InvalidateTenant(t: string)
      requires Valid()
      modifies this
      ensures Valid() && View() == Invalidate(old(View()), t)
    {
      var id := TrimSpace(t);
      if id == "" { return; }
      metaCache := metaCache - {id};
      if id in dedicated { CloseTenant(id); }
    }

    method Close()
      requires Valid()
      modifies this`dedicated, this`conns, this`channels
      ensures Valid() && View() == CloseAll(old(View()))
    {
      var left := dedicated.Keys;
      while left != {}
        invariant left == dedicated.Keys && Valid()
        invariant CloseAll(View()) == CloseAll(old(View()))
      {
        var t :| t in left;
        ShutKeepsOwned(View(), t);
        CloseTenant(t);
        left := left - {t};
      }
      CloseNothing(View());
    }
  }

  lemma CloseNothing(s: State)
    requires s.dedicated.Keys == {}
    ensures CloseAll(s) == s
  {
    assert s.dedicated == map[];
    assert ShutAll(ConnOf(s.dedicated), s.conns) == s.conns;
    assert ShutAll(ChannelOf(s.dedicated), s.channels) == s.channels;
  }

  // ---------- every interleaving of callers, invalidations and shutdown ----------

  datatype Op =
    | LoadOp(t: string, now: int, p: Provider)
    | OpenOp(t: string, url: string, setup: Setup)
    | InvalidateOp(t: string)
    | CloseOp

  function Step(s: State, op: Op): State {
    match op
    case LoadOp(t, now, p) => Load(s, t, now, p).0
    case OpenOp(t, url, setup) => OpenPublisher(s, t, url, setup).0
    case InvalidateOp(t) => Invalidate(s, t)
    case CloseOp => CloseAll(s)
  }

  function Run(ops: seq<Op>): State {
    if ops == [] then EMPTY else Step(Run(ops[..|ops| - 1]), ops[|ops| - 1])
  }

  lemma StepKeepsOwned(s: State, op: Op)
    requires Owned(s)
    ensures Owned(Step(s, op))
  {
    match op {
      case LoadOp(_, _, _) =>
      case OpenOp(t, url, setup) => OpenKeepsOwned(s, t, url, setup);
      case InvalidateOp(t) =>
        var id := TrimSpace(t);
        if id in s.dedicated { ShutKeepsOwned(s.(metaCache := s.metaCache - {id}), id); }
      case CloseOp => CloseKeepsOwned(s);
    }
  }

  lemma {:induction false} RunIsOwned(ops: seq<Op>)
    ensures Owned(Run(ops))
  {
    if ops == [] {
      assert ConnOf(map[]) == map[] && ChannelOf(map[]) == map[];
    } else {
      RunIsOwned(ops[..|ops| - 1]);
      StepKeepsOwned(Run(ops[..|ops| - 1]), ops[|ops| - 1]);
    }
  }

  /** Whatever stages fail, every connection ever dialled and every channel ever
      opened is in use by exactly one tenant or has been closed exactly once. */
  lemma NothingLeaks(ops: seq<Op>)
    ensures var s := Run(ops);
      && (forall p :: 0 <= p < |s.conns| ==>
            s.conns[p].closes == if IsHeld(ConnOf(s.dedicated), s.conns, p) then 0 else 1)
      && (forall p :: 0 <= p < |s.channels| ==>
            s.channels[p].closes == if IsHeld(ChannelOf(s.dedicated), s.channels, p) then 0 else 1)
      && (forall t, u :: t in s.dedicated && u in s.dedicated && t != u ==>
            s.dedicated[t].conn != s.dedicated[u].conn && s.dedicated[t].channel != s.dedicated[u].channel)
  {
    RunIsOwned(ops);
    var s := Run(ops);
    forall t, u | t in s.dedicated && u in s.dedicated && t != u
      ensures s.dedicated[t].conn != s.dedicated[u].conn && s.dedicated[t].channel != s.dedicated[u].channel
    {
      assert ConnOf(s.dedicated)[t] == s.dedicated[t].conn && ConnOf(s.dedicated)[u] == s.dedicated[u].conn;
      assert ChannelOf(s.dedicated)[t] == s.dedicated[t].channel && ChannelOf(s.dedicated)[u] == s.dedicated[u].channel;
    }
  }

  /** A dedicated answer is an open channel on an open connection, both this tenant's. */
  lemma DedicatedIsOpen(ops: seq<Op>, t: string, now: int, p: Provider, setup: Setup)
    ensures var (s, a) := Route(Run(ops), t, now, p, setup);
      a.Dedicated? ==>
        && t in s.dedicated && s.dedicated[t] == a.pair
        && a.pair.conn < |s.conns| && s.conns[a.pair.conn].tenant == t && s.conns[a.pair.conn].closes == 0
        && a.pair.channel < |s.channels| && s.channels[a.pair.channel] == Item(a.pair.conn, t, 0)
  {
    RunIsOwned(ops);
    var (loaded, m) := Load(Run(ops), t, now, p);
    if m.Some? { OpenedForMeta(loaded, t, m.value, setup); }
  }

  lemma OpenedForMeta(s: State, t: string, m: Meta, setup: Setup)
    requires Owned(s)
    ensures var (s', a) := RouteWithMeta(s, t, m, setup);
      a.Dedicated? ==> Owned(s') && t in s'.dedicated && s'.dedicated[t] == a.pair
    ensures var (s', a) := RouteWithMeta(s, t, m, setup);
      a.Dedicated? ==>
        && a.pair.conn < |s'.conns| && s'.conns[a.pair.conn].tenant == t && s'.conns[a.pair.conn].closes == 0
        && a.pair.channel < |s'.channels| && s'.channels[a.pair.channel] == Item(a.pair.conn, t, 0)
  {
    OpenKeepsOwned(s, t, m.dsn, setup);
    var (s', a) := RouteWithMeta(s, t, m, setup);
    if a.Dedicated? { OwnedIsOpen(s', t); }
  }

  lemma OwnedIsOpen(s: State, t: string)
    requires Owned(s) && t in s.dedicated
    ensures var pair := s.dedicated[t];
      && pair.conn < |s.conns| && s.conns[pair.conn].tenant == t && s.conns[pair.conn].closes == 0
      && pair.channel < |s.channels| && s.channels[pair.channel] == Item(pair.conn, t, 0)
  {
    assert ConnOf(s.dedicated)[t] == s.dedicated[t].conn && ChannelOf(s.dedicated)[t] == s.dedicated[t].channel;
  }

  // ---------- what the sections mean, case by case ----------

  /** Which publisher metadata leads to, and what a new one is set up with. */
  lemma RouteByMeta(s: State, t: string, m: Meta, setup: Setup)
    ensures var (s', a) := RouteWithMeta(s, t, m, setup);
            var dedicated := m.active && m.mode == "dedicated" && !IsBlank(m.dsn);
            var c, h := |s.conns|, |s.channels|;
      && (a == InactiveError <==> !m.active)
      && (a == Shared <==> m.active && (m.mode != "dedicated" || IsBlank(m.dsn)))
      && (a == SetupError <==> dedicated && t !in s.dedicated && setup != Ready)
      && (a.Dedicated? <==> dedicated && (t in s.dedicated || setup == Ready))
      && (dedicated && t in s.dedicated ==> (s', a) == (s, Dedicated(s.dedicated[t])))
      && (dedicated && t !in s.dedicated && setup == Ready ==>
            && a == Dedicated(Pair(c, h)) && s'.dedicated == s.dedicated[t := Pair(c, h)]
            && s'.conns == s.conns + [Item(m.dsn, t, 0)] && s'.channels == s.channels + [Item(c, t, 0)])
      && (dedicated && t !in s.dedicated && setup == DeclareFails ==>
            s'.conns == s.conns + [Item(m.dsn, t, 1)] && s'.channels == s.channels + [Item(c, t, 1)])
      && (dedicated && t !in s.dedicated && setup == ChannelFails ==>
            s'.conns == s.conns + [Item(m.dsn, t, 1)] && s'.channels == s.channels)
      && (setup == DialFails || !dedicated ==> s' == s)
  {}

  /** What the provider says is normalized and used for 30 seconds without asking again. */
  lemma AnswerIsCached(s: State, t: string, now: int, p: Provider, later: int, p': Provider)
    requires t !in s.metaCache && now <= later
    ensures p.NoProvider? ==> Load(s, t, now, p).1 == Some(Meta("shared", "", true))
    ensures p.ProviderError? ==> Load(s, t, now, p) == (s, None)
    ensures p.Row? ==> Load(s, t, now, p).1 == Some(Meta(ToLower(TrimSpace(p.mode)), TrimSpace(p.url), p.active))
    ensures var (s', m) := Load(s, t, now, p);
      && (m.Some? && later - now < 30_000_000_000 ==> Load(s', t, later, p') == (s', m))
      && (m.Some? && later - now >= 30_000_000_000 && p'.ProviderError? ==> Load(s', t, later, p') == (s', None))
      && (m.Some? && later - now >= 30_000_000_000 && p'.Row? ==>
            Load(s', t, later, p').1 == Some(Meta(ToLower(TrimSpace(p'.mode)), TrimSpace(p'.url), p'.active)))
  {}

  lemma BlankIsShared(s: State, t: string, now: int, p: Provider, setup: Setup)
    requires IsBlank(t)
    ensures Route(s, t, now, p, setup) == (s, Shared)
  {}

  /** An invalidation forgets the trimmed tenant and closes its pair, and leaves all other
      tenants' entries as they are. */
  lemma InvalidateIsLocal(s: State, t: string)
    requires Owned(s)
    ensures var s', id := Invalidate(s, t), TrimSpace(t);
      && (id == "" ==> s' == s)
      && (id != "" ==> id !in s'.metaCache && id !in s'.dedicated)
      && (forall u :: u != id ==>
            && (u in s'.metaCache <==> u in s.metaCache) && (u in s.metaCache ==> s'.metaCache[u] == s.metaCache[u])
            && (u in s'.dedicated <==> u in s.dedicated) && (u in s.dedicated ==> s'.dedicated[u] == s.dedicated[u]))
  {}

  lemma InvalidateCloses(s: State, t: string)
    requires Owned(s)
    ensures var s', id := Invalidate(s, t), TrimSpace(t);
      && |s'.conns| == |s.conns| && |s'.channels| == |s.channels|
      && (forall p :: 0 <= p < |s.conns| ==>
            s'.conns[p] == if id != "" && id in s.dedicated && s.dedicated[id].conn == p
                           then Item(s.conns[p].info, s.conns[p].tenant, 1) else s.conns[p])
      && (forall p :: 0 <= p < |s.channels| ==>
            s'.channels[p] == if id != "" && id in s.dedicated && s.dedicated[id].channel == p
                              then Item(s.channels[p].info, s.channels[p].tenant, 1) else s.channels[p])
  {
    if TrimSpace(t) in s.dedicated { OwnedIsOpen(s, TrimSpace(t)); }
  }

  /** A shutdown closes every connection and channel that is still open. */
  lemma CloseClosesAll(s: State)
    requires Owned(s)
    ensures var s' := CloseAll(s);
      && s'.dedicated == map[] && s'.metaCache == s.metaCache
      && |s'.conns| == |s.conns| && |s'.channels| == |s.channels|
      && (forall p :: 0 <= p < |s.conns| ==> s'.conns[p] == Item(s.conns[p].info, s.conns[p].tenant, 1))
      && (forall p :: 0 <= p < |s.channels| ==> s'.channels[p] == Item(s.channels[p].info, s.channels[p].tenant, 1))
  {
    ShutAllCloses(ConnOf(s.dedicated), s.conns);
    ShutAllCloses(ChannelOf(s.dedicated), s.channels);
  }
}
