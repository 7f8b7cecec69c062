/** The session hub: which WebSocket sessions a node holds, and how notifications
    reach them directly or through Redis (server/session/service/hub.go). */
module Hub {
  import opened GoStrings
  import opened Keys

  datatype Client = Client(tenant: string, user: string, session: string, conn: nat)

  /** clients: user key, then session id. */
  type Registry = map<string, map<string, Client>>

  /** One JSON document written to one client's socket. */
  type Write = (Client, string)

  function UserKey(tenant: string, user: string): string { Keyed(tenant, user) }

  function KeyOf(c: Client): string { UserKey(c.tenant, c.user) }

  function Registered(m: Registry, c: Client): Registry {
    var sessions := if KeyOf(c) in m then m[KeyOf(c)] else map[];
    m[KeyOf(c) := sessions[c.session := c]]
  }

  function Unregistered(m: Registry, c: Client): Registry {
    if KeyOf(c) !in m then m
    else
      var sessions := m[KeyOf(c)] - {c.session};
      if sessions == map[] then m - {KeyOf(c)} else m[KeyOf(c) := sessions]
  }

  function Lookup(m: Registry, key: string, session: string): Option<Client> {
    if key in m && session in m[key] then Some(m[key][session]) else None
  }

  /** Sessions are filed under their own ids, and clients under their own keys. */
  ghost predicate SessionsOk(sessions: map<string, Client>) {
    forall s :: s in sessions ==> sessions[s].session == s
  }

  ghost predicate HubOk(m: Registry) {
    && (forall k :: k in m ==> m[k] != map[] && SessionsOk(m[k]))
    && (forall k, s :: k in m && s in m[k] ==> KeyOf(m[k][s]) == k)
  }

  // ---------- what the local paths write ----------

  ghost function SessionWrites(sessions: map<string, Client>, payload: string): multiset<Write> {
    multiset(set s | s in sessions :: (sessions[s], payload))
  }

  ghost function UserWrites(m: Registry, tenant: string, user: string, payload: string): multiset<Write> {
    if UserKey(tenant, user) in m then SessionWrites(m[UserKey(tenant, user)], payload) else multiset{}
  }

  ghost function UsersWrites(m: Registry, tenant: string, users: seq<string>, build: string -> string): multiset<Write> {
    if users == [] then multiset{}
    else
      var n := |users| - 1;
      UsersWrites(m, tenant, users[..n], build) + UserWrites(m, tenant, users[n], build(users[n]))
  }

  predicate InTenant(key: string, tenant: string) { HasPrefix(key, tenant + ":") }

  ghost function TenantWrites(m: Registry, tenant: string, payload: string): multiset<Write> {
    multiset(set k, s | k in m && InTenant(k, tenant) && s in m[k] :: (m[k][s], payload))
  }

  // ---------- events ----------

  datatype Event =
    | NotifyUser(tenant: string, user: string, payload: string)
    | NotifyUsers(tenant: string, users: seq<string>, payloadBy: map<string, string>)
    | BroadcastTenant(tenant: string, payload: string)

  /** What a node that receives the event writes. */
  ghost function EventWrites(m: Registry, ev: Event): multiset<Write> {
    match ev
    case NotifyUser(t, u, payload) => if payload == "" then multiset{} else UserWrites(m, t, u, payload)
    case NotifyUsers(t, users, payloadBy) => ListedWrites(m, t, users, payloadBy)
    case BroadcastTenant(t, payload) => if payload == "" then multiset{} else TenantWrites(m, t, payload)
  }

  ghost function ListedWrites(m: Registry, tenant: string, users: seq<string>, payloadBy: map<string, string>): multiset<Write> {
    if users == [] then multiset{}
    else
      var n := |users| - 1;
      var u := users[n];
      ListedWrites(m, tenant, users[..n], payloadBy)
      + if u in payloadBy then UserWrites(m, tenant, u, payloadBy[u]) else multiset{}
  }

  /** First occurrences, in order. */
  function Unique(users: seq<string>): seq<string> {
    if users == [] then []
    else
      var before, u := Unique(users[..|users| - 1]), users[|users| - 1];
      if u in before then before else before + [u]
  }

  function PayloadBy(users: seq<string>, build: string -> string): map<string, string> {
    map u | u in users :: build(u)
  }

  // ---------- the hub of one node ----------

  class Node {
    var clients: Registry
    var hasRedis: bool

    constructor (hasRedis: bool)
      ensures clients == map[] && this.hasRedis == hasRedis
    {
      clients := map[];
      this.hasRedis := hasRedis;
    }

    method Register(c: Client)
      modifies this`clients
      ensures clients == Registered(old(clients), c)
    {
      if KeyOf(c) !in clients { clients := clients[KeyOf(c) := map[]]; }
      clients := clients[KeyOf(c) := clients[KeyOf(c)][c.session := c]];
    }

    method Unregister(c: Client)
      modifies this`clients
      ensures clients == Unregistered(old(clients), c)
    {
      if KeyOf(c) in clients {
        clients := clients[KeyOf(c) := clients[KeyOf(c)] - {c.session}];
        if clients[KeyOf(c)] == map[] {
          clients := clients - {KeyOf(c)};
          assert clients == old(clients) - {KeyOf(c)};
        }
      }
    }

    method NotifyUserLocal(tenant: string, user: string, payload: string) returns (writes: multiset<Write>, count: nat)
      requires HubOk(clients)
      ensures writes == UserWrites(clients, tenant, user, payload) && count == |writes|
    {
      var key := UserKey(tenant, user);
      if key in clients {
        writes, count := WriteAll(clients[key], payload);
      } else {
        writes, count := multiset{}, 0;
      }
    }

    method NotifyUsersLocal(tenant: string, users: seq<string>, build: string -> string) returns (writes: multiset<Write>, total: nat)
      requires HubOk(clients)
      ensures writes == UsersWrites(clients, tenant, users, build) && total == |writes|
    {
      writes, total := multiset{}, 0;
      for i := 0 to |users|
        invariant writes == UsersWrites(clients, tenant, users[..i], build) && total == |writes|
      {
        assert users[..i + 1][..i] == users[..i];
        var w, n := NotifyUserLocal(tenant, users[i], build(users[i]));
        writes, total := writes + w, total + n;
      }
      assert users[..|users|] == users;
    }

    method BroadcastTenantLocal(tenant: string, payload: string) returns (writes: multiset<Write>, count: nat)
      requires HubOk(clients)
      ensures writes == TenantWrites(clients, tenant, payload) && count == |writes|
    {
      writes, count := multiset{}, 0;
      var left := clients.Keys;
      ghost var done: set<string> := {};
      while left != {}
        invariant Split(left, done, clients)
        invariant Broadcasting(clients, tenant, payload, done, writes, count)
      {
        var k :| k in left;
        MoveKey(left, done, clients, k);
        left := left - {k};
        BroadcastNext(clients, tenant, payload, done, k, writes, count);
        done := done + {k};
        if !InTenant(k, tenant) { continue; }
        var w, n := WriteAll(clients[k], payload);
        writes, count := writes + w, count + n;
      }
      TenantWritesAll(clients, tenant, payload, done);
    }

    /** The count that is logged after a broadcast has been published. */
    method TenantSessionCount(tenant: string, ghost payload: string) returns (count: nat)
      requires HubOk(clients)
      ensures count == |TenantWrites(clients, tenant, payload)|
    {
      count := 0;
      var left := clients.Keys;
      ghost var done: set<string> := {};
      while left != {}
        invariant Split(left, done, clients)
        invariant count == TenantSize(clients, tenant, payload, done)
      {
        var k :| k in left;
        MoveKey(left, done, clients, k);
        left := left - {k};
        TenantCountAdd(clients, tenant, payload, done, k);
        done := done + {k};
        if !InTenant(k, tenant) { continue; }
        count := count + |clients[k]|;
      }
      TenantWritesAll(clients, tenant, payload, done);
    }

    /** publishNotifyUsers up to the Redis call: None when the hub has no Redis. */
    method NotifyUsersEvent(tenant: string, users: seq<string>, build: string -> string) returns (ev: Option<Event>)
      ensures ev == if hasRedis then Some(NotifyUsers(tenant, Unique(users), PayloadBy(users, build))) else None
    {
      if !hasRedis { return None; }
      var unique: seq<string> := [];
      var seen: set<string> := {};
      var payloadBy: map<string, string> := map[];
      for i := 0 to |users|
        invariant unique == Unique(users[..i])
        invariant forall u :: u in seen <==> u in users[..i]
        invariant forall u :: u in seen <==> u in unique
        invariant payloadBy == PayloadBy(users[..i], build)
      {
        assert users[..i + 1][..i] == users[..i] && users[..i + 1][i] == users[i];
        assert users[..i + 1] == users[..i] + [users[i]];
        PayloadByAdd(users[..i], users[i], build);
        if users[i] in seen { continue; }
        seen := seen + {users[i]};
        unique := unique + [users[i]];
        payloadBy := payloadBy[users[i] := build(users[i])];
      }
      assert users[..|users|] == users;
      return Some(NotifyUsers(tenant, unique, payloadBy));
    }

    /** consumeEvents on one message. */
    method Consume(ev: Event) returns (writes: multiset<Write>)
      requires HubOk(clients)
      ensures writes == EventWrites(clients, ev)
    {
      writes := multiset{};
      match ev {
        case NotifyUser(t, u, payload) =>
          if payload != "" { var n; writes, n := NotifyUserLocal(t, u, payload); }
        case NotifyUsers(t, users, payloadBy) =>
          for i := 0 to |users|
            invariant writes == ListedWrites(clients, t, users[..i], payloadBy)
          {
            assert users[..i + 1][..i] == users[..i];
            if users[i] !in payloadBy { continue; }
            var w, n := NotifyUserLocal(t, users[i], payloadBy[users[i]]);
            writes := writes + w;
          }
          assert users[..|users|] == users;
        case BroadcastTenant(t, payload) =>
          if payload != "" { var n; writes, n := BroadcastTenantLocal(t, payload); }
      }
    }
  }

  /** WriteJSON to every session of one user, in any order. */
  method WriteAll(sessions: map<string, Client>, payload: string) returns (writes: multiset<Write>, count: nat)
    requires SessionsOk(sessions)
    ensures writes == SessionWrites(sessions, payload) && count == |writes|
  {
    writes, count := multiset{}, 0;
    var left := sessions.Keys;
    ghost var done: set<string> := {};
    while left != {}
      invariant left !! done && left + done == sessions.Keys
      invariant writes == WritesOf(sessions, payload, done) && count == |writes|
    {
      var s :| s in left;
      WritesOfAdd(sessions, payload, done, s);
      left, done := left - {s}, done + {s};
      writes, count := writes + multiset{(sessions[s], payload)}, count + 1;
    }
    assert done == sessions.Keys;
    WritesOfAll(sessions, payload);
  }

  ghost function WritesOf(sessions: map<string, Client>, payload: string, ids: set<string>): multiset<Write> {
    multiset(set s | s in sessions && s in ids :: (sessions[s], payload))
  }

  lemma WritesOfAll(sessions: map<string, Client>, payload: string)
    ensures WritesOf(sessions, payload, sessions.Keys) == SessionWrites(sessions, payload)
  {
    assert (set s | s in sessions && s in sessions.Keys :: (sessions[s], payload)) == (set s | s in sessions :: (sessions[s], payload));
  }

  lemma WritesOfAdd(sessions: map<string, Client>, payload: string, ids: set<string>, s: string)
    requires SessionsOk(sessions) && s in sessions && s !in ids
    ensures WritesOf(sessions, payload, ids + {s}) == WritesOf(sessions, payload, ids) + multiset{(sessions[s], payload)}
  {
    var before := set x | x in sessions && x in ids :: (sessions[x], payload);
    var after := set x | x in sessions && x in ids + {s} :: (sessions[x], payload);
    assert (sessions[s], payload) !in before;
    assert after == before + {(sessions[s], payload)};
  }

  lemma {:induction false} SessionWritesSize(sessions: map<string, Client>, payload: string)
    requires SessionsOk(sessions)
    ensures |SessionWrites(sessions, payload)| == |sessions|
    decreases |sessions|
  {
    if sessions != map[] {
      var s :| s in sessions;
      var rest := sessions - {s};
      assert rest.Keys == sessions.Keys - {s};
      SessionWritesSize(rest, payload);
      var all, fewer := (set x | x in sessions :: (sessions[x], payload)), (set x | x in rest :: (rest[x], payload));
      assert (sessions[s], payload) !in fewer;
      assert all == fewer + {(sessions[s], payload)} by {
        forall w ensures w in all <==> w in fewer + {(sessions[s], payload)} {
          if w in all {
            var x :| x in sessions && w == (sessions[x], payload);
            assert x != s ==> x in rest && rest[x] == sessions[x];
          }
        }
      }
    }
  }

  ghost function TenantWritesOf(m: Registry, tenant: string, payload: string, keys: set<string>): multiset<Write> {
    multiset(set k, s | k in m && k in keys && InTenant(k, tenant) && s in m[k] :: (m[k][s], payload))
  }

  lemma TenantWritesAdd(m: Registry, tenant: string, payload: string, keys: set<string>, k: string)
    requires HubOk(m) && k in m && k !in keys
    ensures TenantWritesOf(m, tenant, payload, keys + {k})
         == TenantWritesOf(m, tenant, payload, keys) + if InTenant(k, tenant) then SessionWrites(m[k], payload) else multiset{}
  {
    var before := set j, s | j in m && j in keys && InTenant(j, tenant) && s in m[j] :: (m[j][s], payload);
    var after := set j, s | j in m && j in keys + {k} && InTenant(j, tenant) && s in m[j] :: (m[j][s], payload);
    if InTenant(k, tenant) {
      var added := set s | s in m[k] :: (m[k][s], payload);
      assert after == before + added;
      forall w | w in before ensures w !in added {
        var j, s :| j in m && j in keys && InTenant(j, tenant) && s in m[j] && w == (m[j][s], payload);
        assert KeyOf(w.0) == j;
      }
      assert before !! added;
    } else {
      assert after == before;
    }
  }

  lemma TenantWritesAll(m: Registry, tenant: string, payload: string, keys: set<string>)
    requires keys == m.Keys
    ensures TenantWritesOf(m, tenant, payload, keys) == TenantWrites(m, tenant, payload)
  {
    assert (set k, s | k in m && k in keys && InTenant(k, tenant) && s in m[k] :: (m[k][s], payload))
        == (set k, s | k in m && InTenant(k, tenant) && s in m[k] :: (m[k][s], payload));
  }

  ghost predicate Split(left: set<string>, done: set<string>, m: Registry) {
    left !! done && left + done == m.Keys
  }

  lemma MoveKey(left: set<string>, done: set<string>, m: Registry, k: string)
    requires Split(left, done, m) && k in left
    ensures Split(left - {k}, done + {k}, m) && k in m && k !in done
  {}

  ghost function TenantSize(m: Registry, tenant: string, payload: string, keys: set<string>): nat {
    |TenantWritesOf(m, tenant, payload, keys)|
  }

  lemma TenantCountAdd(m: Registry, tenant: string, payload: string, keys: set<string>, k: string)
    requires HubOk(m) && k in m && k !in keys
    ensures TenantSize(m, tenant, payload, keys + {k})
         == TenantSize(m, tenant, payload, keys) + if InTenant(k, tenant) then |m[k]| else 0
  {
    TenantWritesAdd(m, tenant, payload, keys, k);
    SessionWritesSize(m[k], payload);
  }

  /** What a broadcast has done after the keys in `done`. */
  ghost predicate Broadcasting(m: Registry, tenant: string, payload: string, done: set<string>, writes: multiset<Write>, count: nat) {
    writes == TenantWritesOf(m, tenant, payload, done) && count == |writes|
  }

  lemma BroadcastNext(m: Registry, tenant: string, payload: string, done: set<string>, k: string, writes: multiset<Write>, count: nat)
    requires HubOk(m) && k in m && k !in done && Broadcasting(m, tenant, payload, done, writes, count)
    ensures !InTenant(k, tenant) ==> Broadcasting(m, tenant, payload, done + {k}, writes, count)
    ensures InTenant(k, tenant) ==>
      var w := SessionWrites(m[k], payload); Broadcasting(m, tenant, payload, done + {k}, writes + w, count + |w|)
  {
    TenantWritesAdd(m, tenant, payload, done, k);
  }

  lemma PayloadByAdd(users: seq<string>, u: string, build: string -> string)
    ensures PayloadBy(users + [u], build) == PayloadBy(users, build)[u := build(u)]
    ensures u in users ==> PayloadBy(users + [u], build) == PayloadBy(users, build)
  {}

  // ---------- the registry over runs ----------

  datatype Op = RegisterOp(c: Client) | UnregisterOp(c: Client)

  function Step(m: Registry, op: Op): Registry {
    match op
    case RegisterOp(c) => Registered(m, c)
    case UnregisterOp(c) => Unregistered(m, c)
  }

  function Run(ops: seq<Op>): Registry {
    if ops == [] then map[] else Step(Run(ops[..|ops| - 1]), ops[|ops| - 1])
  }

  /** The last operation on a (user key, session id) pair decides. */
  function Latest(ops: seq<Op>, key: string, session: string): Option<Client> {
    if ops == [] then None
    else
      var op := ops[|ops| - 1];
      if KeyOf(op.c) == key && op.c.session == session
      then if op.RegisterOp? then Some(op.c) else None
      else Latest(ops[..|ops| - 1], key, session)
  }

  lemma StepLookup(m: Registry, op: Op, key: string, session: string)
    ensures Lookup(Step(m, op), key, session) ==
      if KeyOf(op.c) == key && op.c.session == session
      then if op.RegisterOp? then Some(op.c) else None
      else Lookup(m, key, session)
  {
    if op.UnregisterOp? && KeyOf(op.c) in m {
      var rest := m[KeyOf(op.c)] - {op.c.session};
      assert forall s :: s in m[KeyOf(op.c)] && s != op.c.session ==> s in rest;
    }
  }

  lemma StepKeepsOk(m: Registry, op: Op)
    requires HubOk(m)
    ensures HubOk(Step(m, op))
  {
    var m' := Step(m, op);
    if op.RegisterOp? { assert op.c.session in m'[KeyOf(op.c)]; }
  }

  /** The client on file for a pair is the last one registered under it since the last
      unregistration, of whichever connection; and no user has an empty entry. */
  lemma {:induction false} RegistryHistory(ops: seq<Op>, key: string, session: string)
    ensures Lookup(Run(ops), key, session) == Latest(ops, key, session)
    ensures HubOk(Run(ops))
  {
    if ops != [] {
      var m := Run(ops[..|ops| - 1]);
      RegistryHistory(ops[..|ops| - 1], key, session);
      StepLookup(m, ops[|ops| - 1], key, session);
      StepKeepsOk(m, ops[|ops| - 1]);
    }
  }

  /** So a stale connection that closes late takes its successor off the books. */
  lemma LateUnregisterDropsSuccessor(ops: seq<Op>, older: Client, newer: Client)
    requires KeyOf(older) == KeyOf(newer) && older.session == newer.session
    ensures Lookup(Run(ops + [RegisterOp(newer), UnregisterOp(older)]), KeyOf(newer), newer.session) == None
  {
    var all := ops + [RegisterOp(newer), UnregisterOp(older)];
    RegistryHistory(all, KeyOf(newer), newer.session);
  }

  /** Every other client on file stays on file. */
  ghost predicate KeepsOthers(m: Registry, c: Client) {
    forall d :: d != c && Lookup(m, KeyOf(d), d.session) == Some(d)
      ==> Lookup(Unregistered(m, c), KeyOf(d), d.session) == Some(d)
  }

  /** Unregistering a connection leaves all others on file if and only if the client on
      file under its pair is itself or nobody. */
  lemma UnregisterKeepsOthersIff(ops: seq<Op>, c: Client)
    ensures var filed := Lookup(Run(ops), KeyOf(c), c.session);
      KeepsOthers(Run(ops), c) <==> filed == None || filed == Some(c)
  {
    var m := Run(ops);
    RegistryHistory(ops, KeyOf(c), c.session);
    forall d: Client ensures Lookup(Unregistered(m, c), KeyOf(d), d.session) ==
      if KeyOf(c) == KeyOf(d) && c.session == d.session then None else Lookup(m, KeyOf(d), d.session)
    {
      StepLookup(m, UnregisterOp(c), KeyOf(d), d.session);
    }
    var filed := Lookup(m, KeyOf(c), c.session);
    if filed.Some? { assert KeyOf(filed.value) == KeyOf(c) && filed.value.session == c.session; }
  }

  // ---------- publishing delivers what the local path delivers ----------

  ghost predicate Distinct(users: seq<string>) {
    forall i, j :: 0 <= i < j < |users| ==> users[i] != users[j]
  }

  lemma {:induction false} UniqueMembers(users: seq<string>)
    ensures forall u :: u in Unique(users) <==> u in users
    ensures Distinct(users) ==> Unique(users) == users
  {
    if users != [] {
      var n := |users| - 1;
      UniqueMembers(users[..n]);
      assert users == users[..n] + [users[n]];
      assert forall i :: 0 <= i < n ==> users[..n][i] == users[i];
    }
  }

  /** A node that receives the event writes what the local path would write for the
      de-duplicated recipients. */
  lemma {:induction false} ListedIsLocal(m: Registry, tenant: string, users: seq<string>, payloadBy: map<string, string>, build: string -> string)
    requires forall u :: u in users ==> u in payloadBy && payloadBy[u] == build(u)
    ensures ListedWrites(m, tenant, users, payloadBy) == UsersWrites(m, tenant, users, build)
  {
    if users != [] {
      var n := |users| - 1;
      assert users[n] in users;
      ListedIsLocal(m, tenant, users[..n], payloadBy, build);
    }
  }

  lemma ConsumeIsLocal(m: Registry, tenant: string, users: seq<string>, build: string -> string)
    ensures EventWrites(m, NotifyUsers(tenant, Unique(users), PayloadBy(users, build)))
         == UsersWrites(m, tenant, Unique(users), build)
  {
    UniqueMembers(users);
    ListedIsLocal(m, tenant, Unique(users), PayloadBy(users, build), build);
  }

  /** Publish-then-consume equals the local path on every registry exactly when no
      recipient is listed twice: the local path writes a repeated recipient twice. */
  lemma PublishIsLocalIff(tenant: string, users: seq<string>, build: string -> string)
    ensures (forall m: Registry ::
               EventWrites(m, NotifyUsers(tenant, Unique(users), PayloadBy(users, build))) == UsersWrites(m, tenant, users, build))
            <==> Distinct(users)
  {
    UniqueMembers(users);
    if Distinct(users) {
      forall m: Registry
        ensures EventWrites(m, NotifyUsers(tenant, Unique(users), PayloadBy(users, build))) == UsersWrites(m, tenant, users, build)
      {
        ConsumeIsLocal(m, tenant, users, build);
      }
    } else {
      var i, j :| 0 <= i < j < |users| && users[i] == users[j];
      RepeatedRecipient(tenant, users, build, i, j);
    }
  }

  /** One session of one user. */
  function Lone(tenant: string, user: string): Registry {
    map[UserKey(tenant, user) := map["s" := Client(tenant, user, "s", 0)]]
  }

  function Occurrences(users: seq<string>, u: string): nat {
    if users == [] then 0
    else Occurrences(users[..|users| - 1], u) + if users[|users| - 1] == u then 1 else 0
  }

  lemma {:induction false} OccursTwice(users: seq<string>, i: nat, j: nat)
    requires i < j < |users| && users[i] == users[j]
    ensures Occurrences(users, users[i]) >= 2
  {
    var n := |users| - 1;
    if j < n {
      OccursTwice(users[..n], i, j);
    } else {
      OccursOnce(users[..n], i);
    }
  }

  lemma {:induction false} OccursOnce(users: seq<string>, i: nat)
    requires i < |users|
    ensures Occurrences(users, users[i]) >= 1
  {
    if i < |users| - 1 { OccursOnce(users[..|users| - 1], i); }
  }

  lemma {:induction false} UniqueOccurs(users: seq<string>, u: string)
    ensures Occurrences(Unique(users), u) <= 1
    ensures u !in Unique(users) ==> Occurrences(Unique(users), u) == 0
  {
    if users != [] {
      var n := |users| - 1;
      var before := Unique(users[..n]);
      UniqueOccurs(users[..n], u);
      if users[n] !in before { assert (before + [users[n]])[..|before|] == before; }
    }
  }

  lemma LoneUserWrites(tenant: string, u: string, payload: string)
    ensures UserWrites(Lone(tenant, u), tenant, u, payload) == multiset{(Client(tenant, u, "s", 0), payload)}
  {
    var sessions := map["s" := Client(tenant, u, "s", 0)];
    assert Lone(tenant, u)[UserKey(tenant, u)] == sessions;
    var all := set s | s in sessions :: (sessions[s], payload);
    assert "s" in sessions;
    assert all == {(Client(tenant, u, "s", 0), payload)};
  }

  lemma {:induction false} LoneWrites(tenant: string, users: seq<string>, u: string, build: string -> string)
    ensures UsersWrites(Lone(tenant, u), tenant, users, build)[(Client(tenant, u, "s", 0), build(u))] == Occurrences(users, u)
  {
    if users != [] {
      var n := |users| - 1;
      LoneWrites(tenant, users[..n], u, build);
      SameTenantKeys(tenant, u, users[n]);
      LoneUserWrites(tenant, u, build(u));
    }
  }

  lemma SameTenantKeys(tenant: string, u: string, v: string)
    ensures UserKey(tenant, u) == UserKey(tenant, v) <==> u == v
  {
    assert UserKey(tenant, u)[|tenant| + 1..] == u;
    assert UserKey(tenant, v)[|tenant| + 1..] == v;
  }

  lemma RepeatedRecipient(tenant: string, users: seq<string>, build: string -> string, i: nat, j: nat)
    requires i < j < |users| && users[i] == users[j]
    ensures var m := Lone(tenant, users[i]);
      EventWrites(m, NotifyUsers(tenant, Unique(users), PayloadBy(users, build))) != UsersWrites(m, tenant, users, build)
  {
    var u := users[i];
    var m := Lone(tenant, u);
    var w := (Client(tenant, u, "s", 0), build(u));
    ConsumeIsLocal(m, tenant, users, build);
    OccursTwice(users, i, j);
    UniqueOccurs(users, u);
    LoneWrites(tenant, users, u, build);
    LoneWrites(tenant, Unique(users), u, build);
    assert UsersWrites(m, tenant, users, build)[w] != UsersWrites(m, tenant, Unique(users), build)[w];
  }

  // ---------- across nodes ----------

  ghost function EventEverywhere(nodes: seq<Registry>, ev: Event): multiset<Write> {
    if nodes == [] then multiset{} else EventEverywhere(nodes[..|nodes| - 1], ev) + EventWrites(nodes[|nodes| - 1], ev)
  }

  ghost function LocalEverywhere(nodes: seq<Registry>, tenant: string, users: seq<string>, build: string -> string): multiset<Write> {
    if nodes == [] then multiset{}
    else LocalEverywhere(nodes[..|nodes| - 1], tenant, users, build) + UsersWrites(nodes[|nodes| - 1], tenant, users, build)
  }

  /** Redis hands the event to every subscribed node once; together they write what
      running the local path on each of them would write. */
  lemma {:induction false} FanOutIsLocalEverywhere(nodes: seq<Registry>, tenant: string, users: seq<string>, build: string -> string)
    requires Distinct(users)
    ensures EventEverywhere(nodes, NotifyUsers(tenant, Unique(users), PayloadBy(users, build)))
         == LocalEverywhere(nodes, tenant, users, build)
  {
    if nodes != [] {
      FanOutIsLocalEverywhere(nodes[..|nodes| - 1], tenant, users, build);
      UniqueMembers(users);
      ConsumeIsLocal(nodes[|nodes| - 1], tenant, users, build);
    }
  }

  // ---------- keys and tenants ----------

  /** A broadcast to tenant `t` finds the users of tenant `t'` exactly as it should,
      for every user id, if and only if the two ids are apart. */
  lemma BroadcastReachesTenantIff(t: string, t': string)
    ensures (forall u :: InTenant(UserKey(t', u), t) <==> t' == t) <==> Apart(t, t')
  {
    var p, q := t + ":", t' + ":";
    if t == t' {
      forall u ensures InTenant(UserKey(t', u), t) { assert UserKey(t', u)[..|p|] == p; }
    } else if HasPrefix(q, p) {
      assert UserKey(t', "") == q;
      assert InTenant(UserKey(t', ""), t);
    } else if HasPrefix(p, q) {
      var u := p[|q|..];
      assert UserKey(t', u) == q + u == p;
      assert InTenant(UserKey(t', u), t);
    } else {
      forall u ensures !InTenant(UserKey(t', u), t) {
        var k := UserKey(t', u);
        assert k == q + u;
        if HasPrefix(k, p) { PrefixesCompare(k, p, q); }
      }
    }
  }

  /** On a consistent hub a broadcast writes once to every session of the tenant, and
      nothing to the sessions of a tenant that is apart from it. */
  lemma BroadcastIsExact(m: Registry, tenant: string, payload: string, c: Client)
    requires HubOk(m) && Apart(tenant, c.tenant)
    ensures TenantWrites(m, tenant, payload)[(c, payload)] ==
      if Lookup(m, KeyOf(c), c.session) == Some(c) && c.tenant == tenant then 1 else 0
  {
    BroadcastReachesTenantIff(tenant, c.tenant);
    var all := set k, s | k in m && InTenant(k, tenant) && s in m[k] :: (m[k][s], payload);
    assert InTenant(KeyOf(c), tenant) <==> c.tenant == tenant;
    if (c, payload) in all {
      var k, s :| k in m && InTenant(k, tenant) && s in m[k] && (m[k][s], payload) == (c, payload);
      assert k == KeyOf(c) && s == c.session;
    } else if Lookup(m, KeyOf(c), c.session) == Some(c) {
      assert !InTenant(KeyOf(c), tenant);
    }
  }

  /** A broadcast to `tenant` treats the sessions of `other` as it should. */
  ghost predicate BroadcastSeparates(tenant: string, other: string) {
    forall m: Registry, payload: string, c: Client :: HubOk(m) && c.tenant == other ==>
      TenantWrites(m, tenant, payload)[(c, payload)] ==
        if Lookup(m, KeyOf(c), c.session) == Some(c) && other == tenant then 1 else 0
  }

  /** Broadcasts are exact, on every hub, if and only if the tenants are apart. */
  lemma BroadcastIsExactIff(tenant: string, other: string)
    ensures BroadcastSeparates(tenant, other) <==> Apart(tenant, other)
  {
    if Apart(tenant, other) {
      forall m: Registry, payload: string, c: Client | HubOk(m) && c.tenant == other
        ensures TenantWrites(m, tenant, payload)[(c, payload)] ==
          if Lookup(m, KeyOf(c), c.session) == Some(c) && other == tenant then 1 else 0
      {
        BroadcastIsExact(m, tenant, payload, c);
      }
    } else {
      BroadcastReachesTenantIff(tenant, other);
      var u :| InTenant(UserKey(other, u), tenant);
      StrayBroadcast(tenant, other, u);
    }
  }

  lemma StrayBroadcast(tenant: string, other: string, user: string)
    requires tenant != other && InTenant(UserKey(other, user), tenant)
    ensures HubOk(Lone(other, user))
    ensures TenantWrites(Lone(other, user), tenant, "p")[(Client(other, user, "s", 0), "p")] == 1
  {
    var m, c := Lone(other, user), Client(other, user, "s", 0);
    var all := set k, s | k in m && InTenant(k, tenant) && s in m[k] :: (m[k][s], "p");
    assert KeyOf(c) in m && "s" in m[KeyOf(c)] && m[KeyOf(c)]["s"] == c;
    assert (c, "p") in all;
  }

  /** Every session of a listed user gets that user's own payload exactly once. */
  lemma {:induction false} EachSessionOnce(m: Registry, tenant: string, users: seq<string>, build: string -> string, c: Client, payload: string)
    requires HubOk(m) && Distinct(users) && Apart(tenant, c.tenant)
    ensures UsersWrites(m, tenant, users, build)[(c, payload)] ==
      if Lookup(m, KeyOf(c), c.session) == Some(c) && c.tenant == tenant && c.user in users && payload == build(c.user) then 1 else 0
  {
    if users != [] {
      var n := |users| - 1;
      assert forall i :: 0 <= i < n ==> users[..n][i] == users[i];
      EachSessionOnce(m, tenant, users[..n], build, c, payload);
      OneUserOnce(m, tenant, users[n], build(users[n]), c, payload);
      assert users == users[..n] + [users[n]];
      assert users[n] !in users[..n];
    }
  }

  lemma OneUserOnce(m: Registry, tenant: string, user: string, sent: string, c: Client, payload: string)
    requires HubOk(m) && Apart(tenant, c.tenant)
    ensures UserWrites(m, tenant, user, sent)[(c, payload)] ==
      if Lookup(m, KeyOf(c), c.session) == Some(c) && c.tenant == tenant && c.user == user && payload == sent then 1 else 0
  {
    var key := UserKey(tenant, user);
    if KeyOf(c) == key { KeyedInjective(tenant, user, c.tenant, c.user); }
    if key in m {
      var all := set s | s in m[key] :: (m[key][s], sent);
      if (c, payload) in all {
        var s :| s in m[key] && (m[key][s], sent) == (c, payload);
        assert KeyOf(c) == key && s == c.session;
      } else if Lookup(m, KeyOf(c), c.session) == Some(c) && KeyOf(c) == key {
        assert payload != sent;
      }
    }
  }

  // ---------- the same across nodes ----------

  /** On how many nodes the client is on file. */
  function Holders(nodes: seq<Registry>, c: Client): nat {
    if nodes == [] then 0
    else Holders(nodes[..|nodes| - 1], c) + if Lookup(nodes[|nodes| - 1], KeyOf(c), c.session) == Some(c) then 1 else 0
  }

  ghost predicate HubsOk(nodes: seq<Registry>) {
    forall i :: 0 <= i < |nodes| ==> HubOk(nodes[i])
  }

  lemma PrefixOk(nodes: seq<Registry>)
    requires HubsOk(nodes) && nodes != []
    ensures HubsOk(nodes[..|nodes| - 1]) && HubOk(nodes[|nodes| - 1])
  {
    assert forall i :: 0 <= i < |nodes| - 1 ==> nodes[..|nodes| - 1][i] == nodes[i];
  }

  /** A notification that went through Redis reaches every session of a listed user,
      wherever it is held, once and with that user's own payload; nobody else. */
  lemma {:induction false} FanOutReachesSessions(nodes: seq<Registry>, tenant: string, users: seq<string>, build: string -> string, c: Client, payload: string)
    requires HubsOk(nodes) && Distinct(users) && Apart(tenant, c.tenant)
    ensures EventEverywhere(nodes, NotifyUsers(tenant, Unique(users), PayloadBy(users, build)))[(c, payload)] ==
      if c.tenant == tenant && c.user in users && payload == build(c.user) then Holders(nodes, c) else 0
  {
    if nodes != [] {
      PrefixOk(nodes);
      FanOutReachesSessions(nodes[..|nodes| - 1], tenant, users, build, c, payload);
      var m := nodes[|nodes| - 1];
      UniqueMembers(users);
      ConsumeIsLocal(m, tenant, users, build);
      EachSessionOnce(m, tenant, users, build, c, payload);
    }
  }

  /** A broadcast that went through Redis reaches exactly the tenant's sessions. */
  lemma {:induction false} BroadcastReachesSessions(nodes: seq<Registry>, tenant: string, payload: string, c: Client)
    requires HubsOk(nodes) && Apart(tenant, c.tenant) && payload != ""
    ensures EventEverywhere(nodes, BroadcastTenant(tenant, payload))[(c, payload)] ==
      if c.tenant == tenant then Holders(nodes, c) else 0
  {
    if nodes != [] {
      PrefixOk(nodes);
      BroadcastReachesSessions(nodes[..|nodes| - 1], tenant, payload, c);
      BroadcastIsExact(nodes[|nodes| - 1], tenant, payload, c);
    }
  }

  /** A published notification for one user reaches that user's sessions on all nodes,
      once each, and no other session. */
  lemma {:induction false} NotifyReachesUser(nodes: seq<Registry>, tenant: string, user: string, sent: string, c: Client, payload: string)
    requires HubsOk(nodes) && Apart(tenant, c.tenant) && sent != ""
    ensures EventEverywhere(nodes, NotifyUser(tenant, user, sent))[(c, payload)] ==
      if c.tenant == tenant && c.user == user && payload == sent then Holders(nodes, c) else 0
  {
    if nodes != [] {
      PrefixOk(nodes);
      NotifyReachesUser(nodes[..|nodes| - 1], tenant, user, sent, c, payload);
      OneUserOnce(nodes[|nodes| - 1], tenant, user, sent, c, payload);
    }
  }

  /** An event without a payload writes nothing. */
  lemma EmptyPayloadWritesNothing(m: Registry, tenant: string, user: string)
    ensures EventWrites(m, NotifyUser(tenant, user, "")) == multiset{} && EventWrites(m, BroadcastTenant(tenant, "")) == multiset{}
  {}
}
