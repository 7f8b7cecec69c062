/** User aliases and their audit log (server/dbman/repository/user_repository.go). */
module AliasAudit {
  import opened GoStrings
  import opened Pagination
  import opened ListService

  datatype Action = Add | Delete

  datatype Alias = Alias(tenant: string, user: string, name: string)

  datatype Entry = Entry(id: string, alias: Alias, action: Action, ip: string, userAgent: string, at: int)

  /** The primary key of user_aliases is (user_id, alias): the tenant is a plain
      column, so an alias held under another tenant blocks the insert. */
  datatype Tables = Tables(owner: map<(string, string), string>, audit: seq<Entry>)

  const EMPTY := Tables(map[], [])

  predicate Holds(t: Tables, a: Alias) {
    (a.user, a.name) in t.owner && t.owner[(a.user, a.name)] == a.tenant
  }

  /** What one statement may add to the log: id, time and caller details. */
  datatype Stamp = Stamp(id: string, ip: string, userAgent: string, at: int)

  function Log(a: Alias, action: Action, s: Stamp): Entry {
    Entry(s.id, a, action, s.ip, s.userAgent, s.at)
  }

  /** A second unique index, on (user_id, lower(alias)), blocks an insert too. */
  predicate Conflicts(owner: map<(string, string), string>, a: Alias) {
    exists k :: k in owner && k.0 == a.user && ToLower(k.1) == ToLower(a.name)
  }

  /** AddAlias: ON CONFLICT DO NOTHING, and an audit row only for a real insert. */
  function AddAlias(t: Tables, a: Alias, s: Stamp): Tables {
    if Conflicts(t.owner, a) then t
    else Tables(t.owner[(a.user, a.name) := a.tenant], t.audit + [Log(a, Add, s)])
  }

  /** DeleteAlias: an audit row only for a real deletion. */
  function DeleteAlias(t: Tables, a: Alias, s: Stamp): Tables {
    if !Holds(t, a) then t
    else Tables(t.owner - {(a.user, a.name)}, t.audit + [Log(a, Delete, s)])
  }

  datatype Op = AddOp(a: Alias, s: Stamp) | DeleteOp(a: Alias, s: Stamp)

  function Step(t: Tables, op: Op): Tables {
    match op
    case AddOp(a, s) => AddAlias(t, a, s)
    case DeleteOp(a, s) => DeleteAlias(t, a, s)
  }

  function Run(ops: seq<Op>): Tables {
    if ops == [] then EMPTY else Step(Run(ops[..|ops| - 1]), ops[|ops| - 1])
  }

  /** The two tables as the repository's statements change them. */
  class AliasRepository {
    var owner: map<(string, string), string>
    var audit: seq<Entry>

    ghost function View(): Tables reads this { Tables(owner, audit) }

    constructor ()
      ensures View() == EMPTY
    {
      owner, audit := map[], [];
    }

    method Add(a: Alias, s: Stamp)
      modifies this
      ensures View() == AddAlias(old(View()), a, s)
    {
      if !Conflicts(owner, a) {
        owner := owner[(a.user, a.name) := a.tenant];
        audit := audit + [Log(a, Action.Add, s)];
      }
    }

    method Remove(a: Alias, s: Stamp)
      modifies this
      ensures View() == DeleteAlias(old(View()), a, s)
    {
      if (a.user, a.name) in owner && owner[(a.user, a.name)] == a.tenant {
        owner := owner - {(a.user, a.name)};
        audit := audit + [Log(a, Action.Delete, s)];
      }
    }
  }

  // ---------- the log replays to the table ----------

  /** Reading the log on its own: additions insert, deletions remove. */
  function Replay(audit: seq<Entry>): map<(string, string), string> {
    if audit == [] then map[]
    else
      var before := Replay(audit[..|audit| - 1]);
      var e := audit[|audit| - 1];
      match e.action
      case Add => before[(e.alias.user, e.alias.name) := e.alias.tenant]
      case Delete => before - {(e.alias.user, e.alias.name)}
  }

  /** The actions recorded for one alias, oldest first. */
  function History(audit: seq<Entry>, a: Alias): seq<Action> {
    if audit == [] then []
    else
      var before := History(audit[..|audit| - 1], a);
      var e := audit[|audit| - 1];
      if e.alias == a then before + [e.action] else before
  }

  ghost predicate Alternates(h: seq<Action>) {
    forall i :: 0 <= i < |h| ==> h[i] == if i % 2 == 0 then Add else Delete
  }

  lemma ReplayAppend(audit: seq<Entry>, e: Entry)
    ensures var k := (e.alias.user, e.alias.name);
      Replay(audit + [e]) == if e.action.Add? then Replay(audit)[k := e.alias.tenant] else Replay(audit) - {k}
  {
    assert (audit + [e])[..|audit|] == audit;
  }

  lemma HistoryAppend(audit: seq<Entry>, e: Entry, a: Alias)
    ensures History(audit + [e], a) == History(audit, a) + if e.alias == a then [e.action] else []
  {
    assert (audit + [e])[..|audit|] == audit;
    assert e.alias != a ==> History(audit, a) + [] == History(audit, a);
  }

  /** The audit log determines the alias table after every run. */
  lemma {:induction false} AuditReplaysToTable(ops: seq<Op>)
    ensures Replay(Run(ops).audit) == Run(ops).owner
  {
    if ops != [] {
      var op := ops[|ops| - 1];
      var t := Run(ops[..|ops| - 1]);
      AuditReplaysToTable(ops[..|ops| - 1]);
      ReplayAppend(t.audit, Log(op.a, if op.AddOp? then Add else Delete, op.s));
    }
  }

  /** A user never holds two aliases that differ in case only. */
  lemma {:induction false} AliasesDifferBeyondCase(ops: seq<Op>, k: (string, string), l: (string, string))
    requires k in Run(ops).owner && l in Run(ops).owner && k.0 == l.0 && ToLower(k.1) == ToLower(l.1)
    ensures k == l
  {
    if ops != [] {
      var t, op := Run(ops[..|ops| - 1]), ops[|ops| - 1];
      if k in t.owner && l in t.owner {
        AliasesDifferBeyondCase(ops[..|ops| - 1], k, l);
      }
    }
  }

  /** The table and the log agree about one alias. */
  ghost predicate Agrees(t: Tables, a: Alias) {
    var h := History(t.audit, a);
    && Alternates(h)
    && (Holds(t, a) <==> |h| % 2 == 1)
  }

  lemma StepAgrees(t: Tables, op: Op, a: Alias)
    requires Agrees(t, a)
    ensures Agrees(Step(t, op), a)
  {
    var h := History(t.audit, a);
    HistoryAppend(t.audit, Log(op.a, if op.AddOp? then Add else Delete, op.s), a);
    if op.AddOp? && (op.a.user, op.a.name) in t.owner { assert Conflicts(t.owner, op.a); }
  }

  /** For every alias the log alternates add, delete, add, ... and the alias is in
      the table exactly when the last entry is an addition. */
  lemma AuditAlternates(ops: seq<Op>, a: Alias)
    ensures var h := History(Run(ops).audit, a);
      && Alternates(h)
      && (Holds(Run(ops), a) <==> h != [] && h[|h| - 1] == Add)
  {
    RunAgrees(ops, a);
    LastEntryTells(Run(ops), a);
  }

  lemma LastEntryTells(t: Tables, a: Alias)
    requires Agrees(t, a)
    ensures var h := History(t.audit, a);
      Alternates(h) && (Holds(t, a) <==> h != [] && h[|h| - 1] == Add)
  {
    LastOfAlternating(History(t.audit, a));
  }

  lemma LastOfAlternating(h: seq<Action>)
    requires Alternates(h)
    ensures |h| % 2 == 1 <==> h != [] && h[|h| - 1] == Add
  {
    if h != [] { assert h[|h| - 1] == if (|h| - 1) % 2 == 0 then Add else Delete; }
  }

  lemma {:induction false} RunAgrees(ops: seq<Op>, a: Alias)
    ensures Agrees(Run(ops), a)
  {
    if ops != [] {
      RunAgrees(ops[..|ops| - 1], a);
      StepAgrees(Run(ops[..|ops| - 1]), ops[|ops| - 1], a);
    }
  }

  /** An addition takes effect exactly if no alias of the user, of whatever tenant, equals
      the new one ignoring case; it then records who added what, from where and when. */
  lemma AddTakesEffectIff(t: Tables, a: Alias, s: Stamp)
    ensures var free := forall k :: k in t.owner && k.0 == a.user ==> ToLower(k.1) != ToLower(a.name);
            var t' := AddAlias(t, a, s);
      && (free ==>
            && t'.audit == t.audit + [Entry(s.id, a, Add, s.ip, s.userAgent, s.at)]
            && t'.owner == t.owner[(a.user, a.name) := a.tenant])
      && (!free ==> t' == t)
  {}

  /** A deletion takes effect exactly if this tenant's user holds the alias as written. */
  lemma DeleteTakesEffectIff(t: Tables, a: Alias, s: Stamp)
    ensures var held := (a.user, a.name) in t.owner && t.owner[(a.user, a.name)] == a.tenant;
            var t' := DeleteAlias(t, a, s);
      && (held ==>
            && t'.audit == t.audit + [Entry(s.id, a, Delete, s.ip, s.userAgent, s.at)]
            && (a.user, a.name) !in t'.owner
            && forall k :: k != (a.user, a.name) ==>
                 (k in t'.owner <==> k in t.owner) && (k in t.owner ==> t'.owner[k] == t.owner[k]))
      && (!held ==> t' == t)
  {}

  predicate Records(e: Entry, op: Op) {
    && e.alias == op.a && e.action == (if op.AddOp? then Add else Delete)
    && e.id == op.s.id && e.ip == op.s.ip && e.userAgent == op.s.userAgent && e.at == op.s.at
  }

  /** The log consists of entries for some of the operations, in their order. */
  lemma {:induction false} LogRecordsOps(ops: seq<Op>) returns (chosen: seq<nat>)
    ensures |chosen| == |Run(ops).audit|
    ensures forall i :: 0 <= i < |chosen| ==> chosen[i] < |ops| && Records(Run(ops).audit[i], ops[chosen[i]])
    ensures forall i, j :: 0 <= i < j < |chosen| ==> chosen[i] < chosen[j]
    decreases |ops|
  {
    chosen := [];
    if ops != [] {
      var n := |ops| - 1;
      var before := ops[..n];
      chosen := LogRecordsOps(before);
      var t := Run(before);
      assert Run(ops) == Step(t, ops[n]);
      if Run(ops).audit != t.audit {
        assert Run(ops).audit == t.audit + [Log(ops[n].a, if ops[n].AddOp? then Add else Delete, ops[n].s)];
        chosen := chosen + [n];
      }
    }
  }

  // ---------- listing the log ----------

  datatype Filter = Filter(tenant: string, user: string, from: Option<int>, to: Option<int>, action: string)

  function ActionName(a: Action): string { if a.Add? then "add" else "delete" }

  predicate Matches(f: Filter, e: Entry) {
    && e.alias.tenant == f.tenant
    && e.alias.user == f.user
    && (f.from.Some? ==> e.at >= f.from.value)
    && (f.to.Some? ==> e.at <= f.to.value)
    && (!IsBlank(f.action) ==> ActionName(e.action) == ToLower(TrimSpace(f.action)))
  }

  /** Only entries of the tenant's user match; both ends of the period are included; the
      action is compared ignoring case and surrounding white space. */
  lemma MatchesIff(f: Filter, e: Entry)
    ensures Matches(f, e) <==>
      && e.alias.tenant == f.tenant && e.alias.user == f.user
      && !(f.from.Some? && e.at < f.from.value) && !(f.to.Some? && e.at > f.to.value)
      && (TrimSpace(f.action) == "" || ToLower(TrimSpace(f.action)) == if e.action == Add then "add" else "delete")
  {}

  /** Two adjoining periods split a period. */
  lemma PeriodsSplit(f: Filter, e: Entry, at: int)
    requires f.from.Some? ==> f.from.value <= at
    requires f.to.Some? ==> at < f.to.value
    ensures Matches(f, e) <==> Matches(f.(to := Some(at)), e) || Matches(f.(from := Some(at + 1)), e)
    ensures !(Matches(f.(to := Some(at)), e) && Matches(f.(from := Some(at + 1)), e))
  {}

  /** The two actions split any action. */
  lemma ActionsSplit(f: Filter, e: Entry)
    ensures Matches(f.(action := ""), e) <==> Matches(f.(action := "add"), e) || Matches(f.(action := "delete"), e)
    ensures !(Matches(f.(action := "add"), e) && Matches(f.(action := "delete"), e))
  {
    ActionNames();
  }

  lemma ActionNames()
    ensures TrimSpace("") == "" && ToLower(TrimSpace("add")) == "add" && ToLower(TrimSpace("delete")) == "delete"
  {
    TrimNothing("add");
    TrimNothing("delete");
    LowerUnchanged("add");
    LowerUnchanged("delete");
  }

  ghost function Rows(audit: seq<Entry>, f: Filter): set<TimedKey> {
    set e | e in audit && Matches(f, e) :: TimedKey(e.at, e.id)
  }

  /** The checks both tiers make before they query. */
  predicate Acceptable(f: Filter) {
    var action := ToLower(TrimSpace(f.action));
    && (action == "" || action == "add" || action == "delete")
    && !(f.from.Some? && f.to.Some? && f.from.value > f.to.value)
  }

  ghost function ListAudit(audit: seq<Entry>, f: Filter, idLt: (string, string) -> bool, limit: int, cursor: string): Response<TimedKey>
    requires TotalOrder(idLt)
  {
    if !Acceptable(f) then Rejected
    else Respond(Rows(audit, f), TimedLt(idLt), EncodeKey, DecodeKey, LIST_LIMITS, limit, cursor)
  }

  /** The filtered log end to end: exactly the acceptable requests are served, and a
      client collects every matching entry once, newest first, exactly when the limit
      is not 200 or at most fifty match. */
  lemma AuditListing(audit: seq<Entry>, f: Filter, idLt: (string, string) -> bool, limit: int) returns (pages: seq<seq<TimedKey>>)
    requires TotalOrder(idLt)
    requires forall e :: e in audit ==> UsableKey(TimedKey(e.at, e.id))
    ensures forall cursor :: ListAudit(audit, f, idLt, limit, cursor).Listed? <==>
      && (ToLower(TrimSpace(f.action)) == "" || ToLower(TrimSpace(f.action)) == "add" || ToLower(TrimSpace(f.action)) == "delete")
      && !(f.from.Some? && f.to.Some? && f.from.value > f.to.value)
      && (IsBlank(cursor) || DecodeKey(cursor).Some?)
    ensures Acceptable(f) ==> forall cursor ::
      ListAudit(audit, f, idLt, limit, cursor) == Respond(Rows(audit, f), TimedLt(idLt), EncodeKey, DecodeKey, LIST_LIMITS, limit, cursor)
    ensures CollectsOnly(Rows(audit, f), TimedLt(idLt), EncodeKey, DecodeKey, LIST_LIMITS, limit, pages)
    ensures Concat(pages) == Ordered(Rows(audit, f), TimedLt(idLt)) <==> limit != 200 || |Rows(audit, f)| <= 50
    ensures 1 <= limit <= 199 ==> Paged(pages, |Rows(audit, f)|, limit)
    ensures limit <= 0 || limit > 200 ==> Paged(pages, |Rows(audit, f)|, 50)
  {
    pages := TimedListing(Rows(audit, f), idLt, limit);
  }

  /** logs[i] is the log when page i is asked for: it only grows, and entries
      written after the first request carry later timestamps. */
  ghost predicate AppendsLater(logs: seq<seq<Entry>>) {
    && logs != []
    && forall i :: 0 <= i < |logs| ==>
         && logs[0] <= logs[i]
         && forall j, b :: |logs[0]| <= j < |logs[i]| && b in logs[0] ==> logs[i][j].at > b.at
  }

  lemma AppendedRowsAreNewer(logs: seq<seq<Entry>>, f: Filter, idLt: (string, string) -> bool, i: nat)
    requires AppendsLater(logs) && i < |logs|
    ensures Newer(Rows(logs[0], f), Rows(logs[i], f), TimedLt(idLt))
  {
    var base, log := logs[0], logs[i];
    assert log[..|base|] == base;
    forall k | k in Rows(base, f) ensures k in Rows(log, f) {
      var e :| e in base && Matches(f, e) && k == TimedKey(e.at, e.id);
      assert e in log;
    }
    forall k, b | k in Rows(log, f) && k !in Rows(base, f) && b in Rows(base, f) ensures TimedLt(idLt)(b, k) {
      var e :| e in log && Matches(f, e) && k == TimedKey(e.at, e.id);
      var d :| d in base && Matches(f, d) && b == TimedKey(d.at, d.id);
      var j :| 0 <= j < |log| && log[j] == e;
      assert e !in base;
      assert base == log[..|base|];
    }
  }

  ghost function AuditTables(logs: seq<seq<Entry>>, f: Filter): seq<set<TimedKey>> {
    seq(|logs|, i requires 0 <= i < |logs| => Rows(logs[i], f))
  }

  /** While newer entries are written, a client that follows the string cursors, with
      enough requests, still collects exactly the matching entries of its first request,
      newest first, exactly when the limit is not 200 or at most fifty matched. */
  lemma AuditPagesAreSnapshot(logs: seq<seq<Entry>>, f: Filter, idLt: (string, string) -> bool, limit: int)
    requires TotalOrder(idLt) && AppendsLater(logs)
    requires forall i, e :: 0 <= i < |logs| && e in logs[i] ==> UsableKey(TimedKey(e.at, e.id))
    requires |logs| >= |Follow(Rows(logs[0], f), TimedLt(idLt), None, LIST_LIMITS.PageSize(limit), LIST_LIMITS.FetchSize(limit))|
    ensures var seen := Walk(AuditTables(logs, f), TimedLt(idLt), EncodeKey, DecodeKey, LIST_LIMITS, limit, "");
      && seen.finished
      && (Concat(seen.pages) == Ordered(Rows(logs[0], f), TimedLt(idLt)) <==> limit != 200 || |Rows(logs[0], f)| <= 50)
  {
    AuditTablesGrow(logs, f, idLt);
    WalkFollows(AuditTables(logs, f), TimedLt(idLt), EncodeKey, DecodeKey, LIST_LIMITS, limit, None);
    SnapshotListing(AuditTables(logs, f), TimedLt(idLt), limit);
  }

  lemma AuditTablesGrow(logs: seq<seq<Entry>>, f: Filter, idLt: (string, string) -> bool)
    requires AppendsLater(logs)
    requires forall i, e :: 0 <= i < |logs| && e in logs[i] ==> UsableKey(TimedKey(e.at, e.id))
    ensures AllFaithful(AuditTables(logs, f), EncodeKey, DecodeKey)
    ensures OnlyNewer(Rows(logs[0], f), AuditTables(logs, f), TimedLt(idLt))
  {
    var tables := AuditTables(logs, f);
    forall i | 0 <= i < |logs| ensures Faithful(tables[i], EncodeKey, DecodeKey) {
      KeysAreFaithful(Rows(logs[i], f));
    }
    forall i | 0 <= i < |logs| ensures Newer(Rows(logs[0], f), tables[i], TimedLt(idLt)) {
      AppendedRowsAreNewer(logs, f, idLt, i);
    }
  }
}
