/** The dbman client: round-robin over endpoints with a circuit breaker for each
    (server/common/infra/dbman/client.go).  Times are nanoseconds. */
module FailoverClient {
  import opened GoStrings
  import Decimal

  // ---------- configuration ----------

  function TrimRightSlash(s: string): string {
    if s != "" && s[|s| - 1] == '/' then TrimRightSlash(s[..|s| - 1]) else s
  }

  /** Exactly the slashes at the end are cut off. */
  lemma {:induction false} TrimRightSlashSpec(s: string)
    ensures var r := TrimRightSlash(s);
      && r <= s && (r == "" || r[|r| - 1] != '/')
      && forall i :: |r| <= i < |s| ==> s[i] == '/'
  {
    if s != "" && s[|s| - 1] == '/' { TrimRightSlashSpec(s[..|s| - 1]); }
  }

  function Normalize(endpoint: string): string { TrimRightSlash(TrimSpace(endpoint)) }

  ghost predicate Distinct(s: seq<string>) {
    forall i, j :: 0 <= i < j < |s| ==> s[i] != s[j]
  }

  /** The non-empty normalized endpoints in order of first occurrence. */
  function Normalized(endpoints: seq<string>): seq<string> {
    if endpoints == [] then []
    else
      var before := Normalized(endpoints[..|endpoints| - 1]);
      var e := Normalize(endpoints[|endpoints| - 1]);
      if e == "" || e in before then before else before + [e]
  }

  /** A longer input only adds endpoints at the end. */
  lemma {:induction false} NormalizedGrows(endpoints: seq<string>, k: nat)
    requires k <= |endpoints|
    ensures Normalized(endpoints[..k]) <= Normalized(endpoints)
    decreases |endpoints|
  {
    if k == |endpoints| {
      assert endpoints[..k] == endpoints;
    } else {
      var init := endpoints[..|endpoints| - 1];
      assert init[..k] == endpoints[..k];
      NormalizedGrows(init, k);
    }
  }

  /** One of the inputs normalizes to `e`. */
  ghost predicate Given(endpoints: seq<string>, e: string) {
    exists i :: 0 <= i < |endpoints| && Normalize(endpoints[i]) == e
  }

  lemma {:induction false} NormalizedSpec(endpoints: seq<string>)
    ensures Distinct(Normalized(endpoints)) && "" !in Normalized(endpoints)
    ensures forall e :: e in Normalized(endpoints) <==> e != "" && Given(endpoints, e)
    ensures forall k :: 0 <= k <= |endpoints| ==> Normalized(endpoints[..k]) <= Normalized(endpoints)
  {
    if endpoints != [] {
      var n := |endpoints| - 1;
      NormalizedSpec(endpoints[..n]);
      forall e ensures Given(endpoints, e) <==> Given(endpoints[..n], e) || Normalize(endpoints[n]) == e {
        GivenLast(endpoints, e);
      }
    }
    forall k | 0 <= k <= |endpoints| ensures Normalized(endpoints[..k]) <= Normalized(endpoints) {
      NormalizedGrows(endpoints, k);
    }
  }

  lemma GivenLast(endpoints: seq<string>, e: string)
    requires endpoints != []
    ensures Given(endpoints, e) <==> Given(endpoints[..|endpoints| - 1], e) || Normalize(endpoints[|endpoints| - 1]) == e
  {
    var n := |endpoints| - 1;
    assert forall i :: 0 <= i < n ==> endpoints[..n][i] == endpoints[i];
    if Normalize(endpoints[n]) == e { assert Given(endpoints, e); }
    if Given(endpoints[..n], e) {
      var i :| 0 <= i < n && Normalize(endpoints[..n][i]) == e;
      assert Normalize(endpoints[i]) == e;
    }
  }

  method NormalizeEndpoints(endpoints: seq<string>) returns (result: seq<string>)
    ensures result == Normalized(endpoints)
    ensures Distinct(result) && "" !in result
  {
    result := [];
    var seen: set<string> := {};
    for i := 0 to |endpoints|
      invariant result == Normalized(endpoints[..i])
      invariant forall e :: e in seen <==> e in result
    {
      var e := Normalize(endpoints[i]);
      assert endpoints[..i + 1][..i] == endpoints[..i];
      if e == "" { continue; }
      if e in seen { continue; }
      seen := seen + {e};
      result := result + [e];
    }
    assert endpoints[..|endpoints|] == endpoints;
    NormalizedSpec(endpoints);
  }

  /** intFromEnv: anything but a positive number gives the default. */
  function IntFromEnv(raw: string, fallback: int): (n: int)
    requires fallback >= 1
    ensures n >= 1
  {
    match Decimal.ParseInt64(TrimSpace(raw))
    case None => fallback
    case Some(n) => if n <= 0 then fallback else n
  }

  /** A positive number is taken as it is printed; blank, unreadable and non-positive
      settings give the default. */
  lemma IntFromEnvSpec(raw: string, fallback: int, n: int)
    requires fallback >= 1
    ensures TrimSpace(raw) == Decimal.PrintInt(n) && 1 <= n <= 0x7FFF_FFFF_FFFF_FFFF ==> IntFromEnv(raw, fallback) == n
    ensures TrimSpace(raw) == Decimal.PrintInt(n) && (n <= 0 || n > 0x7FFF_FFFF_FFFF_FFFF) ==> IntFromEnv(raw, fallback) == fallback
    ensures !Decimal.IsNumeral(TrimSpace(raw)) ==> IntFromEnv(raw, fallback) == fallback
  {
    Decimal.ParsePrintInt(n);
    Decimal.ParsesNumerals(TrimSpace(raw));
  }

  const MILLISECOND := 1_000_000

  /** Two's-complement wrap-around of an int64 product. */
  function Wrap64(n: int): (w: int)
    ensures Decimal.IsInt64(w)
  {
    (n + 0x8000_0000_0000_0000) % 0x1_0000_0000_0000_0000 - 0x8000_0000_0000_0000
  }

  /** durationFromEnvMillis multiplies in int64, so a huge setting wraps. */
  function DurationFromEnv(raw: string, fallback: int): int
    requires fallback >= 1
  {
    match Decimal.ParseInt64(TrimSpace(raw))
    case None => fallback
    case Some(n) => if n <= 0 then fallback else Wrap64(n * MILLISECOND)
  }

  /** The configured duration is the number of milliseconds asked for exactly up
      to 9223372036854 ms; beyond that it wraps and may even be negative. */
  lemma DurationExactIff(raw: string, fallback: int, n: int)
    requires fallback >= 1 && Decimal.ParseInt64(TrimSpace(raw)) == Some(n) && n >= 1
    ensures DurationFromEnv(raw, fallback) == n * 1_000_000 <==> n <= 9_223_372_036_854
    ensures n == 9_223_372_036_855 ==> DurationFromEnv(raw, fallback) < 0
  {}

  lemma DurationDefault(raw: string, fallback: int, n: int)
    requires fallback >= 1
    ensures TrimSpace(raw) == Decimal.PrintInt(n) && n <= 0 ==> DurationFromEnv(raw, fallback) == fallback
    ensures !Decimal.IsNumeral(TrimSpace(raw)) ==> DurationFromEnv(raw, fallback) == fallback
  {
    Decimal.ParsePrintInt(n);
    Decimal.ParsesNumerals(TrimSpace(raw));
  }

  datatype Config = Config(threshold: int, cooldown: int) {
    predicate Valid() { threshold >= 1 && cooldown >= 1 }
  }

  /** Every setting the client accepts makes a valid configuration, up to the wrap. */
  lemma ConfiguredIsValid(thresholdRaw: string, cooldownRaw: string, threshold: int, cooldown: int, n: int)
    requires threshold >= 1 && cooldown >= 1 && TrimSpace(cooldownRaw) == Decimal.PrintInt(n) && n <= 9_223_372_036_854
    ensures Config(IntFromEnv(thresholdRaw, threshold), DurationFromEnv(cooldownRaw, cooldown)).Valid()
  {
    Decimal.ParsePrintInt(n);
    if n >= 1 { DurationExactIff(cooldownRaw, cooldown, n); }
  }

  // ---------- the breaker ----------

  /** failureCnt and cooldownTo. */
  datatype Breaker = Breaker(failures: map<string, int>, cooldown: map<string, int>)

  const CLOSED := Breaker(map[], map[])

  function Count(b: Breaker, e: string): int {
    if e in b.failures then b.failures[e] else 0
  }

  predicate Cooling(b: Breaker, e: string, now: int) {
    e in b.cooldown && now <= b.cooldown[e]
  }

  /** isCoolingDown drops an entry that has run out. */
  function AfterCheck(b: Breaker, e: string, now: int): Breaker {
    if e in b.cooldown && now > b.cooldown[e] then b.(cooldown := b.cooldown - {e}) else b
  }

  function AfterFailure(b: Breaker, cfg: Config, e: string, now: int): Breaker {
    var count := Count(b, e) + 1;
    if count >= cfg.threshold
    then Breaker(b.failures[e := 0], b.cooldown[e := now + cfg.cooldown])
    else b.(failures := b.failures[e := count])
  }

  function AfterSuccess(b: Breaker, e: string): Breaker {
    Breaker(b.failures[e := 0], b.cooldown - {e})
  }

  // ---------- one call ----------

  datatype Outcome =
    | RequestError(err: string)
    | TransportError(err: string)
    | Answer(status: int, decodeError: Option<string>)

  /** What the network does at one offset of a call, and when. */
  datatype Probe = Probe(checkedAt: int, outcome: Outcome, doneAt: int)

  datatype Visit = Visit(endpoint: string, checkedAt: int, outcome: Outcome, doneAt: int)

  datatype Result =
    | NotConfigured
    | MarshalFailed(err: string)
    | NothingTried
    | Failed(endpoint: string, outcome: Outcome)
    | Succeeded(endpoint: string)

  predicate Retriable(o: Outcome) { !o.Answer? || o.status >= 500 }

  /** Outcomes that count against an endpoint. */
  predicate Counted(o: Outcome) { Retriable(o) || (o.status < 300 && o.decodeError.Some?) }

  predicate Good(o: Outcome) { o.Answer? && o.status < 300 && o.decodeError.None? }

  function Report(v: Visit): Result {
    if Good(v.outcome) then Succeeded(v.endpoint) else Failed(v.endpoint, v.outcome)
  }

  /** Effect of one visit: a cooling endpoint is skipped, 3xx and 4xx are not counted. */
  function AfterVisit(b: Breaker, cfg: Config, v: Visit): Breaker {
    var checked := AfterCheck(b, v.endpoint, v.checkedAt);
    if Cooling(b, v.endpoint, v.checkedAt) then checked
    else if Counted(v.outcome) then AfterFailure(checked, cfg, v.endpoint, v.doneAt)
    else if Good(v.outcome) then AfterSuccess(checked, v.endpoint)
    else checked
  }

  predicate Tried(b: Breaker, v: Visit) { !Cooling(b, v.endpoint, v.checkedAt) }

  predicate Stops(b: Breaker, v: Visit) { Tried(b, v) && !Retriable(v.outcome) }

  /** The loop of Post, visit by visit. */
  function Sweep(b: Breaker, cfg: Config, visits: seq<Visit>, lastErr: Option<Result>): (Breaker, Result)
    decreases |visits|
  {
    if visits == [] then (b, if lastErr.None? then NothingTried else lastErr.value)
    else
      var v := visits[0];
      var b' := AfterVisit(b, cfg, v);
      if Stops(b, v) then (b', Report(v))
      else Sweep(b', cfg, visits[1..], if Tried(b, v) then Some(Report(v)) else lastErr)
  }

  /** The endpoint at one offset of a round. */
  function EndpointAt(endpoints: seq<string>, start: nat, offset: nat): string
    requires endpoints != []
  {
    endpoints[(start + offset) % |endpoints|]
  }

  /** The endpoints in cyclic order from `start`. */
  function Visits(endpoints: seq<string>, start: nat, probes: seq<Probe>): (visits: seq<Visit>)
    requires |probes| == |endpoints|
    ensures |visits| == |endpoints|
  {
    var n := |endpoints|;
    seq(n, k requires 0 <= k < n =>
      Visit(EndpointAt(endpoints, start, k), probes[k].checkedAt, probes[k].outcome, probes[k].doneAt))
  }

  const UINT32 := 0x1_0000_0000

  /** atomic.AddUint32 by one. */
  function Bump(next: nat): (n: nat)
    ensures n < UINT32
  {
    (next + 1) % UINT32
  }

  /** Where a call begins. */
  function StartOf(next: nat, n: nat): (start: nat)
    requires n > 0
    ensures start < n
  {
    next % n
  }

  class Client {
    const endpoints: seq<string>
    const cfg: Config
    var next: nat
    var failureCnt: map<string, int>
    var cooldownTo: map<string, int>

    ghost predicate Valid() reads this {
      Distinct(endpoints) && next < UINT32
    }

    ghost function View(): Breaker reads this { Breaker(failureCnt, cooldownTo) }

    constructor (raw: seq<string>, cfg: Config)
      ensures Valid() && View() == CLOSED && next == 0
      ensures endpoints == Normalized(raw) && this.cfg == cfg
    {
      var normalized := NormalizeEndpoints(raw);
      this.endpoints, this.cfg := normalized, cfg;
      next, failureCnt, cooldownTo := 0, map[], map[];
    }

    method IsCoolingDown(e: string, now: int) returns (cooling: bool)
      modifies this`cooldownTo
      ensures cooling == Cooling(old(View()), e, now)
      ensures View() == AfterCheck(old(View()), e, now)
    {
      if e !in cooldownTo { return false; }
      if now > cooldownTo[e] {
        cooldownTo := cooldownTo - {e};
        return false;
      }
      return true;
    }

    method OnFailure(e: string, now: int)
      modifies this`failureCnt, this`cooldownTo
      ensures View() == AfterFailure(old(View()), cfg, e, now)
    {
      var count := (if e in failureCnt then failureCnt[e] else 0) + 1;
      failureCnt := failureCnt[e := count];
      if count >= cfg.threshold {
        cooldownTo := cooldownTo[e := now + cfg.cooldown];
        failureCnt := failureCnt[e := 0];
      }
      assert failureCnt == AfterFailure(old(View()), cfg, e, now).failures;
    }

    method OnSuccess(e: string)
      modifies this`failureCnt, this`cooldownTo
      ensures View() == AfterSuccess(old(View()), e)
    {
      failureCnt := failureCnt[e := 0];
      cooldownTo := cooldownTo - {e};
    }

    method Post(marshalError: Option<string>, probes: seq<Probe>) returns (r: Result)
      requires Valid() && |probes| == |endpoints|
      modifies this
      ensures Valid()
      ensures endpoints == [] ==> r == NotConfigured && View() == old(View()) && next == old(next)
      ensures endpoints != [] && marshalError.Some? ==>
        r == MarshalFailed(marshalError.value) && View() == old(View()) && next == old(next)
      ensures endpoints != [] && marshalError.None? ==>
        && next == Bump(old(next))
        && (View(), r) == Sweep(old(View()), cfg, Visits(endpoints, StartOf(old(next), |endpoints|), probes), None)
    {
      if |endpoints| == 0 { return NotConfigured; }
      if marshalError.Some? { return MarshalFailed(marshalError.value); }
      var start := StartOf(next, |endpoints|);
      next := Bump(next);
      var lastErr: Option<Result> := None;
      ghost var visits := Visits(endpoints, start, probes);
      assert visits[0..] == visits;
      for offset := 0 to |endpoints|
        invariant Valid() && next == Bump(old(next))
        invariant Sweep(View(), cfg, visits[offset..], lastErr) == Sweep(old(View()), cfg, visits, None)
      {
        var e, p := EndpointAt(endpoints, start, offset), probes[offset];
        SweepNext(View(), cfg, visits, offset, lastErr);
        var tried, stop, result := TryEndpoint(e, p);
        if stop { return result; }
        if tried { lastErr := Some(result); }
      }
      return if lastErr.None? then NothingTried else lastErr.value;
    }

    /** The body of the loop: skip a cooling endpoint, else send and judge the outcome. */
    method TryEndpoint(e: string, p: Probe) returns (tried: bool, stop: bool, result: Result)
      modifies this`failureCnt, this`cooldownTo
      ensures var v := Visit(e, p.checkedAt, p.outcome, p.doneAt);
        && View() == AfterVisit(old(View()), cfg, v)
        && tried == Tried(old(View()), v) && stop == Stops(old(View()), v) && (tried ==> result == Report(v))
    {
      var cooling := IsCoolingDown(e, p.checkedAt);
      if cooling { return false, false, NothingTried; }
      if !p.outcome.Answer? || p.outcome.status >= 500 {
        OnFailure(e, p.doneAt);
        return true, false, Failed(e, p.outcome);
      }
      if p.outcome.status >= 300 { return true, true, Failed(e, p.outcome); }
      if p.outcome.decodeError.Some? {
        OnFailure(e, p.doneAt);
        return true, true, Failed(e, p.outcome);
      }
      OnSuccess(e);
      return true, true, Succeeded(e);
    }
  }

  lemma SweepNext(b: Breaker, cfg: Config, visits: seq<Visit>, k: nat, lastErr: Option<Result>)
    requires k < |visits|
    ensures var v := visits[k];
            var b' := AfterVisit(b, cfg, v);
      Sweep(b, cfg, visits[k..], lastErr) ==
        if Stops(b, v) then (b', Report(v))
        else Sweep(b', cfg, visits[k + 1..], if Tried(b, v) then Some(Report(v)) else lastErr)
  {
    assert visits[k..][0] == visits[k] && visits[k..][1..] == visits[k + 1..];
  }

  // ---------- a call against its simple specification ----------

  ghost predicate DistinctVisits(visits: seq<Visit>) {
    forall i, j :: 0 <= i < j < |visits| ==> visits[i].endpoint != visits[j].endpoint
  }

  lemma WrapOnce(x: nat, n: nat)
    requires x < 2 * n
    ensures x % n == if x < n then x else x - n
  {}

  /** The k-th stop of a round that begins at `start`. */
  function Turn(start: nat, k: nat, n: nat): (i: nat)
    requires start < n && k < n
    ensures i < n
  {
    if start + k < n then start + k else start + k - n
  }

  lemma VisitAt(endpoints: seq<string>, start: nat, probes: seq<Probe>, k: nat)
    requires |probes| == |endpoints| && start < |endpoints| && k < |endpoints|
    ensures Visits(endpoints, start, probes)[k]
         == Visit(endpoints[Turn(start, k, |endpoints|)], probes[k].checkedAt, probes[k].outcome, probes[k].doneAt)
  {
    WrapOnce(start + k, |endpoints|);
  }

  ghost predicate InCyclicOrder(visits: seq<Visit>, endpoints: seq<string>, start: nat)
    requires start < |endpoints|
  {
    && |visits| == |endpoints|
    && forall k :: 0 <= k < |visits| ==> visits[k].endpoint == endpoints[Turn(start, k, |endpoints|)]
  }

  ghost predicate Visited(visits: seq<Visit>, e: string) {
    exists k :: 0 <= k < |visits| && visits[k].endpoint == e
  }

  ghost predicate VisitsAll(visits: seq<Visit>, endpoints: seq<string>) {
    forall i :: 0 <= i < |endpoints| ==> Visited(visits, endpoints[i])
  }

  lemma OneRound(visits: seq<Visit>, endpoints: seq<string>, start: nat)
    requires start < |endpoints| && Distinct(endpoints) && InCyclicOrder(visits, endpoints, start)
    ensures DistinctVisits(visits) && VisitsAll(visits, endpoints)
  {
    var n := |endpoints|;
    forall i, j | 0 <= i < j < n ensures visits[i].endpoint != visits[j].endpoint {
      assert Turn(start, i, n) != Turn(start, j, n);
    }
    forall i | 0 <= i < n ensures Visited(visits, endpoints[i]) {
      var k := if i >= start then i - start else i + n - start;
      assert Turn(start, k, n) == i;
      assert visits[k].endpoint == endpoints[i];
    }
  }

  /** A call goes round the endpoints in cyclic order and visits each exactly once. */
  lemma VisitsAreCyclic(endpoints: seq<string>, start: nat, probes: seq<Probe>)
    requires |probes| == |endpoints| && Distinct(endpoints) && start < |endpoints|
    ensures var visits := Visits(endpoints, start, probes);
      InCyclicOrder(visits, endpoints, start) && DistinctVisits(visits) && VisitsAll(visits, endpoints)
  {
    forall k | 0 <= k < |endpoints|
      ensures Visits(endpoints, start, probes)[k].endpoint == endpoints[Turn(start, k, |endpoints|)]
    {
      VisitAt(endpoints, start, probes, k);
    }
    OneRound(Visits(endpoints, start, probes), endpoints, start);
  }

  /** The first offset that ends the call, judged on the state before the call. */
  ghost function StopAt(b: Breaker, visits: seq<Visit>): (k: nat)
    ensures k <= |visits|
    ensures forall i :: 0 <= i < k ==> !Stops(b, visits[i])
    ensures k < |visits| ==> Stops(b, visits[k])
  {
    if visits == [] || Stops(b, visits[0]) then 0 else 1 + StopAt(b, visits[1..])
  }

  /** The last offset that was tried, or None. */
  ghost function LastTried(b: Breaker, visits: seq<Visit>): (k: Option<nat>)
    ensures k.Some? ==> k.value < |visits| && Tried(b, visits[k.value])
                        && forall i :: k.value < i < |visits| ==> !Tried(b, visits[i])
    ensures k.None? ==> forall i :: 0 <= i < |visits| ==> !Tried(b, visits[i])
  {
    if visits == [] then None
    else if Tried(b, visits[|visits| - 1]) then Some(|visits| - 1)
    else LastTried(b, visits[..|visits| - 1])
  }

  ghost function Expected(b: Breaker, visits: seq<Visit>): Result {
    if StopAt(b, visits) < |visits| then Report(visits[StopAt(b, visits)])
    else match LastTried(b, visits)
      case None => NothingTried
      case Some(k) => Report(visits[k])
  }

  ghost predicate SameAt(b: Breaker, c: Breaker, e: string) {
    && Count(b, e) == Count(c, e)
    && (e in b.cooldown <==> e in c.cooldown)
    && (e in b.cooldown ==> b.cooldown[e] == c.cooldown[e])
  }

  /** A visit touches only its own endpoint, and acts on it by that endpoint's entries alone. */
  lemma VisitIsLocal(b: Breaker, c: Breaker, cfg: Config, v: Visit, e: string)
    requires SameAt(b, c, e)
    ensures v.endpoint != e ==> SameAt(AfterVisit(b, cfg, v), b, e)
    ensures v.endpoint == e ==> SameAt(AfterVisit(b, cfg, v), AfterVisit(c, cfg, v), e)
                                && Tried(b, v) == Tried(c, v)
  {}

  /** Decisions about visits depend only on the entries of their endpoints. */
  lemma {:induction false} ExpectedIsLocal(b: Breaker, c: Breaker, visits: seq<Visit>)
    requires forall i :: 0 <= i < |visits| ==> SameAt(b, c, visits[i].endpoint)
    ensures StopAt(b, visits) == StopAt(c, visits)
    ensures LastTried(b, visits) == LastTried(c, visits)
  {
    assert forall i :: 0 <= i < |visits| ==> Tried(b, visits[i]) == Tried(c, visits[i]);
  }

  lemma {:induction false} SweepResult(b: Breaker, cfg: Config, visits: seq<Visit>, lastErr: Option<Result>)
    requires DistinctVisits(visits)
    ensures Sweep(b, cfg, visits, lastErr).1 ==
      if Expected(b, visits) == NothingTried && lastErr.Some? then lastErr.value else Expected(b, visits)
    decreases |visits|
  {
    if visits != [] && !Stops(b, visits[0]) {
      var v, rest := visits[0], visits[1..];
      var b' := AfterVisit(b, cfg, v);
      forall i | 0 <= i < |rest| ensures SameAt(b, b', rest[i].endpoint) {
        assert rest[i] == visits[i + 1];
        VisitIsLocal(b, b, cfg, v, rest[i].endpoint);
      }
      SweepResult(b', cfg, rest, if Tried(b, v) then Some(Report(v)) else lastErr);
      ExpectedIsLocal(b, b', rest);
      TailExpected(b, visits);
    }
  }

  lemma TailExpected(b: Breaker, visits: seq<Visit>)
    requires visits != [] && !Stops(b, visits[0])
    ensures var tail := Expected(b, visits[1..]);
      Expected(b, visits) == if tail == NothingTried && Tried(b, visits[0]) then Report(visits[0]) else tail
  {
    var rest := visits[1..];
    assert forall i :: 0 <= i < |rest| ==> rest[i] == visits[i + 1];
    var k, k' := LastTried(b, visits), LastTried(b, rest);
    if k'.Some? {
      assert Tried(b, visits[k'.value + 1]);
      assert k.Some? && k.value == k'.value + 1;
    } else {
      assert forall i :: 1 <= i < |visits| ==> !Tried(b, visits[i]) by {
        forall i | 1 <= i < |visits| ensures !Tried(b, visits[i]) { assert visits[i] == rest[i - 1]; }
      }
    }
  }

  /** One endpoint after a call: a visit up to the stopping one has had its effect, and
      without such a visit nothing has changed. */
  ghost predicate Effects(b: Breaker, cfg: Config, visits: seq<Visit>, after: Breaker, e: string) {
    && (forall k :: 0 <= k < |visits| && k <= StopAt(b, visits) && visits[k].endpoint == e
          ==> SameAt(after, AfterVisit(b, cfg, visits[k]), e))
    && ((forall k :: 0 <= k < |visits| && k <= StopAt(b, visits) ==> visits[k].endpoint != e)
          ==> SameAt(after, b, e))
  }

  /** The state after a call, endpoint by endpoint. */
  lemma {:induction false} SweepState(b: Breaker, cfg: Config, visits: seq<Visit>, lastErr: Option<Result>, e: string)
    requires DistinctVisits(visits)
    ensures Effects(b, cfg, visits, Sweep(b, cfg, visits, lastErr).0, e)
    decreases |visits|
  {
    if visits != [] {
      var v, rest := visits[0], visits[1..];
      if Stops(b, v) {
        VisitIsLocal(b, b, cfg, v, e);
      } else {
        SweepState(AfterVisit(b, cfg, v), cfg, rest, if Tried(b, v) then Some(Report(v)) else lastErr, e);
        TailUnaffected(b, cfg, visits);
        EffectsOfTail(b, cfg, visits, Sweep(b, cfg, visits, lastErr).0, e);
      }
    }
  }

  /** The first visit does not touch the later endpoints. */
  lemma TailUnaffected(b: Breaker, cfg: Config, visits: seq<Visit>)
    requires DistinctVisits(visits) && visits != []
    ensures StopAt(AfterVisit(b, cfg, visits[0]), visits[1..]) == StopAt(b, visits[1..])
  {
    var v, rest := visits[0], visits[1..];
    var b' := AfterVisit(b, cfg, v);
    forall i | 0 <= i < |rest| ensures SameAt(b, b', rest[i].endpoint) {
      assert rest[i] == visits[i + 1];
      VisitIsLocal(b, b, cfg, v, rest[i].endpoint);
    }
    ExpectedIsLocal(b, b', rest);
  }

  lemma EffectsOfTail(b: Breaker, cfg: Config, visits: seq<Visit>, after: Breaker, e: string)
    requires DistinctVisits(visits) && visits != [] && !Stops(b, visits[0])
    requires var b' := AfterVisit(b, cfg, visits[0]);
      StopAt(b', visits[1..]) == StopAt(b, visits[1..]) && Effects(b', cfg, visits[1..], after, e)
    ensures Effects(b, cfg, visits, after, e)
  {
    var v, rest := visits[0], visits[1..];
    var b' := AfterVisit(b, cfg, v);
    assert forall k :: 0 <= k < |rest| ==> rest[k] == visits[k + 1];
    assert StopAt(b, visits) == 1 + StopAt(b, rest);
    VisitIsLocal(b, b, cfg, v, e);
    if v.endpoint == e {
      assert forall k :: 0 <= k < |rest| ==> rest[k].endpoint != e;
    } else {
      forall k | 0 <= k < |visits| && k <= StopAt(b, visits) && visits[k].endpoint == e
        ensures SameAt(after, AfterVisit(b, cfg, visits[k]), e)
      {
        assert visits[k] == rest[k - 1];
        VisitIsLocal(b', b, cfg, visits[k], e);
      }
    }
  }

  /** Post returns what the first tried, non-retriable endpoint in cyclic order
      answers; failing that, the last retriable error. */
  lemma PostMeetsSpec(b: Breaker, cfg: Config, endpoints: seq<string>, start: nat, probes: seq<Probe>)
    requires |probes| == |endpoints| && Distinct(endpoints) && start < |endpoints|
    ensures var visits := Visits(endpoints, start, probes);
      Sweep(b, cfg, visits, None).1 == Expected(b, visits)
  {
    VisitsAreCyclic(endpoints, start, probes);
    SweepResult(b, cfg, Visits(endpoints, start, probes), None);
  }

  /** One healthy endpoint that is not cooling is enough, wherever it stands, if
      the others that are tried fail retriably. */
  lemma HealthyEndpointSuffices(b: Breaker, cfg: Config, endpoints: seq<string>, start: nat, probes: seq<Probe>, k: nat)
    requires |probes| == |endpoints| && Distinct(endpoints) && start < |endpoints| && k < |endpoints|
    requires var visits := Visits(endpoints, start, probes);
      && Tried(b, visits[k]) && Good(visits[k].outcome)
      && forall i :: 0 <= i < |visits| && i != k && Tried(b, visits[i]) ==> Retriable(visits[i].outcome)
    ensures var visits := Visits(endpoints, start, probes);
      Sweep(b, cfg, visits, None).1 == Succeeded(visits[k].endpoint)
  {
    var visits := Visits(endpoints, start, probes);
    PostMeetsSpec(b, cfg, endpoints, start, probes);
    assert Stops(b, visits[k]);
    assert StopAt(b, visits) == k;
  }

  // ---------- the outcome classes, in status codes ----------

  /** One counted failure of an endpoint that is not cooling. */
  function FailedOnce(b: Breaker, cfg: Config, e: string, at: int): Breaker {
    var n := (if e in b.failures then b.failures[e] else 0) + 1;
    if n >= cfg.threshold then Breaker(b.failures[e := 0], b.cooldown[e := at + cfg.cooldown])
    else Breaker(b.failures[e := n], b.cooldown - {e})
  }

  /** What the next endpoint does to a call: one that is cooling is passed over; no
      answer, or a status of 500 or more, counts against it and the call goes on; 3xx and
      4xx end the call and count nothing; below 300 an undecodable body counts and ends
      the call, and a decoded one clears the endpoint and is the result. */
  lemma OutcomeClasses(b: Breaker, cfg: Config, v: Visit, rest: seq<Visit>, lastErr: Option<Result>)
    ensures var e, o := v.endpoint, v.outcome;
            var swept := Sweep(b, cfg, [v] + rest, lastErr);
            var cooling := e in b.cooldown && v.checkedAt <= b.cooldown[e];
      && (cooling ==> swept == Sweep(b, cfg, rest, lastErr))
      && (!cooling && (o.RequestError? || o.TransportError? || o.status >= 500) ==>
            swept == Sweep(FailedOnce(b, cfg, e, v.doneAt), cfg, rest, Some(Failed(e, o))))
      && (!cooling && o.Answer? && 300 <= o.status < 500 ==>
            swept == (Breaker(b.failures, b.cooldown - {e}), Failed(e, o)))
      && (!cooling && o.Answer? && o.status < 300 && o.decodeError.Some? ==>
            swept == (FailedOnce(b, cfg, e, v.doneAt), Failed(e, o)))
      && (!cooling && o.Answer? && o.status < 300 && o.decodeError.None? ==>
            swept == (Breaker(b.failures[e := 0], b.cooldown - {e}), Succeeded(e)))
  {
    assert ([v] + rest)[1..] == rest;
    assert v.endpoint !in b.cooldown ==> b.cooldown - {v.endpoint} == b.cooldown;
    assert b.cooldown - {v.endpoint} - {v.endpoint} == b.cooldown - {v.endpoint};
    if !(v.endpoint in b.cooldown && v.checkedAt <= b.cooldown[v.endpoint]) { VisitByStatus(b, cfg, v); }
  }

  lemma VisitByStatus(b: Breaker, cfg: Config, v: Visit)
    requires !(v.endpoint in b.cooldown && v.checkedAt <= b.cooldown[v.endpoint])
    ensures var e, o := v.endpoint, v.outcome;
            var after := AfterVisit(b, cfg, v);
      && ((o.RequestError? || o.TransportError? || o.status >= 500 || (o.status < 300 && o.decodeError.Some?)) ==>
            after == FailedOnce(b, cfg, e, v.doneAt))
      && (o.Answer? && 300 <= o.status < 500 ==> after == Breaker(b.failures, b.cooldown - {e}))
      && (o.Answer? && o.status < 300 && o.decodeError.None? ==> after == Breaker(b.failures[e := 0], b.cooldown - {e}))
  {
    var e := v.endpoint;
    assert (b.cooldown - {e})[e := v.doneAt + cfg.cooldown] == b.cooldown[e := v.doneAt + cfg.cooldown];
    assert e !in b.cooldown ==> b.cooldown - {e} == b.cooldown;
    assert b.cooldown - {e} - {e} == b.cooldown - {e};
  }

  /** With nothing left to visit a call reports the last failure it met, if any. */
  lemma NothingLeft(b: Breaker, cfg: Config, lastErr: Option<Result>)
    ensures Sweep(b, cfg, [], lastErr) == (b, if lastErr.Some? then lastErr.value else NothingTried)
  {}
}
