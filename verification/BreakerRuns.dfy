/** The circuit breaker over whole runs: what concurrent calls keep, and how much
    traffic a dead endpoint still gets. */
module BreakerRuns {
  import opened GoStrings
  import opened FailoverClient
  import opened Sets

  // ---------- any interleaving of calls ----------

  /** The three mutex-protected sections, as concurrent calls interleave them. */
  datatype Event = Check(e: string, at: int) | Failure(e: string, at: int) | Success(e: string)

  function Apply(b: Breaker, cfg: Config, ev: Event): Breaker {
    match ev
    case Check(e, at) => AfterCheck(b, e, at)
    case Failure(e, at) => AfterFailure(b, cfg, e, at)
    case Success(e) => AfterSuccess(b, e)
  }

  function Play(cfg: Config, events: seq<Event>): Breaker {
    if events == [] then CLOSED else Apply(Play(cfg, events[..|events| - 1]), cfg, events[|events| - 1])
  }

  /** Failures recorded for `e` since its last success. */
  function FailuresSinceSuccess(events: seq<Event>, e: string): nat {
    if events == [] then 0
    else
      var before, ev := events[..|events| - 1], events[|events| - 1];
      if ev == Success(e) then 0
      else FailuresSinceSuccess(before, e) + if ev.Failure? && ev.e == e then 1 else 0
  }

  /** Time of the last failure that completed a multiple of the threshold, unless
      a success came after it. */
  function LastTrip(cfg: Config, events: seq<Event>, e: string): Option<int>
    requires cfg.Valid()
  {
    if events == [] then None
    else
      var before, ev := events[..|events| - 1], events[|events| - 1];
      if ev == Success(e) then None
      else if ev.Failure? && ev.e == e && FailuresSinceSuccess(events, e) % cfg.threshold == 0 then Some(ev.at)
      else LastTrip(cfg, before, e)
  }

  /** A check after the last trip found the cooldown over. */
  function SeenOver(cfg: Config, events: seq<Event>, e: string): bool
    requires cfg.Valid()
  {
    if events == [] then false
    else
      var before, ev := events[..|events| - 1], events[|events| - 1];
      var trip := LastTrip(cfg, before, e);
      if LastTrip(cfg, events, e) != trip || (ev.Failure? && ev.e == e && FailuresSinceSuccess(events, e) % cfg.threshold == 0)
      then false
      else SeenOver(cfg, before, e) || (ev.Check? && ev.e == e && trip.Some? && ev.at > trip.value + cfg.cooldown)
  }

  lemma ModStep(x: nat, t: nat)
    requires t >= 1
    ensures (x + 1) % t == if x % t + 1 == t then 0 else x % t + 1
  {
    var q, r := x / t, x % t;
    assert x == t * q + r;
    if r + 1 == t {
      assert x + 1 == t * (q + 1);
      ModUnique(x + 1, t, q + 1, 0);
    } else {
      ModUnique(x + 1, t, q, r + 1);
    }
  }

  lemma {:induction false} MulAtLeast(t: nat, k: nat)
    requires k >= 1
    ensures t * k >= t
  {
    if k > 1 {
      MulAtLeast(t, k - 1);
      assert t * k == t * (k - 1) + t;
    }
  }

  lemma MulDiff(t: nat, p: nat, q: nat)
    ensures p > q ==> t * p >= t * q + t
  {
    if p > q {
      MulAtLeast(t, p - q);
      assert t * p == t * q + t * (p - q);
    }
  }

  lemma ModUnique(x: nat, t: nat, q: nat, r: nat)
    requires t >= 1 && x == t * q + r && r < t
    ensures x % t == r
  {
    var p, m := x / t, x % t;
    assert x == t * p + m;
    MulDiff(t, p, q);
    MulDiff(t, q, p);
  }

  /** The breaker's entries for one endpoint, read off the history alone. */
  ghost predicate Explained(cfg: Config, events: seq<Event>, e: string)
    requires cfg.Valid()
  {
    var b := Play(cfg, events);
    var trip := LastTrip(cfg, events, e);
    && Count(b, e) == FailuresSinceSuccess(events, e) % cfg.threshold
    && (e in b.cooldown <==> trip.Some? && !SeenOver(cfg, events, e))
    && (e in b.cooldown ==> b.cooldown[e] == trip.value + cfg.cooldown)
  }

  /** Under every interleaving, a counter is the number of failures since the last
      success modulo the threshold, hence always below it; and a cooldown entry is
      the last trip plus the cooldown, there exactly until a check sees it over or
      a success clears it. */
  lemma {:induction false} BreakerExplained(cfg: Config, events: seq<Event>, e: string)
    requires cfg.Valid()
    ensures Explained(cfg, events, e)
    ensures 0 <= Count(Play(cfg, events), e) < cfg.threshold
  {
    if events != [] {
      BreakerExplained(cfg, events[..|events| - 1], e);
      ExplainedStep(cfg, events, e);
    }
  }

  lemma ExplainedStep(cfg: Config, events: seq<Event>, e: string)
    requires cfg.Valid() && events != [] && Explained(cfg, events[..|events| - 1], e)
    ensures Explained(cfg, events, e)
  {
    var ev := events[|events| - 1];
    if ev.e != e {
      OtherEvent(cfg, events, e);
    } else {
      match ev {
        case Check(_, _) => CheckExplained(cfg, events, e);
        case Failure(_, _) => FailureExplained(cfg, events, e);
        case Success(_) => SuccessExplained(cfg, events, e);
      }
    }
  }

  lemma CheckExplained(cfg: Config, events: seq<Event>, e: string)
    requires cfg.Valid() && events != [] && Explained(cfg, events[..|events| - 1], e)
    requires events[|events| - 1].Check? && events[|events| - 1].e == e
    ensures Explained(cfg, events, e)
  {}

  lemma SuccessExplained(cfg: Config, events: seq<Event>, e: string)
    requires cfg.Valid() && events != [] && Explained(cfg, events[..|events| - 1], e)
    requires events[|events| - 1] == Success(e)
    ensures Explained(cfg, events, e)
  {
    ModUnique(0, cfg.threshold, 0, 0);
  }

  lemma FailureExplained(cfg: Config, events: seq<Event>, e: string)
    requires cfg.Valid() && events != [] && Explained(cfg, events[..|events| - 1], e)
    requires events[|events| - 1].Failure? && events[|events| - 1].e == e
    ensures Explained(cfg, events, e)
  {
    var before, ev := events[..|events| - 1], events[|events| - 1];
    ModStep(FailuresSinceSuccess(before, e), cfg.threshold);
    var count := Count(Play(cfg, before), e) + 1;
    assert FailuresSinceSuccess(events, e) % cfg.threshold == if count == cfg.threshold then 0 else count;
  }

  /** Events at other endpoints explain nothing here. */
  lemma OtherEvent(cfg: Config, events: seq<Event>, e: string)
    requires cfg.Valid() && events != [] && events[|events| - 1].e != e
    ensures var before := events[..|events| - 1];
      && FailuresSinceSuccess(events, e) == FailuresSinceSuccess(before, e)
      && LastTrip(cfg, events, e) == LastTrip(cfg, before, e)
      && SeenOver(cfg, events, e) == SeenOver(cfg, before, e)
      && SameAt(Play(cfg, events), Play(cfg, before), e)
  {}

  // ---------- traffic to a dead endpoint ----------

  /** State after a sequence of visits, one call after the other. */
  function Drive(b: Breaker, cfg: Config, visits: seq<Visit>): Breaker {
    if visits == [] then b
    else AfterVisit(Drive(b, cfg, visits[..|visits| - 1]), cfg, visits[|visits| - 1])
  }

  /** The visits that sent a request to `e`. */
  function Requests(b: Breaker, cfg: Config, visits: seq<Visit>, e: string): seq<Visit> {
    if visits == [] then []
    else
      var before, v := visits[..|visits| - 1], visits[|visits| - 1];
      var sent := Requests(b, cfg, before, e);
      if v.endpoint == e && Tried(Drive(b, cfg, before), v) then sent + [v] else sent
  }

  /** The clock never runs backwards and calls do not overlap. */
  ghost predicate Monotone(visits: seq<Visit>) {
    && (forall i :: 0 <= i < |visits| ==> visits[i].checkedAt <= visits[i].doneAt)
    && (forall i, j :: 0 <= i < j < |visits| ==> visits[i].doneAt <= visits[j].checkedAt)
  }

  ghost predicate AllCounted(visits: seq<Visit>, e: string) {
    forall i :: 0 <= i < |visits| && visits[i].endpoint == e ==> Counted(visits[i].outcome)
  }

  /** The j-th request trips the breaker, when `f` failures were on record before. */
  predicate Trips(cfg: Config, f: nat, j: nat)
    requires cfg.Valid()
  {
    (f + j + 1) % cfg.threshold == 0
  }

  ghost predicate InOrder(sent: seq<Visit>, now: int) {
    && (forall i :: 0 <= i < |sent| ==> sent[i].checkedAt <= sent[i].doneAt <= now)
    && (forall i, j :: 0 <= i < j < |sent| ==> sent[i].checkedAt <= sent[j].checkedAt)
  }

  /** After a trip the next request waits out the cooldown. */
  ghost predicate TripsRespected(cfg: Config, f: nat, sent: seq<Visit>)
    requires cfg.Valid()
  {
    forall i, j :: 0 <= i < j < |sent| && Trips(cfg, f, i) ==> sent[j].checkedAt > sent[i].doneAt + cfg.cooldown
  }

  /** The breaker still remembers a trip, or its cooldown is over. */
  ghost predicate TripsRemembered(cfg: Config, f: nat, sent: seq<Visit>, s: Breaker, e: string, now: int)
    requires cfg.Valid()
  {
    forall i :: 0 <= i < |sent| && Trips(cfg, f, i) ==>
      (e in s.cooldown && s.cooldown[e] >= sent[i].doneAt + cfg.cooldown) || now > sent[i].doneAt + cfg.cooldown
  }

  /** What the visits so far imply for an endpoint that always fails. */
  ghost predicate Paced(cfg: Config, f: nat, sent: seq<Visit>, s: Breaker, e: string, now: int)
    requires cfg.Valid()
  {
    && Count(s, e) == (f + |sent|) % cfg.threshold
    && InOrder(sent, now)
    && TripsRespected(cfg, f, sent)
    && TripsRemembered(cfg, f, sent, s, e, now)
  }

  lemma PacedSend(cfg: Config, f: nat, sent: seq<Visit>, s: Breaker, v: Visit, now: int)
    requires cfg.Valid() && Paced(cfg, f, sent, s, v.endpoint, now)
    requires now <= v.checkedAt <= v.doneAt && Counted(v.outcome) && Tried(s, v)
    ensures Paced(cfg, f, sent + [v], AfterVisit(s, cfg, v), v.endpoint, v.doneAt)
  {
    ModStep(f + |sent|, cfg.threshold);
    assert forall i :: 0 <= i < |sent| && Trips(cfg, f, i) ==> v.checkedAt > sent[i].doneAt + cfg.cooldown;
    assert InOrder(sent + [v], v.doneAt);
    assert TripsRespected(cfg, f, sent + [v]);
    var s' := AfterVisit(s, cfg, v);
    assert Trips(cfg, f, |sent|) <==> Count(s, v.endpoint) + 1 == cfg.threshold;
    assert TripsRemembered(cfg, f, sent + [v], s', v.endpoint, v.doneAt);
  }

  lemma PacedSkip(cfg: Config, f: nat, sent: seq<Visit>, s: Breaker, e: string, v: Visit, now: int)
    requires cfg.Valid() && Paced(cfg, f, sent, s, e, now)
    requires now <= v.checkedAt <= v.doneAt && (v.endpoint != e || !Tried(s, v))
    ensures Paced(cfg, f, sent, AfterVisit(s, cfg, v), e, v.doneAt)
  {
    var s' := AfterVisit(s, cfg, v);
    VisitIsLocal(s, s, cfg, v, e);
    assert SameAt(s', s, e);
    assert TripsRemembered(cfg, f, sent, s', e, v.doneAt);
  }

  lemma {:induction false} AlwaysPaced(b: Breaker, cfg: Config, visits: seq<Visit>, e: string, now: int)
    requires cfg.Valid() && 0 <= Count(b, e) < cfg.threshold
    requires Monotone(visits) && AllCounted(visits, e)
    requires forall i :: 0 <= i < |visits| ==> visits[i].doneAt <= now
    ensures Paced(cfg, Count(b, e), Requests(b, cfg, visits, e), Drive(b, cfg, visits), e, now)
  {
    if visits == [] {
      ModUnique(Count(b, e), cfg.threshold, 0, Count(b, e));
    } else {
      var n := |visits| - 1;
      var before, v := visits[..n], visits[n];
      assert forall i :: 0 <= i < n ==> before[i] == visits[i];
      AlwaysPaced(b, cfg, before, e, v.checkedAt);
      var sent, s := Requests(b, cfg, before, e), Drive(b, cfg, before);
      PacedVisit(cfg, Count(b, e), sent, s, e, v, now);
    }
  }

  lemma PacedVisit(cfg: Config, f: nat, sent: seq<Visit>, s: Breaker, e: string, v: Visit, now: int)
    requires cfg.Valid() && Paced(cfg, f, sent, s, e, v.checkedAt)
    requires v.checkedAt <= v.doneAt <= now && (v.endpoint == e ==> Counted(v.outcome))
    ensures Paced(cfg, f, if v.endpoint == e && Tried(s, v) then sent + [v] else sent, AfterVisit(s, cfg, v), e, now)
  {
    if v.endpoint == e && Tried(s, v) {
      PacedSend(cfg, f, sent, s, v, v.checkedAt);
    } else {
      PacedSkip(cfg, f, sent, s, e, v, v.checkedAt);
    }
  }

  /** Any `threshold` consecutive requests include one that trips. */
  lemma TripWithin(cfg: Config, f: nat, i: nat) returns (j: nat)
    requires cfg.Valid()
    ensures i <= j < i + cfg.threshold && Trips(cfg, f, j)
  {
    var t := cfg.threshold;
    var q, r := (f + i) / t, (f + i) % t;
    j := i + (t - 1 - r);
    assert f + i == t * q + r;
    assert f + j + 1 == t * (q + 1) by { assert t * (q + 1) == t * q + t; }
    ModUnique(f + j + 1, t, q + 1, 0);
  }

  /** Requests `threshold` apart are more than a cooldown apart. */
  ghost predicate Spaced(cfg: Config, at: seq<int>)
    requires cfg.Valid()
  {
    && (forall i, j :: 0 <= i < j < |at| ==> at[i] <= at[j])
    && (forall i, j :: 0 <= i && i + cfg.threshold <= j < |at| ==> at[j] > at[i] + cfg.cooldown)
  }

  ghost function SendTimes(sent: seq<Visit>): seq<int> {
    seq(|sent|, i requires 0 <= i < |sent| => sent[i].checkedAt)
  }

  lemma RequestsAreSpaced(cfg: Config, f: nat, sent: seq<Visit>, s: Breaker, e: string, now: int)
    requires cfg.Valid() && Paced(cfg, f, sent, s, e, now)
    ensures Spaced(cfg, SendTimes(sent))
  {
    var at := SendTimes(sent);
    forall i, j | 0 <= i && i + cfg.threshold <= j < |at| ensures at[j] > at[i] + cfg.cooldown {
      var k := TripWithin(cfg, f, i);
      assert sent[j].checkedAt > sent[k].doneAt + cfg.cooldown;
      assert i < k ==> sent[i].checkedAt <= sent[k].checkedAt;
    }
  }

  lemma MulStep(k: int, t: int)
    requires k > 0 && t >= 0
    ensures (k - 1) * t + t == k * t && (k - 1) * t >= 0
  {}

  lemma {:induction false} SpacedChain(cfg: Config, at: seq<int>, i: nat, k: nat, end: nat)
    requires cfg.Valid() && Spaced(cfg, at)
    requires end == i + k * cfg.threshold && end < |at|
    ensures at[end] >= at[i] + k * cfg.cooldown
    decreases k
  {
    if k > 0 {
      MulStep(k, cfg.threshold);
      MulStep(k, cfg.cooldown);
      SpacedChain(cfg, at, i, k - 1, end - cfg.threshold);
    }
  }

  ghost function InWindow(at: seq<int>, from: int, width: nat): set<int> {
    set i | 0 <= i < |at| && from <= at[i] <= from + width
  }

  lemma WindowBound(cfg: Config, at: seq<int>, from: int, width: nat)
    requires cfg.Valid() && Spaced(cfg, at)
    ensures |InWindow(at, from, width)| <= cfg.threshold * (width / cfg.cooldown + 1)
  {
    var inside := InWindow(at, from, width);
    var k := width / cfg.cooldown + 1;
    if inside != {} {
      var lo := LeastElement(inside);
      forall x | x in inside ensures lo <= x < lo + k * cfg.threshold {
        BeyondWindow(cfg, at, from, width, lo, x);
      }
      RangeBound(inside, lo, k * cfg.threshold);
    } else {
      MulAtLeast(cfg.threshold, k);
    }
  }

  lemma BeyondWindow(cfg: Config, at: seq<int>, from: int, width: nat, lo: nat, x: nat)
    requires cfg.Valid() && Spaced(cfg, at) && lo <= x < |at|
    requires from <= at[lo] && at[x] <= from + width
    ensures x < lo + (width / cfg.cooldown + 1) * cfg.threshold
  {
    var k := width / cfg.cooldown + 1;
    assert k * cfg.cooldown > width by {
      assert width == cfg.cooldown * (k - 1) + width % cfg.cooldown;
      assert k * cfg.cooldown == cfg.cooldown * (k - 1) + cfg.cooldown;
    }
    if lo + k * cfg.threshold <= x {
      SpacedChain(cfg, at, lo, k, lo + k * cfg.threshold);
      assert false;
    }
  }

  /** An endpoint whose every attempt is a counted failure gets at most
      threshold * (width / cooldown + 1) requests in any window of that width. */
  lemma DeadEndpointTraffic(b: Breaker, cfg: Config, visits: seq<Visit>, e: string, from: int, width: nat)
    requires cfg.Valid() && 0 <= Count(b, e) < cfg.threshold
    requires Monotone(visits) && AllCounted(visits, e)
    ensures |InWindow(SendTimes(Requests(b, cfg, visits, e)), from, width)| <= cfg.threshold * (width / cfg.cooldown + 1)
  {
    var now := if visits == [] then 0 else visits[|visits| - 1].doneAt;
    AlwaysPaced(b, cfg, visits, e, now);
    RequestsAreSpaced(cfg, Count(b, e), Requests(b, cfg, visits, e), Drive(b, cfg, visits), e, now);
    WindowBound(cfg, SendTimes(Requests(b, cfg, visits, e)), from, width);
  }

  // ---------- runs of calls ----------

  /** The visits one call really makes. */
  function Made(b: Breaker, cfg: Config, visits: seq<Visit>): seq<Visit>
    decreases |visits|
  {
    if visits == [] then []
    else if Stops(b, visits[0]) then [visits[0]]
    else [visits[0]] + Made(AfterVisit(b, cfg, visits[0]), cfg, visits[1..])
  }

  lemma {:induction false} DriveConcat(b: Breaker, cfg: Config, first: seq<Visit>, second: seq<Visit>)
    ensures Drive(b, cfg, first + second) == Drive(Drive(b, cfg, first), cfg, second)
  {
    if second == [] {
      assert first + second == first;
    } else {
      var n := |second| - 1;
      assert (first + second)[..|first + second| - 1] == first + second[..n];
      DriveConcat(b, cfg, first, second[..n]);
    }
  }

  lemma {:induction false} SweepDrives(b: Breaker, cfg: Config, visits: seq<Visit>, lastErr: Option<Result>)
    ensures Sweep(b, cfg, visits, lastErr).0 == Drive(b, cfg, Made(b, cfg, visits))
    decreases |visits|
  {
    if visits != [] {
      var v := visits[0];
      var b' := AfterVisit(b, cfg, v);
      assert [v][..0] == [];
      assert Drive(b, cfg, [v]) == b';
      if !Stops(b, v) {
        SweepDrives(b', cfg, visits[1..], if Tried(b, v) then Some(Report(v)) else lastErr);
        DriveConcat(b, cfg, [v], Made(b', cfg, visits[1..]));
      }
    }
  }

  /** Before the n-th call of a fresh client its index stands at n modulo 2^32. */
  lemma IndexAdvances(n: nat)
    ensures Bump(n % UINT32) == (n + 1) % UINT32
  {}

  /** State and request log of a run of calls, each with its network script. */
  function RunState(cfg: Config, endpoints: seq<string>, calls: seq<seq<Probe>>): Breaker
    requires forall i :: 0 <= i < |calls| ==> |calls[i]| == |endpoints|
    requires endpoints != []
  {
    if calls == [] then CLOSED
    else
      var n := |calls| - 1;
      Sweep(RunState(cfg, endpoints, calls[..n]), cfg, Visits(endpoints, StartOf(n % UINT32, |endpoints|), calls[n]), None).0
  }

  function RunVisits(cfg: Config, endpoints: seq<string>, calls: seq<seq<Probe>>): seq<Visit>
    requires forall i :: 0 <= i < |calls| ==> |calls[i]| == |endpoints|
    requires endpoints != []
  {
    if calls == [] then []
    else
      var n := |calls| - 1;
      RunVisits(cfg, endpoints, calls[..n])
      + Made(RunState(cfg, endpoints, calls[..n]), cfg, Visits(endpoints, StartOf(n % UINT32, |endpoints|), calls[n]))
  }

  lemma {:induction false} RunDrives(cfg: Config, endpoints: seq<string>, calls: seq<seq<Probe>>)
    requires forall i :: 0 <= i < |calls| ==> |calls[i]| == |endpoints|
    requires endpoints != []
    ensures RunState(cfg, endpoints, calls) == Drive(CLOSED, cfg, RunVisits(cfg, endpoints, calls))
  {
    if calls != [] {
      var n := |calls| - 1;
      var b := RunState(cfg, endpoints, calls[..n]);
      var visits := Visits(endpoints, StartOf(n % UINT32, |endpoints|), calls[n]);
      RunDrives(cfg, endpoints, calls[..n]);
      SweepDrives(b, cfg, visits, None);
      DriveConcat(CLOSED, cfg, RunVisits(cfg, endpoints, calls[..n]), Made(b, cfg, visits));
    }
  }

  /** The bound over every run of non-overlapping calls of a fresh client. */
  lemma DeadEndpointTrafficInRun(cfg: Config, endpoints: seq<string>, calls: seq<seq<Probe>>, e: string, from: int, width: nat)
    requires cfg.Valid() && endpoints != []
    requires forall i :: 0 <= i < |calls| ==> |calls[i]| == |endpoints|
    requires Monotone(RunVisits(cfg, endpoints, calls)) && AllCounted(RunVisits(cfg, endpoints, calls), e)
    ensures RunState(cfg, endpoints, calls) == Drive(CLOSED, cfg, RunVisits(cfg, endpoints, calls))
    ensures |InWindow(SendTimes(Requests(CLOSED, cfg, RunVisits(cfg, endpoints, calls), e)), from, width)|
            <= cfg.threshold * (width / cfg.cooldown + 1)
  {
    RunDrives(cfg, endpoints, calls);
    DeadEndpointTraffic(CLOSED, cfg, RunVisits(cfg, endpoints, calls), e, from, width);
  }

  /** Calls made one after the other on a fresh client leave it as RunState says, with
      its index at the number of calls modulo 2^32. */
  method FreshRun(raw: seq<string>, cfg: Config, calls: seq<seq<Probe>>) returns (c: Client, results: seq<Result>)
    requires Normalized(raw) != []
    requires forall i :: 0 <= i < |calls| ==> |calls[i]| == |Normalized(raw)|
    ensures fresh(c) && c.endpoints == Normalized(raw) && c.cfg == cfg
    ensures c.View() == RunState(cfg, Normalized(raw), calls) && c.next == |calls| % UINT32
    ensures |results| == |calls|
    ensures forall i :: 0 <= i < |calls| ==> results[i] == RunResult(cfg, Normalized(raw), calls, i)
  {
    c := new Client(raw, cfg);
    results := [];
    for i := 0 to |calls|
      invariant fresh(c) && c.Valid() && c.endpoints == Normalized(raw) && c.cfg == cfg
      invariant c.View() == RunState(cfg, c.endpoints, calls[..i]) && c.next == i % UINT32
      invariant |results| == i && forall j :: 0 <= j < i ==> results[j] == RunResult(cfg, c.endpoints, calls, j)
    {
      IndexAdvances(i);
      assert calls[..i + 1][..i] == calls[..i];
      var r := c.Post(None, calls[i]);
      results := results + [r];
    }
    assert calls[..|calls|] == calls;
  }

  /** What the i-th call of a run returns. */
  function RunResult(cfg: Config, endpoints: seq<string>, calls: seq<seq<Probe>>, i: nat): Result
    requires i < |calls| && endpoints != []
    requires forall j :: 0 <= j < |calls| ==> |calls[j]| == |endpoints|
  {
    Sweep(RunState(cfg, endpoints, calls[..i]), cfg, Visits(endpoints, StartOf(i % UINT32, |endpoints|), calls[i]), None).1
  }

  // ---------- where calls begin ----------

  lemma StartBelowWrap(n: nat, k: nat)
    requires k > 0 && n < 0x1_0000_0000
    ensures StartOf(n % UINT32, k) == n % k
  {}

  /** Consecutive calls begin at consecutive endpoints, the first call at the first. */
  lemma CallsRotate(n: nat, k: nat)
    requires k > 0 && n + 1 < 0x1_0000_0000
    ensures StartOf(0, k) == 0
    ensures StartOf((n + 1) % UINT32, k) == if StartOf(n % UINT32, k) + 1 == k then 0 else StartOf(n % UINT32, k) + 1
  {
    ModUnique(0, k, 0, 0);
    StartBelowWrap(n, k);
    StartBelowWrap(n + 1, k);
    ModStep(n, k);
  }

  lemma ResidueInRow(n: nat, k: nat, i: nat) returns (j: nat)
    requires k > 0 && i < k
    ensures n <= j < n + k && j % k == i
  {
    var q, r := n / k, n % k;
    assert n == k * q + r;
    if i >= r {
      j := n + (i - r);
      ModUnique(j, k, q, i);
    } else {
      j := n + (i - r) + k;
      assert k * (q + 1) == k * q + k;
      ModUnique(j, k, q + 1, i);
    }
  }

  /** Among any k calls in a row, below the wrap of the index, each of k endpoints is the
      first of exactly one. */
  lemma EachBeginsOnce(n: nat, k: nat, i: nat) returns (j: nat)
    requires k > 0 && n + k <= 0x1_0000_0000 && i < k
    ensures n <= j < n + k && StartOf(j % UINT32, k) == i
    ensures forall j' :: n <= j' < n + k && StartOf(j' % UINT32, k) == i ==> j' == j
  {
    j := ResidueInRow(n, k, i);
    StartBelowWrap(j, k);
    forall j' | n <= j' < n + k && StartOf(j' % UINT32, k) == i ensures j' == j {
      StartBelowWrap(j', k);
      SameResidue(j, j', k);
    }
  }

  lemma SameResidue(x: nat, y: nat, k: nat)
    requires k > 0 && x % k == y % k && x - y < k && y - x < k
    ensures x == y
  {
    SameRemainder(x, y, k, x / k, y / k, x % k);
  }

  lemma SameRemainder(x: nat, y: nat, k: nat, p: nat, q: nat, r: nat)
    requires x == k * p + r && y == k * q + r && x - y < k && y - x < k
    ensures x == y
  {
    MulDiff(k, p, q);
    MulDiff(k, q, p);
  }

  /** The rotation goes on across the wrap of the index if and only if the number of
      endpoints divides 2^32. */
  lemma RotationAcrossWrapIff(k: nat)
    requires k > 0
    ensures var last := StartOf(0xFFFF_FFFF, k);
      StartOf(Bump(0xFFFF_FFFF), k) == (if last + 1 == k then 0 else last + 1) <==> 0x1_0000_0000 % k == 0
  {
    ModUnique(0, k, 0, 0);
    ModStep(0xFFFF_FFFF, k);
  }

  /** The n-th call of a fresh client asks endpoint n modulo their number first. */
  lemma CallBeginsAt(endpoints: seq<string>, n: nat, probes: seq<Probe>)
    requires endpoints != [] && |probes| == |endpoints| && n < 0x1_0000_0000
    ensures Visits(endpoints, StartOf(n % UINT32, |endpoints|), probes)[0].endpoint == endpoints[n % |endpoints|]
  {
    VisitAt(endpoints, n % |endpoints|, probes, 0);
  }
}
