/** The per-domain rate limiter of src/crawl/rate-limiter.ts: adaptive cooldown over the reals, and the
    slots with their waiting queue as a step protocol. The clock and the random draw are parameters. */
module RateLimiter {
  import opened Options

  const DECAY_SUCCESS_STREAK: nat := 3

  datatype Domain = Domain(
    activeCount: int,
    lastRequestTime: real,
    queue: seq<nat>,
    maxConcurrency: int,
    delayMs: real,
    cooldownMultiplier: real,
    successStreak: nat)

  function Max(x: real, y: real): real { if x >= y then x else y }

  function Min(x: real, y: real): real { if x <= y then x else y }

  // ---------------------------------------------------------------- cooldown

  predicate Blocked(status: int) { status == 403 || status == 429 }

  predicate Success(status: int) { 200 <= status < 300 }

  /** The largest multiplier a block may leave behind. */
  function MaxMultiplier(delayMs: real, cooldownMaxMs: real): real {
    Max(1.0, if delayMs > 0.0 then cooldownMaxMs / delayMs else 1.0)
  }

  function Respond(d: Domain, status: int, factor: real, cooldownMaxMs: real): Domain
    requires factor > 0.0
  {
    if Blocked(status) then
      d.(successStreak := 0,
         cooldownMultiplier := Min(d.cooldownMultiplier * factor, MaxMultiplier(d.delayMs, cooldownMaxMs)))
    else if Success(status) then
      if d.cooldownMultiplier <= 1.0 then d.(cooldownMultiplier := 1.0, successStreak := 0)
      else if d.successStreak + 1 >= DECAY_SUCCESS_STREAK then
        d.(successStreak := 0, cooldownMultiplier := Max(1.0, d.cooldownMultiplier / factor))
      else d.(successStreak := d.successStreak + 1)
    else d
  }

  function RespondAll(d: Domain, statuses: seq<int>, factor: real, cooldownMaxMs: real): Domain
    requires factor > 0.0
  {
    if statuses == [] then d
    else Respond(RespondAll(d, statuses[..|statuses| - 1], factor, cooldownMaxMs), statuses[|statuses| - 1], factor, cooldownMaxMs)
  }

  /** The wait before the next request: u is the random draw in [0, 1], floor the robots delay. */
  function ComputeWait(d: Domain, u: real, jitter: real, floor: real): real {
    var base := d.delayMs * d.cooldownMultiplier;
    var offset := (u * 2.0 - 1.0) * jitter;
    Max(0.0, Max(base * (1.0 + offset), floor))
  }

  ghost predicate CooldownOk(d: Domain, cooldownMaxMs: real) {
    && d.delayMs >= 0.0
    && 1.0 <= d.cooldownMultiplier <= MaxMultiplier(d.delayMs, cooldownMaxMs)
    && d.successStreak < DECAY_SUCCESS_STREAK
  }

  lemma ScaleUp(m: real, factor: real)
    requires m >= 1.0 && factor >= 1.0
    ensures m * factor >= 1.0 && m * factor >= m
  {
    assert (m - 1.0) * factor >= 0.0;
    assert m * (factor - 1.0) >= 0.0;
  }

  lemma ScaleDown(m: real, factor: real)
    requires m >= 0.0 && factor >= 1.0
    ensures 0.0 <= m / factor <= m
  {
    var q := m / factor;
    assert m == q * factor;
    if q < 0.0 {
      NegativeTimes(q, factor);
    }
    assert q * (factor - 1.0) >= 0.0;
  }

  lemma NegativeTimes(q: real, factor: real)
    requires q < 0.0 && factor > 0.0
    ensures q * factor < 0.0
  {
  }

  /** One response keeps the multiplier between 1 and its cap. */
  lemma RespondKeepsBounds(d: Domain, status: int, factor: real, cooldownMaxMs: real)
    requires factor >= 1.0 && CooldownOk(d, cooldownMaxMs)
    ensures CooldownOk(Respond(d, status, factor, cooldownMaxMs), cooldownMaxMs)
    ensures Respond(d, status, factor, cooldownMaxMs).delayMs == d.delayMs
  {
    ScaleUp(d.cooldownMultiplier, factor);
    ScaleDown(d.cooldownMultiplier, factor);
  }

  /** So does every sequence of responses. */
  lemma {:induction false} MultiplierBounded(d: Domain, statuses: seq<int>, factor: real, cooldownMaxMs: real)
    requires factor >= 1.0 && CooldownOk(d, cooldownMaxMs)
    ensures CooldownOk(RespondAll(d, statuses, factor, cooldownMaxMs), cooldownMaxMs)
    ensures RespondAll(d, statuses, factor, cooldownMaxMs).delayMs == d.delayMs
  {
    hide Respond, CooldownOk;
    if statuses != [] {
      MultiplierBounded(d, statuses[..|statuses| - 1], factor, cooldownMaxMs);
      RespondKeepsBounds(RespondAll(d, statuses[..|statuses| - 1], factor, cooldownMaxMs), statuses[|statuses| - 1], factor, cooldownMaxMs);
    }
  }

  lemma ProductMonotone(a: real, b: real, c: real)
    requires 0.0 <= c && a <= b
    ensures a * c <= b * c
  {
    assert (b - a) * c >= 0.0;
  }

  lemma ScaledLimit(m: real, delayMs: real, ceiling: real)
    requires delayMs > 0.0
    ensures delayMs * m <= Max(delayMs, ceiling) <==> m <= Max(1.0, ceiling / delayMs)
  {
    var q := ceiling / delayMs;
    assert ceiling == q * delayMs;
    ScaledOrder(m, Max(1.0, q), delayMs);
    ScaledOrder(1.0, q, delayMs);
    assert delayMs * m == m * delayMs && 1.0 * delayMs == delayMs;
  }

  lemma ScaledOrder(x: real, y: real, scale: real)
    requires scale > 0.0
    ensures x <= y <==> x * scale <= y * scale
  {
    assert x * scale - y * scale == (x - y) * scale;
    if x > y {
      NegativeTimes(y - x, scale);
      assert (y - x) * scale == -((x - y) * scale);
    } else {
      ProductMonotone(x, y, scale);
    }
  }

  /** The unjittered wait never passes the larger of the base delay and the cooldown ceiling. */
  lemma BaseBounded(d: Domain, cooldownMaxMs: real)
    requires CooldownOk(d, cooldownMaxMs)
    ensures 0.0 <= d.delayMs * d.cooldownMultiplier <= Max(d.delayMs, cooldownMaxMs)
  {
    var m, delayMs := d.cooldownMultiplier, d.delayMs;
    ProductMonotone(0.0, m, delayMs);
    if delayMs > 0.0 {
      ScaledLimit(m, delayMs, cooldownMaxMs);
    } else {
      assert delayMs * m == 0.0;
    }
  }

  lemma ScaledBound(base: real, top: real, offset: real, jitter: real)
    requires 0.0 <= base <= top && offset <= jitter && jitter >= 0.0
    ensures base * (1.0 + offset) <= top * (1.0 + jitter)
    ensures top * (1.0 + jitter) >= 0.0
  {
    ProductMonotone(1.0 + offset, 1.0 + jitter, base);
    ProductMonotone(base, top, 1.0 + jitter);
    ProductMonotone(0.0, top, 1.0 + jitter);
    assert base * (1.0 + offset) == (1.0 + offset) * base;
    assert base * (1.0 + jitter) == (1.0 + jitter) * base;
  }

  /** Every wait lies between the robots floor and the jittered ceiling. */
  lemma WaitBounded(d: Domain, u: real, jitter: real, floor: real, cooldownMaxMs: real)
    requires CooldownOk(d, cooldownMaxMs)
    requires 0.0 <= u <= 1.0 && 0.0 <= jitter <= 1.0 && floor >= 0.0
    ensures floor <= ComputeWait(d, u, jitter, floor) <= Max(floor, Max(d.delayMs, cooldownMaxMs) * (1.0 + jitter))
  {
    hide CooldownOk, MaxMultiplier;
    BaseBounded(d, cooldownMaxMs);
    ProductMonotone(u * 2.0 - 1.0, 1.0, jitter);
    ScaledBound(d.delayMs * d.cooldownMultiplier, Max(d.delayMs, cooldownMaxMs), (u * 2.0 - 1.0) * jitter, jitter);
  }

  function Power(x: real, k: nat): real { if k == 0 then 1.0 else x * Power(x, k - 1) }

  /** Statuses that are all successes. */
  ghost predicate AllSuccess(statuses: seq<int>) {
    forall i :: 0 <= i < |statuses| ==> Success(statuses[i])
  }

  /** Three successes in a row take the multiplier at least one factor-step down, or to 1. */
  lemma ThreeSuccesses(d: Domain, a: int, b: int, c: int, factor: real, cooldownMaxMs: real)
    requires factor >= 1.0 && CooldownOk(d, cooldownMaxMs)
    requires Success(a) && Success(b) && Success(c)
    ensures var e := Respond(Respond(Respond(d, a, factor, cooldownMaxMs), b, factor, cooldownMaxMs), c, factor, cooldownMaxMs);
      e.cooldownMultiplier <= Max(1.0, d.cooldownMultiplier / factor)
  {
    ScaleDown(d.cooldownMultiplier, factor);
    var d1 := Respond(d, a, factor, cooldownMaxMs);
    var d2 := Respond(d1, b, factor, cooldownMaxMs);
    SuccessNeverRaises(d1, b, factor, cooldownMaxMs);
    RespondKeepsBounds(d, a, factor, cooldownMaxMs);
    RespondKeepsBounds(d1, b, factor, cooldownMaxMs);
    SuccessNeverRaises(d2, c, factor, cooldownMaxMs);
  }

  lemma SuccessNeverRaises(d: Domain, status: int, factor: real, cooldownMaxMs: real)
    requires factor >= 1.0 && d.cooldownMultiplier >= 1.0 && Success(status)
    ensures Respond(d, status, factor, cooldownMaxMs).cooldownMultiplier <= d.cooldownMultiplier
  {
    ScaleDown(d.cooldownMultiplier, factor);
  }

  lemma StepDown(m: real, factor: real, k: nat)
    requires factor > 1.0 && k > 0 && m <= Power(factor, k)
    ensures m / factor <= Power(factor, k - 1)
  {
    var q, p := m / factor, Power(factor, k - 1);
    assert m == q * factor;
    if q > p {
      NegativeTimes(p - q, factor);
    }
  }

  lemma {:induction false} PowerAtLeastOne(factor: real, k: nat)
    requires factor >= 1.0
    ensures Power(factor, k) >= 1.0
  {
    if k > 0 {
      PowerAtLeastOne(factor, k - 1);
      ScaleUp(Power(factor, k - 1), factor);
    }
  }

  /** A multiplier within factor^k is back at exactly 1 after 3k consecutive successes. */
  lemma {:induction false} CooldownRecovers(d: Domain, statuses: seq<int>, k: nat, factor: real, cooldownMaxMs: real)
    requires factor > 1.0 && CooldownOk(d, cooldownMaxMs)
    requires d.cooldownMultiplier <= Power(factor, k)
    requires |statuses| == 3 * k && AllSuccess(statuses)
    ensures RespondAll(d, statuses, factor, cooldownMaxMs).cooldownMultiplier == 1.0
    decreases k
  {
    if k > 0 {
      var e := RespondAll(d, statuses[..3], factor, cooldownMaxMs);
      FirstThree(d, statuses, factor, cooldownMaxMs);
      MultiplierBounded(d, statuses[..3], factor, cooldownMaxMs);
      StepDown(d.cooldownMultiplier, factor, k);
      PowerAtLeastOne(factor, k - 1);
      CooldownRecovers(e, statuses[3..], k - 1, factor, cooldownMaxMs);
      RespondSplit(d, statuses, 3, factor, cooldownMaxMs);
    }
  }

  lemma FirstThree(d: Domain, statuses: seq<int>, factor: real, cooldownMaxMs: real)
    requires factor >= 1.0 && CooldownOk(d, cooldownMaxMs) && |statuses| >= 3 && AllSuccess(statuses)
    ensures RespondAll(d, statuses[..3], factor, cooldownMaxMs).cooldownMultiplier <= Max(1.0, d.cooldownMultiplier / factor)
  {
    hide Respond, CooldownOk;
    assert statuses[..3][..2] == statuses[..2] && statuses[..2][..1] == statuses[..1] && statuses[..1][..0] == [];
    assert RespondAll(d, statuses[..1], factor, cooldownMaxMs) == Respond(d, statuses[0], factor, cooldownMaxMs);
    assert RespondAll(d, statuses[..2], factor, cooldownMaxMs)
        == Respond(RespondAll(d, statuses[..1], factor, cooldownMaxMs), statuses[1], factor, cooldownMaxMs);
    ThreeSuccesses(d, statuses[0], statuses[1], statuses[2], factor, cooldownMaxMs);
  }

  lemma {:induction false} RespondSplit(d: Domain, statuses: seq<int>, n: nat, factor: real, cooldownMaxMs: real)
    requires factor > 0.0 && n <= |statuses|
    ensures RespondAll(d, statuses, factor, cooldownMaxMs)
            == RespondAll(RespondAll(d, statuses[..n], factor, cooldownMaxMs), statuses[n..], factor, cooldownMaxMs)
    decreases |statuses|
  {
    hide Respond;
    if n < |statuses| {
      var last := |statuses| - 1;
      RespondSplit(d, statuses[..last], n, factor, cooldownMaxMs);
      assert statuses[..last][..n] == statuses[..n] && statuses[..last][n..] == statuses[n..][..last - n];
    } else {
      assert statuses[..n] == statuses;
    }
  }

  // ---------------------------------------------------------------- slots of one domain

  /** What `acquire` does at its first stretch: start at once, sleep before starting, or queue. */
  datatype Outcome = Started | Sleeps(remaining: real) | Queued

  function Start(d: Domain, now: real): Domain {
    d.(activeCount := d.activeCount + 1, lastRequestTime := now)
  }

  /** The wait depends on the delay and the multiplier alone. */
  lemma SameWait(d: Domain, e: Domain, u: real, jitter: real, floor: real)
    requires d.delayMs == e.delayMs && d.cooldownMultiplier == e.cooldownMultiplier
    ensures ComputeWait(d, u, jitter, floor) == ComputeWait(e, u, jitter, floor)
  {
  }

  /** What is left of the wait since the last request began. */
  function Remaining(d: Domain, u: real, jitter: real, floor: real, now: real): real {
    ComputeWait(d, u, jitter, floor) - (now - d.lastRequestTime)
  }

  function OnAcquire(d: Domain, ticket: nat, remaining: real, now: real): (Domain, Outcome) {
    if d.activeCount < d.maxConcurrency then
      if remaining > 0.0 && d.lastRequestTime > 0.0 then (d, Sleeps(remaining)) else (Start(d, now), Started)
    else (d.(queue := d.queue + [ticket]), Queued)
  }

  /** A release frees a slot and then serves the head of the queue, at once or after a timer. */
  function OnRelease(d: Domain, remaining: real, now: real): (Domain, Option<(nat, bool)>) {
    var e := d.(activeCount := d.activeCount - 1);
    if e.queue == [] || e.activeCount >= e.maxConcurrency then (e, None)
    else
      var next, f := e.queue[0], e.(queue := e.queue[1..]);
      if remaining <= 0.0 then (Start(f, now), Some((next, true))) else (f, Some((next, false)))
  }

  /** The state a domain starts in. */
  function FreshDomain(concurrency: int, configDelay: real, robotsDelay: Option<real>): Domain {
    Domain(0, 0.0, [], concurrency, Max(configDelay, if robotsDelay.Some? then robotsDelay.value else 0.0), 1.0, 0)
  }

  /** A robots delay set later can only raise the delay. */
  function RaiseDelay(d: Domain, robotsDelay: Option<real>): Domain {
    if robotsDelay.Some? && robotsDelay.value > d.delayMs then d.(delayMs := robotsDelay.value) else d
  }

  function FloorOf(robotsDelay: Option<real>): real {
    if robotsDelay.Some? then robotsDelay.value else 0.0
  }

  // ---------------------------------------------------------------- a delay raised later

  /** Every wait of the domain stays under the jittered ceiling. */
  ghost predicate WaitsUnderCeiling(d: Domain, jitter: real, floor: real, cooldownMaxMs: real) {
    forall u: real | 0.0 <= u <= 1.0 ::
      ComputeWait(d, u, jitter, floor) <= Max(floor, Max(d.delayMs, cooldownMaxMs) * (1.0 + jitter))
  }

  /** A robots delay r set after the multiplier has grown raises the delay without looking at the multiplier:
      the waits stay under the ceiling exactly when the multiplier already fits the delay then in force. */
  lemma RaisedDelay(d: Domain, r: real, jitter: real, cooldownMaxMs: real)
    requires CooldownOk(d, cooldownMaxMs) && 0.0 <= jitter <= 1.0
    ensures var e := RaiseDelay(d, Some(r));
      WaitsUnderCeiling(e, jitter, r, cooldownMaxMs) <==> e.cooldownMultiplier <= MaxMultiplier(e.delayMs, cooldownMaxMs)
  {
    hide ComputeWait, MaxMultiplier;
    var e := RaiseDelay(d, Some(r));
    if e.cooldownMultiplier <= MaxMultiplier(e.delayMs, cooldownMaxMs) {
      forall u: real | 0.0 <= u <= 1.0
        ensures ComputeWait(e, u, jitter, r) <= Max(r, Max(e.delayMs, cooldownMaxMs) * (1.0 + jitter))
      {
        WaitUnderCeiling(e, u, jitter, r, cooldownMaxMs);
      }
    } else {
      WaitOverCeiling(e, jitter, r, cooldownMaxMs);
      assert ComputeWait(e, 1.0, jitter, r) > Max(r, Max(e.delayMs, cooldownMaxMs) * (1.0 + jitter));
    }
  }

  lemma WaitUnderCeiling(d: Domain, u: real, jitter: real, floor: real, cooldownMaxMs: real)
    requires CooldownOk(d, cooldownMaxMs) && 0.0 <= u <= 1.0 && 0.0 <= jitter <= 1.0
    ensures ComputeWait(d, u, jitter, floor) <= Max(floor, Max(d.delayMs, cooldownMaxMs) * (1.0 + jitter))
  {
    hide CooldownOk, MaxMultiplier;
    BaseBounded(d, cooldownMaxMs);
    ProductMonotone(u * 2.0 - 1.0, 1.0, jitter);
    ScaledBound(d.delayMs * d.cooldownMultiplier, Max(d.delayMs, cooldownMaxMs), (u * 2.0 - 1.0) * jitter, jitter);
  }

  /** The largest draw shows an unfitting multiplier. */
  lemma WaitOverCeiling(d: Domain, jitter: real, floor: real, cooldownMaxMs: real)
    requires d.delayMs > 0.0 && floor <= d.delayMs && 0.0 <= jitter <= 1.0
    requires d.cooldownMultiplier > MaxMultiplier(d.delayMs, cooldownMaxMs)
    ensures ComputeWait(d, 1.0, jitter, floor) > Max(floor, Max(d.delayMs, cooldownMaxMs) * (1.0 + jitter))
  {
    var base, top := d.delayMs * d.cooldownMultiplier, Max(d.delayMs, cooldownMaxMs);
    ScaledLimit(d.cooldownMultiplier, d.delayMs, cooldownMaxMs);
    StrictlyScaled(base, top, jitter);
    assert (1.0 * 2.0 - 1.0) * jitter == jitter;
  }

  lemma StrictlyScaled(base: real, top: real, jitter: real)
    requires 0.0 <= top < base && jitter >= 0.0
    ensures base <= base * (1.0 + jitter) && top * (1.0 + jitter) < base * (1.0 + jitter)
  {
    var scale := 1.0 + jitter;
    NegativeTimes(top - base, scale);
    assert (top - base) * scale == top * scale - base * scale;
    ProductMonotone(1.0, scale, base);
    assert scale * base == base * scale;
  }

  /** For instance: a domain at 1 s with a 4 s ceiling, blocked twice at factor 2, whose robots delay then
      becomes 2 s, waits 8 s at the middle draw; with 30% jitter the ceiling is 5.2 s. */
  lemma RaisedDelayCanPassCeiling()
    ensures var blocked := RespondAll(FreshDomain(2, 1000.0, None), [429, 429], 2.0, 4000.0);
      var raised := RaiseDelay(blocked, Some(2000.0));
      && CooldownOk(blocked, 4000.0)
      && ComputeWait(raised, 0.5, 0.3, 2000.0) == 8000.0
      && !WaitsUnderCeiling(raised, 0.3, 2000.0, 4000.0)
  {
    var d := FreshDomain(2, 1000.0, None);
    assert [429, 429][..1] == [429] && [429][..0] == [];
    assert RespondAll(d, [429], 2.0, 4000.0) == Respond(d, 429, 2.0, 4000.0);
    var blocked := RespondAll(d, [429, 429], 2.0, 4000.0);
    assert blocked.cooldownMultiplier == 4.0;
    var raised := RaiseDelay(blocked, Some(2000.0));
    assert ComputeWait(raised, 0.5, 0.3, 2000.0) > Max(2000.0, Max(2000.0, 4000.0) * (1.0 + 0.3));
  }

  /** The next block caps the multiplier by the delay then in force. */
  lemma NextBlockRestores(d: Domain, r: real, status: int, factor: real, cooldownMaxMs: real)
    requires CooldownOk(d, cooldownMaxMs) && factor >= 1.0 && Blocked(status)
    ensures CooldownOk(Respond(RaiseDelay(d, Some(r)), status, factor, cooldownMaxMs), cooldownMaxMs)
  {
    ScaleUp(d.cooldownMultiplier, factor);
  }

  // ---------------------------------------------------------------- the limiter

  class Limiter {
    var domains: map<string, Domain>
    var robotsDelays: map<string, real>
    const jitterPct: real
    const cooldownFactor: real
    const cooldownMaxMs: real
    const crawlDelayMs: real
    const crawlPrivateDelayMs: real
    const crawlConcurrency: int
    const crawlPrivateConcurrency: int

    constructor (jitterPct: real, cooldownFactor: real, cooldownMaxMs: real, crawlDelayMs: real, crawlPrivateDelayMs: real,
                 crawlConcurrency: int, crawlPrivateConcurrency: int)
      ensures domains == map[] && robotsDelays == map[]
      ensures this.jitterPct == jitterPct && this.cooldownFactor == cooldownFactor && this.cooldownMaxMs == cooldownMaxMs
    {
      this.jitterPct, this.cooldownFactor, this.cooldownMaxMs := jitterPct, cooldownFactor, cooldownMaxMs;
      this.crawlDelayMs, this.crawlPrivateDelayMs := crawlDelayMs, crawlPrivateDelayMs;
      this.crawlConcurrency, this.crawlPrivateConcurrency := crawlConcurrency, crawlPrivateConcurrency;
      domains, robotsDelays := map[], map[];
    }

    function Jitter(): (j: real)
      ensures 0.0 <= j <= 1.0
    {
      Max(0.0, Min(1.0, jitterPct))
    }

    function RobotsDelay(domain: string): Option<real>
      reads this`robotsDelays
    {
      if domain in robotsDelays then Some(robotsDelays[domain]) else None
    }

    /** The state `getOrCreateState` leaves for a domain. */
    function StateFor(domain: string, isPrivate: bool): Domain
      reads this
    {
      var d := if domain in domains then domains[domain]
               else FreshDomain(if isPrivate then crawlPrivateConcurrency else crawlConcurrency,
                                if isPrivate then crawlPrivateDelayMs else crawlDelayMs, RobotsDelay(domain));
      RaiseDelay(d, RobotsDelay(domain))
    }

    method SetRobotsCrawlDelay(domain: string, delaySeconds: real)
      modifies this`robotsDelays
      ensures robotsDelays == old(robotsDelays)[domain := delaySeconds * 1000.0]
    {
      robotsDelays := robotsDelays[domain := delaySeconds * 1000.0];
    }

    method GetOrCreateState(domain: string, isPrivate: bool) returns (state: Domain)
      modifies this`domains
      ensures state == old(StateFor(domain, isPrivate))
      ensures domains == old(domains)[domain := state]
    {
      if domain !in domains {
        var configDelay := if isPrivate then crawlPrivateDelayMs else crawlDelayMs;
        var robotsDelay := if domain in robotsDelays then robotsDelays[domain] else 0.0;
        var effectiveDelay := Max(configDelay, robotsDelay);
        var concurrency := if isPrivate then crawlPrivateConcurrency else crawlConcurrency;
        domains := domains[domain := Domain(0, 0.0, [], concurrency, effectiveDelay, 1.0, 0)];
      }
      state := domains[domain];
      if domain in robotsDelays && robotsDelays[domain] > state.delayMs {
        state := state.(delayMs := robotsDelays[domain]);
        domains := domains[domain := state];
      }
      assert domains == old(domains)[domain := state];
    }

    method NextWaitMs(domain: string, u: real) returns (wait: real)
      ensures wait == if domain in domains then ComputeWait(domains[domain], u, Jitter(), FloorOf(RobotsDelay(domain))) else 0.0
    {
      if domain !in domains {
        return 0.0;
      }
      var state := domains[domain];
      var base := state.delayMs * state.cooldownMultiplier;
      var offset := (u * 2.0 - 1.0) * Jitter();
      wait := base * (1.0 + offset);
      var robotsFloor := if domain in robotsDelays then robotsDelays[domain] else 0.0;
      wait := Max(wait, robotsFloor);
      wait := Max(0.0, wait);
    }

    method RecordResponse(domain: string, status: int)
      requires cooldownFactor > 0.0
      modifies this`domains
      ensures domain !in old(domains) ==> domains == old(domains)
      ensures domain in old(domains) ==>
                domains == old(domains)[domain := Respond(old(domains)[domain], status, cooldownFactor, cooldownMaxMs)]
    {
      if domain !in domains {
        return;
      }
      var state := domains[domain];
      if status == 403 || status == 429 {
        var next := state.cooldownMultiplier * cooldownFactor;
        var maxMultiplier := if state.delayMs > 0.0 then cooldownMaxMs / state.delayMs else 1.0;
        state := state.(successStreak := 0, cooldownMultiplier := Min(next, Max(1.0, maxMultiplier)));
        assert state == Respond(domains[domain], status, cooldownFactor, cooldownMaxMs);
        domains := domains[domain := state];
        return;
      }
      if 200 <= status < 300 {
        if state.cooldownMultiplier <= 1.0 {
          domains := domains[domain := state.(cooldownMultiplier := 1.0, successStreak := 0)];
          return;
        }
        state := state.(successStreak := state.successStreak + 1);
        if state.successStreak >= DECAY_SUCCESS_STREAK {
          var decayed := state.cooldownMultiplier / cooldownFactor;
          state := state.(successStreak := 0, cooldownMultiplier := if decayed <= 1.0 then 1.0 else decayed);
        }
      }
      domains := domains[domain := state];
    }

    method StartRequest(domain: string, now: real)
      requires domain in domains
      modifies this`domains
      ensures domains == old(domains)[domain := Start(old(domains)[domain], now)]
    {
      var state := domains[domain];
      domains := domains[domain := state.(activeCount := state.activeCount + 1, lastRequestTime := now)];
    }

    /** The first stretch of `acquire` for one caller. */
    method Acquire(domain: string, isPrivate: bool, ticket: nat, now: real, u: real) returns (outcome: Outcome)
      modifies this`domains
      ensures var d := old(StateFor(domain, isPrivate));
        var remaining := Remaining(d, u, Jitter(), FloorOf(RobotsDelay(domain)), now);
        && domains == old(domains)[domain := OnAcquire(d, ticket, remaining, now).0]
        && outcome == OnAcquire(d, ticket, remaining, now).1
    {
      var state := GetOrCreateState(domain, isPrivate);
      if state.activeCount < state.maxConcurrency {
        var wait := NextWaitMs(domain, u);
        var elapsed := now - state.lastRequestTime;
        var remaining := wait - elapsed;
        if remaining > 0.0 && state.lastRequestTime > 0.0 {
          return Sleeps(remaining);
        }
        StartRequest(domain, now);
        return Started;
      }
      domains := domains[domain := state.(queue := state.queue + [ticket])];
      outcome := Queued;
    }

    /** The release function a caller gets: frees the slot and processes the queue. */
    method Release(domain: string, now: real, u: real) returns (next: Option<(nat, bool)>)
      requires domain in domains
      modifies this`domains
      ensures var d := old(domains)[domain];
        var remaining := Remaining(d, u, Jitter(), FloorOf(RobotsDelay(domain)), now);
        && domains == old(domains)[domain := OnRelease(d, remaining, now).0]
        && next == OnRelease(d, remaining, now).1
    {
      hide ComputeWait;
      var state := domains[domain];
      SameWait(state, state.(activeCount := state.activeCount - 1, queue := if state.queue == [] then [] else state.queue[1..]),
        u, Jitter(), FloorOf(RobotsDelay(domain)));
      state := state.(activeCount := state.activeCount - 1);
      domains := domains[domain := state];
      if |state.queue| == 0 || state.activeCount >= state.maxConcurrency {
        return None;
      }
      var head := state.queue[0];
      domains := domains[domain := state.(queue := state.queue[1..])];
      var wait := NextWaitMs(domain, u);
      var elapsed := now - state.lastRequestTime;
      var remaining := wait - elapsed;
      if remaining <= 0.0 {
        StartRequest(domain, now);
        next := Some((head, true));
      } else {
        next := Some((head, false));
      }
    }
  }

  // ---------------------------------------------------------------- every interleaving of one domain

  /** What is fixed for a domain: its limit and configured delay, the robots delay known when it is first
      used, and the limiter's options. */
  datatype Setup = Setup(limit: int, configDelay: real, robots: Option<real>, jitter: real, factor: real, cooldownMaxMs: real)

  ghost predicate Usable(c: Setup) {
    c.limit >= 1 && 0.0 <= c.jitter <= 1.0 && c.factor > 0.0
  }

  /** One domain with its callers: asleep before their start, taken off the queue with a timer running,
      holding a slot, or done; when a sleep or timer is due; and the order in which tickets were queued and
      taken off. */
  datatype System = System(c: Setup, d: Domain, robots: Option<real>, now: real,
                           sleeping: set<nat>, scheduled: set<nat>, holding: set<nat>, done: set<nat>,
                           due: map<nat, real>, enqueued: seq<nat>, dequeued: seq<nat>)

  /** u is the random draw, now the clock. */
  datatype Step =
    | AcquireStep(ticket: nat, u: real, now: real)
    | WakeStep(ticket: nat, now: real)     // the sleep in acquire is over
    | FireStep(ticket: nat, now: real)     // the timer of a dequeued caller fired
    | ReleaseStep(ticket: nat, u: real, now: real)
    | RespondStep(status: int)
    | RobotsStep(delay: real)

  predicate Known(sys: System, t: nat) {
    t in sys.d.queue || t in sys.sleeping || t in sys.scheduled || t in sys.holding || t in sys.done
  }

  predicate OnClock(sys: System, now: real) { sys.now <= now && 0.0 < now }

  predicate IsDue(sys: System, t: nat, now: real) { t in sys.due && sys.due[t] <= now }

  /** The clock never runs back, and no sleep or timer ends before it is due. */
  predicate Enabled(sys: System, step: Step) {
    match step
    case AcquireStep(t, u, now) => !Known(sys, t) && OnClock(sys, now) && 0.0 <= u <= 1.0
    case WakeStep(t, now) => t in sys.sleeping && OnClock(sys, now) && IsDue(sys, t, now)
    case FireStep(t, now) => t in sys.scheduled && OnClock(sys, now) && IsDue(sys, t, now)
    case ReleaseStep(t, u, now) => t in sys.holding && OnClock(sys, now) && 0.0 <= u <= 1.0
    case RespondStep(_) => sys.c.factor > 0.0
    case RobotsStep(_) => true
  }

  predicate Computes(step: Step) { step.AcquireStep? || step.ReleaseStep? }

  /** The remaining wait an acquire or a release computes. */
  function WaitLeft(sys: System, step: Step): real
    requires Computes(step)
  {
    var d := if step.AcquireStep? then RaiseDelay(sys.d, sys.robots) else sys.d;
    Remaining(d, step.u, sys.c.jitter, FloorOf(sys.robots), step.now)
  }

  function DoAcquire(sys: System, t: nat, remaining: real, now: real): System {
    var (e, outcome) := OnAcquire(RaiseDelay(sys.d, sys.robots), t, remaining, now);
    match outcome
    case Started => sys.(d := e, now := now, holding := sys.holding + {t})
    case Sleeps(_) => sys.(d := e, now := now, sleeping := sys.sleeping + {t}, due := sys.due[t := now + remaining])
    case Queued => sys.(d := e, now := now, enqueued := sys.enqueued + [t])
  }

  function DoRelease(sys: System, t: nat, remaining: real, now: real): System {
    var (e, next) := OnRelease(sys.d, remaining, now);
    var freed := sys.(d := e, now := now, holding := sys.holding - {t}, done := sys.done + {t});
    match next
    case None => freed
    case Some((h, true)) => freed.(holding := freed.holding + {h}, dequeued := sys.dequeued + [h])
    case Some((h, false)) =>
      freed.(scheduled := sys.scheduled + {h}, due := sys.due[h := now + remaining], dequeued := sys.dequeued + [h])
  }

  function Do(sys: System, step: Step): System
    requires Enabled(sys, step)
  {
    match step
    case AcquireStep(t, _, now) => DoAcquire(sys, t, WaitLeft(sys, step), now)
    case WakeStep(t, now) =>
      sys.(d := Start(sys.d, now), now := now, sleeping := sys.sleeping - {t}, holding := sys.holding + {t})
    case FireStep(t, now) =>
      sys.(d := Start(sys.d, now), now := now, scheduled := sys.scheduled - {t}, holding := sys.holding + {t})
    case ReleaseStep(t, _, now) => DoRelease(sys, t, WaitLeft(sys, step), now)
    case RespondStep(status) => sys.(d := Respond(sys.d, status, sys.c.factor, sys.c.cooldownMaxMs))
    case RobotsStep(delay) => sys.(robots := Some(delay))
  }

  function Initial(c: Setup): System {
    System(c, FreshDomain(c.limit, c.configDelay, c.robots), c.robots, 0.0, {}, {}, {}, {}, map[], [], [])
  }

  function Run(start: System, steps: seq<Step>): Option<System> {
    if steps == [] then Some(start)
    else
      var before :- Run(start, steps[..|steps| - 1]);
      if Enabled(before, steps[|steps| - 1]) then Some(Do(before, steps[|steps| - 1])) else None
  }

  ghost predicate NoRepeats(s: seq<nat>) {
    forall i, j :: 0 <= i < j < |s| ==> s[i] != s[j]
  }

  /** Every caller is in exactly one place. */
  ghost predicate Apart(sys: System) {
    && NoRepeats(sys.d.queue)
    && sys.sleeping !! sys.scheduled !! sys.holding !! sys.done
    && (forall t :: t in sys.d.queue ==> t !in sys.sleeping && t !in sys.scheduled && t !in sys.holding && t !in sys.done)
  }

  /** A waiting queue is served by a held slot or a scheduled start. */
  ghost predicate Served(sys: System) {
    sys.d.queue != [] ==> sys.holding != {} || sys.scheduled != {}
  }

  ghost predicate Counted(sys: System) {
    sys.d.activeCount == |sys.holding| && sys.d.maxConcurrency == sys.c.limit
  }

  ghost predicate InOrder(sys: System) {
    sys.enqueued == sys.dequeued + sys.d.queue
  }

  ghost predicate Timed(sys: System) {
    sys.d.lastRequestTime <= sys.now && sys.sleeping + sys.scheduled <= sys.due.Keys
  }

  ghost predicate Inv(sys: System) {
    sys.c.limit >= 1 && Counted(sys) && Served(sys) && InOrder(sys) && Apart(sys) && Timed(sys)
  }

  lemma ApartKept(sys: System, step: Step)
    requires Enabled(sys, step) && Apart(sys)
    ensures Apart(Do(sys, step))
  {
    hide Remaining, Respond;
    if step.RespondStep? {
      RespondKeepsSlots(sys.d, step.status, sys.c.factor, sys.c.cooldownMaxMs);
    } else if step.ReleaseStep? {
      ReleaseKeepsApart(sys, step.ticket, WaitLeft(sys, step), step.now);
    }
  }

  lemma ReleaseKeepsApart(sys: System, t: nat, remaining: real, now: real)
    requires Apart(sys) && t in sys.holding
    ensures Apart(DoRelease(sys, t, remaining, now))
  {
    if sys.d.queue != [] {
      assert sys.d.queue[0] in sys.d.queue;
      assert sys.d.queue == [sys.d.queue[0]] + sys.d.queue[1..];
    }
  }

  /** A response touches the multiplier and the streak alone. */
  lemma RespondKeepsSlots(d: Domain, status: int, factor: real, cooldownMaxMs: real)
    requires factor > 0.0
    ensures var e := Respond(d, status, factor, cooldownMaxMs);
      e == d.(cooldownMultiplier := e.cooldownMultiplier, successStreak := e.successStreak)
  {
  }

  /** Where a caller is, it is nowhere else. */
  lemma Elsewhere(sys: System, t: nat)
    requires Apart(sys)
    ensures t in sys.sleeping || t in sys.scheduled ==> t !in sys.holding
    ensures sys.d.queue != [] && t == sys.d.queue[0] ==> t !in sys.holding && t !in sys.scheduled
  {
    assert sys.d.queue != [] ==> sys.d.queue[0] in sys.d.queue;
  }

  /** The counter follows the set of slots held. */
  lemma CountKept(sys: System, step: Step)
    requires Enabled(sys, step) && Apart(sys) && Counted(sys)
    ensures Counted(Do(sys, step))
  {
    hide Remaining, Respond, Apart;
    match step {
      case AcquireStep(t, _, _) => OneMore(sys.holding, t);
      case WakeStep(t, _) =>
        Elsewhere(sys, t);
        OneMore(sys.holding, t);
      case FireStep(t, _) =>
        Elsewhere(sys, t);
        OneMore(sys.holding, t);
      case ReleaseStep(t, _, now) => ReleaseCounts(sys, t, WaitLeft(sys, step), now);
      case RespondStep(status) => RespondKeepsSlots(sys.d, status, sys.c.factor, sys.c.cooldownMaxMs);
      case RobotsStep(_) =>
    }
  }

  lemma ReleaseCounts(sys: System, t: nat, remaining: real, now: real)
    requires Apart(sys) && Counted(sys) && t in sys.holding
    ensures Counted(DoRelease(sys, t, remaining, now))
  {
    hide Apart;
    OneLess(sys.holding, t);
    if sys.d.queue != [] {
      Elsewhere(sys, sys.d.queue[0]);
      OneMore(sys.holding - {t}, sys.d.queue[0]);
    }
  }

  lemma OneMore(s: set<nat>, t: nat)
    requires t !in s
    ensures |s + {t}| == |s| + 1
  {
  }

  lemma OneLess(s: set<nat>, t: nat)
    requires t in s
    ensures |s - {t}| == |s| - 1
  {
  }

  /** Leaving the queue is always from its head. */
  lemma OrderKept(sys: System, step: Step)
    requires Enabled(sys, step) && InOrder(sys)
    ensures InOrder(Do(sys, step))
  {
    hide Remaining, Respond;
    if step.RespondStep? {
      RespondKeepsSlots(sys.d, step.status, sys.c.factor, sys.c.cooldownMaxMs);
    } else if step.ReleaseStep? && sys.d.queue != [] {
      assert sys.d.queue == [sys.d.queue[0]] + sys.d.queue[1..];
    }
  }

  lemma TimeKept(sys: System, step: Step)
    requires Enabled(sys, step) && Timed(sys)
    ensures Timed(Do(sys, step))
  {
    hide Remaining, Respond;
    if step.RespondStep? {
      RespondKeepsSlots(sys.d, step.status, sys.c.factor, sys.c.cooldownMaxMs);
    }
  }

  /** The queue is only left alone while a slot is held or a start is scheduled. */
  lemma SomebodyServes(sys: System, step: Step)
    requires Enabled(sys, step) && sys.c.limit >= 1 && Counted(sys) && Served(sys)
    ensures Served(Do(sys, step))
  {
    hide Remaining, Respond;
    var next := Do(sys, step);
    match step {
      case WakeStep(t, _) => assert t in next.holding;
      case FireStep(t, _) => assert t in next.holding;
      case AcquireStep(t, _, _) =>
      case ReleaseStep(t, _, now) =>
        var (e, served) := OnRelease(sys.d, WaitLeft(sys, step), now);
        if served.Some? {
          assert served.value.0 in next.holding || served.value.0 in next.scheduled;
        } else if sys.d.queue != [] {
          OneLess(sys.holding, t);
        }
      case RespondStep(status) => RespondKeepsSlots(sys.d, status, sys.c.factor, sys.c.cooldownMaxMs);
      case RobotsStep(_) =>
    }
  }

  lemma SetupKept(sys: System, step: Step)
    requires Enabled(sys, step)
    ensures Do(sys, step).c == sys.c
  {
  }

  lemma InvKept(sys: System, step: Step)
    requires Enabled(sys, step) && Inv(sys)
    ensures Inv(Do(sys, step)) && Do(sys, step).c == sys.c
  {
    hide Apart, Counted, InOrder, Timed, Served, Do;
    ApartKept(sys, step);
    CountKept(sys, step);
    OrderKept(sys, step);
    TimeKept(sys, step);
    SomebodyServes(sys, step);
    SetupKept(sys, step);
  }

  lemma {:induction false} InvHolds(c: Setup, steps: seq<Step>)
    requires c.limit >= 1 && Run(Initial(c), steps).Some?
    ensures Inv(Run(Initial(c), steps).value) && Run(Initial(c), steps).value.c == c
  {
    hide Inv, Do, Enabled, Initial;
    if steps == [] {
      InvAtStart(c);
    } else {
      InvHolds(c, steps[..|steps| - 1]);
      InvKept(Run(Initial(c), steps[..|steps| - 1]).value, steps[|steps| - 1]);
    }
  }

  lemma InvAtStart(c: Setup)
    requires c.limit >= 1
    ensures Inv(Initial(c)) && Initial(c).c == c
  {
  }

  /** In every interleaving: nobody waits in the queue unless some slot is held or some start is already
      scheduled, so somebody will serve the queue; callers leave the queue in the order they joined it;
      the counter is the number of slots held; and no caller is in two places. */
  lemma NobodyStranded(c: Setup, steps: seq<Step>)
    requires c.limit >= 1 && Run(Initial(c), steps).Some?
    ensures var sys := Run(Initial(c), steps).value;
      && (sys.d.queue != [] ==> sys.holding != {} || sys.scheduled != {})
      && sys.enqueued == sys.dequeued + sys.d.queue
      && sys.d.activeCount == |sys.holding|
      && Apart(sys)
  {
    hide Run, Initial, Apart;
    InvHolds(c, steps);
  }

  /** Work left without new callers: what a queued, waiting or holding caller still has to go through. */
  function Work(sys: System): nat {
    3 * |sys.d.queue| + 2 * |sys.sleeping| + 2 * |sys.scheduled| + |sys.holding|
  }

  predicate Serving(step: Step) { step.WakeStep? || step.FireStep? || step.ReleaseStep? }

  /** A wake, a fired timer and a release lower the work; only a new call adds any. */
  lemma StepsServe(sys: System, step: Step)
    requires Inv(sys) && Enabled(sys, step) && !step.AcquireStep?
    ensures if Serving(step) then Work(Do(sys, step)) < Work(sys) else Work(Do(sys, step)) == Work(sys)
  {
    hide Remaining, Respond, Apart, InOrder;
    match step {
      case WakeStep(t, _) =>
        OneLess(sys.sleeping, t);
        Elsewhere(sys, t);
        OneMore(sys.holding, t);
      case FireStep(t, _) =>
        OneLess(sys.scheduled, t);
        Elsewhere(sys, t);
        OneMore(sys.holding, t);
      case ReleaseStep(t, _, now) => ReleaseServes(sys, t, WaitLeft(sys, step), now);
      case RespondStep(status) => RespondKeepsSlots(sys.d, status, sys.c.factor, sys.c.cooldownMaxMs);
      case RobotsStep(_) =>
    }
  }

  lemma ReleaseServes(sys: System, t: nat, remaining: real, now: real)
    requires Apart(sys) && t in sys.holding
    ensures Work(DoRelease(sys, t, remaining, now)) < Work(sys)
  {
    hide Apart;
    OneLess(sys.holding, t);
    if sys.d.queue != [] {
      Elsewhere(sys, sys.d.queue[0]);
      OneMore(sys.holding - {t}, sys.d.queue[0]);
      OneMore(sys.scheduled, sys.d.queue[0]);
    }
  }

  /** And while anyone is left such a step is possible: without new calls everyone is served. */
  lemma ServingGoesOn(sys: System)
    requires Inv(sys) && Work(sys) > 0
    ensures exists step: Step :: Serving(step) && Enabled(sys, step)
  {
    hide Apart, InOrder, Counted;
    var later := Max(sys.now, 1.0);
    if t :| t in sys.holding {
      assert Enabled(sys, ReleaseStep(t, 0.0, later));
    } else if t :| t in sys.scheduled {
      assert Enabled(sys, FireStep(t, Max(later, sys.due[t])));
    } else {
      assert sys.d.queue == [];
      assert sys.sleeping != {};
      var t :| t in sys.sleeping;
      assert Enabled(sys, WakeStep(t, Max(later, sys.due[t])));
    }
  }

  // ---------------------------------------------------------------- the concurrency limit

  /** Nobody sleeps, no start is delayed, the limit holds, and a non-empty queue means it is fully used. */
  ghost predicate Tight(sys: System) {
    && sys.sleeping == {} && sys.scheduled == {}
    && sys.d.activeCount <= sys.d.maxConcurrency
    && (sys.d.queue != [] ==> sys.d.activeCount == sys.d.maxConcurrency)
  }

  lemma TightKept(sys: System, step: Step)
    requires Enabled(sys, step) && Tight(sys)
    requires Computes(step) ==> WaitLeft(sys, step) <= 0.0
    ensures Tight(Do(sys, step))
  {
    hide Remaining, Respond, ComputeWait;
    if step.RespondStep? {
      RespondKeepsSlots(sys.d, step.status, sys.c.factor, sys.c.cooldownMaxMs);
    }
  }

  /** No wait computed along the run has anything left: no acquire sleeps and no dequeued start is delayed. */
  ghost predicate NeverWaits(c: Setup, steps: seq<Step>) {
    forall n :: 0 <= n < |steps| && Computes(steps[n]) && Run(Initial(c), steps[..n]).Some? ==>
      WaitLeft(Run(Initial(c), steps[..n]).value, steps[n]) <= 0.0
  }

  lemma NeverWaitsBefore(c: Setup, steps: seq<Step>, last: nat)
    requires NeverWaits(c, steps) && last < |steps|
    ensures NeverWaits(c, steps[..last])
  {
    hide Run, WaitLeft, Initial;
    forall n | 0 <= n < last && Computes(steps[..last][n]) && Run(Initial(c), steps[..last][..n]).Some?
      ensures WaitLeft(Run(Initial(c), steps[..last][..n]).value, steps[..last][n]) <= 0.0
    {
      assert steps[..last][..n] == steps[..n] && steps[..last][n] == steps[n];
    }
  }

  /** As long as no computed wait is positive the limit holds, and a non-empty queue means it is fully used. */
  lemma {:induction false} LimitHoldsWithoutWaits(c: Setup, steps: seq<Step>)
    requires c.limit >= 1 && Run(Initial(c), steps).Some? && NeverWaits(c, steps)
    ensures Tight(Run(Initial(c), steps).value)
  {
    hide Tight, Do, Enabled, WaitLeft;
    if steps == [] {
      TightAtStart(c);
    } else {
      var last := |steps| - 1;
      NeverWaitsBefore(c, steps, last);
      LimitHoldsWithoutWaits(c, steps[..last]);
      assert Computes(steps[last]) ==> WaitLeft(Run(Initial(c), steps[..last]).value, steps[last]) <= 0.0;
      TightKept(Run(Initial(c), steps[..last]).value, steps[last]);
    }
  }

  lemma TightAtStart(c: Setup)
    requires c.limit >= 1
    ensures Tight(Initial(c))
  {
  }

  /** No delay is in force, configured or from robots. */
  ghost predicate NoDelay(sys: System) {
    sys.d.delayMs <= 0.0 && sys.d.cooldownMultiplier > 0.0 && FloorOf(sys.robots) <= 0.0
  }

  /** Without a delay every computed wait is zero, and the clock has not run back since the last request. */
  lemma ZeroDelayMeansNoWait(sys: System, step: Step)
    requires Enabled(sys, step) && NoDelay(sys) && Timed(sys) && 0.0 <= sys.c.jitter <= 1.0
    requires Computes(step)
    ensures WaitLeft(sys, step) <= 0.0
  {
    var d := if step.AcquireStep? then RaiseDelay(sys.d, sys.robots) else sys.d;
    assert d.delayMs <= 0.0 && d.cooldownMultiplier > 0.0 by {
      assert sys.robots.Some? ==> sys.robots.value <= 0.0;
    }
    NoWaitAtZero(d, step.u, sys.c.jitter, FloorOf(sys.robots));
  }

  lemma NoWaitAtZero(d: Domain, u: real, jitter: real, floor: real)
    requires d.delayMs <= 0.0 && d.cooldownMultiplier > 0.0 && floor <= 0.0
    requires 0.0 <= u <= 1.0 && 0.0 <= jitter <= 1.0
    ensures ComputeWait(d, u, jitter, floor) == 0.0
  {
    var base, offset := d.delayMs * d.cooldownMultiplier, (u * 2.0 - 1.0) * jitter;
    ProductMonotone(d.delayMs, 0.0, d.cooldownMultiplier);
    ProductMonotone(-1.0, u * 2.0 - 1.0, jitter);
    ProductMonotone(base, 0.0, 1.0 + offset);
  }

  /** The robots delays set during a run. */
  ghost predicate RobotsAmong(steps: seq<Step>, delays: set<real>) {
    forall k :: 0 <= k < |steps| && steps[k].RobotsStep? ==> steps[k].delay in delays
  }

  lemma NoDelayKept(sys: System, step: Step)
    requires Enabled(sys, step) && NoDelay(sys) && sys.c.factor > 0.0
    requires step.RobotsStep? ==> step.delay <= 0.0
    ensures NoDelay(Do(sys, step))
  {
    hide Remaining;
    if step.RespondStep? {
      RespondKeepsPositive(sys.d, step.status, sys.c.factor, sys.c.cooldownMaxMs);
    }
  }

  lemma RespondKeepsPositive(d: Domain, status: int, factor: real, cooldownMaxMs: real)
    requires factor > 0.0 && d.cooldownMultiplier > 0.0
    ensures Respond(d, status, factor, cooldownMaxMs).cooldownMultiplier > 0.0
    ensures Respond(d, status, factor, cooldownMaxMs).delayMs == d.delayMs
  {
    var m := d.cooldownMultiplier;
    NegativeTimes(-m, factor);
    assert (-m) * factor == -(m * factor);
  }

  /** The configured delay and every robots delay are zero (or less). */
  ghost predicate AllDelaysZero(c: Setup, delays: set<real>) {
    c.configDelay <= 0.0 && FloorOf(c.robots) <= 0.0 && forall r :: r in delays ==> r <= 0.0
  }

  /** With no delay configured and none from robots no computed wait is ever positive. */
  lemma {:induction false} NoDelayNeverWaits(c: Setup, delays: set<real>, steps: seq<Step>)
    requires Usable(c) && AllDelaysZero(c, delays)
    requires Run(Initial(c), steps).Some? && RobotsAmong(steps, delays)
    ensures NeverWaits(c, steps) && NoDelay(Run(Initial(c), steps).value)
  {
    hide NoDelay, Do, Enabled, Inv, WaitLeft;
    if steps == [] {
      NoDelayAtStart(c);
    } else {
      var last := |steps| - 1;
      var front, step := steps[..last], steps[last];
      assert RobotsAmong(front, delays) by {
        assert forall k :: 0 <= k < last ==> front[k] == steps[k];
      }
      NoDelayNeverWaits(c, delays, front);
      InvHolds(c, front);
      var sys := Run(Initial(c), front).value;
      InvIsTimed(sys);
      if Computes(step) {
        ZeroDelayMeansNoWait(sys, step);
      }
      NoDelayKept(sys, step);
      NeverWaitsMore(c, steps);
    }
  }

  lemma NeverWaitsMore(c: Setup, steps: seq<Step>)
    requires steps != [] && var last := |steps| - 1;
      && NeverWaits(c, steps[..last])
      && (Computes(steps[last]) && Run(Initial(c), steps[..last]).Some? ==>
        WaitLeft(Run(Initial(c), steps[..last]).value, steps[last]) <= 0.0)
    ensures NeverWaits(c, steps)
  {
    hide Run, WaitLeft, Initial;
    var last := |steps| - 1;
    forall n | 0 <= n < |steps| && Computes(steps[n]) && Run(Initial(c), steps[..n]).Some?
      ensures WaitLeft(Run(Initial(c), steps[..n]).value, steps[n]) <= 0.0
    {
      if n < last {
        assert steps[..last][..n] == steps[..n] && steps[..last][n] == steps[n];
      }
    }
  }

  lemma InvIsTimed(sys: System)
    requires Inv(sys)
    ensures Timed(sys)
  {
  }

  lemma NoDelayAtStart(c: Setup)
    requires c.configDelay <= 0.0 && FloorOf(c.robots) <= 0.0
    ensures NoDelay(Initial(c))
  {
  }

  lemma RunOneMore(start: System, steps: seq<Step>, step: Step)
    requires Run(start, steps).Some? && Enabled(Run(start, steps).value, step)
    ensures Run(start, steps + [step]) == Some(Do(Run(start, steps).value, step))
  {
    assert (steps + [step])[..|steps|] == steps;
  }

  function Upto(lo: nat, hi: nat): (s: set<nat>)
    ensures forall t: nat :: t in s <==> lo <= t <= hi
  {
    if hi < lo then {} else if hi == 0 then {0} else Upto(lo, hi - 1) + {hi}
  }

  function DueAt(k: nat, time: real): (due: map<nat, real>)
    ensures forall t :: 1 <= t <= k ==> t in due && due[t] == time
  {
    if k == 0 then map[] else DueAt(k - 1, time)[k := time]
  }

  /** The domain after one request has come and gone at time 1. */
  function Visited(c: Setup, robots: Option<real>): Domain {
    RaiseDelay(FreshDomain(c.limit, c.configDelay, c.robots), robots).(lastRequestTime := 1.0)
  }

  /** Of k callers that passed the limit test at time 1, the first j have woken at time 1 + wait. */
  function SomeAwake(c: Setup, robots: Option<real>, k: nat, j: nat, wait: real): System {
    var d := Visited(c, robots);
    if j == 0 then
      System(c, d, robots, 1.0, Upto(1, k), {}, {}, {0}, DueAt(k, 1.0 + wait), [], [])
    else
      System(c, d.(activeCount := j, lastRequestTime := 1.0 + wait), robots, 1.0 + wait,
             Upto(j + 1, k), {}, Upto(1, j), {0}, DueAt(k, 1.0 + wait), [], [])
  }

  /** The robots delay is in force, set during the run if it was not known before. */
  function SetRobots(c: Setup, robots: Option<real>): seq<Step> {
    if robots.Some? && robots != c.robots then [RobotsStep(robots.value)] else []
  }

  /** The wait at the middle draw, which jitter leaves alone. */
  function MiddleWait(c: Setup, robots: Option<real>): real {
    ComputeWait(Visited(c, robots), 0.5, c.jitter, FloorOf(robots))
  }

  lemma MiddleWaitIsPositive(c: Setup, robots: Option<real>)
    requires Visited(c, robots).delayMs > 0.0
    ensures MiddleWait(c, robots) > 0.0
  {
    hide ComputeWait;
    var d := Visited(c, robots);
    WaitAtLeast(d, 0.5, c.jitter, FloorOf(robots));
    Unscaled(d.delayMs * d.cooldownMultiplier, (0.5 * 2.0 - 1.0) * c.jitter);
    Unscaled(d.delayMs, 0.0);
  }

  lemma WaitAtLeast(d: Domain, u: real, jitter: real, floor: real)
    ensures ComputeWait(d, u, jitter, floor) >= d.delayMs * d.cooldownMultiplier * (1.0 + (u * 2.0 - 1.0) * jitter)
  {
  }

  lemma Unscaled(base: real, offset: real)
    requires offset == 0.0
    ensures base * (1.0 + offset) == base && base * 1.0 == base
  {
  }

  lemma OneVisit(c: Setup, robots: Option<real>) returns (steps: seq<Step>)
    requires c.limit >= 1 && (robots.Some? || robots == c.robots)
    ensures Run(Initial(c), steps) == Some(SomeAwake(c, robots, 0, 0, MiddleWait(c, robots)))
    ensures forall k :: 0 <= k < |steps| && steps[k].RobotsStep? ==> robots.Some? && robots != c.robots && steps[k].delay == robots.value
  {
    hide ComputeWait;
    steps := SetRobots(c, robots);
    var start := Initial(c);
    var known := start.(robots := robots);
    assert steps == [RobotsStep(FloorOf(robots))] || known == start;
    assert [RobotsStep(FloorOf(robots))][..0] == [];
    assert Run(start, steps) == Some(known);
    var first, second := AcquireStep(0, 0.5, 1.0), ReleaseStep(0, 0.5, 1.0);
    RunOneMore(start, steps, first);
    var d := Visited(c, robots);
    var started := System(c, d.(activeCount := 1), robots, 1.0, {}, {}, {0}, {}, map[], [], []);
    assert {} + {0} == {0};
    assert Do(known, first) == started;
    RunOneMore(start, steps + [first], second);
    assert {0} - {0} == {} == Upto(1, 0) && {} + {0} == {0};
    assert Do(started, second) == System(c, d, robots, 1.0, {}, {}, {}, {0}, map[], [], []);
    steps := steps + [first] + [second];
  }

  /** One more caller passes the limit test and goes to sleep; nothing is reserved for it. */
  lemma OneMoreSleeps(c: Setup, robots: Option<real>, k: nat, wait: real)
    requires c.limit >= 1 && wait == MiddleWait(c, robots) && wait > 0.0
    ensures var step := AcquireStep(k + 1, 0.5, 1.0);
      Enabled(SomeAwake(c, robots, k, 0, wait), step)
      && Do(SomeAwake(c, robots, k, 0, wait), step) == SomeAwake(c, robots, k + 1, 0, wait)
  {
    hide ComputeWait;
    var sys := SomeAwake(c, robots, k, 0, wait);
    assert RaiseDelay(sys.d, robots) == sys.d;
    assert WaitLeft(sys, AcquireStep(k + 1, 0.5, 1.0)) == wait;
    assert Upto(1, k) + {k + 1} == Upto(1, k + 1);
  }

  /** One more sleeper starts; nothing tests the limit again. */
  lemma OneMoreWakes(c: Setup, robots: Option<real>, k: nat, j: nat, wait: real)
    requires j < k && wait > 0.0
    ensures var step := WakeStep(j + 1, 1.0 + wait);
      Enabled(SomeAwake(c, robots, k, j, wait), step)
      && Do(SomeAwake(c, robots, k, j, wait), step) == SomeAwake(c, robots, k, j + 1, wait)
  {
    assert Upto(j + 1, k) - {j + 1} == Upto(j + 2, k);
    assert Upto(1, j) + {j + 1} == Upto(1, j + 1);
    assert Upto(1, 0) == {};
  }

  lemma {:induction false} AllAsleep(c: Setup, robots: Option<real>, k: nat) returns (steps: seq<Step>)
    requires c.limit >= 1 && (robots.Some? || robots == c.robots) && MiddleWait(c, robots) > 0.0
    ensures Run(Initial(c), steps) == Some(SomeAwake(c, robots, k, 0, MiddleWait(c, robots)))
    ensures forall i :: 0 <= i < |steps| && steps[i].RobotsStep? ==> robots.Some? && robots != c.robots && steps[i].delay == robots.value
  {
    hide SomeAwake, MiddleWait, Enabled, Do, Initial;
    if k == 0 {
      steps := OneVisit(c, robots);
    } else {
      steps := AllAsleep(c, robots, k - 1);
      OneMoreSleeps(c, robots, k - 1, MiddleWait(c, robots));
      RunOneMore(Initial(c), steps, AcquireStep(k, 0.5, 1.0));
      steps := steps + [AcquireStep(k, 0.5, 1.0)];
    }
  }

  lemma {:induction false} AwakeRun(c: Setup, robots: Option<real>, k: nat, j: nat) returns (steps: seq<Step>)
    requires c.limit >= 1 && (robots.Some? || robots == c.robots) && MiddleWait(c, robots) > 0.0 && j <= k
    ensures Run(Initial(c), steps) == Some(SomeAwake(c, robots, k, j, MiddleWait(c, robots)))
    ensures forall i :: 0 <= i < |steps| && steps[i].RobotsStep? ==> robots.Some? && robots != c.robots && steps[i].delay == robots.value
    decreases j
  {
    hide SomeAwake, MiddleWait, Enabled, Do, Initial;
    if j == 0 {
      steps := AllAsleep(c, robots, k);
    } else {
      var wait := MiddleWait(c, robots);
      steps := AwakeRun(c, robots, k, j - 1);
      OneMoreWakes(c, robots, k, j - 1, wait);
      RunOneMore(Initial(c), steps, WakeStep(j, 1.0 + wait));
      steps := steps + [WakeStep(j, 1.0 + wait)];
    }
  }

  /** Every run, whatever draws, clock, responses and robots delays from the given ones, keeps the limit. */
  ghost predicate LimitKept(c: Setup, delays: set<real>) {
    forall steps: seq<Step> :: Run(Initial(c), steps).Some? && RobotsAmong(steps, delays) ==>
      Run(Initial(c), steps).value.d.activeCount <= c.limit
  }

  /** A positive delay lets limit + 1 callers sleep past the limit test and start together. */
  lemma PositiveDelayBreaksLimit(c: Setup, robots: Option<real>, delays: set<real>)
    requires Usable(c) && (robots == c.robots || (robots.Some? && robots.value in delays))
    requires Visited(c, robots).delayMs > 0.0
    ensures !LimitKept(c, delays)
  {
    hide SomeAwake, Visited, MiddleWait, ComputeWait, Initial, Run;
    MiddleWaitIsPositive(c, robots);
    var n := c.limit + 1;
    var steps := AwakeRun(c, robots, n, n);
    assert RobotsAmong(steps, delays);
    AllAwakeCount(c, robots, n, MiddleWait(c, robots));
  }

  lemma AllAwakeCount(c: Setup, robots: Option<real>, n: nat, wait: real)
    ensures SomeAwake(c, robots, n, n, wait).d.activeCount == n
  {
  }

  /** The concurrency limit is kept in every run exactly when the configured delay and all robots delays
      are zero: acquire tests the limit before it sleeps and not again after. */
  lemma LimitKeptExactly(c: Setup, delays: set<real>)
    requires Usable(c)
    ensures LimitKept(c, delays) <==> AllDelaysZero(c, delays)
  {
    if AllDelaysZero(c, delays) {
      forall steps: seq<Step> | Run(Initial(c), steps).Some? && RobotsAmong(steps, delays)
        ensures Run(Initial(c), steps).value.d.activeCount <= c.limit
      {
        NoDelayNeverWaits(c, delays, steps);
        LimitHoldsWithoutWaits(c, steps);
        InvHolds(c, steps);
      }
    } else if c.configDelay > 0.0 || FloorOf(c.robots) > 0.0 {
      PositiveDelayBreaksLimit(c, c.robots, delays);
    } else {
      var r :| r in delays && r > 0.0;
      PositiveDelayBreaksLimit(c, Some(r), delays);
    }
  }
}
