/** How src/crawl/rate-limiter.ts spaces requests: nobody starts before the computed wait after the request before
    it is over, and how blocks and successes set that wait. */
module RequestSpacing {
  import opened Options
  import opened RateLimiter

  // ---------------------------------------------------------------- waits

  /** The wait that an acquire or a release computes in this state. */
  function WaitIn(sys: System, step: Step): real
    requires Computes(step)
  {
    var d := if step.AcquireStep? then RaiseDelay(sys.d, sys.robots) else sys.d;
    ComputeWait(d, step.u, sys.c.jitter, FloorOf(sys.robots))
  }

  /** When that wait is over, counted from the last request. */
  function ReadyAt(sys: System, step: Step): real
    requires Computes(step)
  {
    sys.d.lastRequestTime + WaitIn(sys, step)
  }

  lemma WaitReachesFloor(sys: System, step: Step)
    requires Computes(step)
    ensures WaitIn(sys, step) >= FloorOf(sys.robots) && WaitIn(sys, step) >= 0.0
  {
  }

  // ---------------------------------------------------------------- what an acquire and a release do

  predicate Starts(sys: System, step: Step, t: nat)
    requires Enabled(sys, step)
  {
    t !in sys.holding && t in Do(sys, step).holding
  }

  /** With a free slot a caller starts at once when there was no request yet or its wait is over; it sleeps until
      the wait is over otherwise; without a free slot it joins the queue. */
  lemma AcquireOutcome(sys: System, t: nat, u: real, now: real)
    requires Enabled(sys, AcquireStep(t, u, now))
    ensures var step := AcquireStep(t, u, now);
      var next, free := Do(sys, step), sys.d.activeCount < sys.d.maxConcurrency;
      var over := sys.d.lastRequestTime <= 0.0 || now >= ReadyAt(sys, step);
      && (Starts(sys, step, t) <==> free && over)
      && (t in next.sleeping <==> free && !over)
      && (t in next.sleeping ==> t in next.due && next.due[t] == ReadyAt(sys, step))
      && (next.d.queue == if free then sys.d.queue else sys.d.queue + [t])
      && next.scheduled == sys.scheduled && next.done == sys.done
      && next.d.lastRequestTime == (if free && over then now else sys.d.lastRequestTime)
  {
    hide ComputeWait, Respond;
  }

  /** A release frees the slot of its caller. The head of the queue leaves it when a slot is free then, and starts
      at once when its wait is over; otherwise its start is scheduled for when it is. */
  lemma ReleaseOutcome(sys: System, t: nat, u: real, now: real)
    requires Inv(sys) && Enabled(sys, ReleaseStep(t, u, now))
    ensures var step := ReleaseStep(t, u, now);
      var next, served := Do(sys, step), sys.d.queue != [] && sys.d.activeCount - 1 < sys.d.maxConcurrency;
      && t in next.done && t !in next.holding
      && (next.d.queue == if served then sys.d.queue[1..] else sys.d.queue)
      && (forall h :: Starts(sys, step, h) <==> served && h == sys.d.queue[0] && now >= ReadyAt(sys, step))
      && (forall h :: h in next.scheduled && h !in sys.scheduled <==> served && h == sys.d.queue[0] && now < ReadyAt(sys, step))
      && (served && now < ReadyAt(sys, step) ==>
            sys.d.queue[0] in next.due && next.due[sys.d.queue[0]] == ReadyAt(sys, step))
      && next.sleeping == sys.sleeping
      && next.d.lastRequestTime == (if served && now >= ReadyAt(sys, step) then now else sys.d.lastRequestTime)
  {
    hide ComputeWait, Respond, Apart;
    HeadIsNew(sys, t);
  }

  lemma HeadIsNew(sys: System, t: nat)
    requires Inv(sys) && t in sys.holding
    ensures sys.d.queue != [] ==>
      var h := sys.d.queue[0]; h !in sys.holding && h !in sys.scheduled && h !in sys.sleeping && h != t
  {
    hide Counted, InOrder, Served, Timed;
    assert sys.d.queue != [] ==> sys.d.queue[0] in sys.d.queue;
  }

  /** A sleeper that wakes and a timer that fires start their caller, and the request counts from then. */
  lemma TimerOutcome(sys: System, step: Step)
    requires Enabled(sys, step) && (step.WakeStep? || step.FireStep?)
    ensures var next := Do(sys, step);
      && step.ticket in next.holding && step.ticket !in next.sleeping - sys.scheduled
      && next.d.lastRequestTime == step.now && sys.due[step.ticket] <= step.now
      && next.d.queue == sys.d.queue
  {
    if step.WakeStep? {
      assert step.ticket !in sys.sleeping - {step.ticket};
    }
  }

  // ---------------------------------------------------------------- spacing along a run

  lemma {:induction false} PrefixRuns(start: System, steps: seq<Step>, n: nat)
    requires Run(start, steps).Some? && n <= |steps|
    ensures Run(start, steps[..n]).Some?
    decreases |steps|
  {
    hide Do, Enabled;
    if n < |steps| {
      var front := steps[..|steps| - 1];
      PrefixRuns(start, front, n);
      assert front[..n] == steps[..n];
    } else {
      assert steps[..n] == steps;
    }
  }

  /** The state before step n. */
  ghost function At(c: Setup, steps: seq<Step>, n: nat): System
    requires Run(Initial(c), steps).Some? && n <= |steps|
  {
    PrefixRuns(Initial(c), steps, n);
    Run(Initial(c), steps[..n]).value
  }

  lemma NextState(c: Setup, steps: seq<Step>, n: nat)
    requires c.limit >= 1 && Run(Initial(c), steps).Some? && n < |steps|
    ensures Inv(At(c, steps, n)) && Enabled(At(c, steps, n), steps[n])
    ensures At(c, steps, n + 1) == Do(At(c, steps, n), steps[n])
  {
    hide Do, Enabled, Inv, Initial;
    PrefixRuns(Initial(c), steps, n + 1);
    PrefixRuns(Initial(c), steps, n);
    assert steps[..n + 1][..n] == steps[..n];
    InvHolds(c, steps[..n]);
  }

  /** In every run, whoever starts in an acquire or a release step after an earlier request does so no earlier than
      the computed wait after that request, hence no earlier than the robots delay after it. */
  lemma StartsAreSpaced(c: Setup, steps: seq<Step>, n: nat, t: nat)
    requires c.limit >= 1 && Run(Initial(c), steps).Some? && n < |steps| && Computes(steps[n])
    requires t !in At(c, steps, n).holding && t in At(c, steps, n + 1).holding
    requires At(c, steps, n).d.lastRequestTime > 0.0
    ensures var sys, step := At(c, steps, n), steps[n];
      step.now - sys.d.lastRequestTime >= WaitIn(sys, step) >= FloorOf(sys.robots)
  {
    NextState(c, steps, n);
    var sys, step := At(c, steps, n), steps[n];
    hide Inv, WaitIn;
    WaitReachesFloor(sys, step);
    match step {
      case AcquireStep(a, u, now) =>
        OnlyItsCaller(sys, a, u, now, t);
        AcquireOutcome(sys, a, u, now);
      case ReleaseStep(r, u, now) => ReleaseOutcome(sys, r, u, now);
    }
  }

  lemma OnlyItsCaller(sys: System, a: nat, u: real, now: real, t: nat)
    requires Enabled(sys, AcquireStep(a, u, now)) && Starts(sys, AcquireStep(a, u, now), t)
    ensures t == a
  {
  }

  predicate Waiting(sys: System, t: nat) { t in sys.sleeping || t in sys.scheduled }

  /** The caller has left the queue, and as long as it waits its timer stands at `due`. */
  predicate TimerAt(sys: System, t: nat, due: real) {
    && (Waiting(sys, t) || t in sys.holding || t in sys.done)
    && (Waiting(sys, t) ==> t in sys.due && sys.due[t] == due)
  }

  lemma TimerKept(sys: System, step: Step, t: nat, due: real)
    requires Inv(sys) && Enabled(sys, step) && TimerAt(sys, t, due)
    ensures TimerAt(Do(sys, step), t, due)
  {
    hide Counted, InOrder, Served, Timed, ComputeWait, Respond;
    if sys.d.queue != [] {
      assert sys.d.queue[0] in sys.d.queue;
    }
  }

  lemma {:induction false} TimerStands(c: Setup, steps: seq<Step>, i: nat, n: nat, t: nat, due: real)
    requires c.limit >= 1 && Run(Initial(c), steps).Some? && i <= n <= |steps| && TimerAt(At(c, steps, i), t, due)
    ensures TimerAt(At(c, steps, n), t, due)
  {
    hide TimerAt, Do, Enabled, Inv, Initial;
    if i < n {
      TimerStands(c, steps, i, n - 1, t, due);
      NextState(c, steps, n - 1);
      TimerKept(At(c, steps, n - 1), steps[n - 1], t, due);
    }
  }

  /** In every run, a caller put to sleep by an acquire, or off the queue on a timer by a release, starts no earlier
      than the wait computed there after the request that was then the last, hence no earlier than the robots
      delay after it. */
  lemma TimersAreSpaced(c: Setup, steps: seq<Step>, i: nat, n: nat, t: nat)
    requires c.limit >= 1 && Run(Initial(c), steps).Some? && i < n < |steps|
    requires Computes(steps[i]) && !Waiting(At(c, steps, i), t) && Waiting(At(c, steps, i + 1), t)
    requires (steps[n].WakeStep? || steps[n].FireStep?) && steps[n].ticket == t
    ensures var sys, step := At(c, steps, i), steps[i];
      steps[n].now - sys.d.lastRequestTime >= WaitIn(sys, step) >= FloorOf(sys.robots)
  {
    hide ComputeWait;
    var sys, step := At(c, steps, i), steps[i];
    NextState(c, steps, i);
    WaitReachesFloor(sys, step);
    TimerIsSet(sys, step, t);
    TimerStands(c, steps, i + 1, n, t, ReadyAt(sys, step));
    NextState(c, steps, n);
  }

  lemma TimerIsSet(sys: System, step: Step, t: nat)
    requires Inv(sys) && Enabled(sys, step) && Computes(step) && !Waiting(sys, t) && Waiting(Do(sys, step), t)
    ensures TimerAt(Do(sys, step), t, ReadyAt(sys, step))
  {
    hide Inv, ReadyAt;
    match step {
      case AcquireStep(a, u, now) =>
        OnlyItsSleeper(sys, a, u, now, t);
        AcquireOutcome(sys, a, u, now);
      case ReleaseStep(r, u, now) => ReleaseOutcome(sys, r, u, now);
    }
  }

  lemma OnlyItsSleeper(sys: System, a: nat, u: real, now: real, t: nat)
    requires Enabled(sys, AcquireStep(a, u, now)) && !Waiting(sys, t) && Waiting(Do(sys, AcquireStep(a, u, now)), t)
    ensures t == a
  {
  }

  /** A step starts nobody but an acquire's own caller, a release's head of the queue, or the caller whose sleep or
      timer ends. */
  lemma WhoStarts(sys: System, step: Step, t: nat)
    requires Inv(sys) && Enabled(sys, step) && Starts(sys, step, t)
    ensures t !in sys.done
    ensures match step
      case AcquireStep(a, _, _) => t == a && !Known(sys, t)
      case ReleaseStep(_, _, _) => t in sys.d.queue
      case WakeStep(a, _) => t == a
      case FireStep(a, _) => t == a
      case _ => false
  {
    hide Counted, InOrder, Served, Timed, Remaining, Respond;
    if sys.d.queue != [] {
      assert sys.d.queue[0] in sys.d.queue;
    }
  }

  predicate Begun(sys: System, t: nat) { t in sys.holding || t in sys.done }

  lemma BegunKept(sys: System, step: Step, t: nat)
    requires Inv(sys) && Enabled(sys, step) && Begun(sys, t)
    ensures Begun(Do(sys, step), t)
  {
    hide Counted, InOrder, Served, Timed, Remaining, Respond;
  }

  lemma {:induction false} BegunStays(c: Setup, steps: seq<Step>, i: nat, n: nat, t: nat)
    requires c.limit >= 1 && Run(Initial(c), steps).Some? && i <= n <= |steps| && Begun(At(c, steps, i), t)
    ensures Begun(At(c, steps, n), t)
  {
    hide Begun, Do, Enabled, Inv, Initial;
    if i < n {
      BegunStays(c, steps, i, n - 1, t);
      NextState(c, steps, n - 1);
      BegunKept(At(c, steps, n - 1), steps[n - 1], t);
    }
  }

  lemma LeavesByRelease(sys: System, step: Step, t: nat)
    requires Inv(sys) && Enabled(sys, step) && t in sys.d.queue && t !in Do(sys, step).d.queue
    ensures step.ReleaseStep? && !Waiting(sys, t) && !Begun(sys, t)
    ensures var next := Do(sys, step);
      if step.now >= ReadyAt(sys, step) then Starts(sys, step, t) else Waiting(next, t) && t !in next.holding
  {
    hide Counted, InOrder, Served, Timed, ComputeWait, Respond;
    if step.ReleaseStep? {
      assert sys.d.queue == [sys.d.queue[0]] + sys.d.queue[1..];
    } else if step.RespondStep? {
      RespondKeepsSlots(sys.d, step.status, sys.c.factor, sys.c.cooldownMaxMs);
    }
  }

  lemma NotHeldWhileWaiting(sys: System, t: nat)
    requires Inv(sys) && (Waiting(sys, t) || t in sys.done)
    ensures t !in sys.d.queue && Known(sys, t)
  {
    hide Counted, InOrder, Served, Timed;
  }

  /** So a queued caller, whether the release that takes it off the queue starts it or puts it on a timer, starts no
      earlier than the robots delay after the last request before that release. */
  lemma QueuedCallersAreSpaced(c: Setup, steps: seq<Step>, i: nat, n: nat, t: nat)
    requires c.limit >= 1 && Run(Initial(c), steps).Some? && i <= n < |steps|
    requires t in At(c, steps, i).d.queue && t !in At(c, steps, i + 1).d.queue
    requires t !in At(c, steps, n).holding && t in At(c, steps, n + 1).holding
    ensures steps[i].ReleaseStep? && !steps[n].RespondStep? && !steps[n].RobotsStep?
    ensures var sys := At(c, steps, i);
      steps[n].now - sys.d.lastRequestTime >= WaitIn(sys, steps[i]) >= FloorOf(sys.robots)
  {
    var sys, step, later := At(c, steps, i), steps[i], At(c, steps, n);
    NextState(c, steps, i);
    NextState(c, steps, n);
    LeavesByRelease(sys, step, t);
    WaitReachesFloor(sys, step);
    WhoStarts(later, steps[n], t);
    hide WaitIn, Do, Inv, Initial, At;
    if step.now >= ReadyAt(sys, step) {
      if i < n {
        BegunStays(c, steps, i + 1, n, t);
      }
    } else {
      TimerIsSet(sys, step, t);
      TimerStands(c, steps, i + 1, if i < n then n else i + 1, t, ReadyAt(sys, step));
      if i < n {
        NotHeldWhileWaiting(later, t);
      }
    }
  }

  // ---------------------------------------------------------------- how the wait reacts

  ghost predicate AllBlocked(statuses: seq<int>) {
    forall i :: 0 <= i < |statuses| ==> Blocked(statuses[i])
  }

  /** n more factors on top of m. */
  function Raised(m: real, factor: real, n: nat): real { m * Power(factor, n) }

  /** Every block in a row multiplies the multiplier once more, up to its cap, and ends the success streak. */
  lemma {:induction false} BlocksBackOff(d: Domain, statuses: seq<int>, factor: real, cooldownMaxMs: real)
    requires factor >= 1.0 && CooldownOk(d, cooldownMaxMs) && AllBlocked(statuses)
    ensures var e := RespondAll(d, statuses, factor, cooldownMaxMs);
      && e.cooldownMultiplier == Min(Raised(d.cooldownMultiplier, factor, |statuses|), MaxMultiplier(d.delayMs, cooldownMaxMs))
      && (statuses != [] ==> e.successStreak == 0)
  {
    hide Respond, MaxMultiplier, CooldownOk, Min, Raised;
    if statuses == [] {
      WithinCap(d, cooldownMaxMs);
      RaisedBy(d.cooldownMultiplier, factor, 0);
    } else {
      var n := |statuses| - 1;
      BlocksBackOff(d, statuses[..n], factor, cooldownMaxMs);
      MultiplierBounded(d, statuses[..n], factor, cooldownMaxMs);
      BlockAfterBlocks(d, RespondAll(d, statuses[..n], factor, cooldownMaxMs), n, statuses[n], factor, cooldownMaxMs);
    }
  }

  lemma BlockAfterBlocks(d: Domain, e: Domain, n: nat, status: int, factor: real, cooldownMaxMs: real)
    requires factor >= 1.0 && e.delayMs == d.delayMs && Blocked(status)
    requires e.cooldownMultiplier == Min(Raised(d.cooldownMultiplier, factor, n), MaxMultiplier(d.delayMs, cooldownMaxMs))
    ensures var next := Respond(e, status, factor, cooldownMaxMs);
      && next.cooldownMultiplier == Min(Raised(d.cooldownMultiplier, factor, n + 1), MaxMultiplier(d.delayMs, cooldownMaxMs))
      && next.successStreak == 0
  {
    CapReachesOne(d.delayMs, cooldownMaxMs);
    hide MaxMultiplier, Raised;
    RaisedBy(d.cooldownMultiplier, factor, n);
    CappedTwice(e.cooldownMultiplier, Raised(d.cooldownMultiplier, factor, n), MaxMultiplier(d.delayMs, cooldownMaxMs), factor);
  }

  lemma CapReachesOne(delayMs: real, cooldownMaxMs: real)
    ensures MaxMultiplier(delayMs, cooldownMaxMs) >= 1.0
  {
  }

  lemma WithinCap(d: Domain, cooldownMaxMs: real)
    requires CooldownOk(d, cooldownMaxMs)
    ensures Min(d.cooldownMultiplier, MaxMultiplier(d.delayMs, cooldownMaxMs)) == d.cooldownMultiplier
  {
  }

  lemma CappedTwice(m: real, x: real, cap: real, factor: real)
    requires cap >= 1.0 && factor >= 1.0 && m == Min(x, cap)
    ensures Min(m * factor, cap) == Min(x * factor, cap)
  {
    ProductMonotone(1.0, factor, cap);
    ScaledOrder(cap, x, factor);
    assert factor * cap == cap * factor;
  }

  lemma RaisedBy(m: real, factor: real, n: nat)
    ensures Raised(m, factor, 0) == m && Raised(m, factor, n + 1) == Raised(m, factor, n) * factor
  {
    var p := Power(factor, n);
    assert m * p * factor == m * (factor * p);
  }

  /** Fewer than three successes in a row leave the multiplier alone, whatever other statuses stand between them and
      the streak; the third lowers it by one factor, never below 1. */
  lemma ThirdSuccessDecays(d: Domain, status: int, factor: real, cooldownMaxMs: real)
    requires factor >= 1.0 && CooldownOk(d, cooldownMaxMs)
    ensures var e := Respond(d, status, factor, cooldownMaxMs);
      && (Success(status) && d.cooldownMultiplier > 1.0 ==>
            if d.successStreak == 2 then e.successStreak == 0 && e.cooldownMultiplier == Max(1.0, d.cooldownMultiplier / factor)
            else e.successStreak == d.successStreak + 1 && e.cooldownMultiplier == d.cooldownMultiplier)
      && (!Success(status) && !Blocked(status) ==> e == d)
      && (Blocked(status) ==> e.successStreak == 0)
  {
    ScaleDown(d.cooldownMultiplier, factor);
  }

  /** From a fresh streak, 3k successes take the multiplier down by exactly k factors, never below 1. */
  lemma {:induction false} SuccessesDecay(d: Domain, statuses: seq<int>, k: nat, factor: real, cooldownMaxMs: real)
    requires factor >= 1.0 && CooldownOk(d, cooldownMaxMs) && d.successStreak == 0
    requires |statuses| == 3 * k && AllSuccess(statuses)
    ensures var e := RespondAll(d, statuses, factor, cooldownMaxMs);
      e.successStreak == 0 && e.cooldownMultiplier == Decayed(d.cooldownMultiplier, k, factor)
  {
    hide Respond, RespondAll, CooldownOk, MaxMultiplier;
    if k == 0 {
      assert statuses == [];
      NoResponse(d, factor, cooldownMaxMs);
    } else {
      var n := 3 * (k - 1);
      SuccessesDecay(d, statuses[..n], k - 1, factor, cooldownMaxMs);
      MultiplierBounded(d, statuses[..n], factor, cooldownMaxMs);
      var e := RespondAll(d, statuses[..n], factor, cooldownMaxMs);
      OneMoreResponse(d, statuses, n, factor, cooldownMaxMs);
      OneMoreResponse(d, statuses, n + 1, factor, cooldownMaxMs);
      OneMoreResponse(d, statuses, n + 2, factor, cooldownMaxMs);
      assert statuses[..n + 3] == statuses;
      AtLeastOne(e, cooldownMaxMs);
      FreshTriple(e, statuses[n], statuses[n + 1], statuses[n + 2], factor, cooldownMaxMs);
    }
  }

  lemma NoResponse(d: Domain, factor: real, cooldownMaxMs: real)
    requires factor > 0.0
    ensures RespondAll(d, [], factor, cooldownMaxMs) == d
  {
  }

  lemma AtLeastOne(d: Domain, cooldownMaxMs: real)
    requires CooldownOk(d, cooldownMaxMs)
    ensures d.cooldownMultiplier >= 1.0
  {
  }

  /** k divisions by the factor, each stopping at 1. */
  function Decayed(m: real, k: nat, factor: real): real
    requires factor > 0.0
  {
    if k == 0 then m else Max(1.0, Decayed(m, k - 1, factor) / factor)
  }

  lemma OneMoreResponse(d: Domain, statuses: seq<int>, n: nat, factor: real, cooldownMaxMs: real)
    requires factor > 0.0 && n < |statuses|
    ensures RespondAll(d, statuses[..n + 1], factor, cooldownMaxMs)
         == Respond(RespondAll(d, statuses[..n], factor, cooldownMaxMs), statuses[n], factor, cooldownMaxMs)
  {
    assert statuses[..n + 1][..n] == statuses[..n];
  }

  lemma FreshTriple(d: Domain, a: int, b: int, c: int, factor: real, cooldownMaxMs: real)
    requires factor >= 1.0 && d.cooldownMultiplier >= 1.0 && d.successStreak == 0
    requires Success(a) && Success(b) && Success(c)
    ensures var e := Respond(Respond(Respond(d, a, factor, cooldownMaxMs), b, factor, cooldownMaxMs), c, factor, cooldownMaxMs);
      e.successStreak == 0 && e.cooldownMultiplier == Max(1.0, d.cooldownMultiplier / factor)
  {
    ScaleDown(d.cooldownMultiplier, factor);
  }

  /** The wait grows with the draw: evenly from the base delay less its jitter to the base delay plus its jitter, the
      base delay itself in the middle, and never under the robots delay or zero. */
  lemma WaitAcrossDraws(d: Domain, u: real, jitter: real, floor: real)
    requires d.delayMs >= 0.0 && d.cooldownMultiplier >= 0.0 && 0.0 <= u <= 1.0 && 0.0 <= jitter <= 1.0
    ensures var base := d.delayMs * d.cooldownMultiplier;
      var even := (1.0 - u) * (base - jitter * base) + u * (base + jitter * base);
      even >= 0.0 && ComputeWait(d, u, jitter, floor) == Max(even, floor)
  {
    NonNegativeProduct(d.delayMs, d.cooldownMultiplier);
    hide Max;
    EvenlySpread(d.delayMs * d.cooldownMultiplier, u, jitter);
    FactorAtLeastZero(u, jitter);
    NonNegativeProduct(1.0 + (u * 2.0 - 1.0) * jitter, d.delayMs * d.cooldownMultiplier);
    MaxOfThree(d.delayMs * d.cooldownMultiplier * (1.0 + (u * 2.0 - 1.0) * jitter), floor);
  }

  lemma NonNegativeProduct(a: real, b: real)
    requires a >= 0.0 && b >= 0.0
    ensures a * b >= 0.0
  {
  }

  lemma FactorAtLeastZero(u: real, jitter: real)
    requires 0.0 <= u && 0.0 <= jitter <= 1.0
    ensures 1.0 + (u * 2.0 - 1.0) * jitter >= 0.0
  {
    NonNegativeProduct(u, jitter);
    assert (u * 2.0 - 1.0) * jitter == 2.0 * (u * jitter) - jitter;
  }

  lemma MaxOfThree(x: real, floor: real)
    requires x >= 0.0
    ensures Max(0.0, Max(x, floor)) == Max(x, floor)
  {
  }

  lemma EvenlySpread(base: real, u: real, jitter: real)
    ensures (1.0 - u) * (base - jitter * base) + u * (base + jitter * base) == base * (1.0 + (u * 2.0 - 1.0) * jitter)
    ensures base * (1.0 + (u * 2.0 - 1.0) * jitter) == (1.0 + (u * 2.0 - 1.0) * jitter) * base
  {
    var x := jitter * base;
    assert (1.0 - u) * (base - x) == base - x - u * base + u * x;
    assert u * (base + x) == u * base + u * x;
    assert base * ((u * 2.0 - 1.0) * jitter) == (u * 2.0 - 1.0) * x;
  }

  /** The delay in force is the largest of those configured or set so far. */
  lemma DelayInForce(d: Domain, robots: Option<real>, r: real, concurrency: int, configDelay: real)
    ensures RaiseDelay(d, Some(r)).delayMs == Max(d.delayMs, r) && RaiseDelay(d, None) == d
    ensures RaiseDelay(d, robots) == d.(delayMs := RaiseDelay(d, robots).delayMs)
    ensures FreshDomain(concurrency, configDelay, Some(r)).delayMs == Max(configDelay, r)
    ensures FreshDomain(concurrency, configDelay, None).delayMs == Max(configDelay, 0.0)
  {
  }
}
