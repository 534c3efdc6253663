/** What a whole run of src/embedding/fastembed-provider.ts does with each load: a dispose invalidates the loads
    in flight, an undisturbed load is published and stays, and calls share what is there. */
module EmbeddingHistory {
  import opened EmbeddingLifecycle
  import opened Options

  // ---------------------------------------------------------------- states along a run

  lemma {:induction false} PrefixRuns(steps: seq<Step>, n: nat)
    requires Run(steps).Some? && n <= |steps|
    ensures Run(steps[..n]).Some?
    decreases |steps|
  {
    hide Do, Enabled;
    if n < |steps| {
      var front := steps[..|steps| - 1];
      PrefixRuns(front, n);
      assert front[..n] == steps[..n];
    } else {
      assert steps[..n] == steps;
    }
  }

  /** The state before step n. */
  ghost function At(steps: seq<Step>, n: nat): System
    requires Run(steps).Some? && n <= |steps|
  {
    PrefixRuns(steps, n);
    Run(steps[..n]).value
  }

  lemma NextState(steps: seq<Step>, n: nat)
    requires Run(steps).Some? && n < |steps|
    ensures Enabled(At(steps, n), steps[n]) && At(steps, n + 1) == Do(At(steps, n), steps[n])
  {
    hide Do, Enabled;
    PrefixRuns(steps, n + 1);
    PrefixRuns(steps, n);
    assert steps[..n + 1][..n] == steps[..n];
  }

  lemma StateIsReachable(steps: seq<Step>, n: nat) returns (owner: map<Session, Owner>)
    requires Run(steps).Some? && n <= |steps|
    ensures Reachable(At(steps, n)) && Inv(At(steps, n), owner)
  {
    hide Inv;
    PrefixRuns(steps, n);
    owner := InvHolds(steps[..n], At(steps, n));
  }

  // ---------------------------------------------------------------- dispose invalidates loads

  predicate PendingIn(sys: System, l: nat) { l in sys.loads && sys.loads[l].Pending? }

  /** The load can no longer be published: it belongs to an older generation, or was not when it resolved. */
  predicate Stale(sys: System, l: nat) {
    && l in sys.loads
    && (sys.loads[l].Pending? ==> sys.loads[l].generation < sys.f.loadGeneration)
    && (sys.loads[l].Ready? ==> sys.loads[l].session in sys.made && sys.f.model != Some(sys.loads[l].session))
  }

  lemma StaleKept(sys: System, step: Step, l: nat)
    requires Enabled(sys, step) && Stale(sys, l)
    requires sys.f.model.Some? ==> sys.f.model.value in sys.made
    ensures Stale(Do(sys, step), l)
  {
  }

  lemma DisposeMakesStale(sys: System, owner: map<Session, Owner>, step: Step, l: nat)
    requires Enabled(sys, step) && step.DisposeCall? && Inv(sys, owner) && PendingIn(sys, l)
    ensures Stale(Do(sys, step), l)
  {
    hide Owned, Uses, Counted, Waiters;
    assert PendingOk(sys, l);
  }

  lemma {:induction false} StaleAfterDispose(steps: seq<Step>, i: nat, n: nat, l: nat)
    requires Run(steps).Some? && i < n <= |steps|
    requires steps[i].DisposeCall? && PendingIn(At(steps, i), l)
    ensures Stale(At(steps, n), l)
  {
    hide Stale, Do, Enabled, Inv;
    NextState(steps, n - 1);
    if n == i + 1 {
      var owner := StateIsReachable(steps, i);
      DisposeMakesStale(At(steps, i), owner, steps[i], l);
    } else {
      StaleAfterDispose(steps, i, n - 1, l);
      var owner := StateIsReachable(steps, n - 1);
      ModelIsMade(At(steps, n - 1), owner);
      StaleKept(At(steps, n - 1), steps[n - 1], l);
    }
  }

  /** A stale load's session is released as it resolves when no embed is active, and deferred otherwise. */
  lemma StaleResolves(sys: System, owner: map<Session, Owner>, l: nat, s: Session)
    requires Enabled(sys, LoadResolve(l, s)) && Inv(sys, owner) && Stale(sys, l)
    ensures var next := Do(sys, LoadResolve(l, s));
      && next.f.model == sys.f.model
      && (if ActiveEmbeds(sys.embeds) == {} then next.released == sys.released + [s] else s in next.f.deferredReleases)
  {
    hide Owned, Uses, Loads, Waiters;
    assert |ActiveEmbeds(sys.embeds)| == 0 <==> ActiveEmbeds(sys.embeds) == {};
  }

  /** A load pending at some dispose of the run is never resident in any later state, and when it resolves its
      session is released at once, or deferred while embeds are active. */
  lemma DisposeInvalidates(steps: seq<Step>, i: nat, n: nat, l: nat)
    requires Run(steps).Some? && i < n <= |steps|
    requires steps[i].DisposeCall? && PendingIn(At(steps, i), l)
    ensures var sys := At(steps, n);
      && l in sys.loads
      && (sys.loads[l].Ready? ==> sys.f.model != Some(sys.loads[l].session))
    ensures n < |steps| && steps[n].LoadResolve? && steps[n].load == l ==>
      var sys, next, s := At(steps, n), At(steps, n + 1), steps[n].session;
      && next.f.model == sys.f.model != Some(s)
      && (if ActiveEmbeds(sys.embeds) == {} then next.released == sys.released + [s] else s in next.f.deferredReleases)
  {
    StaleAfterDispose(steps, i, n, l);
    if n < |steps| && steps[n].LoadResolve? && steps[n].load == l {
      NextState(steps, n);
      var owner := StateIsReachable(steps, n);
      ModelIsMade(At(steps, n), owner);
      hide Do, Inv;
      StaleResolves(At(steps, n), owner, l, steps[n].session);
    }
  }

  lemma ModelIsMade(sys: System, owner: map<Session, Owner>)
    requires Inv(sys, owner)
    ensures sys.f.model.Some? ==> sys.f.model.value in sys.made
  {
    hide Uses, Counted, Loads, Waiters;
    assert sys.f.model.Some? ==> Holds(sys, Resident, sys.f.model.value);
  }

  // ---------------------------------------------------------------- after the last dispose

  /** A call that can start a load. */
  predicate AsksForModel(step: Step) { step.Warmup? || step.EmbedCall? }

  ghost predicate NothingCurrent(sys: System) {
    sys.f.model.None? && forall l :: PendingIn(sys, l) ==> sys.loads[l].generation < sys.f.loadGeneration
  }

  lemma NothingCurrentKept(sys: System, step: Step)
    requires Enabled(sys, step) && NothingCurrent(sys) && !AsksForModel(step)
    ensures NothingCurrent(Do(sys, step))
  {
    var next := Do(sys, step);
    forall l | PendingIn(next, l)
      ensures next.loads[l].generation < next.f.loadGeneration
    {
      assert PendingIn(sys, l);
    }
  }

  lemma DisposeLeavesNothingCurrent(sys: System, owner: map<Session, Owner>, step: Step)
    requires Enabled(sys, step) && step.DisposeCall? && Inv(sys, owner)
    ensures NothingCurrent(Do(sys, step))
  {
    hide Owned, Uses, Counted, Waiters;
    var next := Do(sys, step);
    forall l | PendingIn(next, l)
      ensures next.loads[l].generation < next.f.loadGeneration
    {
      assert PendingOk(sys, l);
    }
  }

  lemma {:induction false} NothingCurrentAfter(steps: seq<Step>, i: nat, n: nat)
    requires Run(steps).Some? && i < n <= |steps| && steps[i].DisposeCall?
    requires forall k :: i < k < n ==> !AsksForModel(steps[k])
    ensures NothingCurrent(At(steps, n))
  {
    hide NothingCurrent, Do, Enabled, Inv;
    NextState(steps, n - 1);
    if n == i + 1 {
      var owner := StateIsReachable(steps, i);
      DisposeLeavesNothingCurrent(At(steps, i), owner, steps[i]);
    } else {
      NothingCurrentAfter(steps, i, n - 1);
      NothingCurrentKept(At(steps, n - 1), steps[n - 1]);
    }
  }

  /** When no call asks for the model after a dispose and no call is pending any more, no model is resident and
      every session ever made has been released. */
  lemma DisposeReleasesEverything(steps: seq<Step>, i: nat)
    requires Run(steps).Some? && i < |steps| && steps[i].DisposeCall?
    requires forall k :: i < k < |steps| ==> !AsksForModel(steps[k])
    requires AllOver(At(steps, |steps|))
    ensures var sys := At(steps, |steps|);
      sys.f.model.None? && forall s :: s in sys.made <==> s in sys.released
  {
    hide AllOver, Reachable;
    NothingCurrentAfter(steps, i, |steps|);
    var owner := StateIsReachable(steps, |steps|);
    NothingLeaks(At(steps, |steps|));
  }

  /** The resident model leaves with the dispose: released at once without active embeds, otherwise kept by the
      disposal, whose resumption releases it. */
  lemma DisposeTakesModel(sys: System, d: nat, w: nat)
    requires Reachable(sys) && Enabled(sys, DisposeCall(d, w))
    ensures var next := Do(sys, DisposeCall(d, w));
      && next.f.model.None?
      && (if ActiveEmbeds(sys.embeds) == {}
          then next.disposals[d] == Finished && next.released == sys.released + (if sys.f.model.Some? then [sys.f.model.value] else [])
          else next.disposals[d].Draining? && next.disposals[d].taken == sys.f.model && next.released == sys.released)
  {
    hide Reachable;
    ObligationsAreKept(sys);
    assert |ActiveEmbeds(sys.embeds)| == 0 <==> ActiveEmbeds(sys.embeds) == {};
  }

  // ---------------------------------------------------------------- publishing and sharing

  /** The load was begun since the last dispose. */
  predicate Current(sys: System, l: nat) {
    PendingIn(sys, l) && sys.loads[l].generation == sys.f.loadGeneration
  }

  /** At most one load is current, and none beside a resident model. */
  lemma OneCurrentLoad(sys: System, owner: map<Session, Owner>, l: nat)
    requires Inv(sys, owner) && Current(sys, l)
    ensures sys.f.model.None? && sys.f.modelPromise == Some(l)
  {
    hide Owned, Uses, Counted, Waiters;
    assert PendingOk(sys, l);
  }

  lemma PromiseIsCurrent(sys: System, owner: map<Session, Owner>)
    requires Inv(sys, owner) && sys.f.model.None? && sys.f.modelPromise.Some?
    ensures Current(sys, sys.f.modelPromise.value)
  {
    hide Owned, Uses, Counted, Waiters;
  }

  lemma CallActivates(sys: System, e: nat, l: nat)
    requires Enabled(sys, EmbedCall(e, l))
    ensures ActiveEmbeds(Do(sys, EmbedCall(e, l)).embeds) == ActiveEmbeds(sys.embeds) + {e}
  {
  }

  /** An embed gets the resident model; without one it joins the current load; only when there is neither does
      it start a load, which is then the current one. */
  lemma EmbedSharesModel(sys: System, e: nat, l: nat, k: nat)
    requires Reachable(sys) && Enabled(sys, EmbedCall(e, l))
    ensures var next := Do(sys, EmbedCall(e, l));
      && ActiveEmbeds(next.embeds) == ActiveEmbeds(sys.embeds) + {e}
      && (sys.f.model.Some? ==> next.embeds[e] == Awaiting(Settled(sys.f.model.value)) && next.loads == sys.loads)
      && (Current(sys, k) ==> next.embeds[e] == Awaiting(Loading(k)) && next.loads == sys.loads)
      && (sys.f.model.None? && (forall c :: !Current(sys, c)) ==>
            next.embeds[e] == Awaiting(Loading(l)) && next.loads == sys.loads[l := Pending(sys.f.loadGeneration)])
  {
    var steps :| Run(steps) == Some(sys);
    var owner := InvHolds(steps, sys);
    CallActivates(sys, e, l);
    hide Inv, Reachable, Run, ActiveEmbeds, Current;
    if Current(sys, k) {
      OneCurrentLoad(sys, owner, k);
    }
    if sys.f.model.None? && sys.f.modelPromise.Some? {
      PromiseIsCurrent(sys, owner);
    }
  }

  lemma CurrentKept(sys: System, step: Step, l: nat)
    requires Enabled(sys, step) && Current(sys, l) && !step.DisposeCall?
    requires !(step.LoadResolve? && step.load == l) && !(step.LoadReject? && step.load == l)
    ensures Current(Do(sys, step), l)
  {
  }

  lemma BegunIsCurrent(sys: System, step: Step, l: nat)
    requires Enabled(sys, step) && l !in sys.loads && l in Do(sys, step).loads
    ensures Current(Do(sys, step), l)
  {
  }

  /** No dispose, and no outcome of this load, in steps lo to hi. */
  ghost predicate Undisturbed(steps: seq<Step>, lo: nat, hi: nat, l: nat) {
    hi <= |steps| && forall k :: lo <= k < hi ==>
      !steps[k].DisposeCall? && !(steps[k].LoadResolve? && steps[k].load == l) && !(steps[k].LoadReject? && steps[k].load == l)
  }

  lemma {:induction false} CurrentSince(steps: seq<Step>, i: nat, n: nat, l: nat)
    requires Run(steps).Some? && i < n <= |steps| && Undisturbed(steps, i + 1, n, l)
    requires l !in At(steps, i).loads && l in At(steps, i + 1).loads
    ensures Current(At(steps, n), l)
  {
    hide Current, Do, Enabled;
    NextState(steps, n - 1);
    if n == i + 1 {
      BegunIsCurrent(At(steps, i), steps[i], l);
    } else {
      CurrentSince(steps, i, n - 1, l);
      CurrentKept(At(steps, n - 1), steps[n - 1], l);
    }
  }

  lemma ModelStays(sys: System, owner: map<Session, Owner>, step: Step)
    requires Enabled(sys, step) && Inv(sys, owner) && sys.f.model.Some? && !step.DisposeCall?
    ensures Do(sys, step).f.model == sys.f.model
  {
    hide Owned, Uses, Counted, Waiters;
    if step.LoadResolve? {
      assert PendingOk(sys, step.load);
    }
  }

  /** A load that no dispose overtakes is published when it resolves, and its model stays resident until the
      next dispose. */
  lemma {:induction false} UndisturbedLoadIsPublished(steps: seq<Step>, i: nat, n: nat, m: nat, l: nat, s: Session)
    requires Run(steps).Some? && i < n < m <= |steps| && Undisturbed(steps, i + 1, n, l)
    requires l !in At(steps, i).loads && l in At(steps, i + 1).loads && steps[n] == LoadResolve(l, s)
    requires forall k :: n < k < m ==> !steps[k].DisposeCall?
    ensures At(steps, m).f.model == Some(s)
    decreases m
  {
    hide Enabled, Inv, Undisturbed;
    NextState(steps, m - 1);
    if m == n + 1 {
      CurrentSince(steps, i, n, l);
    } else {
      UndisturbedLoadIsPublished(steps, i, n, m - 1, l, s);
      var owner := StateIsReachable(steps, m - 1);
      ModelStays(At(steps, m - 1), owner, steps[m - 1]);
    }
  }
}
