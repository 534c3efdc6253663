/** The model lifetime of src/embedding/fastembed-provider.ts: loads, generations, embeds in flight,
    the drain waiter and deferred releases. Every stretch of code between two awaits is one step. */
module EmbeddingLifecycle {
  import opened Options

  type Session = nat

  /** What `getModel` hands back: a model that is already there, or the promise of a load. */
  datatype Wait = Settled(session: Session) | Loading(load: nat)

  /** The provider's fields. Loads and waiters are named by numbers. */
  datatype Fields = Fields(
    model: Option<Session>,
    modelPromise: Option<nat>,
    loadGeneration: int,
    modelPromiseGeneration: int,
    embedsInFlight: int,
    drainWaiter: Option<nat>,
    deferredReleases: seq<Session>)

  // ---------------------------------------------------------------- one stretch on the fields

  /** `getModel`: `id` names the load it starts when there is neither a model nor a promise. */
  function GetModel(f: Fields, id: nat): (Fields, Wait) {
    if f.model.Some? then (f, Settled(f.model.value))
    else if f.modelPromise.Some? then (f, Loading(f.modelPromise.value))
    else (f.(modelPromise := Some(id), modelPromiseGeneration := f.loadGeneration), Loading(id))
  }

  predicate StartsLoad(f: Fields) { f.model.None? && f.modelPromise.None? }

  /** A load of this generation resolved; says whether its session is to be released at once. */
  function Resolved(f: Fields, generation: int, session: Session): (Fields, bool) {
    if generation != f.loadGeneration then
      if f.embedsInFlight == 0 then (f, true)
      else (f.(deferredReleases := f.deferredReleases + [session]), false)
    else (f.(model := Some(session)), false)
  }

  function Rejected(f: Fields, generation: int): Fields {
    if f.modelPromiseGeneration == generation then f.(modelPromise := None, modelPromiseGeneration := -1) else f
  }

  /** The re-check at the end of an embed: at zero an armed waiter is resolved and cleared. */
  function Recheck(f: Fields): (Fields, Option<nat>) {
    if f.embedsInFlight == 0 && f.drainWaiter.Some? then (f.(drainWaiter := None), f.drainWaiter) else (f, None)
  }

  /** The first stretch of an embed's `finally`: the sessions it takes over to release, and the waiter
      it resolves when there is nothing to release first. */
  function EndEmbed(f: Fields): (Fields, seq<Session>, Option<nat>) {
    var g := f.(embedsInFlight := f.embedsInFlight - 1);
    if g.embedsInFlight == 0 then
      var h := g.(deferredReleases := []);
      if g.deferredReleases == [] then (Recheck(h).0, [], Recheck(h).1) else (h, g.deferredReleases, None)
    else (g, [], None)
  }

  /** The first stretch of `dispose`: the model it takes away and, if embeds are in flight, the waiter
      it waits for. `id` names the waiter it arms when none is. */
  function BeginDispose(f: Fields, id: nat): (Fields, Option<Session>, Option<nat>) {
    var g := f.(loadGeneration := f.loadGeneration + 1, model := None, modelPromise := None, modelPromiseGeneration := -1);
    if f.embedsInFlight > 0 then
      var h := if g.drainWaiter.Some? then g else g.(drainWaiter := Some(id));
      (h, f.model, h.drainWaiter)
    else (g, f.model, None)
  }

  const INITIAL: Fields := Fields(None, None, 0, -1, 0, None, [])

  /** The class: its methods are the stretches, each proved to do what the function above says. */
  class FastembedEmbedProvider {
    var model: Option<Session>
    var modelPromise: Option<nat>
    var loadGeneration: int
    var modelPromiseGeneration: int
    var embedsInFlight: int
    var drainWaiter: Option<nat>
    var deferredReleases: seq<Session>

    ghost function State(): Fields
      reads this
    {
      Fields(model, modelPromise, loadGeneration, modelPromiseGeneration, embedsInFlight, drainWaiter, deferredReleases)
    }

    constructor ()
      ensures State() == INITIAL
    {
      model, modelPromise, loadGeneration, modelPromiseGeneration := None, None, 0, -1;
      embedsInFlight, drainWaiter, deferredReleases := 0, None, [];
    }

    method GetModelNow(id: nat) returns (wait: Wait)
      modifies this
      ensures (State(), wait) == GetModel(old(State()), id)
    {
      if model.Some? {
        return Settled(model.value);
      }
      if modelPromise.Some? {
        return Loading(modelPromise.value);
      }
      var generation := loadGeneration;
      modelPromise := Some(id);
      modelPromiseGeneration := generation;
      wait := Loading(id);
    }

    method EmbedBegins(id: nat) returns (wait: Wait)
      modifies this
      ensures (State(), wait) == GetModel(old(State()).(embedsInFlight := old(embedsInFlight) + 1), id)
    {
      embedsInFlight := embedsInFlight + 1;
      wait := GetModelNow(id);
    }

    method LoadResolved(generation: int, session: Session) returns (releaseNow: bool)
      modifies this
      ensures (State(), releaseNow) == Resolved(old(State()), generation, session)
    {
      releaseNow := false;
      if generation != loadGeneration {
        if embedsInFlight == 0 {
          releaseNow := true;
        } else {
          deferredReleases := deferredReleases + [session];
        }
        return;
      }
      model := Some(session);
    }

    method LoadRejected(generation: int)
      modifies this
      ensures State() == Rejected(old(State()), generation)
    {
      if modelPromiseGeneration == generation {
        modelPromise := None;
        modelPromiseGeneration := -1;
      }
    }

    method EmbedRechecks() returns (woken: Option<nat>)
      modifies this
      ensures (State(), woken) == Recheck(old(State()))
    {
      woken := None;
      if embedsInFlight == 0 && drainWaiter.Some? {
        var waiter := drainWaiter;
        drainWaiter := None;
        woken := waiter;
      }
    }

    method EmbedEnds() returns (deferred: seq<Session>, woken: Option<nat>)
      modifies this
      ensures (State(), deferred, woken) == EndEmbed(old(State()))
    {
      deferred, woken := [], None;
      embedsInFlight := embedsInFlight - 1;
      if embedsInFlight == 0 {
        deferred := deferredReleases;
        deferredReleases := [];
        if |deferred| == 0 {
          woken := EmbedRechecks();
        }
      }
    }

    method Drain(id: nat) returns (waiter: nat)
      modifies this`drainWaiter
      ensures drainWaiter == (if old(drainWaiter).Some? then old(drainWaiter) else Some(id))
      ensures Some(waiter) == drainWaiter
    {
      if drainWaiter.None? {
        drainWaiter := Some(id);
      }
      waiter := drainWaiter.value;
    }

    method DisposeBegins(id: nat) returns (taken: Option<Session>, waiter: Option<nat>)
      modifies this
      ensures (State(), taken, waiter) == BeginDispose(old(State()), id)
    {
      loadGeneration := loadGeneration + 1;
      taken := model;
      model := None;
      modelPromise := None;
      modelPromiseGeneration := -1;
      waiter := None;
      if embedsInFlight > 0 {
        var armed := Drain(id);
        waiter := Some(armed);
      }
    }
  }

  // ---------------------------------------------------------------- the whole system

  datatype LoadState = Pending(generation: int) | Ready(session: Session) | Broken

  /** Where an embed call is: waiting for its model, using it, releasing sessions it took over in its
      `finally`, or over. */
  datatype EmbedState = Awaiting(wait: Wait) | Using(session: Session) | Releasing(left: seq<Session>) | Over

  datatype DisposeState = Draining(waiter: nat, taken: Option<Session>) | Finished

  datatype System = System(
    f: Fields,
    loads: map<nat, LoadState>,
    embeds: map<nat, EmbedState>,
    disposals: map<nat, DisposeState>,
    woken: set<nat>,
    made: set<Session>,
    released: seq<Session>)

  datatype Step =
    | Warmup(load: nat)                      // warmup(): getModel without counting
    | EmbedCall(embed: nat, load: nat)       // embed() up to its first await
    | EmbedThrow(embed: nat)                 // embed() whose getModel throws at once
    | LoadResolve(load: nat, session: nat)   // a load produced a session
    | LoadReject(load: nat)                  // a load failed
    | EmbedResume(embed: nat)                // the awaited model arrived
    | EmbedFinish(embed: nat)                // the embed finished or failed; first stretch of its finally
    | EmbedRelease(embed: nat)               // one release awaited; the next stretch of its finally
    | DisposeCall(disposal: nat, waiter: nat)
    | DisposeResume(disposal: nat)

  const START: System := System(INITIAL, map[], map[], map[], {}, {}, [])

  predicate Active(st: EmbedState) { st.Awaiting? || st.Using? }

  predicate LoadBroken(sys: System, wait: Wait) {
    wait.Loading? && wait.load in sys.loads && sys.loads[wait.load].Broken?
  }

  /** The session an active embed has or will get. */
  function SessionOf(sys: System, st: EmbedState): Option<Session> {
    match st
    case Using(s) => Some(s)
    case Awaiting(Settled(s)) => Some(s)
    case Awaiting(Loading(l)) => if l in sys.loads && sys.loads[l].Ready? then Some(sys.loads[l].session) else None
    case _ => None
  }

  predicate Enabled(sys: System, step: Step) {
    match step
    case Warmup(l) => l !in sys.loads
    case EmbedCall(e, l) => e !in sys.embeds && l !in sys.loads
    case EmbedThrow(e) => e !in sys.embeds && StartsLoad(sys.f)
    case LoadResolve(l, s) => l in sys.loads && sys.loads[l].Pending? && s !in sys.made
    case LoadReject(l) => l in sys.loads && sys.loads[l].Pending?
    case EmbedResume(e) => e in sys.embeds && sys.embeds[e].Awaiting? && SessionOf(sys, sys.embeds[e]).Some?
    case EmbedFinish(e) => e in sys.embeds && (sys.embeds[e].Using? || (sys.embeds[e].Awaiting? && LoadBroken(sys, sys.embeds[e].wait)))
    case EmbedRelease(e) => e in sys.embeds && sys.embeds[e].Releasing?
    case DisposeCall(d, w) => d !in sys.disposals && w !in sys.woken && sys.f.drainWaiter != Some(w)
    case DisposeResume(d) => d in sys.disposals && sys.disposals[d].Draining? && sys.disposals[d].waiter in sys.woken
  }

  function WithLoad(sys: System, load: nat): map<nat, LoadState> {
    if StartsLoad(sys.f) then sys.loads[load := Pending(sys.f.loadGeneration)] else sys.loads
  }

  function Wake(woken: set<nat>, waiter: Option<nat>): set<nat> {
    if waiter.Some? then woken + {waiter.value} else woken
  }

  function ReleaseTaken(released: seq<Session>, taken: Option<Session>): seq<Session> {
    if taken.Some? then released + [taken.value] else released
  }

  /** The end of embed `e`: the first session it takes over is released in the same stretch. */
  function FinishEmbed(sys: System, e: nat): System {
    var (g, taken, waiter) := EndEmbed(sys.f);
    if taken == [] then sys.(f := g, embeds := sys.embeds[e := Over], woken := Wake(sys.woken, waiter))
    else sys.(f := g, embeds := sys.embeds[e := Releasing(taken[1..])], released := sys.released + [taken[0]])
  }

  function Do(sys: System, step: Step): System
    requires Enabled(sys, step)
  {
    match step
    case Warmup(l) =>
      sys.(f := GetModel(sys.f, l).0, loads := WithLoad(sys, l))
    case EmbedCall(e, l) =>
      var (g, wait) := GetModel(sys.f.(embedsInFlight := sys.f.embedsInFlight + 1), l);
      sys.(f := g, loads := WithLoad(sys, l), embeds := sys.embeds[e := Awaiting(wait)])
    case EmbedThrow(e) =>
      FinishEmbed(sys.(f := sys.f.(embedsInFlight := sys.f.embedsInFlight + 1)), e)
    case LoadResolve(l, s) =>
      var (g, releaseNow) := Resolved(sys.f, sys.loads[l].generation, s);
      sys.(f := g, loads := sys.loads[l := Ready(s)], made := sys.made + {s},
           released := if releaseNow then sys.released + [s] else sys.released)
    case LoadReject(l) =>
      sys.(f := Rejected(sys.f, sys.loads[l].generation), loads := sys.loads[l := Broken])
    case EmbedResume(e) =>
      sys.(embeds := sys.embeds[e := Using(SessionOf(sys, sys.embeds[e]).value)])
    case EmbedFinish(e) =>
      FinishEmbed(sys, e)
    case EmbedRelease(e) =>
      var left := sys.embeds[e].left;
      if left != [] then sys.(embeds := sys.embeds[e := Releasing(left[1..])], released := sys.released + [left[0]])
      else
        var (g, waiter) := Recheck(sys.f);
        sys.(f := g, embeds := sys.embeds[e := Over], woken := Wake(sys.woken, waiter))
    case DisposeCall(d, w) =>
      var (g, taken, waiter) := BeginDispose(sys.f, w);
      if waiter.Some? then sys.(f := g, disposals := sys.disposals[d := Draining(waiter.value, taken)])
      else sys.(f := g, disposals := sys.disposals[d := Finished], released := ReleaseTaken(sys.released, taken))
    case DisposeResume(d) =>
      sys.(disposals := sys.disposals[d := Finished], released := ReleaseTaken(sys.released, sys.disposals[d].taken))
  }

  /** Where a run ends up: any sequence of steps, each enabled when it is taken. */
  function Run(steps: seq<Step>): Option<System> {
    if steps == [] then Some(START)
    else
      var last := |steps| - 1;
      var before :- Run(steps[..last]);
      if Enabled(before, steps[last]) then Some(Do(before, steps[last])) else None
  }

  ghost predicate Reachable(sys: System) {
    exists steps: seq<Step> :: Run(steps) == Some(sys)
  }

  // ---------------------------------------------------------------- invariant

  /** Who is responsible for releasing a session. */
  datatype Owner = Resident | Deferred | ByEmbed(embed: nat) | ByDisposal(disposal: nat) | Gone

  ghost predicate Holds(sys: System, owner: Owner, s: Session) {
    match owner
    case Resident => sys.f.model == Some(s)
    case Deferred => s in sys.f.deferredReleases
    case ByEmbed(e) => e in sys.embeds && sys.embeds[e].Releasing? && s in sys.embeds[e].left
    case ByDisposal(d) => d in sys.disposals && sys.disposals[d].Draining? && sys.disposals[d].taken == Some(s)
    case Gone => s in sys.released
  }

  ghost predicate NoRepeats(s: seq<Session>) {
    forall i, j :: 0 <= i < j < |s| ==> s[i] != s[j]
  }

  ghost predicate NoRepeatsInLists(sys: System) {
    && NoRepeats(sys.f.deferredReleases)
    && NoRepeats(sys.released)
    && (forall e :: e in sys.embeds && sys.embeds[e].Releasing? ==> NoRepeats(sys.embeds[e].left))
  }

  /** Every session ever made has exactly one owner. */
  ghost predicate Owned(sys: System, owner: map<Session, Owner>) {
    && owner.Keys == sys.made
    && (forall s: Session, o: Owner :: Holds(sys, o, s) <==> s in owner && owner[s] == o)
    && NoRepeatsInLists(sys)
  }

  /** Owners that will not release while an embed is active. */
  predicate Safe(sys: System, o: Owner) {
    match o
    case Resident => true
    case Deferred => true
    case ByDisposal(d) => d in sys.disposals && sys.disposals[d].Draining? && sys.disposals[d].waiter !in sys.woken
    case _ => false
  }

  ghost predicate Uses(sys: System, owner: map<Session, Owner>) {
    forall e :: e in sys.embeds && SessionOf(sys, sys.embeds[e]).Some? ==>
      var s := SessionOf(sys, sys.embeds[e]).value;
      s in owner && Safe(sys, owner[s])
  }

  function ActiveEmbeds(embeds: map<nat, EmbedState>): set<nat> {
    set e | e in embeds && Active(embeds[e])
  }

  ghost predicate Counted(sys: System) {
    sys.f.embedsInFlight == |ActiveEmbeds(sys.embeds)|
  }

  ghost predicate PendingOk(sys: System, l: nat) {
    l in sys.loads && sys.loads[l].Pending? ==>
      && 0 <= sys.loads[l].generation <= sys.f.loadGeneration
      && (sys.loads[l].generation == sys.f.loadGeneration ==> sys.f.modelPromise == Some(l) && sys.f.model.None?)
  }

  /** At most one load can still publish its model, and it is the one the promise belongs to. */
  ghost predicate Loads(sys: System) {
    && 0 <= sys.f.loadGeneration
    && (forall l :: PendingOk(sys, l))
    && (if sys.f.modelPromise.Some?
        then sys.f.modelPromiseGeneration == sys.f.loadGeneration
             && sys.f.modelPromise.value in sys.loads
             && var st := sys.loads[sys.f.modelPromise.value];
                (sys.f.model.None? ==> st.Pending?) && (st.Pending? ==> st.generation == sys.f.loadGeneration)
        else sys.f.modelPromiseGeneration == -1)
    && (forall e :: e in sys.embeds && sys.embeds[e].Awaiting? && sys.embeds[e].wait.Loading? ==>
          sys.embeds[e].wait.load in sys.loads)
  }

  ghost predicate SomeReleasing(sys: System) {
    exists e :: e in sys.embeds && sys.embeds[e].Releasing?
  }

  /** An armed waiter will be looked at again, and no disposal waits for a waiter that is neither armed
      nor resolved; sessions are only deferred while an embed is in flight. */
  ghost predicate Waiters(sys: System) {
    && (sys.f.drainWaiter.Some? ==> sys.f.drainWaiter.value !in sys.woken)
    && (sys.f.drainWaiter.Some? ==> sys.f.embedsInFlight > 0 || SomeReleasing(sys))
    && (sys.f.deferredReleases != [] ==> sys.f.embedsInFlight > 0)
    && (forall d :: d in sys.disposals && sys.disposals[d].Draining? ==>
          sys.disposals[d].waiter in sys.woken || sys.f.drainWaiter == Some(sys.disposals[d].waiter))
  }

  ghost predicate Inv(sys: System, owner: map<Session, Owner>) {
    Owned(sys, owner) && Uses(sys, owner) && Counted(sys) && Loads(sys) && Waiters(sys)
  }

  /** How ownership moves in one step. */
  function NextOwner(sys: System, owner: map<Session, Owner>, step: Step): map<Session, Owner>
    requires Enabled(sys, step)
  {
    match step
    case LoadResolve(l, s) =>
      owner[s := if sys.loads[l].generation == sys.f.loadGeneration then Resident
                 else if sys.f.embedsInFlight == 0 then Gone else Deferred]
    case EmbedThrow(e) => owner
    case EmbedFinish(e) => TakeOver(owner, EndEmbed(sys.f).1, e)
    case EmbedRelease(e) => if sys.embeds[e].left != [] then owner[sys.embeds[e].left[0] := Gone] else owner
    case DisposeCall(d, w) =>
      if sys.f.model.None? then owner
      else owner[sys.f.model.value := if sys.f.embedsInFlight > 0 then ByDisposal(d) else Gone]
    case DisposeResume(d) =>
      if sys.disposals[d].taken.None? then owner else owner[sys.disposals[d].taken.value := Gone]
    case _ => owner
  }

  /** The first session taken over is released at once, the others wait in the embed's list. */
  function TakeOver(owner: map<Session, Owner>, taken: seq<Session>, e: nat): map<Session, Owner> {
    map s | s in owner :: if s in taken then (if s == taken[0] then Gone else ByEmbed(e)) else owner[s]
  }

  // ---------------------------------------------------------------- counting

  lemma NoActive(sys: System)
    requires Counted(sys) && sys.f.embedsInFlight == 0
    ensures forall e :: e in sys.embeds ==> !Active(sys.embeds[e])
  {
    assert ActiveEmbeds(sys.embeds) == {};
    forall e | e in sys.embeds
      ensures !Active(sys.embeds[e])
    {
      assert e !in ActiveEmbeds(sys.embeds);
    }
  }

  /** Setting one embed's state moves the count by its change of activity. */
  lemma CountChange(embeds: map<nat, EmbedState>, e: nat, st: EmbedState)
    ensures |ActiveEmbeds(embeds[e := st])|
            == |ActiveEmbeds(embeds)| - (if e in embeds && Active(embeds[e]) then 1 else 0) + (if Active(st) then 1 else 0)
  {
    var before, after := ActiveEmbeds(embeds), ActiveEmbeds(embeds[e := st]);
    if Active(st) {
      assert after == before + {e};
    } else {
      assert after == before - {e};
    }
  }

  lemma CountedKept(sys: System, owner: map<Session, Owner>, step: Step)
    requires Enabled(sys, step) && Inv(sys, owner)
    ensures Counted(Do(sys, step))
    ensures Do(sys, step).f.embedsInFlight >= 0
  {
    hide Owned, Uses, Loads, Waiters;
    match step {
      case EmbedCall(e, l) => CountChange(sys.embeds, e, Do(sys, step).embeds[e]);
      case EmbedThrow(e) => CountChange(sys.embeds, e, Do(sys, step).embeds[e]);
      case EmbedResume(e) => CountChange(sys.embeds, e, Do(sys, step).embeds[e]);
      case EmbedFinish(e) => CountChange(sys.embeds, e, Do(sys, step).embeds[e]);
      case EmbedRelease(e) => CountChange(sys.embeds, e, Do(sys, step).embeds[e]);
      case _ =>
    }
  }

  // ---------------------------------------------------------------- loads

  lemma PendingKept(sys: System, step: Step, l: nat)
    requires Enabled(sys, step) && Loads(sys)
    ensures PendingOk(Do(sys, step), l)
  {
    assert PendingOk(sys, l);
    if sys.f.modelPromise.Some? {
      assert PendingOk(sys, sys.f.modelPromise.value);
    }
    match step {
      case LoadResolve(load, _) => assert PendingOk(sys, load);
      case LoadReject(load) => assert PendingOk(sys, load);
      case _ =>
    }
  }

  lemma LoadsKept(sys: System, owner: map<Session, Owner>, step: Step)
    requires Enabled(sys, step) && Inv(sys, owner)
    ensures Loads(Do(sys, step))
  {
    hide Owned, Uses, Counted, Waiters;
    var next := Do(sys, step);
    if sys.f.modelPromise.Some? {
      assert PendingOk(sys, sys.f.modelPromise.value);
    }
    match step {
      case LoadResolve(l, s) => assert PendingOk(sys, l);
      case LoadReject(l) => assert PendingOk(sys, l);
      case _ =>
    }
    forall l
      ensures PendingOk(next, l)
    {
      PendingKept(sys, step, l);
    }
    hide PendingOk;
  }

  // ---------------------------------------------------------------- waiters

  lemma WaitersKept(sys: System, owner: map<Session, Owner>, step: Step)
    requires Enabled(sys, step) && Inv(sys, owner)
    ensures Waiters(Do(sys, step))
  {
    hide Owned, Uses, Loads;
    CountedKept(sys, owner, step);
    var next := Do(sys, step);
    if sys.f.drainWaiter.Some? && next.f.drainWaiter.Some? && next.f.embedsInFlight == 0 {
      if step.EmbedFinish? {
        assert next.embeds[step.embed].Releasing?;
      } else if !step.EmbedThrow? {
        var e :| e in sys.embeds && sys.embeds[e].Releasing?;
        assert next.embeds[e].Releasing?;
      }
    }
  }

  // ---------------------------------------------------------------- ownership

  lemma OwnedAfterResolve(sys: System, owner: map<Session, Owner>, l: nat, s: Session)
    requires Enabled(sys, LoadResolve(l, s)) && Owned(sys, owner) && PendingOk(sys, l)
    ensures Owned(Do(sys, LoadResolve(l, s)), NextOwner(sys, owner, LoadResolve(l, s)))
  {
    var next, owner' := Do(sys, LoadResolve(l, s)), NextOwner(sys, owner, LoadResolve(l, s));
    assert !Holds(sys, Deferred, s) && !Holds(sys, Gone, s);
    forall t: Session, o: Owner
      ensures Holds(next, o, t) <==> t in owner' && owner'[t] == o
    {
      assert Holds(sys, o, t) <==> t in owner && owner[t] == o;
      assert !Holds(sys, o, s);
    }
  }

  lemma OwnedAfterDispose(sys: System, owner: map<Session, Owner>, d: nat, w: nat)
    requires Enabled(sys, DisposeCall(d, w)) && Owned(sys, owner)
    ensures Owned(Do(sys, DisposeCall(d, w)), NextOwner(sys, owner, DisposeCall(d, w)))
  {
    assert sys.f.model.Some? ==> Holds(sys, Resident, sys.f.model.value) && !Holds(sys, Gone, sys.f.model.value);
    DisposeKeepsLists(sys, d, w);
    forall t: Session, o: Owner
      ensures var next, owner' := Do(sys, DisposeCall(d, w)), NextOwner(sys, owner, DisposeCall(d, w));
        Holds(next, o, t) <==> t in owner' && owner'[t] == o
    {
      DisposeMovesOwner(sys, owner, d, w, t, o);
    }
    hide Holds, NoRepeatsInLists;
  }

  lemma DisposeMovesOwner(sys: System, owner: map<Session, Owner>, d: nat, w: nat, t: Session, o: Owner)
    requires Enabled(sys, DisposeCall(d, w)) && Owned(sys, owner)
    ensures var next, owner' := Do(sys, DisposeCall(d, w)), NextOwner(sys, owner, DisposeCall(d, w));
      Holds(next, o, t) <==> t in owner' && owner'[t] == o
  {
    hide NoRepeatsInLists;
    assert Holds(sys, o, t) <==> t in owner && owner[t] == o;
    assert Holds(sys, Resident, t) <==> t in owner && owner[t] == Resident;
  }

  lemma DisposeKeepsLists(sys: System, d: nat, w: nat)
    requires Enabled(sys, DisposeCall(d, w)) && NoRepeatsInLists(sys)
    requires sys.f.model.Some? ==> sys.f.model.value !in sys.released
    ensures NoRepeatsInLists(Do(sys, DisposeCall(d, w)))
  {
  }

  lemma OwnedAfterResume(sys: System, owner: map<Session, Owner>, d: nat)
    requires Enabled(sys, DisposeResume(d)) && Owned(sys, owner)
    ensures Owned(Do(sys, DisposeResume(d)), NextOwner(sys, owner, DisposeResume(d)))
  {
    var next, owner' := Do(sys, DisposeResume(d)), NextOwner(sys, owner, DisposeResume(d));
    var taken := sys.disposals[d].taken;
    assert taken.Some? ==> Holds(sys, ByDisposal(d), taken.value) && !Holds(sys, Gone, taken.value);
    forall t: Session, o: Owner
      ensures Holds(next, o, t) <==> t in owner' && owner'[t] == o
    {
      assert Holds(sys, o, t) <==> t in owner && owner[t] == o;
    }
  }

  lemma OwnedAfterRelease(sys: System, owner: map<Session, Owner>, e: nat)
    requires Enabled(sys, EmbedRelease(e)) && Owned(sys, owner)
    ensures Owned(Do(sys, EmbedRelease(e)), NextOwner(sys, owner, EmbedRelease(e)))
  {
    var next, owner' := Do(sys, EmbedRelease(e)), NextOwner(sys, owner, EmbedRelease(e));
    var left := sys.embeds[e].left;
    if left != [] {
      assert left == [left[0]] + left[1..];
      assert Holds(sys, ByEmbed(e), left[0]) && !Holds(sys, Gone, left[0]);
    }
    forall t: Session, o: Owner
      ensures Holds(next, o, t) <==> t in owner' && owner'[t] == o
    {
      assert Holds(sys, o, t) <==> t in owner && owner[t] == o;
    }
  }

  lemma OwnedAfterFinish(sys: System, owner: map<Session, Owner>, e: nat)
    requires Enabled(sys, EmbedFinish(e)) && Owned(sys, owner)
    ensures Owned(Do(sys, EmbedFinish(e)), NextOwner(sys, owner, EmbedFinish(e)))
  {
    var next, owner' := Do(sys, EmbedFinish(e)), NextOwner(sys, owner, EmbedFinish(e));
    var taken := EndEmbed(sys.f).1;
    if taken != [] {
      assert taken == [taken[0]] + taken[1..];
      assert Holds(sys, Deferred, taken[0]) && !Holds(sys, Gone, taken[0]);
    }
    forall t: Session, o: Owner
      ensures Holds(next, o, t) <==> t in owner' && owner'[t] == o
    {
      assert Holds(sys, o, t) <==> t in owner && owner[t] == o;
      assert Holds(sys, Deferred, t) <==> t in owner && owner[t] == Deferred;
    }
  }

  /** The remaining steps leave every session with its owner. */
  lemma OwnedOtherwise(sys: System, owner: map<Session, Owner>, step: Step)
    requires Enabled(sys, step) && Inv(sys, owner)
    requires step.Warmup? || step.EmbedCall? || step.EmbedThrow? || step.LoadReject? || step.EmbedResume?
    ensures Owned(Do(sys, step), owner)
  {
    hide Uses, Loads, Counted;
    var next := Do(sys, step);
    forall t: Session, o: Owner
      ensures Holds(next, o, t) <==> t in owner && owner[t] == o
    {
      assert Holds(sys, o, t) <==> t in owner && owner[t] == o;
    }
  }

  lemma OwnedKept(sys: System, owner: map<Session, Owner>, step: Step)
    requires Enabled(sys, step) && Inv(sys, owner)
    ensures Owned(Do(sys, step), NextOwner(sys, owner, step))
  {
    hide Owned, Uses, Loads, Counted, Waiters, PendingOk;
    match step {
      case LoadResolve(l, s) =>
        PendingIsOk(sys, l);
        OwnedAfterResolve(sys, owner, l, s);
      case DisposeCall(d, w) => OwnedAfterDispose(sys, owner, d, w);
      case DisposeResume(d) => OwnedAfterResume(sys, owner, d);
      case EmbedRelease(e) => OwnedAfterRelease(sys, owner, e);
      case EmbedFinish(e) => OwnedAfterFinish(sys, owner, e);
      case _ => OwnedOtherwise(sys, owner, step);
    }
  }

  lemma PendingIsOk(sys: System, l: nat)
    requires Loads(sys)
    ensures PendingOk(sys, l)
  {
  }

  // ---------------------------------------------------------------- use

  /** While embeds are in flight no owner becomes unsafe; once none is, nobody uses a session. */
  lemma UsesKept(sys: System, owner: map<Session, Owner>, step: Step)
    requires Enabled(sys, step) && Inv(sys, owner)
    ensures Uses(Do(sys, step), NextOwner(sys, owner, step))
  {
    hide NoRepeatsInLists, Counted;
    var next, owner' := Do(sys, step), NextOwner(sys, owner, step);
    CountedKept(sys, owner, step);
    if next.f.embedsInFlight == 0 {
      NoActive(next);
    } else {
      if sys.f.embedsInFlight == 0 {
        NoActive(sys);
      }
      forall e | e in next.embeds && SessionOf(next, next.embeds[e]).Some?
        ensures var s := SessionOf(next, next.embeds[e]).value; s in owner' && Safe(next, owner'[s])
      {
        UseKept(sys, owner, step, e);
      }
    }
  }

  /** After the step, embed e is active with a session; nobody was active if none was in flight before. */
  ghost predicate InUseAfter(sys: System, step: Step, e: nat)
    requires Enabled(sys, step)
  {
    var next := Do(sys, step);
    && e in next.embeds && SessionOf(next, next.embeds[e]).Some? && next.f.embedsInFlight > 0
    && (sys.f.embedsInFlight == 0 ==> forall x :: x in sys.embeds ==> !Active(sys.embeds[x]))
  }

  lemma UseKept(sys: System, owner: map<Session, Owner>, step: Step, e: nat)
    requires Enabled(sys, step) && Inv(sys, owner) && InUseAfter(sys, step, e)
    ensures var next, owner' := Do(sys, step), NextOwner(sys, owner, step);
      var s := SessionOf(next, next.embeds[e]).value; s in owner' && Safe(next, owner'[s])
  {
    hide Inv, InUseAfter, SessionOf, Do, NextOwner, Safe, Enabled;
    match step {
      case EmbedCall(_, _) => UseKeptByCall(sys, owner, step, e);
      case EmbedRelease(_) => UseKeptByRelease(sys, owner, step, e);
      case DisposeCall(_, _) => UseKeptByDispose(sys, owner, step, e);
      case DisposeResume(_) => UseKeptByDispose(sys, owner, step, e);
      case LoadResolve(_, _) => UseKeptByLoad(sys, owner, step, e);
      case LoadReject(_) => UseKeptByLoad(sys, owner, step, e);
      case Warmup(_) => UseKeptByLoad(sys, owner, step, e);
      case EmbedThrow(_) => UseKeptByCall(sys, owner, step, e);
      case EmbedResume(_) => UseKeptByFinish(sys, owner, step, e);
      case EmbedFinish(_) => UseKeptByFinish(sys, owner, step, e);
    }
  }

  lemma UseKeptByCall(sys: System, owner: map<Session, Owner>, step: Step, e: nat)
    requires Enabled(sys, step) && Inv(sys, owner) && InUseAfter(sys, step, e)
    requires step.EmbedCall? || step.EmbedThrow?
    ensures var next, owner' := Do(sys, step), NextOwner(sys, owner, step);
      var s := SessionOf(next, next.embeds[e]).value; s in owner' && Safe(next, owner'[s])
  {
    hide NoRepeatsInLists, Counted, Waiters;
    assert sys.f.model.Some? ==> Holds(sys, Resident, sys.f.model.value);
  }

  lemma UseKeptByRelease(sys: System, owner: map<Session, Owner>, step: Step, e: nat)
    requires Enabled(sys, step) && Inv(sys, owner) && InUseAfter(sys, step, e)
    requires step.EmbedRelease?
    ensures var next, owner' := Do(sys, step), NextOwner(sys, owner, step);
      var s := SessionOf(next, next.embeds[e]).value; s in owner' && Safe(next, owner'[s])
  {
    hide NoRepeatsInLists, Counted, Waiters, Loads;
    var r := step.embed;
    assert sys.embeds[r].left != [] ==> Holds(sys, ByEmbed(r), sys.embeds[r].left[0]);
  }

  lemma UseKeptByDispose(sys: System, owner: map<Session, Owner>, step: Step, e: nat)
    requires Enabled(sys, step) && Inv(sys, owner) && InUseAfter(sys, step, e)
    requires step.DisposeCall? || step.DisposeResume?
    ensures var next, owner' := Do(sys, step), NextOwner(sys, owner, step);
      var s := SessionOf(next, next.embeds[e]).value; s in owner' && Safe(next, owner'[s])
  {
    hide NoRepeatsInLists, Counted, Loads;
    if step.DisposeResume? {
      var d := step.disposal;
      assert sys.disposals[d].taken.Some? ==> Holds(sys, ByDisposal(d), sys.disposals[d].taken.value);
      DisposalHolds(sys, owner, d);
    }
  }

  lemma UseKeptByLoad(sys: System, owner: map<Session, Owner>, step: Step, e: nat)
    requires Enabled(sys, step) && Inv(sys, owner) && InUseAfter(sys, step, e)
    requires step.LoadResolve? || step.LoadReject? || step.Warmup?
    ensures var next, owner' := Do(sys, step), NextOwner(sys, owner, step);
      var s := SessionOf(next, next.embeds[e]).value; s in owner' && Safe(next, owner'[s])
  {
    hide NoRepeatsInLists, Counted, Waiters;
  }

  lemma UseKeptByFinish(sys: System, owner: map<Session, Owner>, step: Step, e: nat)
    requires Enabled(sys, step) && Inv(sys, owner) && InUseAfter(sys, step, e)
    requires step.EmbedResume? || step.EmbedFinish?
    ensures var next, owner' := Do(sys, step), NextOwner(sys, owner, step);
      var s := SessionOf(next, next.embeds[e]).value; s in owner' && Safe(next, owner'[s])
  {
    hide NoRepeatsInLists, Counted, Waiters, Loads;
  }

  /** A session owned by a disposal is the one it took. */
  lemma DisposalHolds(sys: System, owner: map<Session, Owner>, d: nat)
    requires Owned(sys, owner)
    ensures forall s :: s in owner && owner[s] == ByDisposal(d) ==>
              d in sys.disposals && sys.disposals[d].Draining? && sys.disposals[d].taken == Some(s)
  {
    forall s | s in owner && owner[s] == ByDisposal(d)
      ensures Holds(sys, ByDisposal(d), s)
    {
    }
  }

  // ---------------------------------------------------------------- every run

  lemma InvAtStart()
    ensures Inv(START, map[])
  {
    assert ActiveEmbeds(START.embeds) == {};
  }

  lemma InvKept(sys: System, owner: map<Session, Owner>, step: Step)
    requires Enabled(sys, step) && Inv(sys, owner)
    ensures Inv(Do(sys, step), NextOwner(sys, owner, step))
  {
    hide Owned, Uses, Counted, Loads, Waiters;
    OwnedKept(sys, owner, step);
    UsesKept(sys, owner, step);
    CountedKept(sys, owner, step);
    LoadsKept(sys, owner, step);
    WaitersKept(sys, owner, step);
  }

  lemma {:induction false} InvHolds(steps: seq<Step>, sys: System) returns (owner: map<Session, Owner>)
    requires Run(steps) == Some(sys)
    ensures Inv(sys, owner)
  {
    hide Inv, NextOwner;
    if steps == [] {
      InvAtStart();
      owner := map[];
    } else {
      var last := |steps| - 1;
      var before := Run(steps[..last]).value;
      owner := InvHolds(steps[..last], before);
      InvKept(before, owner, steps[last]);
      owner := NextOwner(before, owner, steps[last]);
    }
  }

  /** In every interleaving: no session is released while an embed uses it or is about to get it, the
      resident model is never a released one, and no session is released twice. */
  lemma NeverReleasedInUse(sys: System)
    requires Reachable(sys)
    ensures NoRepeats(sys.released)
    ensures sys.f.model.Some? ==> sys.f.model.value !in sys.released
    ensures forall e :: e in sys.embeds && SessionOf(sys, sys.embeds[e]).Some? ==>
              SessionOf(sys, sys.embeds[e]).value !in sys.released
  {
    var steps :| Run(steps) == Some(sys);
    var owner := InvHolds(steps, sys);
    assert sys.f.model.Some? ==> Holds(sys, Resident, sys.f.model.value) && !Holds(sys, Gone, sys.f.model.value);
    forall e | e in sys.embeds && SessionOf(sys, sys.embeds[e]).Some?
      ensures SessionOf(sys, sys.embeds[e]).value !in sys.released
    {
      assert !Holds(sys, Gone, SessionOf(sys, sys.embeds[e]).value);
    }
  }

  /** In every interleaving: the counter is the number of embeds in flight; a deferred session has an
      embed in flight that will release it; an armed waiter has an embed that will look at it again; and
      every waiting disposal waits for the armed waiter or for one already resolved. */
  lemma ObligationsAreKept(sys: System)
    requires Reachable(sys)
    ensures sys.f.embedsInFlight == |ActiveEmbeds(sys.embeds)|
    ensures sys.f.deferredReleases != [] ==> ActiveEmbeds(sys.embeds) != {}
    ensures sys.f.drainWaiter.Some? ==> ActiveEmbeds(sys.embeds) != {} || SomeReleasing(sys)
    ensures forall d :: d in sys.disposals && sys.disposals[d].Draining? ==>
              sys.disposals[d].waiter in sys.woken || sys.f.drainWaiter == Some(sys.disposals[d].waiter)
  {
    var steps :| Run(steps) == Some(sys);
    var owner := InvHolds(steps, sys);
    hide Owned, Uses, Loads;
  }

  ghost predicate AllOver(sys: System) {
    && (forall e :: e in sys.embeds ==> sys.embeds[e].Over?)
    && (forall d :: d in sys.disposals ==> sys.disposals[d].Finished?)
  }

  /** With no call pending, every session ever made has been released, except the resident one. */
  lemma NothingLeaks(sys: System)
    requires Reachable(sys) && AllOver(sys)
    ensures forall s :: s in sys.made <==> s in sys.released || sys.f.model == Some(s)
    ensures sys.f.deferredReleases == [] && sys.f.drainWaiter.None?
  {
    var steps :| Run(steps) == Some(sys);
    var owner := InvHolds(steps, sys);
    ObligationsAreKept(sys);
    forall s
      ensures s in sys.made <==> s in sys.released || sys.f.model == Some(s)
    {
      assert Holds(sys, Gone, s) <==> s in owner && owner[s] == Gone;
      assert Holds(sys, Resident, s) <==> s in owner && owner[s] == Resident;
      if s in owner {
        assert Holds(sys, owner[s], s);
      }
    }
  }

  // ---------------------------------------------------------------- progress

  /** Steps that no caller starts. */
  predicate Internal(step: Step) {
    match step
    case LoadResolve(_, _) => true
    case LoadReject(_) => true
    case EmbedResume(_) => true
    case EmbedFinish(_) => true
    case EmbedRelease(_) => true
    case DisposeResume(_) => true
    case _ => false
  }

  /** An active embed can always be moved on, or the load it waits for can. */
  lemma EmbedProgress(sys: System, e: nat) returns (step: Step)
    requires Loads(sys) && e in sys.embeds && !sys.embeds[e].Over?
    ensures Internal(step) && Enabled(sys, step)
  {
    match sys.embeds[e] {
      case Releasing(_) => step := EmbedRelease(e);
      case Using(_) => step := EmbedFinish(e);
      case Awaiting(Settled(_)) => step := EmbedResume(e);
      case Awaiting(Loading(l)) =>
        match sys.loads[l] {
          case Pending(_) => step := LoadReject(l);
          case Ready(_) => step := EmbedResume(e);
          case Broken => step := EmbedFinish(e);
        }
    }
  }

  /** No deadlock: as long as a call is pending some step is possible without a new call. */
  lemma Progress(sys: System)
    requires Reachable(sys) && !AllOver(sys)
    ensures exists step: Step :: Internal(step) && Enabled(sys, step)
  {
    var steps :| Run(steps) == Some(sys);
    var owner := InvHolds(steps, sys);
    hide Owned, Uses, Run;
    if e :| e in sys.embeds && !sys.embeds[e].Over? {
      var step := EmbedProgress(sys, e);
    } else {
      var d :| d in sys.disposals && !sys.disposals[d].Finished?;
      NoneActiveWhenOver(sys);
      assert Internal(DisposeResume(d)) && Enabled(sys, DisposeResume(d));
    }
  }

  lemma NoneActiveWhenOver(sys: System)
    requires Counted(sys)
    requires forall e :: e in sys.embeds ==> sys.embeds[e].Over?
    ensures sys.f.embedsInFlight == 0
  {
    assert ActiveEmbeds(sys.embeds) == {};
  }

  ghost function Pick(keys: set<nat>): nat
    requires keys != {}
    ensures Pick(keys) in keys
  {
    var k :| k in keys; k
  }

  ghost function Total(w: map<nat, nat>, keys: set<nat>): nat
    requires keys <= w.Keys
  {
    if keys == {} then 0 else w[Pick(keys)] + Total(w, keys - {Pick(keys)})
  }

  lemma {:induction false} TotalWithout(w: map<nat, nat>, keys: set<nat>, k: nat)
    requires keys <= w.Keys && k in keys
    ensures Total(w, keys) == w[k] + Total(w, keys - {k})
    decreases |keys|
  {
    var j := Pick(keys);
    if j != k {
      TotalWithout(w, keys - {j}, k);
      TotalWithout(w, keys - {k}, j);
      assert keys - {j} - {k} == keys - {k} - {j};
    }
  }

  lemma {:induction false} TotalSame(w: map<nat, nat>, v: map<nat, nat>, keys: set<nat>)
    requires keys <= w.Keys && keys <= v.Keys
    requires forall k :: k in keys ==> w[k] == v[k]
    ensures Total(w, keys) == Total(v, keys)
  {
    if keys != {} {
      TotalSame(w, v, keys - {Pick(keys)});
    }
  }

  /** Changing one entry changes the total by the difference. */
  lemma TotalChange(w: map<nat, nat>, v: map<nat, nat>, k: nat)
    requires v.Keys == w.Keys && k in w
    requires forall j :: j in w && j != k ==> w[j] == v[j]
    ensures Total(v, v.Keys) == Total(w, w.Keys) - w[k] + v[k]
  {
    TotalWithout(w, w.Keys, k);
    TotalWithout(v, v.Keys, k);
    TotalSame(w, v, w.Keys - {k});
  }

  function EmbedWork(st: EmbedState): nat {
    match st
    case Awaiting(_) => 3
    case Using(_) => 2
    case Releasing(left) => 1 + |left|
    case Over => 0
  }

  function EmbedWorks(embeds: map<nat, EmbedState>): map<nat, nat> { map e | e in embeds :: EmbedWork(embeds[e]) }

  function LoadWorks(loads: map<nat, LoadState>): map<nat, nat> { map l | l in loads :: if loads[l].Pending? then 2 else 0 }

  function DisposeWorks(disposals: map<nat, DisposeState>): map<nat, nat> {
    map d | d in disposals :: if disposals[d].Draining? then 1 else 0
  }

  /** What is left to do without new calls. */
  ghost function Work(sys: System): nat {
    Total(EmbedWorks(sys.embeds), EmbedWorks(sys.embeds).Keys) + Total(LoadWorks(sys.loads), LoadWorks(sys.loads).Keys)
    + Total(DisposeWorks(sys.disposals), DisposeWorks(sys.disposals).Keys) + |sys.f.deferredReleases|
  }

  lemma EmbedWorkChange(embeds: map<nat, EmbedState>, e: nat, st: EmbedState)
    requires e in embeds
    ensures Total(EmbedWorks(embeds[e := st]), EmbedWorks(embeds[e := st]).Keys)
            == Total(EmbedWorks(embeds), EmbedWorks(embeds).Keys) - EmbedWork(embeds[e]) + EmbedWork(st)
  {
    TotalChange(EmbedWorks(embeds), EmbedWorks(embeds[e := st]), e);
  }

  lemma LoadWorkChange(loads: map<nat, LoadState>, l: nat, st: LoadState)
    requires l in loads && loads[l].Pending? && !st.Pending?
    ensures Total(LoadWorks(loads[l := st]), LoadWorks(loads[l := st]).Keys) == Total(LoadWorks(loads), LoadWorks(loads).Keys) - 2
  {
    TotalChange(LoadWorks(loads), LoadWorks(loads[l := st]), l);
  }

  lemma DisposeWorkChange(disposals: map<nat, DisposeState>, d: nat)
    requires d in disposals && disposals[d].Draining?
    ensures Total(DisposeWorks(disposals[d := Finished]), DisposeWorks(disposals[d := Finished]).Keys)
            == Total(DisposeWorks(disposals), DisposeWorks(disposals).Keys) - 1
  {
    TotalChange(DisposeWorks(disposals), DisposeWorks(disposals[d := Finished]), d);
  }

  /** Every step without a new call leaves strictly less work, so with no new calls all pending calls end. */
  lemma InternalStepsFinish(sys: System, step: Step)
    requires Enabled(sys, step) && Internal(step)
    ensures Work(Do(sys, step)) < Work(sys)
  {
    hide Total, EmbedWorks, LoadWorks, DisposeWorks;
    var next := Do(sys, step);
    match step {
      case LoadResolve(l, _) => LoadWorkChange(sys.loads, l, next.loads[l]);
      case LoadReject(l) => LoadWorkChange(sys.loads, l, next.loads[l]);
      case EmbedResume(e) => EmbedWorkChange(sys.embeds, e, next.embeds[e]);
      case EmbedFinish(e) => EmbedWorkChange(sys.embeds, e, next.embeds[e]);
      case EmbedRelease(e) => EmbedWorkChange(sys.embeds, e, next.embeds[e]);
      case DisposeResume(d) => DisposeWorkChange(sys.disposals, d);
    }
  }
}
