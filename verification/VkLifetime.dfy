/** The shared Vulkan model: one owner slot behind the engine mutex, walks counted outside it, unload and drain. */
module VkLifetime {
  import opened Wrappers

  type Model = nat

  /**
   Where a thread is. Walkers: locked, polled the pause, counted in, running outside the lock.
   Unloaders: locked, waiting for the count, saw it at zero. Drainers: pause raised, locked, saw the count at
   zero, drained (pause still up), failed (pause still up). Loaders: locked.
   */
  datatype Pc =
    | Out
    | WalkLocked | WalkPolled(m: Model) | WalkCounted(m: Model) | Walking(m: Model)
    | UnloadLocked | UnloadWaiting(m: Model) | UnloadClear(m: Model)
    | DrainRaised | DrainLocked | DrainClear | Drained | DrainFailed
    | LoadLocked

  datatype State = State(
    slot: Option<Model>,
    inflight: nat,
    pauses: nat,
    nextModel: Model,
    freed: multiset<Model>,
    leaked: set<Model>,
    pcs: map<nat, Pc>)

  // ----- classes of program counters -----

  predicate HoldsLock(pc: Pc) {
    pc.WalkLocked? || pc.WalkPolled? || pc.WalkCounted? || pc.UnloadLocked? || pc.UnloadWaiting? || pc.UnloadClear?
    || pc.DrainLocked? || pc.DrainClear? || pc.LoadLocked?
  }

  predicate Flies(pc: Pc) { pc.WalkCounted? || pc.Walking? }

  predicate Pauses(pc: Pc) { pc.DrainRaised? || pc.DrainLocked? || pc.DrainClear? || pc.Drained? || pc.DrainFailed? }

  function Flying(pcs: map<nat, Pc>): set<nat> { set t | t in pcs && Flies(pcs[t]) }

  function Pausing(pcs: map<nat, Pc>): set<nat> { set t | t in pcs && Pauses(pcs[t]) }

  predicate Unlocked(pcs: map<nat, Pc>) { forall t :: t in pcs ==> !HoldsLock(pcs[t]) }

  // ----- steps -----

  datatype Action =
    | Start(t: nat) | LockWalk(t: nat) | Poll(t: nat) | CountIn(t: nat) | Leave(t: nat) | CountOut(t: nat)
    | LockUnload(t: nat) | Take(t: nat, suspect: bool) | SeeZero(t: nat) | GiveUp(t: nat) | Free(t: nat)
    | RaisePause(t: nat) | InstallBusy(t: nat) | LockDrain(t: nat)
    | DrainSeesZero(t: nat) | DrainGivesUp(t: nat) | DrainDone(t: nat) | LowerPause(t: nat)
    | LockLoad(t: nat) | Load(t: nat, ok: bool)

  predicate At(s: State, t: nat, pc: Pc) { t in s.pcs && s.pcs[t] == pc }

  predicate Enabled(s: State, a: Action) {
    match a
    case Start(t) => t !in s.pcs
    case LockWalk(t) => At(s, t, Out) && Unlocked(s.pcs)
    case Poll(t) => At(s, t, WalkLocked)
    case CountIn(t) => t in s.pcs && s.pcs[t].WalkPolled?
    case Leave(t) => t in s.pcs && s.pcs[t].WalkCounted?
    case CountOut(t) => t in s.pcs && s.pcs[t].Walking? && s.inflight > 0
    case LockUnload(t) => At(s, t, Out) && Unlocked(s.pcs)
    case Take(t, _) => At(s, t, UnloadLocked)
    case SeeZero(t) => t in s.pcs && s.pcs[t].UnloadWaiting? && s.inflight == 0
    case GiveUp(t) => t in s.pcs && s.pcs[t].UnloadWaiting?
    case Free(t) => t in s.pcs && s.pcs[t].UnloadClear?
    case RaisePause(t) => At(s, t, Out)
    case LockDrain(t) => At(s, t, DrainRaised) && Unlocked(s.pcs)
    case DrainSeesZero(t) => At(s, t, DrainLocked) && s.inflight == 0
    case DrainGivesUp(t) => At(s, t, DrainLocked)
    case InstallBusy(t) => At(s, t, DrainRaised)
    case DrainDone(t) => At(s, t, DrainClear)
    case LowerPause(t) => (At(s, t, Drained) || At(s, t, DrainFailed)) && s.pauses > 0
    case LockLoad(t) => At(s, t, Out) && Unlocked(s.pcs)
    case Load(t, _) => At(s, t, LoadLocked)
  }

  function To(s: State, t: nat, pc: Pc): State { s.(pcs := s.pcs[t := pc]) }

  function Step(s: State, a: Action): State
    requires Enabled(s, a)
  {
    match a
    case Start(t) => To(s, t, Out)
    case LockWalk(t) => To(s, t, WalkLocked)
    // Without an engine, or while a pause is up, the walk returns without counting itself in.
    case Poll(t) => To(s, t, if s.slot.None? || s.pauses != 0 then Out else WalkPolled(s.slot.value))
    case CountIn(t) => To(s.(inflight := s.inflight + 1), t, WalkCounted(s.pcs[t].m))
    case Leave(t) => To(s, t, Walking(s.pcs[t].m))
    case CountOut(t) => To(s.(inflight := s.inflight - 1), t, Out)
    case LockUnload(t) => To(s, t, UnloadLocked)
    // A suspect device's model is leaked; otherwise it leaves the slot and the count is awaited.
    case Take(t, suspect) =>
      if s.slot.None? then To(s, t, Out)
      else if suspect then To(s.(slot := None, leaked := s.leaked + {s.slot.value}), t, Out)
      else To(s.(slot := None), t, UnloadWaiting(s.slot.value))
    case SeeZero(t) => To(s, t, UnloadClear(s.pcs[t].m))
    case GiveUp(t) => To(s.(leaked := s.leaked + {s.pcs[t].m}), t, Out)
    case Free(t) => To(s.(freed := s.freed + multiset{s.pcs[t].m}), t, Out)
    case RaisePause(t) => To(s.(pauses := s.pauses + 1), t, DrainRaised)
    case LockDrain(t) => To(s, t, DrainLocked)
    case DrainSeesZero(t) => To(s, t, DrainClear)
    case DrainGivesUp(t) => To(s, t, DrainFailed)
    case InstallBusy(t) => To(s, t, DrainFailed)
    case DrainDone(t) => To(s, t, Drained)
    case LowerPause(t) => To(s.(pauses := s.pauses - 1), t, Out)
    case LockLoad(t) => To(s, t, LoadLocked)
    case Load(t, ok) =>
      if s.slot.Some? || !ok then To(s, t, Out)
      else To(s.(slot := Some(s.nextModel), nextModel := s.nextModel + 1), t, Out)
  }

  const START := State(None, 0, 0, 0, multiset{}, {}, map[])

  // ----- invariant -----

  ghost predicate Exclusive(pcs: map<nat, Pc>) {
    forall t, u :: t in pcs && u in pcs && HoldsLock(pcs[t]) && HoldsLock(pcs[u]) ==> t == u
  }

  ghost predicate Counted(s: State) { s.inflight == |Flying(s.pcs)| && s.pauses == |Pausing(s.pcs)| }

  /** A model is in the slot, taken by an unloader, leaked or freed: never two of these. */
  ghost predicate Placed(s: State) {
    && (s.slot.Some? ==> s.slot.value < s.nextModel && s.slot.value !in s.freed && s.slot.value !in s.leaked)
    && (forall m :: m in s.freed ==> m < s.nextModel && s.freed[m] == 1 && m !in s.leaked)
    && (forall m :: m in s.leaked ==> m < s.nextModel)
  }

  /** A model that is out of the slot, and neither freed nor leaked. */
  ghost predicate Taken(s: State, m: nat) {
    s.slot == None && m < s.nextModel && m !in s.freed && m !in s.leaked
  }

  /** What every thread may rely on. */
  ghost predicate ThreadOk(s: State, pc: Pc) {
    match pc
    case WalkPolled(m) => s.slot == Some(m)
    case WalkCounted(m) => s.slot == Some(m)
    case Walking(m) => m < s.nextModel && m !in s.freed
    case UnloadWaiting(m) => Taken(s, m)
    case UnloadClear(m) => Taken(s, m) && s.inflight == 0
    case DrainClear => s.inflight == 0
    case Drained => s.inflight == 0
    case _ => true
  }

  ghost predicate ThreadsOk(s: State) { forall t :: t in s.pcs ==> ThreadOk(s, s.pcs[t]) }

  /** While a drained pause is up no walk is past its poll. */
  ghost predicate Quiet(pcs: map<nat, Pc>) {
    forall t, u :: t in pcs && u in pcs && pcs[t].Drained? ==> !Airborne(pcs[u])
  }

  /** Past the poll. */
  predicate Airborne(pc: Pc) { pc.WalkPolled? || Flies(pc) }

  ghost predicate Inv(s: State) {
    Exclusive(s.pcs) && Counted(s) && Quiet(s.pcs) && Placed(s) && ThreadsOk(s)
  }

  // ----- preservation -----

  lemma MoveFlying(pcs: map<nat, Pc>, t: nat, pc: Pc)
    ensures |Flying(pcs[t := pc])|
            == |Flying(pcs)| - (if t in pcs && Flies(pcs[t]) then 1 else 0) + (if Flies(pc) then 1 else 0)
  {
    hide Flies;
    if Flies(pc) {
      assert Flying(pcs[t := pc]) == Flying(pcs) + {t};
    } else {
      assert Flying(pcs[t := pc]) == Flying(pcs) - {t};
    }
  }

  lemma MovePausing(pcs: map<nat, Pc>, t: nat, pc: Pc)
    ensures |Pausing(pcs[t := pc])|
            == |Pausing(pcs)| - (if t in pcs && Pauses(pcs[t]) then 1 else 0) + (if Pauses(pc) then 1 else 0)
  {
    hide Pauses;
    if Pauses(pc) {
      assert Pausing(pcs[t := pc]) == Pausing(pcs) + {t};
    } else {
      assert Pausing(pcs[t := pc]) == Pausing(pcs) - {t};
    }
  }

  lemma Move(s: State, a: Action)
    requires Counted(s) && Enabled(s, a)
    ensures Counted(Step(s, a))
  {
    hide Flying, Pausing, Flies, Pauses, Enabled, Step;
    Recounts(s, a);
    MoveFlying(s.pcs, a.t, Step(s, a).pcs[a.t]);
    MovePausing(s.pcs, a.t, Step(s, a).pcs[a.t]);
  }

  function One(b: bool): nat { if b then 1 else 0 }

  /** The two counters follow the one thread that moves. */
  lemma Recounts(s: State, a: Action)
    requires Enabled(s, a)
    ensures var after := Step(s, a);
            && a.t in after.pcs && after.pcs == s.pcs[a.t := after.pcs[a.t]]
            && after.inflight == s.inflight - One(a.t in s.pcs && Flies(s.pcs[a.t])) + One(Flies(after.pcs[a.t]))
            && after.pauses == s.pauses - One(a.t in s.pcs && Pauses(s.pcs[a.t])) + One(Pauses(after.pcs[a.t]))
  {}

  lemma ExclusiveMove(pcs: map<nat, Pc>, t: nat, pc: Pc)
    requires Exclusive(pcs) && (HoldsLock(pc) ==> (t in pcs && HoldsLock(pcs[t])) || Unlocked(pcs))
    ensures Exclusive(pcs[t := pc])
  {
    hide HoldsLock;
  }

  lemma LockMove(s: State, a: Action)
    requires Exclusive(s.pcs) && Enabled(s, a)
    ensures Exclusive(Step(s, a).pcs)
  {
    hide Exclusive;
    ExclusiveMove(s.pcs, a.t, Step(s, a).pcs[a.t]);
  }

  lemma QuietMove(pcs: map<nat, Pc>, t: nat, pc: Pc)
    requires Quiet(pcs)
    requires pc.Drained? ==> forall u :: u in pcs && u != t ==> !Airborne(pcs[u])
    requires Airborne(pc) ==> (t in pcs && Airborne(pcs[t])) || forall u :: u in pcs ==> !pcs[u].Drained?
    ensures Quiet(pcs[t := pc])
  {
    assert pc.Drained? ==> !Airborne(pc);
    hide Airborne;
  }

  /** A thread gets past the poll only where no pause is up, and reports a drain only at its end. */
  lemma PastPoll(s: State, a: Action)
    requires Enabled(s, a)
    ensures var pcs := Step(s, a).pcs;
            && a.t in pcs && pcs == s.pcs[a.t := pcs[a.t]]
            && (pcs[a.t].Drained? ==> a.DrainDone? && a.t in s.pcs && HoldsLock(s.pcs[a.t]))
            && (Airborne(pcs[a.t]) ==> (a.t in s.pcs && Airborne(s.pcs[a.t])) || s.pauses == 0)
  {}

  lemma NonePausing(s: State)
    requires Counted(s) && s.pauses == 0
    ensures forall u :: u in s.pcs ==> !s.pcs[u].Drained?
  {
    assert Pausing(s.pcs) == {};
    assert forall u :: u in s.pcs && Pauses(s.pcs[u]) ==> u in Pausing(s.pcs);
  }

  lemma QuietStep(s: State, a: Action)
    requires Exclusive(s.pcs) && Counted(s) && Quiet(s.pcs) && Enabled(s, a)
    requires a.DrainDone? ==> s.inflight == 0
    ensures Quiet(Step(s, a).pcs)
  {
    hide Counted, Exclusive, Quiet, Enabled, Step, Airborne, HoldsLock;
    PastPoll(s, a);
    var pc := Step(s, a).pcs[a.t];
    if s.pauses == 0 { NonePausing(s); }
    if pc.Drained? {
      NoneFlying(s);
      Alone(s, a.t);
      forall u | u in s.pcs && u != a.t ensures !Airborne(s.pcs[u]) { Grounded(s.pcs[u]); }
    }
    QuietMove(s.pcs, a.t, pc);
  }

  lemma Grounded(pc: Pc)
    requires !HoldsLock(pc) && !Flies(pc)
    ensures !Airborne(pc)
  {}

  lemma Alone(s: State, t: nat)
    requires Exclusive(s.pcs) && t in s.pcs && HoldsLock(s.pcs[t])
    ensures forall u :: u in s.pcs && u != t ==> !HoldsLock(s.pcs[u])
  {}

  lemma NoneFlying(s: State)
    requires Counted(s) && s.inflight == 0
    ensures forall t :: t in s.pcs ==> !Flies(s.pcs[t])
  {
    hide Flies;
    assert Flying(s.pcs) == {};
    assert forall t :: t in s.pcs && Flies(s.pcs[t]) ==> t in Flying(s.pcs);
  }

  lemma FlyingCounts(s: State, t: nat)
    requires Counted(s) && t in s.pcs && Flies(s.pcs[t])
    ensures s.inflight > 0
  {
    assert t in Flying(s.pcs);
  }

  ghost predicate Plain(a: Action) {
    !a.CountIn? && !a.CountOut? && !a.Take? && !a.GiveUp? && !a.Free? && !a.Load?
  }

  /** Same slot, count and fates. */
  ghost predicate SameModels(s: State, after: State) {
    && after.slot == s.slot && after.nextModel == s.nextModel && after.inflight == s.inflight
    && after.freed == s.freed && after.leaked == s.leaked
  }

  lemma PlainStep(s: State, a: Action)
    requires Placed(s) && ThreadsOk(s) && Enabled(s, a) && Plain(a)
    ensures var after := Step(s, a);
            SameModels(s, after) && a.t in after.pcs && after.pcs == s.pcs[a.t := after.pcs[a.t]] && ThreadOk(s, after.pcs[a.t])
  {
    if a.t in s.pcs { assert ThreadOk(s, s.pcs[a.t]); }
  }

  lemma SameReliance(s: State, after: State, pc: Pc)
    requires SameModels(s, after) && ThreadOk(s, pc)
    ensures ThreadOk(after, pc)
  {}

  /** Steps that leave slot, count and fates alone: only what the moved thread relies on is new. */
  lemma PlainKeeps(s: State, a: Action)
    requires Inv(s) && Enabled(s, a) && Plain(a)
    ensures Placed(Step(s, a)) && ThreadsOk(Step(s, a))
  {
    hide Exclusive, Counted, Quiet, Enabled, Step, ThreadOk, Plain;
    PlainStep(s, a);
    var after := Step(s, a);
    forall t | t in after.pcs ensures ThreadOk(after, after.pcs[t]) { SameReliance(s, after, after.pcs[t]); }
  }

  /** A walk counts itself in under the lock, so nobody there has seen a zero. */
  lemma CountInKeeps(s: State, a: Action)
    requires Inv(s) && Enabled(s, a) && a.CountIn?
    ensures Placed(Step(s, a)) && ThreadsOk(Step(s, a))
  {
    Alone(s, a.t);
    hide Exclusive, Counted, Placed;
  }

  lemma CountOutKeeps(s: State, a: Action)
    requires Inv(s) && Enabled(s, a) && a.CountOut?
    ensures Placed(Step(s, a)) && ThreadsOk(Step(s, a))
  {
    FlyingCounts(s, a.t);
    hide Exclusive, Counted, Quiet;
  }

  /** Only the thread with the lock relies on the slot. */
  lemma TakeKeeps(s: State, a: Action)
    requires Inv(s) && Enabled(s, a) && a.Take?
    ensures Placed(Step(s, a)) && ThreadsOk(Step(s, a))
  {
    Alone(s, a.t);
    hide Exclusive, Counted, Quiet;
  }

  lemma GiveUpKeeps(s: State, a: Action)
    requires Inv(s) && Enabled(s, a) && a.GiveUp?
    ensures Placed(Step(s, a)) && ThreadsOk(Step(s, a))
  {
    Alone(s, a.t);
    hide Exclusive, Counted, Quiet;
  }

  /** At a count of zero no walk holds the model. */
  lemma FreeKeeps(s: State, a: Action)
    requires Inv(s) && Enabled(s, a) && a.Free?
    ensures Placed(Step(s, a)) && ThreadsOk(Step(s, a))
  {
    NoneFlying(s);
    Alone(s, a.t);
    hide Exclusive, Counted, Quiet;
  }

  lemma LoadKeeps(s: State, a: Action)
    requires Inv(s) && Enabled(s, a) && a.Load?
    ensures Placed(Step(s, a)) && ThreadsOk(Step(s, a))
  {
    Alone(s, a.t);
    hide Exclusive, Counted, Quiet;
  }

  lemma ModelsKept(s: State, a: Action)
    requires Inv(s) && Enabled(s, a)
    ensures Placed(Step(s, a)) && ThreadsOk(Step(s, a))
  {
    hide Inv, Enabled, Step, Placed, ThreadsOk;
    match a
    case CountIn(_) => CountInKeeps(s, a);
    case CountOut(_) => CountOutKeeps(s, a);
    case Take(_, _) => TakeKeeps(s, a);
    case GiveUp(_) => GiveUpKeeps(s, a);
    case Free(_) => FreeKeeps(s, a);
    case Load(_, _) => LoadKeeps(s, a);
    case _ => PlainKeeps(s, a);
  }

  lemma StepKeeps(s: State, a: Action)
    requires Inv(s) && Enabled(s, a)
    ensures Inv(Step(s, a))
  {
    hide Step, Exclusive, Counted, Quiet, Placed;
    Move(s, a);
    LockMove(s, a);
    QuietStep(s, a);
    ModelsKept(s, a);
  }

  // ----- runs -----

  ghost predicate Takes(s: State, a: Action, after: State) { Enabled(s, a) && after == Step(s, a) }

  ghost predicate IsRun(run: seq<Action>, s: State)
    decreases |run|
  {
    if run == [] then s == START
    else
      var front, last := run[..|run| - 1], run[|run| - 1];
      exists before :: IsRun(front, before) && Takes(before, last, s)
  }

  ghost predicate Reachable(s: State) { exists run :: IsRun(run, s) }

  lemma {:induction false} RunKeeps(run: seq<Action>, s: State)
    requires IsRun(run, s)
    ensures Inv(s)
  {
    hide Step, Enabled;
    if run == [] {
      StartOk();
    } else {
      var before :| IsRun(run[..|run| - 1], before) && Takes(before, run[|run| - 1], s);
      RunKeeps(run[..|run| - 1], before);
      StepKeeps(before, run[|run| - 1]);
    }
  }

  lemma StartOk()
    ensures Inv(START)
  {
    assert Flying(START.pcs) == {} && Pausing(START.pcs) == {};
  }

  lemma ReachableInv(s: State)
    requires Reachable(s)
    ensures Inv(s)
  {
    var run :| IsRun(run, s);
    RunKeeps(run, s);
  }

  // ----- what is promised -----

  /** No model is freed twice, and none is freed while it can still be taken from the slot. */
  lemma FreedAtMostOnce(s: State, m: Model)
    requires Reachable(s)
    ensures s.freed[m] <= 1 && (s.slot == Some(m) ==> m !in s.freed)
  {
    ReachableInv(s);
  }

  /** A walk never holds a freed model, from its poll to the end of its last dispatch. */
  lemma NeverFreedInUse(s: State, t: nat)
    requires Reachable(s) && t in s.pcs && (s.pcs[t].WalkPolled? || s.pcs[t].WalkCounted? || s.pcs[t].Walking?)
    ensures s.pcs[t].m !in s.freed
  {
    ReachableInv(s);
  }

  /** After a drain returned Ok no walk runs, and none has got past its poll, until that pause is lowered. */
  lemma DrainedIsQuiet(s: State, t: nat)
    requires Reachable(s) && At(s, t, Drained)
    ensures s.inflight == 0
    ensures forall u :: u in s.pcs ==> !s.pcs[u].WalkPolled? && !s.pcs[u].WalkCounted? && !s.pcs[u].Walking?
  {
    ReachableInv(s);
  }

  /** A model an unload took is freed, leaked, or still being waited for: it is not back in the slot. */
  lemma TakenIsGone(s: State, t: nat)
    requires Reachable(s) && t in s.pcs && (s.pcs[t].UnloadWaiting? || s.pcs[t].UnloadClear?)
    ensures s.slot == None && s.pcs[t].m !in s.freed && s.pcs[t].m !in s.leaked
  {
    ReachableInv(s);
  }

  /** A walk goes on from its poll exactly when there is an engine and no pause is up. */
  lemma PollIff(s: State, t: nat)
    requires At(s, t, WalkLocked)
    ensures Step(s, Poll(t)).pcs[t] == if s.slot.Some? && s.pauses == 0 then WalkPolled(s.slot.value) else Out
  {}

  /** A load that succeeds fills an empty slot with a new model, and never replaces one. */
  lemma LoadIff(s: State, t: nat, ok: bool)
    requires At(s, t, LoadLocked)
    ensures Step(s, Load(t, ok)).slot == if s.slot.None? && ok then Some(s.nextModel) else s.slot
    ensures Step(s, Load(t, ok)).nextModel > s.nextModel <==> s.slot.None? && ok
  {}

  // ----- no model is lost -----

  /** An unload holds the model it took. */
  predicate Holds(pc: Pc, m: Model) { pc == UnloadWaiting(m) || pc == UnloadClear(m) }

  ghost predicate HeldBySome(s: State, m: Model) { exists t :: t in s.pcs && Holds(s.pcs[t], m) }

  /** Every model ever loaded is in the slot, in the hands of an unload, freed or leaked. */
  ghost predicate Accounted(s: State) {
    forall m: Model :: m < s.nextModel ==> s.slot == Some(m) || m in s.freed || m in s.leaked || HeldBySome(s, m)
  }

  /** Only an unload that waited for the walks in vain, or found the device suspect, gives a model up; every other one frees it. */
  lemma FatesIff(s: State, a: Action, m: Model)
    requires Inv(s) && Enabled(s, a)
    ensures var after := Step(s, a);
            && (m in after.leaked <==> m in s.leaked || (a.GiveUp? && s.pcs[a.t] == UnloadWaiting(m))
                                       || (a.Take? && a.suspect && s.slot == Some(m)))
            && after.freed[m] == s.freed[m] + (if a.Free? && s.pcs[a.t] == UnloadClear(m) then 1 else 0)
            && (s.slot == Some(m) && after.slot != Some(m) ==> a.Take?)
  {
    hide Exclusive, Counted, Quiet, ThreadsOk, Placed;
  }

  lemma StepAccounts(s: State, a: Action)
    requires Inv(s) && Accounted(s) && Enabled(s, a)
    ensures Accounted(Step(s, a))
  {
    hide Inv, Enabled, Step, Accounted;
    forall m: Model | m < Step(s, a).nextModel
      ensures var after := Step(s, a); after.slot == Some(m) || m in after.freed || m in after.leaked || HeldBySome(after, m)
    {
      ModelAccounted(s, a, m);
    }
    AccountedIf(Step(s, a));
  }

  lemma AccountedIf(s: State)
    requires forall m: Model :: m < s.nextModel ==> s.slot == Some(m) || m in s.freed || m in s.leaked || HeldBySome(s, m)
    ensures Accounted(s)
  {}

  lemma ModelAccounted(s: State, a: Action, m: Model)
    requires Inv(s) && Accounted(s) && Enabled(s, a) && m < Step(s, a).nextModel
    ensures var after := Step(s, a); after.slot == Some(m) || m in after.freed || m in after.leaked || HeldBySome(after, m)
  {
    var after := Step(s, a);
    FatesIff(s, a, m);
    hide Inv;
    if m < s.nextModel && HeldBySome(s, m) {
      var t :| t in s.pcs && Holds(s.pcs[t], m);
      StillHeld(s, a, t, m);
    } else if s.slot == Some(m) && after.slot != Some(m) {
      assert Holds(after.pcs[a.t], m) || m in after.leaked;
    }
  }

  lemma StillHeld(s: State, a: Action, t: nat, m: Model)
    requires Enabled(s, a) && t in s.pcs && Holds(s.pcs[t], m)
    ensures var after := Step(s, a); HeldBySome(after, m) || m in after.freed || m in after.leaked
  {
    var after := Step(s, a);
    if after.pcs[t] == s.pcs[t] || a.SeeZero? { assert Holds(after.pcs[t], m); }
  }

  lemma {:induction false} RunAccounts(run: seq<Action>, s: State)
    requires IsRun(run, s)
    ensures Accounted(s)
  {
    hide Step, Enabled, Accounted;
    if run == [] {
      NothingLoaded();
    } else {
      var before :| IsRun(run[..|run| - 1], before) && Takes(before, run[|run| - 1], s);
      RunAccounts(run[..|run| - 1], before);
      RunKeeps(run[..|run| - 1], before);
      StepAccounts(before, run[|run| - 1]);
    }
  }

  lemma NothingLoaded()
    ensures Accounted(START)
  {}

  /** In every reachable state each model ever loaded is in exactly one of those places, and in the hands of one unload at most. */
  lemma OnePlaceEach(s: State, m: Model)
    requires Reachable(s) && m < s.nextModel
    ensures s.slot == Some(m) || m in s.freed || m in s.leaked || HeldBySome(s, m)
    ensures HeldBySome(s, m) ==> s.slot != Some(m) && m !in s.freed && m !in s.leaked
    ensures s.slot == Some(m) ==> m !in s.freed && m !in s.leaked
    ensures m in s.freed ==> s.freed[m] == 1 && m !in s.leaked
    ensures forall t, u :: t in s.pcs && u in s.pcs && Holds(s.pcs[t], m) && Holds(s.pcs[u], m) ==> t == u
  {
    ReachableInv(s);
    var run :| IsRun(run, s);
    RunAccounts(run, s);
    hide IsRun, Counted, Quiet, ThreadsOk, Holds;
    if HeldBySome(s, m) {
      var t :| t in s.pcs && Holds(s.pcs[t], m);
      HeldApart(s, t, m);
    }
    forall t, u | t in s.pcs && u in s.pcs && Holds(s.pcs[t], m) && Holds(s.pcs[u], m) ensures t == u {
      HoldersLock(s.pcs[t], m);
      HoldersLock(s.pcs[u], m);
    }
  }

  lemma HoldersLock(pc: Pc, m: Model)
    requires Holds(pc, m)
    ensures HoldsLock(pc)
  {}

  lemma HeldApart(s: State, t: nat, m: Model)
    requires ThreadsOk(s) && t in s.pcs && Holds(s.pcs[t], m)
    ensures s.slot != Some(m) && m !in s.freed && m !in s.leaked
  {
    assert ThreadOk(s, s.pcs[t]);
  }
}
