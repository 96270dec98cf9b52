/**
 `cancellation::wait` and `wait_until`: a condition variable whose waiters also wake on a stop request. Threads are
 step machines over the caller's lock, which protects the predicates, and the condition's own
 mutex, which protects the generation counter. The stop state's mutex is only held for single
 reads and updates, which are single steps here.
 */
module ConditionWait {
  import opened Optional

  type Tid = int

  /** Where `notify_all` returns to. */
  datatype Caller = Waiter | LockedMutator | FreeMutator | Dispatcher(target: Tid, locked: bool)

  datatype Pc =
    | Idle
      // wait_with_probes and Condition::wait, or the same with a deadline, entered with the caller's lock held
    | Registering
    | ReadGeneration
    | CheckPredicate(seen: nat)
    | LockCondition(seen: nat)
    | CompareGeneration(seen: nat)
    | UnlockCaller(seen: nat)
    | Enroll(seen: nat)
    | Asleep(since: nat)   // enrolled when `wakes` had this value
    | Woken(late: bool)    // late: by the deadline
    | UnlockCondition(late: bool)
    | RelockCaller(late: bool)
    | Evaluating(late: bool)  // the predicate, for the value to return
    | Unregistering(late: bool, value: bool)
    | Deactivating(late: bool, value: bool)
    | Returned(late: bool, value: bool)
      // a thread that changes what the predicates read
    | WantCaller
    | Changing
    | Owing
    | Returning
      // notify_all
    | NotifyLock(caller: Caller)
    | NotifyBump(caller: Caller)
    | NotifyUnlock(caller: Caller)
    | NotifyWake(caller: Caller)
      // request_stop, running the callbacks it took over
    | Dispatching(locked: bool)

  datatype State = State(
    callerLock: Option<Tid>,
    conditionLock: Option<Tid>,
    generation: nat,
    wakes: nat,            // how often all sleepers have been notified
    ready: set<Tid>,       // the waiters whose predicate is true
    stop: bool,
    registered: set<Tid>,  // wake callbacks in the stop state
    todo: set<Tid>,        // wake callbacks the dispatcher has yet to run
    pc: map<Tid, Pc>)

  datatype Action =
    | EnterWait(t: Tid)
    | BeginChange(t: Tid)
    | RequestStop(t: Tid)
    | Change(t: Tid, ready: set<Tid>)
    | ReleaseFirst(t: Tid)       // unlock before notifying
    | WakeSpuriously(t: Tid)
    | TimeOut(t: Tid)
    | DispatchTo(t: Tid, target: Tid)
    | Step(t: Tid)               // the only thing the thread can do where it is

  function PcOf(s: State, t: Tid): Pc {
    if t in s.pc then s.pc[t] else Idle
  }

  predicate HoldsCaller(pc: Pc) {
    match pc
    case Registering | ReadGeneration | CheckPredicate(_) | LockCondition(_) => true
    case CompareGeneration(_) | UnlockCaller(_) => true
    case Evaluating(_) | Unregistering(_, _) | Deactivating(_, _) | Returned(_, _) => true
    case Returning | Changing | Owing => true
    case Dispatching(locked) => locked
    case NotifyLock(c) => HoldsWhileNotifying(c)
    case NotifyBump(c) => HoldsWhileNotifying(c)
    case NotifyUnlock(c) => HoldsWhileNotifying(c)
    case NotifyWake(c) => HoldsWhileNotifying(c)
    case _ => false
  }

  predicate HoldsWhileNotifying(c: Caller) {
    c.Waiter? || c.LockedMutator? || (c.Dispatcher? && c.locked)
  }

  predicate HoldsCondition(pc: Pc) {
    match pc
    case CompareGeneration(_) | UnlockCaller(_) | Enroll(_) | UnlockCondition(_) => true
    case NotifyBump(_) | NotifyUnlock(_) => true
    case _ => false
  }

  predicate IsNotify(pc: Pc) {
    pc.NotifyLock? || pc.NotifyBump? || pc.NotifyUnlock? || pc.NotifyWake?
  }

  predicate NotifiesFor(pc: Pc, target: Tid) {
    IsNotify(pc) && pc.caller.Dispatcher? && pc.caller.target == target
  }

  /** The wake callback's body is running for this waiter on another thread. */
  ghost predicate Executing(s: State, target: Tid) {
    exists u :: NotifiesFor(PcOf(s, u), target)
  }

  /** The wake callback of this waiter may still be run. */
  predicate CallbackActive(pc: Pc) {
    InWait(pc) && !pc.Deactivating? && !pc.Returned?
  }

  predicate InWait(pc: Pc) {
    || pc.Registering? || pc.ReadGeneration? || pc.CheckPredicate? || pc.LockCondition? || pc.CompareGeneration?
    || pc.UnlockCaller? || pc.Enroll? || pc.Asleep? || pc.Woken? || pc.UnlockCondition? || pc.RelockCaller?
    || pc.Evaluating? || pc.Unregistering? || pc.Deactivating? || pc.Returned?
    || (IsNotify(pc) && pc.caller.Waiter?)
  }

  predicate Satisfied(s: State, t: Tid) {
    t in s.ready || s.stop
  }

  function Goto(s: State, t: Tid, pc: Pc): State {
    s.(pc := s.pc[t := pc])
  }

  function AfterNotify(caller: Caller): Pc {
    match caller
    case Waiter => ReadGeneration
    case LockedMutator => Returning
    case FreeMutator => Idle
    case Dispatcher(_, locked) => Dispatching(locked)
  }

  /** The guard of the one step a thread can take where it is. */
  ghost predicate CanStep(s: State, t: Tid) {
    match PcOf(s, t)
    case Idle => false
    case Asleep(since) => since < s.wakes
    case ReadGeneration => s.conditionLock.None?
    case LockCondition(_) => s.conditionLock.None?
    case Woken(_) => s.conditionLock.None?
    case NotifyLock(_) => s.conditionLock.None?
    case RelockCaller(_) => s.callerLock.None?
    case WantCaller => s.callerLock.None?
    case Deactivating(_, _) => !Executing(s, t)
    case Dispatching(_) => s.todo == {}
    case _ => true
  }

  function StepOf(s: State, t: Tid): State {
    match PcOf(s, t)
    case Idle => s
    case Asleep(_) => Goto(s, t, Woken(false))
    case Registering =>
      if s.stop then Goto(s, t, NotifyLock(Waiter))
      else Goto(s.(registered := s.registered + {t}), t, ReadGeneration)
    case ReadGeneration => Goto(s, t, CheckPredicate(s.generation))
    case CheckPredicate(g) => Goto(s, t, if Satisfied(s, t) then Evaluating(false) else LockCondition(g))
    case LockCondition(g) => Goto(s.(conditionLock := Some(t)), t, CompareGeneration(g))
    case CompareGeneration(g) =>
      if s.generation != g then Goto(s.(conditionLock := None), t, ReadGeneration)
      else Goto(s, t, UnlockCaller(g))
    case UnlockCaller(g) => Goto(s.(callerLock := None), t, Enroll(g))
    case Enroll(_) => Goto(s.(conditionLock := None), t, Asleep(s.wakes))
    case Woken(late) => Goto(s.(conditionLock := Some(t)), t, UnlockCondition(late))
    case UnlockCondition(late) => Goto(s.(conditionLock := None), t, RelockCaller(late))
    case RelockCaller(late) => Goto(s.(callerLock := Some(t)), t, if late then Evaluating(true) else ReadGeneration)
    case Evaluating(late) => Goto(s, t, Unregistering(late, t in s.ready))
    case Unregistering(late, value) => Goto(s.(registered := s.registered - {t}), t, Deactivating(late, value))
    case Deactivating(late, value) => Goto(s, t, Returned(late, value))
    case Returned(_, _) => Goto(s.(callerLock := None), t, Idle)
    case Returning => Goto(s.(callerLock := None), t, Idle)
    case WantCaller => Goto(s.(callerLock := Some(t)), t, Changing)
    case Changing => Goto(s, t, Returning)
    case Owing => Goto(s, t, NotifyLock(LockedMutator))
    case NotifyLock(c) => Goto(s.(conditionLock := Some(t)), t, NotifyBump(c))
    case NotifyBump(c) => Goto(s.(generation := s.generation + 1), t, NotifyUnlock(c))
    case NotifyUnlock(c) => Goto(s.(conditionLock := None), t, NotifyWake(c))
    case NotifyWake(c) => Goto(s.(wakes := s.wakes + 1), t, AfterNotify(c))
    case Dispatching(locked) => Goto(s, t, if locked then Returning else Idle)
  }

  ghost predicate Allowed(s: State, a: Action) {
    match a
    case EnterWait(t) => PcOf(s, t).Idle? && s.callerLock.None?
    case BeginChange(t) => PcOf(s, t).Idle?
    case RequestStop(t) => (PcOf(s, t).Idle? || PcOf(s, t).Changing?) && !s.stop
    case Change(t, _) => PcOf(s, t).Changing?
    case ReleaseFirst(t) => PcOf(s, t).Owing?
    case WakeSpuriously(t) => PcOf(s, t).Asleep?
    case TimeOut(t) => PcOf(s, t).Asleep?
    case DispatchTo(t, target) => PcOf(s, t).Dispatching? && target in s.todo
    case Step(t) => CanStep(s, t)
  }

  function Apply(s: State, a: Action): State {
    match a
    case EnterWait(t) => Goto(s.(callerLock := Some(t)), t, Registering)
    case BeginChange(t) => Goto(s, t, WantCaller)
    case RequestStop(t) =>
      Goto(s.(stop := true, todo := s.registered, registered := {}), t, Dispatching(PcOf(s, t).Changing?))
    case Change(t, ready) => Goto(s.(ready := ready), t, if ready <= s.ready then Returning else Owing)
    case ReleaseFirst(t) => Goto(s.(callerLock := None), t, NotifyLock(FreeMutator))
    case WakeSpuriously(t) => Goto(s, t, Woken(false))
    case TimeOut(t) => Goto(s, t, Woken(true))
    case DispatchTo(t, target) =>
      var rest := s.(todo := s.todo - {target});
      var body := NotifyLock(Dispatcher(target, PcOf(s, t) == Dispatching(true)));
      if CallbackActive(PcOf(s, target)) then Goto(rest, t, body) else rest
    case Step(t) => StepOf(s, t)
  }

  function Initial(): State {
    State(None, None, 0, 0, {}, false, {}, {}, map[])
  }

  ghost predicate Legal(actions: seq<Action>) {
    actions == [] || (Legal(actions[..|actions| - 1]) && Allowed(Run(actions[..|actions| - 1]), actions[|actions| - 1]))
  }

  ghost function Run(actions: seq<Action>): State {
    if actions == [] then Initial() else Apply(Run(actions[..|actions| - 1]), actions[|actions| - 1])
  }

  // ---------------------------------------------------------------- the invariant

  /** A notification of the waiter is on its way and has not bumped the generation yet. */
  ghost predicate BumpToCome(s: State, t: Tid) {
    || t in s.todo
    || exists u :: PcOf(s, u).Owing? || PcOf(s, u).NotifyLock? || PcOf(s, u).NotifyBump?
  }

  /** A notification of the waiter is on its way and has not woken it yet. */
  ghost predicate WakeToCome(s: State, t: Tid) {
    t in s.todo || exists u :: PcOf(s, u).Owing? || IsNotify(PcOf(s, u))
  }

  ghost predicate LocksOk(s: State) {
    && (forall t :: HoldsCaller(PcOf(s, t)) <==> s.callerLock == Some(t))
    && (forall t :: HoldsCondition(PcOf(s, t)) <==> s.conditionLock == Some(t))
  }

  ghost predicate WaiterOk(s: State, t: Tid) {
    match PcOf(s, t)
    case CheckPredicate(g) => g <= s.generation && (t in s.registered || s.stop)
    case LockCondition(g) => g <= s.generation && Enrolling(s, t)
        && (Satisfied(s, t) && g == s.generation ==> BumpToCome(s, t))
    case CompareGeneration(g) => g <= s.generation && Enrolling(s, t)
        && (Satisfied(s, t) && g == s.generation ==> BumpToCome(s, t))
    case UnlockCaller(g) => g == s.generation && Enrolling(s, t) && (Satisfied(s, t) ==> BumpToCome(s, t))
    case Enroll(g) => g == s.generation && Enrolling(s, t) && (Satisfied(s, t) ==> BumpToCome(s, t))
    case Evaluating(late) => !late ==> Satisfied(s, t)
    case Unregistering(late, value) => (value <==> t in s.ready) && (!late ==> Satisfied(s, t))
    case Deactivating(late, value) =>
      (value <==> t in s.ready) && (!late ==> Satisfied(s, t)) && t !in s.registered
    case Returned(late, value) =>
      (value <==> t in s.ready) && (!late ==> Satisfied(s, t)) && t !in s.registered && !Executing(s, t)
    case Asleep(since) => since <= s.wakes && Enrolling(s, t)
        && (Satisfied(s, t) && since == s.wakes ==> WakeToCome(s, t))
    case _ => true
  }

  /** A waiter on its way to sleep is known to the stop state, unless the stop has come. */
  ghost predicate Enrolling(s: State, t: Tid) {
    t in s.registered || s.stop
  }

  predicate AwakeInWait(pc: Pc) {
    pc.ReadGeneration? || pc.Woken? || pc.UnlockCondition? || pc.RelockCaller?
  }

  /** Where a waiter's callback is registered and its thread is. */
  ghost predicate RegistrationOk(s: State, t: Tid) {
    && (AwakeInWait(PcOf(s, t)) ==> t in s.registered || s.stop)
    && (IsNotify(PcOf(s, t)) && PcOf(s, t).caller.Waiter? ==> s.stop)
    && (t in s.todo ==> s.stop)
  }

  ghost predicate Inv(s: State) {
    && LocksOk(s)
    && (forall t :: WaiterOk(s, t))
    && (forall t :: RegistrationOk(s, t))
    && (s.todo != {} ==> exists u :: IsDispatcher(PcOf(s, u)))
  }

  predicate IsDispatcher(pc: Pc) {
    pc.Dispatching? || (IsNotify(pc) && pc.caller.Dispatcher?)
  }

  // ---------------------------------------------------------------- what one action changes

  predicate Wakes(s: State, a: Action) {
    a.Step? && PcOf(s, a.t).NotifyWake?
  }

  predicate Bumps(s: State, a: Action) {
    a.Step? && PcOf(s, a.t).NotifyBump?
  }

  lemma OthersKeepPc(s: State, a: Action, w: Tid)
    requires w != a.t
    ensures PcOf(Apply(s, a), w) == PcOf(s, w)
  {
  }

  /** A lock changes hands only from or to the acting thread. */
  predicate LockMoves(before: Option<Tid>, after: Option<Tid>, t: Tid) {
    after == before || (before == Some(t) && after.None?) || (before.None? && after == Some(t))
  }

  ghost predicate ActorLocksOk(s: State, after: State, t: Tid) {
    && (HoldsCaller(PcOf(after, t)) <==> after.callerLock == Some(t))
    && (HoldsCondition(PcOf(after, t)) <==> after.conditionLock == Some(t))
    && LockMoves(s.callerLock, after.callerLock, t)
    && LockMoves(s.conditionLock, after.conditionLock, t)
  }

  /** On the way to sleep. */
  predicate TowardsSleep(pc: Pc) {
    || pc.Registering? || pc.ReadGeneration? || pc.CheckPredicate? || pc.LockCondition? || pc.CompareGeneration?
    || pc.UnlockCaller? || pc.Enroll? || pc.Asleep?
  }

  ghost predicate LocksAgree(s: State, t: Tid) {
    && (HoldsCaller(PcOf(s, t)) <==> s.callerLock == Some(t))
    && (HoldsCondition(PcOf(s, t)) <==> s.conditionLock == Some(t))
  }

  lemma SleepStepLocks(s: State, t: Tid)
    requires LocksAgree(s, t) && CanStep(s, t) && TowardsSleep(PcOf(s, t))
    ensures ActorLocksOk(s, StepOf(s, t), t)
  {
    hide Executing, Satisfied;
  }

  lemma NotifyStepLocks(s: State, t: Tid)
    requires LocksAgree(s, t) && CanStep(s, t) && IsNotify(PcOf(s, t))
    ensures ActorLocksOk(s, StepOf(s, t), t)
  {
    hide Executing, Satisfied;
  }

  lemma OtherStepLocks(s: State, t: Tid)
    requires LocksAgree(s, t) && CanStep(s, t) && !TowardsSleep(PcOf(s, t)) && !IsNotify(PcOf(s, t))
    ensures ActorLocksOk(s, StepOf(s, t), t)
  {
    hide Executing, Satisfied;
  }

  lemma OtherActionLocks(s: State, a: Action)
    requires LocksAgree(s, a.t) && Allowed(s, a) && !a.Step?
    ensures ActorLocksOk(s, Apply(s, a), a.t)
  {
    hide CanStep, StepOf, CallbackActive;
  }

  lemma ActorLocks(s: State, a: Action)
    requires LocksAgree(s, a.t) && Allowed(s, a)
    ensures ActorLocksOk(s, Apply(s, a), a.t)
  {
    hide CanStep, StepOf, LocksAgree, ActorLocksOk;
    if !a.Step? {
      OtherActionLocks(s, a);
    } else if TowardsSleep(PcOf(s, a.t)) {
      SleepStepLocks(s, a.t);
    } else if IsNotify(PcOf(s, a.t)) {
      NotifyStepLocks(s, a.t);
    } else {
      OtherStepLocks(s, a.t);
    }
  }

  lemma KeepsLocks(s: State, a: Action)
    requires LocksOk(s) && Allowed(s, a)
    ensures LocksOk(Apply(s, a))
  {
    hide Apply, Allowed;
    assert LocksAgree(s, a.t);
    ActorLocks(s, a);
    forall w | w != a.t
      ensures HoldsCaller(PcOf(Apply(s, a), w)) <==> Apply(s, a).callerLock == Some(w)
      ensures HoldsCondition(PcOf(Apply(s, a), w)) <==> Apply(s, a).conditionLock == Some(w)
    {
      OthersKeepPc(s, a, w);
    }
  }

  lemma SharedFields(s: State, a: Action)
    requires Allowed(s, a)
    ensures var after := Apply(s, a);
            && after.generation == (if Bumps(s, a) then s.generation + 1 else s.generation)
            && after.wakes == (if Wakes(s, a) then s.wakes + 1 else s.wakes)
            && (s.stop ==> after.stop)
            && (after.ready != s.ready ==> a.Change?)
            && (after.stop != s.stop ==> a.RequestStop?)
            && (forall w :: w in s.registered && w != a.t ==> w in after.registered || after.stop)
            && (forall w :: w in after.registered && w != a.t ==> w in s.registered)
            && (forall w :: w in s.todo ==> w in after.todo || (a.DispatchTo? && w == a.target) || a.RequestStop?)
            && (forall w :: w in after.todo ==> w in s.todo || a.RequestStop?)
  {
  }

  // ---------------------------------------------------------------- every step keeps the invariant

  /** A bump that is to come stays to come until it happens. */
  lemma BumpFrame(s: State, a: Action, w: Tid)
    requires Inv(s) && Allowed(s, a) && w != a.t
    requires BumpToCome(s, w) && CallbackActive(PcOf(s, w))
    ensures BumpToCome(Apply(s, a), w) || Bumps(s, a)
  {
    hide LocksOk, WaiterOk, Executing;
    var after := Apply(s, a);
    SharedFields(s, a);
    assert RegistrationOk(s, w);
    if w in s.todo {
      if a.DispatchTo? && a.target == w {
        assert PcOf(after, a.t).NotifyLock?;
      }
    } else {
      var u :| PcOf(s, u).Owing? || PcOf(s, u).NotifyLock? || PcOf(s, u).NotifyBump?;
      if u != a.t {
        OthersKeepPc(s, a, u);
        assert PcOf(after, u) == PcOf(s, u);
      } else if !Bumps(s, a) {
        assert PcOf(after, u).NotifyLock? || PcOf(after, u).NotifyBump?;
      }
    }
  }

  lemma WakeFrame(s: State, a: Action, w: Tid)
    requires Inv(s) && Allowed(s, a) && w != a.t
    requires WakeToCome(s, w) && CallbackActive(PcOf(s, w))
    ensures WakeToCome(Apply(s, a), w) || Wakes(s, a)
  {
    hide LocksOk, WaiterOk, Executing;
    var after := Apply(s, a);
    SharedFields(s, a);
    assert RegistrationOk(s, w);
    if w in s.todo {
      if a.DispatchTo? && a.target == w {
        assert PcOf(after, a.t).NotifyLock?;
      }
    } else {
      var u :| PcOf(s, u).Owing? || IsNotify(PcOf(s, u));
      if u != a.t {
        OthersKeepPc(s, a, u);
        assert PcOf(after, u) == PcOf(s, u);
      } else if !Wakes(s, a) {
        assert IsNotify(PcOf(after, u));
      }
    }
  }

  /** Whatever satisfies a waiter on its way to sleep also owes it a notification. */
  lemma SatisfyingOwes(s: State, a: Action, w: Tid)
    requires Inv(s) && Allowed(s, a) && w != a.t && Enrolling(s, w)
    requires !Satisfied(s, w) && Satisfied(Apply(s, a), w)
    ensures BumpToCome(Apply(s, a), w)
  {
    SharedFields(s, a);
    if a.Change? {
      assert PcOf(Apply(s, a), a.t).Owing?;
    }
  }

  predicate Leaving(pc: Pc) {
    pc.Evaluating? || pc.Unregistering? || pc.Deactivating? || pc.Returned?
  }

  /** While a waiter that leaves holds the caller's lock, nobody changes its predicate. */
  lemma LeavingStays(s: State, a: Action, w: Tid)
    requires Inv(s) && Allowed(s, a) && w != a.t && Leaving(PcOf(s, w))
    ensures w in Apply(s, a).ready <==> w in s.ready
    ensures Satisfied(s, w) ==> Satisfied(Apply(s, a), w)
  {
    hide Apply, WaiterOk, RegistrationOk, HoldsCondition, CanStep, Executing;
    SharedFields(s, a);
    assert HoldsCaller(PcOf(s, w)) && s.callerLock == Some(w);
    assert !HoldsCaller(PcOf(s, a.t));
  }

  /** No callback body starts for a waiter that has returned. */
  lemma StaysQuiet(s: State, a: Action, w: Tid)
    requires Allowed(s, a) && w != a.t && PcOf(s, w).Returned? && !Executing(s, w)
    ensures !Executing(Apply(s, a), w)
  {
    hide Apply, Allowed;
    forall u ensures !NotifiesFor(PcOf(Apply(s, a), u), w) {
      assert !NotifiesFor(PcOf(s, u), w);
      if u == a.t { StartsNoBody(s, a, w); } else { OthersKeepPc(s, a, u); }
    }
  }

  lemma StartsNoBody(s: State, a: Action, w: Tid)
    requires Allowed(s, a) && PcOf(s, w).Returned? && !NotifiesFor(PcOf(s, a.t), w)
    ensures !NotifiesFor(PcOf(Apply(s, a), a.t), w)
  {
    hide StepOf, CanStep;
    if a.Step? { StepStartsNoBody(s, a.t, w); }
  }

  lemma StepStartsNoBody(s: State, t: Tid, w: Tid)
    requires !NotifiesFor(PcOf(s, t), w)
    ensures !NotifiesFor(PcOf(StepOf(s, t), t), w)
  {
    hide Satisfied;
  }

  lemma KeepsOtherWaiter(s: State, a: Action, w: Tid)
    requires Inv(s) && Allowed(s, a) && w != a.t
    ensures WaiterOk(Apply(s, a), w)
  {
    hide Apply, Allowed, BumpToCome, WakeToCome, HoldsCaller;
    var after := Apply(s, a);
    OthersKeepPc(s, a, w);
    SharedFields(s, a);
    assert WaiterOk(s, w);
    var pc := PcOf(s, w);
    if Leaving(pc) { LeavingStays(s, a, w); }
    if pc.Returned? { StaysQuiet(s, a, w); }
    if pc.LockCondition? || pc.CompareGeneration? || pc.UnlockCaller? || pc.Enroll? || pc.Asleep? {
      if !Satisfied(s, w) && Satisfied(after, w) { SatisfyingOwes(s, a, w); }
      if pc.Asleep? {
        if WakeToCome(s, w) { WakeFrame(s, a, w); }
        BumpIsWake(after, w);
      } else if BumpToCome(s, w) {
        BumpFrame(s, a, w);
      }
      if pc.UnlockCaller? || pc.Enroll? {
        assert HoldsCondition(pc) && s.conditionLock == Some(w);
        assert !HoldsCondition(PcOf(s, a.t));
      }
    }
  }

  lemma BumpIsWake(s: State, w: Tid)
    ensures BumpToCome(s, w) ==> WakeToCome(s, w)
  {
    if BumpToCome(s, w) && w !in s.todo {
      var u :| PcOf(s, u).Owing? || PcOf(s, u).NotifyLock? || PcOf(s, u).NotifyBump?;
      assert PcOf(s, u).Owing? || IsNotify(PcOf(s, u));
    }
  }

  /** Between the check of the predicate and sleep. */
  predicate FallingAsleep(pc: Pc) {
    pc.LockCondition? || pc.CompareGeneration? || pc.UnlockCaller? || pc.Enroll?
  }

  lemma KeepsFallingAsleep(s: State, a: Action)
    requires Inv(s) && Allowed(s, a) && a.Step? && FallingAsleep(PcOf(s, a.t))
    ensures WaiterOk(Apply(s, a), a.t)
  {
    assert WaiterOk(s, a.t);
    BumpIsWake(s, a.t);
    KeepsPending(s, a);
    hide Inv, Executing, BumpToCome, WakeToCome;
  }

  /** The invariant says nothing of a thread there. */
  predicate Unclaimed(pc: Pc) {
    && !pc.CheckPredicate? && !pc.LockCondition? && !pc.CompareGeneration? && !pc.UnlockCaller?
    && !pc.Enroll? && !pc.Asleep? && !Leaving(pc)
  }

  lemma UnclaimedIsOk(s: State, t: Tid)
    requires Unclaimed(PcOf(s, t))
    ensures WaiterOk(s, t)
  {
  }

  /** The steps after which the invariant does say something. */
  predicate Claiming(pc: Pc) {
    pc.ReadGeneration? || pc.CheckPredicate? || pc.RelockCaller? || (Leaving(pc) && !pc.Returned?)
  }

  lemma KeepsClaiming(s: State, t: Tid)
    requires Inv(s) && CanStep(s, t) && Claiming(PcOf(s, t))
    ensures WaiterOk(StepOf(s, t), t)
  {
    assert WaiterOk(s, t) && RegistrationOk(s, t);
    hide Inv, Executing, BumpToCome, WakeToCome;
    if Leaving(PcOf(s, t)) { KeepsLeaving(s, t); }
  }

  lemma KeepsLeaving(s: State, t: Tid)
    requires WaiterOk(s, t) && CanStep(s, t) && Leaving(PcOf(s, t)) && !PcOf(s, t).Returned?
    ensures WaiterOk(StepOf(s, t), t)
  {
    QuietStays(s, t, StepOf(s, t));
    hide Executing, BumpToCome, WakeToCome;
  }

  lemma QuietStays(s: State, t: Tid, after: State)
    requires forall u :: u != t ==> PcOf(after, u) == PcOf(s, u)
    ensures !Executing(s, t) && !IsNotify(PcOf(after, t)) ==> !Executing(after, t)
  {
    if u :| u != t && NotifiesFor(PcOf(after, u), t) {
      assert NotifiesFor(PcOf(s, u), t);
    }
  }

  lemma OtherStepUnclaimed(s: State, t: Tid)
    requires CanStep(s, t) && !Claiming(PcOf(s, t)) && !FallingAsleep(PcOf(s, t))
    ensures Unclaimed(PcOf(StepOf(s, t), t))
  {
    hide Executing, Satisfied;
  }

  lemma OtherActionUnclaimed(s: State, a: Action)
    requires Allowed(s, a) && !a.Step?
    ensures Unclaimed(PcOf(Apply(s, a), a.t))
  {
    hide CanStep, StepOf, CallbackActive;
  }

  /** The acting waiter: it goes to sleep only unsatisfied, or with a bump still to come. */
  lemma KeepsActor(s: State, a: Action)
    requires Inv(s) && Allowed(s, a)
    ensures WaiterOk(Apply(s, a), a.t)
  {
    hide Inv, StepOf, CanStep, WaiterOk, Unclaimed;
    if !a.Step? {
      OtherActionUnclaimed(s, a);
      UnclaimedIsOk(Apply(s, a), a.t);
    } else if FallingAsleep(PcOf(s, a.t)) {
      KeepsFallingAsleep(s, a);
    } else if Claiming(PcOf(s, a.t)) {
      KeepsClaiming(s, a.t);
    } else {
      OtherStepUnclaimed(s, a.t);
      UnclaimedIsOk(Apply(s, a), a.t);
    }
  }

  /** The steps of a waiter towards sleep leave every pending notification where it is. */
  lemma KeepsPending(s: State, a: Action)
    requires a.Step? && FallingAsleep(PcOf(s, a.t))
    ensures BumpToCome(s, a.t) ==> BumpToCome(Apply(s, a), a.t)
    ensures WakeToCome(s, a.t) ==> WakeToCome(Apply(s, a), a.t)
  {
    var after := Apply(s, a);
    if u :| PcOf(s, u).Owing? || PcOf(s, u).NotifyLock? || PcOf(s, u).NotifyBump? {
      OthersKeepPc(s, a, u);
      assert PcOf(after, u) == PcOf(s, u);
    }
    if u :| PcOf(s, u).Owing? || IsNotify(PcOf(s, u)) {
      OthersKeepPc(s, a, u);
      assert PcOf(after, u) == PcOf(s, u);
    }
  }

  lemma KeepsRegistration(s: State, a: Action, w: Tid)
    requires Inv(s) && Allowed(s, a)
    ensures RegistrationOk(Apply(s, a), w)
  {
    hide Executing, LocksOk, BumpToCome, WakeToCome;
    SharedFields(s, a);
    assert RegistrationOk(s, w) && WaiterOk(s, w);
    if w != a.t { OthersKeepPc(s, a, w); }
  }

  lemma KeepsDispatcher(s: State, a: Action)
    requires Inv(s) && Allowed(s, a) && Apply(s, a).todo != {}
    ensures exists u :: IsDispatcher(PcOf(Apply(s, a), u))
  {
    hide LocksOk, WaiterOk, Executing, RegistrationOk;
    var after := Apply(s, a);
    SharedFields(s, a);
    if a.RequestStop? {
      assert IsDispatcher(PcOf(after, a.t));
    } else {
      assert after.todo <= s.todo;
      assert s.todo != {};
      var u :| IsDispatcher(PcOf(s, u));
      if u != a.t { OthersKeepPc(s, a, u); }
      assert IsDispatcher(PcOf(after, u));
    }
  }

  lemma KeepsInv(s: State, a: Action)
    requires Inv(s) && Allowed(s, a)
    ensures Inv(Apply(s, a))
  {
    hide Apply, Allowed, WaiterOk, RegistrationOk, LocksOk;
    KeepsLocks(s, a);
    forall w
      ensures WaiterOk(Apply(s, a), w) && RegistrationOk(Apply(s, a), w)
    {
      KeepsRegistration(s, a, w);
      if w == a.t { KeepsActor(s, a); } else { KeepsOtherWaiter(s, a, w); }
    }
    if Apply(s, a).todo != {} { KeepsDispatcher(s, a); }
  }

  lemma {:induction false} InvAlways(actions: seq<Action>)
    requires Legal(actions)
    ensures Inv(Run(actions))
  {
    if actions != [] {
      InvAlways(actions[..|actions| - 1]);
      KeepsInv(Run(actions[..|actions| - 1]), actions[|actions| - 1]);
    }
  }

  // ---------------------------------------------------------------- the results

  /** A sleeper that no notification has reached since it enrolled. */
  predicate FastAsleep(s: State, t: Tid) {
    PcOf(s, t).Asleep? && PcOf(s, t).since == s.wakes
  }

  /**
   No lost wakeup: in every run, a waiter that sleeps on while its predicate holds or the stop has
   been requested has a notification still to come.
   */
  lemma NoLostWakeup(actions: seq<Action>, t: Tid)
    requires Legal(actions) && FastAsleep(Run(actions), t) && (t in Run(actions).ready || Run(actions).stop)
    ensures WakeToCome(Run(actions), t)
  {
    InvAlways(actions);
    assert WaiterOk(Run(actions), t);
  }

  /**
   A wait returns with the caller's lock held, its wake callback gone and quiet, and the value of the
   predicate; it returns false only after a stop request or by its deadline.
   */
  lemma WaitEndsRightfully(actions: seq<Action>, t: Tid)
    requires Legal(actions) && PcOf(Run(actions), t).Returned?
    ensures var s := Run(actions);
            && s.callerLock == Some(t) && t !in s.registered && !Executing(s, t)
            && (PcOf(s, t).value <==> t in s.ready)
            && (!PcOf(s, t).value ==> s.stop || PcOf(s, t).late)
  {
    InvAlways(actions);
    assert WaiterOk(Run(actions), t) && HoldsCaller(PcOf(Run(actions), t));
  }

  /** A waiter that its deadline has woken, on its way out. */
  predicate Late(pc: Pc) {
    (pc.Woken? || pc.UnlockCondition? || pc.RelockCaller? || Leaving(pc)) && pc.late
  }

  /** How many steps of its own it is from having returned. */
  function StepsLeft(pc: Pc): nat {
    match pc
    case Woken(_) => 6
    case UnlockCondition(_) => 5
    case RelockCaller(_) => 4
    case Evaluating(_) => 3
    case Unregistering(_, _) => 2
    case Deactivating(_, _) => 1
    case _ => 0
  }

  lemma LateStep(s: State, a: Action, t: Tid)
    requires Allowed(s, a) && Late(PcOf(s, t)) && !PcOf(s, t).Returned?
    ensures Late(PcOf(Apply(s, a), t))
    ensures StepsLeft(PcOf(Apply(s, a), t)) == StepsLeft(PcOf(s, t)) - if a.t == t then 1 else 0
  {
    hide Executing;
    if a.t != t { OthersKeepPc(s, a, t); }
  }

  /** How many of these actions are the thread's own. */
  function OwnSteps(actions: seq<Action>, t: Tid): nat {
    if actions == [] then 0
    else OwnSteps(actions[..|actions| - 1], t) + if actions[|actions| - 1].t == t then 1 else 0
  }

  /**
   A waiter that its deadline has woken does not sleep again: whatever the others do, each step of its
   own brings it one step nearer to its return.
   */
  lemma {:induction false} LateWaiterReturns(actions: seq<Action>, more: seq<Action>, t: Tid)
    requires Legal(actions + more) && Late(PcOf(Run(actions), t))
    requires OwnSteps(more, t) <= StepsLeft(PcOf(Run(actions), t))
    ensures Late(PcOf(Run(actions + more), t))
    ensures StepsLeft(PcOf(Run(actions + more), t)) == StepsLeft(PcOf(Run(actions), t)) - OwnSteps(more, t)
    decreases |more|
  {
    hide Late, StepsLeft, Allowed, Apply;
    if more == [] {
      assert actions + more == actions;
    } else {
      var all, last := actions + more, more[|more| - 1];
      var front := more[..|more| - 1];
      assert all[..|all| - 1] == actions + front && all[|all| - 1] == last;
      LateWaiterReturns(actions, front, t);
      hide Run, Legal;
      LateOrReturned(Run(actions + front), last, t);
    }
  }

  lemma LateOrReturned(s: State, a: Action, t: Tid)
    requires Allowed(s, a) && Late(PcOf(s, t)) && (a.t == t ==> StepsLeft(PcOf(s, t)) > 0)
    ensures Late(PcOf(Apply(s, a), t))
    ensures StepsLeft(PcOf(Apply(s, a), t)) == StepsLeft(PcOf(s, t)) - if a.t == t then 1 else 0
  {
    hide Allowed, Apply;
    if PcOf(s, t).Returned? {
      OthersKeepPc(s, a, t);
    } else {
      LateStep(s, a, t);
    }
  }

  /** A waiter that found the stop requested, before its own wake callback has bumped the generation. */
  predicate BeforeBump(pc: Pc) {
    pc.Registering? || ((pc.NotifyLock? || pc.NotifyBump?) && pc.caller.Waiter?)
  }

  predicate BeforeWake(pc: Pc) {
    BeforeBump(pc) || ((pc.NotifyUnlock? || pc.NotifyWake?) && pc.caller.Waiter?)
  }

  lemma LateRegistrationStep(s: State, a: Action, t: Tid)
    requires Allowed(s, a) && s.stop
    ensures var after := Apply(s, a);
            && after.stop && s.generation <= after.generation && s.wakes <= after.wakes
            && (BeforeBump(PcOf(s, t)) ==> BeforeBump(PcOf(after, t)) || s.generation < after.generation)
            && (BeforeWake(PcOf(s, t)) ==> BeforeWake(PcOf(after, t)) || s.wakes < after.wakes)
  {
    hide Executing;
    if a.t != t { OthersKeepPc(s, a, t); }
  }

  /**
   A waiter that registers after the stop runs its wake callback itself: it does not get past
   registration before the generation has been bumped and all sleepers notified.
   */
  lemma {:induction false} LateRegistrationNotifies(actions: seq<Action>, more: seq<Action>, t: Tid)
    requires Legal(actions + more) && PcOf(Run(actions), t).Registering? && Run(actions).stop
    ensures var s, after := Run(actions), Run(actions + more);
            && after.stop
            && (BeforeBump(PcOf(after, t)) || s.generation < after.generation)
            && (BeforeWake(PcOf(after, t)) || s.wakes < after.wakes)
    ensures Run(actions).generation <= Run(actions + more).generation && Run(actions).wakes <= Run(actions + more).wakes
    decreases |more|
  {
    hide BeforeBump, BeforeWake, Allowed, Apply;
    if more == [] {
      assert actions + more == actions;
      assert BeforeBump(PcOf(Run(actions), t)) && BeforeWake(PcOf(Run(actions), t)) by {
        Unregistered(PcOf(Run(actions), t));
      }
    } else {
      var all, last := actions + more, more[|more| - 1];
      var front := more[..|more| - 1];
      assert all[..|all| - 1] == actions + front && all[|all| - 1] == last;
      LateRegistrationNotifies(actions, front, t);
      hide Run, Legal;
      LateRegistrationStep(Run(actions + front), last, t);
    }
  }

  lemma Unregistered(pc: Pc)
    requires pc.Registering?
    ensures BeforeBump(pc) && BeforeWake(pc)
  {
  }

  /** The thread is inside an operation and not asleep. */
  predicate Busy(s: State, t: Tid) {
    !PcOf(s, t).Idle? && !FastAsleep(s, t)
  }

  /** Some thread can go on with the operation it is in. */
  ghost predicate Progress(s: State) {
    exists t :: CanGoOn(s, t)
  }

  ghost predicate CanGoOn(s: State, t: Tid) {
    CanStep(s, t) || (PcOf(s, t).Dispatching? && s.todo != {})
  }

  /** Nobody ever waits for the caller's lock while holding the condition's. */
  lemma NeverBlocksWithCondition(actions: seq<Action>, t: Tid)
    requires Legal(actions) && Run(actions).conditionLock == Some(t)
    ensures CanStep(Run(actions), t)
  {
    InvAlways(actions);
    assert HoldsCondition(PcOf(Run(actions), t));
  }

  /** A running callback body is past the point where it needs anything but the condition's mutex. */
  lemma NotifierGoesOn(s: State, u: Tid)
    requires Inv(s) && s.conditionLock.None? && IsNotify(PcOf(s, u))
    ensures CanStep(s, u)
  {
  }

  /** The holder of the caller's lock can go on, or the callback it waits for can. */
  lemma CallerGoesOn(s: State, t: Tid)
    requires Inv(s) && s.conditionLock.None? && s.callerLock == Some(t)
    ensures Progress(s)
  {
    hide WaiterOk, RegistrationOk;
    assert HoldsCaller(PcOf(s, t));
    if PcOf(s, t).Deactivating? && Executing(s, t) {
      var u :| NotifiesFor(PcOf(s, u), t);
      NotifierGoesOn(s, u);
      assert CanGoOn(s, u);
    } else {
      assert CanGoOn(s, t);
    }
  }

  /** No deadlock: in every run, as long as some thread is busy, some thread can go on. */
  lemma NoDeadlock(actions: seq<Action>, t: Tid)
    requires Legal(actions) && Busy(Run(actions), t)
    ensures Progress(Run(actions))
  {
    hide WaiterOk, RegistrationOk;
    var s := Run(actions);
    InvAlways(actions);
    if s.conditionLock.Some? {
      NeverBlocksWithCondition(actions, s.conditionLock.value);
      assert CanGoOn(s, s.conditionLock.value);
    } else if s.callerLock.Some? {
      CallerGoesOn(s, s.callerLock.value);
    } else {
      SleepersAreBehind(s, t);
      assert !HoldsCaller(PcOf(s, t));
      assert CanGoOn(s, t);
    }
  }

  lemma SleepersAreBehind(s: State, t: Tid)
    requires Inv(s)
    ensures PcOf(s, t).Asleep? ==> PcOf(s, t).since <= s.wakes
  {
    assert WaiterOk(s, t);
  }

  /** A sleeper whose condition holds has somebody at work for it. */
  lemma SomebodyIsBusy(actions: seq<Action>, t: Tid)
    requires Legal(actions) && FastAsleep(Run(actions), t) && (t in Run(actions).ready || Run(actions).stop)
    ensures exists u :: Busy(Run(actions), u)
  {
    hide Inv, Run, Legal, WakeToCome;
    InvAlways(actions);
    NoLostWakeup(actions, t);
    WakerIsBusy(Run(actions), t);
  }

  lemma WakerIsBusy(s: State, t: Tid)
    requires Inv(s) && WakeToCome(s, t)
    ensures exists u :: Busy(s, u)
  {
    hide LocksOk, WaiterOk, RegistrationOk;
    if t in s.todo {
      var u :| IsDispatcher(PcOf(s, u));
      assert Busy(s, u);
    } else {
      var u :| PcOf(s, u).Owing? || IsNotify(PcOf(s, u));
      assert Busy(s, u);
    }
  }

  /** So when everything has come to rest, only waiters sleep whose condition is false. */
  lemma RestIsRightful(actions: seq<Action>, t: Tid)
    requires Legal(actions) && (forall u :: !Busy(Run(actions), u)) && PcOf(Run(actions), t).Asleep?
    ensures t !in Run(actions).ready && !Run(actions).stop
  {
    assert !Busy(Run(actions), t) && FastAsleep(Run(actions), t);
    hide Busy, FastAsleep;
    if Satisfied(Run(actions), t) {
      SomebodyIsBusy(actions, t);
    }
  }
}
