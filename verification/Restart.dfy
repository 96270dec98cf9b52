/**
 `daemon restart` of the client: probe the daemon's surface, stop what runs, wait for three facts
 of its shutdown, spawn a replacement at most once and accept it. Everything the client looks at
 may change between any two looks, by the daemons and by other clients; what never happens is that
 a process instance or a socket identity that is gone comes back.
 */
module Restart {
  import opened Optional
  import opened LockRecord
  import opened DaemonOwnership

  /** One process, told apart from every other by its pid and start. */
  type Instance = (int, string)

  /** One incarnation of an endpoint, served by the process with this pid. */
  datatype Sock = Sock(id: nat, serverPid: int)

  /** The outside: the lock's owner, the sockets in place, the live processes, and all that ever was. */
  datatype World = World(
    owner: Option<Identity>, main: Option<Sock>, control: Option<Sock>, live: map<int, string>,
    owners: set<Instance>, mains: set<Sock>, controls: set<Sock>)

  function InstanceOf(identity: Identity): Instance {
    (identity.pid, identity.processStart)
  }

  predicate OwnerIs(w: World, i: Instance) {
    w.owner.Some? && InstanceOf(w.owner.value) == i
  }

  predicate Known<T(==)>(current: Option<T>, all: set<T>) {
    current.Some? ==> current.value in all
  }

  predicate OwnerKnown(owner: Option<Identity>, all: set<Instance>) {
    owner.Some? ==> InstanceOf(owner.value) in all
  }

  /** The owner lives: its lock would be gone otherwise. */
  predicate WorldOk(w: World) {
    && OwnerKnown(w.owner, w.owners) && Known(w.main, w.mains) && Known(w.control, w.controls)
    && (w.owner.Some? ==> w.owner.value.pid in w.live && w.live[w.owner.value.pid] == w.owner.value.processStart)
  }

  /** A slot keeps its occupant, empties, or takes one that was never seen before. */
  predicate Moves<T(==)>(before: Option<T>, past: set<T>, after: Option<T>) {
    after == before || after.None? || after.value !in past
  }

  predicate OwnerMoves(before: Option<Identity>, past: set<Instance>, after: Option<Identity>) {
    after == before || after.None? || InstanceOf(after.value) !in past
  }

  /** `b` may be what `a` has become. */
  predicate Later(a: World, b: World) {
    && a.owners <= b.owners && a.mains <= b.mains && a.controls <= b.controls && WorldOk(b)
    && OwnerMoves(a.owner, a.owners, b.owner)
    && Moves(a.main, a.mains, b.main) && Moves(a.control, a.controls, b.control)
  }

  /** What a probe has frozen: the owner's identity and both endpoint identities. */
  datatype Target = Target(owner: Option<Identity>, main: Sock, control: Option<Sock>)

  predicate Seen(w: World, t: Target) {
    OwnerKnown(t.owner, w.owners) && t.main in w.mains && Known(t.control, w.controls)
  }

  predicate Complete(t: Target) {
    t.owner.Some? && t.control.Some?
  }

  predicate LockReleased(w: World, t: Target) {
    t.owner.Some? ==> !OwnerIs(w, InstanceOf(t.owner.value))
  }

  /** The lock is released and both sockets are replaced or removed. */
  predicate Gone(w: World, t: Target) {
    Seen(w, t) && LockReleased(w, t) && w.main != Some(t.main) && (t.control.Some? ==> w.control != t.control)
  }

  /** Some part of the frozen surface can still be seen. */
  predicate StillThere(w: World, t: Target) {
    || (t.owner.Some? && w.owner.Some? && w.owner.value.pid == t.owner.value.pid)
    || w.main == Some(t.main)
    || (t.control.Some? && w.control == t.control)
  }

  /** Exactly the frozen surface is in place, and its main socket is served by its owner. */
  predicate InPlace(w: World, t: Target) {
    && Complete(t) && w.owner == t.owner && w.main == Some(t.main) && w.control == t.control
    && t.main.serverPid == t.owner.value.pid
  }

  lemma LaterIsReflexive(a: World)
    requires WorldOk(a)
    ensures Later(a, a)
  {
  }

  lemma LaterIsTransitive(a: World, b: World, c: World)
    requires Later(a, b) && Later(b, c)
    ensures Later(a, c)
  {
  }

  /** What is gone stays gone. */
  lemma GoneForGood(a: World, b: World, t: Target)
    requires Gone(a, t) && Later(a, b)
    ensures Gone(b, t)
  {
  }

  /** What was seen before and is there afterwards was there all along in between. */
  lemma ThereAllAlong(a: World, b: World, t: Target)
    requires Seen(a, t) && Later(a, b)
    ensures t.owner.Some? && b.owner == t.owner ==> a.owner == t.owner
    ensures b.main == Some(t.main) ==> a.main == Some(t.main)
    ensures t.control.Some? && b.control == t.control ==> a.control == t.control
  {
  }

  /** The three facts of a shutdown, each as far as it has been observed. */
  predicate Facts(w: World, t: Target, lockReleased: bool, socketChanged: bool, controlChanged: bool) {
    && Seen(w, t) && (lockReleased || t.owner.Some?) && (controlChanged || t.control.Some?)
    && (lockReleased ==> LockReleased(w, t))
    && (socketChanged ==> w.main != Some(t.main))
    && (controlChanged && t.control.Some? ==> w.control != t.control)
  }

  /** Each fact, once observed, holds from then on. */
  lemma FactsKept(start: World, a: World, b: World, t: Target, lockReleased: bool, socketChanged: bool,
      controlChanged: bool)
    requires Later(start, a) && Later(a, b) && Facts(a, t, lockReleased, socketChanged, controlChanged)
    ensures Later(start, b) && Facts(b, t, lockReleased, socketChanged, controlChanged)
  {
  }

  datatype Handshake = Ok | BinaryMismatch | ProtocolMismatch | IncompatibleHello | HandshakeError

  datatype SurfaceState = Absent | Starting | Running | InTransition | Incomplete | BadSurface | HandshakeFailed

  datatype Probe = Probe(state: SurfaceState, handshake: Handshake, target: Option<Target>)

  datatype Reason = SurfaceProblem | ShutdownFailed | SpawnFailed | NoHandshake | RetainedOwner | TimedOut

  datatype Step = Ready(owner: Identity) | Retry | Failed(reason: Reason)

  datatype Result = Restarted(owner: Identity) | NotRestarted(reason: Reason)

  /** An absent surface, as a probe saw it: the lock free, then either path empty, one after the other. */
  datatype Vacancy = Vacancy(lock: World, main: World, control: World)

  predicate Vacant(v: Vacancy) {
    v.lock.owner.None? && v.main.main.None? && v.control.control.None?
  }

  /** The three looks, one after the other. */
  predicate InOrder(before: World, v: Vacancy, after: World) {
    Later(before, v.lock) && Later(v.lock, v.main) && Later(v.main, v.control) && Later(v.control, after)
  }

  /** What the state says of what was seen: how the lock was and which of the two paths were occupied. */
  predicate Classified(state: SurfaceState, target: Option<Target>, status: OwnerStatus, v: Vacancy) {
    var main, control := v.main.main, v.control.control;
    && (status.Held? ==> v.lock.owner == Some(status.identity)) && (status.Released? ==> v.lock.owner.None?)
    && (state.Absent? <==> status.Released? && main.None? && control.None?)
    && (state.Starting? <==> !status.Released? && main.None? && control.None?)
    && (state.Running? <==> status.Held? && main.Some? && control.Some?)
    && (state.Running? ==> target == Some(Target(Some(status.identity), main.value, control)))
  }

  /** One call of `spawn_daemon`: when, what had been frozen by then, and what had been found absent. */
  datatype Launch = Launch(at: World, frozen: seq<Target>, vacancies: seq<Vacancy>)

  /** A spawn has a reason: a surface was found absent, or everything that was frozen is gone. */
  predicate Justified(l: Launch) {
    && AllGone(l.at, l.frozen) && (l.frozen != [] || l.vacancies != [])
    && forall i :: 0 <= i < |l.vacancies| ==> Vacant(l.vacancies[i])
  }

  /** One completed exchange of hellos: when, with which surface, and how it ended. */
  datatype Greeting = Greeting(at: World, target: Target, outcome: Handshake)

  predicate AllGone(w: World, ts: seq<Target>) {
    forall i :: 0 <= i < |ts| ==> Gone(w, ts[i])
  }

  lemma AllGoneForGood(start: World, a: World, b: World, ts: seq<Target>)
    requires AllGone(a, ts) && Later(start, a) && Later(a, b)
    ensures AllGone(b, ts) && Later(start, b)
  {
    LaterIsTransitive(start, a, b);
    forall i | 0 <= i < |ts| ensures Gone(b, ts[i]) {
      GoneForGood(a, b, ts[i]);
    }
  }

  /** The process in place now is none of those that are gone. */
  lemma NewOwnerIsNew(at: World, past: seq<Target>, now: Target, oldOwner: Option<Identity>)
    requires AllGone(at, past) && InPlace(at, now)
    requires OwnerFrozen(oldOwner, past)
    ensures !SameProcess(oldOwner, now.owner.value)
  {
    if oldOwner.Some? {
      var t :| t in past && t.owner == oldOwner;
      assert LockReleased(at, t);
    }
  }

  /** One more call of `spawn_daemon`, justified by what was seen before. */
  predicate SpawnedOnce(before: seq<Launch>, after: seq<Launch>, frozenBefore: seq<Target>, frozenAfter: seq<Target>) {
    && |after| == |before| + 1 && after[..|before|] == before
    && frozenBefore <= after[|before|].frozen <= frozenAfter
    && Justified(after[|before|])
  }

  /** No call once one has succeeded, and at most one call otherwise. */
  predicate Launched(before: seq<Launch>, after: seq<Launch>, attempted: bool, attempted': bool, frozen: seq<Target>) {
    && (after == before || (!attempted && SpawnedOnce(before, after, frozen, frozen)))
    && (attempted' ==> attempted || after != before)
  }

  predicate SameProcess(oldOwner: Option<Identity>, owner: Identity) {
    oldOwner.Some? && InstanceOf(oldOwner.value) == InstanceOf(owner)
  }

  function Frozen(probed: Option<Target>): seq<Target> {
    if probed.Some? then [probed.value] else []
  }

  predicate OwnerFrozen(owner: Option<Identity>, frozen: seq<Target>) {
    owner.Some? ==> exists t :: t in frozen && t.owner == owner
  }

  /**
   The last target frozen was in place, owned by `owner`, when it answered with a matching hello;
   every target frozen before it was gone by then.
   */
  predicate Replaced(frozen: seq<Target>, greetings: seq<Greeting>, owner: Identity) {
    && |frozen| > 0 && |greetings| > 0
    && var now, last := frozen[|frozen| - 1], greetings[|greetings| - 1];
    && last.target == now && last.outcome.Ok? && InPlace(last.at, now) && now.owner == Some(owner)
    && AllGone(last.at, frozen[..|frozen| - 1])
  }

  /** A reported replacement is a process none of the earlier frozen targets belonged to. */
  lemma ReplacementIsNew(frozen: seq<Target>, greetings: seq<Greeting>, owner: Identity, i: nat)
    requires Replaced(frozen, greetings, owner) && i < |frozen| - 1 && frozen[i].owner.Some?
    ensures InstanceOf(frozen[i].owner.value) != InstanceOf(owner)
  {
    var past, last := frozen[..|frozen| - 1], greetings[|greetings| - 1];
    assert past[i] == frozen[i];
    NewOwnerIsNew(last.at, past, last.target, frozen[i].owner);
  }

  /**
   Why a restart may fail: something went wrong on the way, the last surface probed was not one to
   go on with, or the replacement answered with a hello that does not match.
   */
  predicate Explained(reason: Reason, trouble: bool, found: SurfaceState, greetings: seq<Greeting>) {
    match reason
    case SurfaceProblem => found in {Incomplete, BadSurface} || (found.HandshakeFailed? && trouble)
    case NoHandshake => found.Running? && greetings != [] && !greetings[|greetings| - 1].outcome.Ok?
    case RetainedOwner => false
    case TimedOut => trouble && found in {Absent, Starting, InTransition}
    case _ => trouble
  }

  class Client {
    var world: World
    var left: nat               // retries before the deadline
    ghost var frozen: seq<Target>
    ghost var spawned: seq<Launch>
    ghost var greetings: seq<Greeting>
    ghost var vacancies: seq<Vacancy>
    ghost var probes: seq<Option<Target>>  // what each probe froze
    ghost var found: SurfaceState          // what the last probe found
    ghost var faults: nat                  // failed looks, refusals, errors and the deadline

    ghost predicate Valid()
      reads this
    {
      WorldOk(world) && forall i :: 0 <= i < |vacancies| ==> Vacant(vacancies[i])
    }

    constructor (world: World, left: nat)
      requires WorldOk(world)
      ensures Valid() && this.world == world && frozen == [] && spawned == [] && greetings == [] && vacancies == []
              && probes == []
    {
      this.world := world;
      this.left := left;
      frozen := [];
      spawned := [];
      greetings := [];
      vacancies := [];
      probes := [];
      found := Absent;
      faults := 0;
    }

    /** Time passes: others act. */
    method Pass()
      requires Valid()
      modifies this`world
      ensures Valid() && Later(old(world), world)
    {
      var next: World := *;
      if Later(world, next) {
        world := next;
      }
    }

    /** Something may go wrong: a look fails, a request is refused, an answer is missing. */
    method Trouble() returns (happened: bool)
      modifies this`faults
      ensures faults == if happened then old(faults) + 1 else old(faults)
    {
      happened := *;
      if happened {
        faults := faults + 1;
      }
    }

    method Sleep() returns (more: bool)
      requires Valid()
      modifies this`world, this`left, this`faults
      ensures Valid() && Later(old(world), world)
      ensures faults == if more then old(faults) else old(faults) + 1
      ensures more ==> left < old(left)
      ensures !more ==> left == old(left) == 0
    {
      Pass();
      if left == 0 {
        faults := faults + 1;
        return false;
      }
      left := left - 1;
      return true;
    }

    /** A reported owner or a reported release was true when it was sampled. */
    method InspectOwner() returns (status: OwnerStatus)
      requires Valid()
      modifies this`world, this`faults
      ensures Valid() && Later(old(world), world)
      ensures status.Held? ==> world.owner == Some(status.identity)
      ensures status.Released? ==> world.owner.None?
      ensures faults == if status.Invalid? then old(faults) + 1 else old(faults)
    {
      Pass();
      var failed := Trouble();
      if failed { return Invalid; }
      if {
        case true => status := Transition;
        case world.owner.Some? => status := Held(world.owner.value);
        case world.owner.None? => status := OwnerStatus.Released;
      }
    }

    method QueryKernelOwner() returns (ok: bool, pid: Option<int>)
      requires Valid()
      modifies this`world, this`faults
      ensures Valid() && Later(old(world), world)
      ensures pid == if world.owner.Some? then Some(world.owner.value.pid) else None
      ensures faults == if ok then old(faults) else old(faults) + 1
    {
      Pass();
      pid := if world.owner.Some? then Some(world.owner.value.pid) else None;
      var failed := Trouble();
      ok := !failed;
    }

    method FindMain() returns (ok: bool, found: Option<Sock>)
      requires Valid()
      modifies this`world, this`faults
      ensures Valid() && Later(old(world), world) && found == world.main
      ensures faults == if ok then old(faults) else old(faults) + 1
    {
      Pass();
      found := world.main;
      var failed := Trouble();
      ok := !failed;
    }

    method FindControl() returns (ok: bool, found: Option<Sock>)
      requires Valid()
      modifies this`world, this`faults
      ensures Valid() && Later(old(world), world) && found == world.control
      ensures faults == if ok then old(faults) else old(faults) + 1
    {
      Pass();
      found := world.control;
      var failed := Trouble();
      ok := !failed;
    }

    /** The lock tells the owner's pid only; its start is looked up afterwards, and may be gone by then. */
    method OwnerReleased(target: Target) returns (ok: bool, released: bool, ghost at: World)
      requires Valid() && target.owner.Some? && Seen(world, target)
      modifies this`world, this`faults
      ensures Valid() && Later(old(world), world)
      ensures ok && released ==> LockReleased(world, target)
      ensures Later(old(world), at) && Later(at, world) && (ok && !released ==> StillThere(at, target))
      ensures old(faults) <= faults && (!ok ==> old(faults) < faults)
    {
      var was := target.owner.value;
      var done, pid := QueryKernelOwner();
      at := world;
      LaterIsReflexive(world);
      if !done { return false, false, at; }
      if pid != Some(was.pid) { return true, true, at; }
      if was.processStart == "" { return true, false, at; }
      Pass();
      var unknown := Trouble();
      if unknown || was.pid !in world.live {
        faults := faults + 1;
        done, pid := QueryKernelOwner();
        return done && pid != Some(was.pid), true, at;
      }
      return true, world.live[was.pid] != was.processStart, at;
    }

    /** One look at each of the three facts that has not been observed yet. */
    method LookForShutdown(target: Target, lockReleased: bool, socketChanged: bool, controlChanged: bool)
      returns (ok: bool, lockReleased': bool, socketChanged': bool, controlChanged': bool, ghost at: World)
      requires Valid() && Facts(world, target, lockReleased, socketChanged, controlChanged)
      modifies this`world, this`faults
      ensures Valid() && Later(old(world), world)
      ensures Facts(world, target, lockReleased', socketChanged', controlChanged')
      ensures old(faults) <= faults && (!ok ==> old(faults) < faults)
      ensures ok && !(lockReleased' && socketChanged' && controlChanged') ==>
                Later(old(world), at) && Later(at, world) && StillThere(at, target)
    {
      hide Later;
      ok, lockReleased', socketChanged', controlChanged' := true, lockReleased, socketChanged, controlChanged;
      ghost var before := world;
      at := world;
      LaterIsReflexive(world);
      if !lockReleased {
        var released;
        ok, released, at := OwnerReleased(target);
        FactsKept(old(world), before, world, target, false, socketChanged, controlChanged);
        if !ok { return false, false, socketChanged, controlChanged, at; }
        lockReleased' := released;
      }
      if !socketChanged {
        var seen;
        before := world;
        ok, seen := FindMain();
        FactsKept(old(world), before, world, target, lockReleased', false, controlChanged);
        LaterIsTransitive(at, before, world);
        if !ok { return; }
        socketChanged' := seen != Some(target.main);
        if !socketChanged' {
          at := world;
          LaterIsReflexive(world);
        }
      }
      if !controlChanged {
        var seen;
        before := world;
        ok, seen := FindControl();
        FactsKept(old(world), before, world, target, lockReleased', socketChanged', false);
        LaterIsTransitive(at, before, world);
        if !ok { return; }
        controlChanged' := seen != target.control;
        if !controlChanged' {
          at := world;
          LaterIsReflexive(world);
        }
      }
    }

    /** Waits until all three facts hold; it gives up on a failed look, or late and with something still there. */
    method WaitForOldDaemonShutdown(target: Target) returns (ok: bool, ghost missed: bool, ghost at: World)
      requires Valid() && Seen(world, target)
      modifies this`world, this`left, this`faults
      ensures Valid() && Later(old(world), world) && left <= old(left)
      ensures ok ==> Gone(world, target)
      ensures !ok && !missed ==>
                left == 0 && Later(old(world), at) && Later(at, world) && StillThere(at, target)
      ensures old(faults) <= faults && (!ok ==> old(faults) < faults)
    {
      hide Later;
      var lockReleased, socketChanged, controlChanged := target.owner.None?, false, target.control.None?;
      ghost var before := world;
      missed, at := false, world;
      LaterIsReflexive(world);
      while true
        invariant Valid() && Later(old(world), world) && left <= old(left) && old(faults) <= faults
        invariant Facts(world, target, lockReleased, socketChanged, controlChanged)
        decreases left
      {
        before := world;
        ok, lockReleased, socketChanged, controlChanged, at :=
          LookForShutdown(target, lockReleased, socketChanged, controlChanged);
        LaterIsTransitive(old(world), before, world);
        missed := !ok;
        if !ok { return; }
        if lockReleased && socketChanged && controlChanged {
          return;
        }
        LaterIsTransitive(old(world), before, at);
        before := world;
        ok := Sleep();
        LaterIsTransitive(at, before, world);
        FactsKept(old(world), before, world, target, lockReleased, socketChanged, controlChanged);
        if !ok { return; }
      }
    }

    /** Every way to stop a verified daemon ends in the same wait, or fails. */
    method StopVerifiedDaemon(outcome: Handshake, target: Target) returns (ok: bool)
      requires Valid() && Seen(world, target)
      modifies this`world, this`left, this`faults
      ensures Valid() && Later(old(world), world) && left <= old(left)
      ensures ok ==> Gone(world, target)
      ensures outcome.HandshakeError? ==> !ok
      ensures old(faults) <= faults
      ensures !ok && !outcome.HandshakeError? && Complete(target) ==> old(faults) < faults
    {
      ghost var missed, at;
      match outcome {
        case Ok =>
          // The answer is a confirmation, a concurrent shutdown, lost, or one that fails the stop.
          var refused := Trouble();
          if refused { return false; }
          ok, missed, at := WaitForOldDaemonShutdown(target);
        case BinaryMismatch =>
          ok, missed, at := WaitForOldDaemonShutdown(target);
        case ProtocolMismatch | IncompatibleHello =>
          if !Complete(target) { return false; }
          var unsent := Trouble();
          if unsent { return false; }
          ok, missed, at := WaitForOldDaemonShutdown(target);
        case HandshakeError =>
          ok := false;
      }
    }

    /** What the lock and the two paths show, and the frozen target if everything is there. */
    method InspectSurfaceFiles()
      returns (state: SurfaceState, target: Option<Target>, ghost status: OwnerStatus, ghost looks: Vacancy)
      requires Valid()
      modifies this`world, this`vacancies, this`faults
      ensures Valid() && Later(old(world), world)
      ensures state in {Absent, Starting, Running, Incomplete, BadSurface}
      ensures state.Running? <==> target.Some?
      ensures old(vacancies) <= vacancies && (state.Absent? ==> |vacancies| > |old(vacancies)|)
      ensures target.Some? ==> Complete(target.value) && Seen(world, target.value)
      ensures old(faults) <= faults && (state.BadSurface? <==> old(faults) < faults)
      ensures !state.BadSurface? ==> InOrder(old(world), looks, world) && Classified(state, target, status, looks)
    {
      target := None;
      looks := Vacancy(world, world, world);
      var sampled := InspectOwner();
      status := sampled;
      ghost var lockAt := world;
      if sampled.Invalid? { return BadSurface, None, status, looks; }
      var ok, main := FindMain();
      ghost var mainAt := world;
      if !ok { return BadSurface, None, status, looks; }
      var control;
      ok, control := FindControl();
      LaterIsReflexive(world);
      looks := Vacancy(lockAt, mainAt, world);
      if !ok { return BadSurface, None, status, looks; }
      var badDirectory := Trouble();
      if badDirectory { return BadSurface, None, status, looks; }
      if sampled.Released? && main.None? && control.None? {
        vacancies := vacancies + [looks];
        return Absent, None, status, looks;
      }
      if sampled.Transition? {
        return if main.None? && control.None? then Starting else Incomplete, None, status, looks;
      }
      if sampled.Held? && main.None? && control.None? { return Starting, None, status, looks; }
      if !sampled.Held? || main.None? || control.None? { return Incomplete, None, status, looks; }
      return Running, Some(Target(Some(sampled.identity), main.value, control)), status, looks;
    }

    /** Whether any of the three identities is seen to have changed; `looks` are the three looks. */
    method ObserveFrozenTarget(target: Target) returns (ok: bool, changed: bool, ghost looks: Vacancy)
      requires Valid() && Complete(target) && Seen(world, target)
      modifies this`world, this`faults
      ensures Valid() && Later(old(world), world)
      ensures ok && changed ==> !InPlace(world, target)
      ensures ok && !changed ==>
                && StillThere(looks.lock, target) && looks.main.main == Some(target.main)
                && looks.control.control == target.control
      ensures old(faults) <= faults && (!ok ==> old(faults) < faults)
    {
      looks := Vacancy(world, world, world);
      var done, released, at := OwnerReleased(target);
      if !done { return false, false, looks; }
      var main;
      done, main := FindMain();
      looks := Vacancy(at, world, world);
      if !done { return false, false, looks; }
      var control;
      done, control := FindControl();
      looks := looks.(control := world);
      return done, released || main != Some(target.main) || control != target.control, looks;
    }

    /** Connects to the frozen main socket and shakes hands; `at` is the outside at that moment. */
    method OpenFrozenSession(target: Target) returns (state: SurfaceState, handshake: Handshake, ghost at: World)
      requires Valid() && Complete(target) && Seen(world, target)
      modifies this`world, this`greetings, this`faults
      ensures Valid() && Later(old(world), at) && Later(at, world)
      ensures state.Running? ==> greetings == old(greetings) + [Greeting(at, target, handshake)]
      ensures state in {Running, InTransition, Incomplete, BadSurface, HandshakeFailed}
      ensures state.Running? ==> !handshake.HandshakeError?
      ensures old(faults) <= faults && (state in {BadSurface, HandshakeFailed} ==> old(faults) < faults)
      ensures state in {InTransition, Incomplete} ==> old(faults) < faults || at.main != Some(target.main)
    {
      var ok, main := FindMain();
      at := world;
      if !ok { return BadSurface, HandshakeError, at; }
      var refused := Trouble();
      if main.None? || refused {
        var changed;
        ghost var looks;
        ok, changed, looks := ObserveFrozenTarget(target);
        return if !ok then BadSurface else if changed then InTransition else Incomplete, HandshakeError, at;
      }
      if main.value != target.main { return InTransition, HandshakeError, at; }
      Pass();
      at := world;
      handshake := *;
      if handshake.HandshakeError? {
        faults := faults + 1;
      }
      greetings := greetings + [Greeting(at, target, handshake)];
      var cleanEof := *;
      state := if !handshake.HandshakeError? then Running else if cleanEof then InTransition else HandshakeFailed;
    }

    /** The owner, the peer and both endpoints once more, after the handshake. */
    method VerifyFrozenSession(target: Target, ghost at: World)
      returns (state: SurfaceState, ghost status: OwnerStatus, ghost looks: Vacancy)
      requires Valid() && Complete(target) && Seen(at, target) && Later(at, world)
      modifies this`world, this`faults
      ensures Valid() && Later(old(world), world)
      ensures state in {Running, InTransition, BadSurface}
      ensures state.Running? ==> InPlace(at, target)
      ensures state.InTransition? ==>
                || !status.Held? || Some(status.identity) != target.owner
                || looks.main.main != Some(target.main) || looks.control.control != target.control
      ensures state.BadSurface? ==>
                || old(faults) < faults
                || (status.Held? && (status.identity.pid < 1 || status.identity.pid != target.main.serverPid))
      ensures status.Held? ==> looks.lock.owner == Some(status.identity)
      ensures old(faults) <= faults
    {
      var sampled := InspectOwner();
      status := sampled;
      looks := Vacancy(world, world, world);
      ThereAllAlong(at, world, target);
      if sampled.Invalid? { return BadSurface, status, looks; }
      var ok, main := FindMain();
      looks := looks.(main := world);
      ThereAllAlong(at, world, target);
      if !ok { return BadSurface, status, looks; }
      if !sampled.Held? || main != Some(target.main) { return InTransition, status, looks; }
      if sampled.identity.pid < 1 || sampled.identity.pid != target.main.serverPid {
        return BadSurface, status, looks;
      }
      var control;
      ok, control := FindControl();
      looks := looks.(control := world);
      ThereAllAlong(at, world, target);
      if !ok { return BadSurface, status, looks; }
      if control != target.control || Some(sampled.identity) != target.owner { return InTransition, status, looks; }
      return Running, status, looks;
    }

    /** Freezes a target at most, and calls it running only if that very surface shook hands. */
    method ProbeDaemonSurface() returns (probe: Probe, ghost at: World)
      requires Valid()
      modifies this`world, this`frozen, this`greetings, this`vacancies, this`probes, this`found,
        this`faults
      ensures Valid() && Later(old(world), world)
      ensures frozen == if probe.target.Some? then old(frozen) + [probe.target.value] else old(frozen)
      ensures probes == old(probes) + [probe.target]
      ensures probe.target.Some? ==> Complete(probe.target.value) && Seen(world, probe.target.value)
      ensures probe.state in {Running, InTransition} ==> probe.target.Some?
      ensures probe.state in {Absent, Starting} ==> probe.target.None?
      ensures old(vacancies) <= vacancies && (probe.state.Absent? ==> vacancies != [])
      ensures probe.state.Running? ==> Later(old(world), at) && Later(at, world)
      ensures probe.state.Running? ==> InPlace(at, probe.target.value) && !probe.handshake.HandshakeError?
      ensures probe.state.Running? ==> greetings == old(greetings) + [Greeting(at, probe.target.value, probe.handshake)]
      ensures old(faults) <= faults && found == probe.state
      ensures probe.state.HandshakeFailed? ==> old(faults) < faults
    {
      at := world;
      var state, target, _, _ := InspectSurfaceFiles();
      probes := probes + [target];
      found := state;
      if target.None? {
        return Probe(state, HandshakeError, None), at;
      }
      frozen := frozen + [target.value];
      var handshake;
      state, handshake, at := OpenFrozenSession(target.value);
      if state.Running? {
        ghost var status, looks;
        state, status, looks := VerifyFrozenSession(target.value, at);
      }
      found := state;
      return Probe(state, handshake, target), at;
    }

    /** `spawn_daemon` is called unless it has succeeded before. */
    method SpawnReplacementOnce(attempted: bool) returns (ok: bool)
      requires Valid()
      modifies this`world, this`spawned, this`faults
      ensures Valid() && Later(old(world), world)
      ensures attempted ==> ok && spawned == old(spawned)
      ensures !attempted ==> spawned == old(spawned) + [Launch(old(world), frozen, vacancies)]
      ensures faults == if ok then old(faults) else old(faults) + 1
    {
      if attempted { return true; }
      spawned := spawned + [Launch(world, frozen, vacancies)];
      Pass();
      var failed := Trouble();
      ok := !failed;
    }

    /** What a probe of the replacement may not show is the old owner's process. */
    static method AcceptReplacement(probe: Probe, oldOwner: Option<Identity>) returns (step: Step)
      requires probe.target.Some? && probe.target.value.owner.Some?
      ensures step.Ready? <==> probe.handshake.Ok? && !SameProcess(oldOwner, probe.target.value.owner.value)
      ensures step.Ready? ==> Some(step.owner) == probe.target.value.owner
      ensures !step.Retry? && (step.Failed? ==> step.reason in {NoHandshake, RetainedOwner})
      ensures step == Failed(NoHandshake) <==> !probe.handshake.Ok?
      ensures step == Failed(RetainedOwner) ==> SameProcess(oldOwner, probe.target.value.owner.value)
    {
      if !probe.handshake.Ok? { return Failed(NoHandshake); }
      var owner := probe.target.value.owner.value;
      if oldOwner.Some? && oldOwner.value.pid == owner.pid && oldOwner.value.processStart == owner.processStart {
        return Failed(RetainedOwner);
      }
      return Ready(owner);
    }

    method AdvanceReplacement(probe: Probe, oldOwner: Option<Identity>, attempted: bool, ghost past: seq<Target>,
        ghost trouble: bool)
      returns (step: Step, attempted': bool)
      requires Valid() && AllGone(world, past)
      requires frozen == if probe.target.Some? then past + [probe.target.value] else past
      requires probe.target.Some? ==> Complete(probe.target.value) && Seen(world, probe.target.value)
      requires probe.state in {Running, InTransition} ==> probe.target.Some?
      requires probe.state in {Absent, Starting} ==> probe.target.None?
      requires probe.state.Absent? ==> vacancies != []
      requires found == probe.state && (probe.state.HandshakeFailed? ==> trouble)
      requires probe.state.Running? ==> greetings != [] && greetings[|greetings| - 1].outcome == probe.handshake
      modifies this`world, this`left, this`spawned, this`faults
      ensures old(faults) <= faults
      ensures step.Failed? && !step.reason.RetainedOwner? ==>
                Explained(step.reason, trouble || old(faults) < faults, found, greetings)
      ensures Valid() && Later(old(world), world) && left <= old(left)
      ensures step.Ready? ==>
                probe.state.Running? && probe.handshake.Ok? && Some(step.owner) == probe.target.value.owner
                    && spawned == old(spawned)
                && !SameProcess(oldOwner, step.owner)
      ensures step == Failed(RetainedOwner) ==>
                probe.state.Running? && SameProcess(oldOwner, probe.target.value.owner.value)
      ensures step.Retry? ==> AllGone(world, frozen)
      ensures Launched(old(spawned), spawned, attempted, attempted', frozen)
      ensures attempted ==> attempted'
      ensures step.Retry? && spawned != old(spawned) ==> attempted'
      ensures step.Retry? && probe.state in {Absent, InTransition} ==> attempted'
      ensures step.Retry? ==> found in {Absent, Starting, InTransition}
      ensures probe.state in {Absent, Starting} ==> !step.Failed? || spawned != old(spawned)
    {
      attempted' := attempted;
      if probe.state.Running? {
        step := AcceptReplacement(probe, oldOwner);
        return;
      }
      ghost var before := world;
      LaterIsReflexive(world);
      if probe.state.InTransition? {
        var ok, _, _ := WaitForOldDaemonShutdown(probe.target.value);
        AllGoneForGood(old(world), before, world, past);
        if !ok { return Failed(ShutdownFailed), attempted; }
        before := world;
        ok := SpawnReplacementOnce(attempted);
        AllGoneForGood(old(world), before, world, frozen);
        return if ok then Retry else Failed(SpawnFailed), true;
      }
      if probe.state.Absent? && !attempted {
        var ok := SpawnReplacementOnce(attempted);
        AllGoneForGood(old(world), before, world, frozen);
        return if ok then Retry else Failed(SpawnFailed), true;
      }
      if probe.state in {BadSurface, HandshakeFailed, Incomplete} { return Failed(SurfaceProblem), attempted; }
      return Retry, attempted;
    }

    /** One turn of the loop: a probe, and what follows from it. */
    method TryReplacement(oldOwner: Option<Identity>, attempted: bool) returns (step: Step, attempted': bool)
      requires Valid() && AllGone(world, frozen) && OwnerFrozen(oldOwner, frozen)
      modifies this
      ensures Valid() && Later(old(world), world) && left <= old(left) && old(frozen) <= frozen && old(probes) <= probes
      ensures Launched(old(spawned), spawned, attempted, attempted', frozen)
      ensures attempted ==> attempted'
      ensures step.Retry? && spawned != old(spawned) ==> attempted'
      ensures step.Retry? ==> AllGone(world, frozen)
      ensures step.Ready? ==> Replaced(frozen, greetings, step.owner)
      ensures step != Failed(RetainedOwner)
      ensures step.Retry? ==> found in {Absent, Starting, InTransition}
      ensures old(faults) <= faults && (step.Failed? ==> Explained(step.reason, old(faults) < faults, found, greetings))
    {
      hide Later, Gone, InPlace, Complete;
      ghost var past := frozen;
      LaterIsReflexive(world);
      var probe, at := ProbeDaemonSurface();
      AllGoneForGood(old(world), old(world), world, past);
      if probe.state.Running? {
        AllGoneForGood(old(world), old(world), at, past);
        NewOwnerIsNew(at, past, probe.target.value, oldOwner);
      }
      ghost var before := world;
      step, attempted' := AdvanceReplacement(probe, oldOwner, attempted, past, old(faults) < faults);
      LaterIsTransitive(old(world), before, world);
      if step.Ready? {
        assert frozen[..|frozen| - 1] == past;
      }
    }

    method WaitForReplacement(oldOwner: Option<Identity>, spawnImmediately: bool) returns (result: Result)
      requires Valid() && AllGone(world, frozen) && OwnerFrozen(oldOwner, frozen)
      requires spawnImmediately ==> frozen != [] || vacancies != []
      modifies this
      ensures Valid() && Later(old(world), world) && old(frozen) <= frozen && old(probes) <= probes
      ensures spawned == old(spawned) || SpawnedOnce(old(spawned), spawned, old(frozen), frozen)
      ensures spawnImmediately ==> SpawnedOnce(old(spawned), spawned, old(frozen), frozen)
      ensures result.Restarted? ==> Replaced(frozen, greetings, result.owner)
      ensures result != NotRestarted(RetainedOwner)
      ensures old(faults) <= faults
      ensures result.NotRestarted? ==> Explained(result.reason, old(faults) < faults, found, greetings)
    {
      hide Later, Gone, Replaced, AllGone;
      ghost var before := world;
      LaterIsReflexive(world);
      var attempted := false;
      if spawnImmediately {
        var ok := SpawnReplacementOnce(false);
        AllGoneForGood(old(world), before, world, frozen);
        if !ok { return NotRestarted(SpawnFailed); }
        attempted := true;
      }
      while true
        invariant Valid() && Later(old(world), world) && AllGone(world, frozen) && old(frozen) <= frozen
        invariant old(probes) <= probes && old(faults) <= faults
        invariant if attempted then SpawnedOnce(old(spawned), spawned, old(frozen), frozen) else spawned == old(spawned)
        invariant spawnImmediately ==> attempted
        decreases left
      {
        var step;
        before := world;
        step, attempted := TryReplacement(oldOwner, attempted);
        LaterIsTransitive(old(world), before, world);
        if step.Ready? { return Restarted(step.owner); }
        if step.Failed? { return NotRestarted(step.reason); }
        before := world;
        var more := Sleep();
        AllGoneForGood(old(world), before, world, frozen);
        if !more { return NotRestarted(TimedOut); }
      }
    }

    /** `daemon restart`: what it may do to the running daemon, and when it may report success. */
    method RunDaemonRestart() returns (result: Result)
      requires Valid() && frozen == [] && spawned == [] && greetings == [] && vacancies == [] && probes == []
      modifies this
      ensures Valid() && Later(old(world), world)
      ensures probes != [] && (spawned == [] || SpawnedOnce([], spawned, Frozen(probes[0]), frozen))
      ensures result.Restarted? ==> Replaced(frozen, greetings, result.owner)
      ensures result != NotRestarted(RetainedOwner)
      ensures result.Restarted? && probes[0].Some? ==> spawned != []
      ensures old(faults) <= faults
      ensures result.NotRestarted? ==> Explained(result.reason, old(faults) < faults, found, greetings)
    {
      var probe, _ := ProbeDaemonSurface();
      var oldOwner := None;
      var spawnReplacement := true;
      match probe.state {
        case Starting =>
          spawnReplacement := false;
        case InTransition =>
          oldOwner := probe.target.value.owner;
          var ok, _, _ := WaitForOldDaemonShutdown(probe.target.value);
          if !ok { return NotRestarted(ShutdownFailed); }
        case Running =>
          oldOwner := probe.target.value.owner;
          var ok := StopVerifiedDaemon(probe.handshake, probe.target.value);
          if !ok { return NotRestarted(ShutdownFailed); }
        case Absent =>
        case _ =>
          return NotRestarted(SurfaceProblem);
      }
      result := WaitForReplacement(oldOwner, spawnReplacement);
    }
  }
}
