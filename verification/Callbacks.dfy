/**
 The stop source and its callbacks: `State::register_callback`, `unregister_callback` and
 `request_stop`, `CallbackNode::invoke` and `deactivate`, and the life of a `Callback` object. Every
 critical section of the two mutexes is one step; any number of calls run at once, on any threads.
 */
module Callbacks {
  import opened Optional

  type Tid = int
  type Cb = int
  type CallId = int

  /** A `Callback` object. Only a constructed object can be destroyed, and only once. */
  datatype Life = Constructing | Live | Destroying | Destroyed(destroyer: Tid)

  /** A callback node and the object that owns it; `runs` counts how often the body has started. */
  datatype Node = Node(active: bool, executing: bool, executor: Option<Tid>, life: Life, runs: nat)

  datatype InvokeStage = Starting | Running
  datatype DestroyStage = Unregister | Deactivate | Waiting

  /** A call in progress on some thread. */
  datatype Call =
    | Stop(t: Tid, todo: set<Cb>)
    | Invoke(t: Tid, cb: Cb, stage: InvokeStage)
    | Destroy(t: Tid, cb: Cb, destroyStage: DestroyStage)

  datatype State = State(
    stopRequested: bool,
    callbacks: set<Cb>,
    nodes: map<Cb, Node>,
    calls: map<CallId, Call>,
    dispatcher: Option<Tid>) // the thread whose request_stop returned true

  datatype Action =
    | Construct(id: CallId, t: Tid, cb: Cb)
    | RequestStop(id: CallId, t: Tid)
    | DispatchNext(id: CallId, cb: Cb, next: CallId)
    | DispatchDone(id: CallId)
    | InvokeStart(id: CallId)
    | InvokeEnd(id: CallId)
    | BeginDestroy(id: CallId, t: Tid, cb: Cb)
    | DoUnregister(id: CallId)
    | DoDeactivate(id: CallId)
    | DoWake(id: CallId)

  predicate InStage(s: State, id: CallId, stage: InvokeStage) {
    id in s.calls && s.calls[id].Invoke? && s.calls[id].stage == stage && s.calls[id].cb in s.nodes
  }

  predicate Destroying(s: State, id: CallId, stage: DestroyStage) {
    id in s.calls && s.calls[id].Destroy? && s.calls[id].destroyStage == stage && s.calls[id].cb in s.nodes
  }

  predicate Allowed(s: State, a: Action) {
    match a
    case Construct(id, t, cb) => id !in s.calls && cb !in s.nodes
    case RequestStop(id, t) => id !in s.calls
    case DispatchNext(id, cb, next) => id in s.calls && s.calls[id].Stop? && cb in s.calls[id].todo && next !in s.calls
    case DispatchDone(id) => id in s.calls && s.calls[id].Stop? && s.calls[id].todo == {}
    case InvokeStart(id) => InStage(s, id, Starting)
    case InvokeEnd(id) => InStage(s, id, Running)
    case BeginDestroy(id, t, cb) => id !in s.calls && cb in s.nodes && s.nodes[cb].life.Live?
    case DoUnregister(id) => Destroying(s, id, Unregister)
    case DoDeactivate(id) => Destroying(s, id, Deactivate)
    case DoWake(id) => Destroying(s, id, Waiting) && !s.nodes[s.calls[id].cb].executing
  }

  /** The object is constructed once the invocation its constructor ran has returned. */
  function Constructed(node: Node): Node {
    if node.life.Constructing? then node.(life := Live) else node
  }

  function SetNode(s: State, cb: Cb, node: Node): State {
    s.(nodes := s.nodes[cb := node])
  }

  function SetCall(s: State, id: CallId, call: Call): State {
    s.(calls := s.calls[id := call])
  }

  function EndCall(s: State, id: CallId): State {
    s.(calls := s.calls - {id})
  }

  function Apply(s: State, a: Action): State
    requires Allowed(s, a)
  {
    match a
    case Construct(id, t, cb) =>
      if s.stopRequested
      then SetCall(SetNode(s, cb, Node(true, false, None, Constructing, 0)), id, Invoke(t, cb, Starting))
      else SetNode(s, cb, Node(true, false, None, Live, 0)).(callbacks := s.callbacks + {cb})
    case RequestStop(id, t) =>
      if s.stopRequested then s
      else SetCall(s, id, Stop(t, s.callbacks)).(stopRequested := true, callbacks := {}, dispatcher := Some(t))
    case DispatchNext(id, cb, next) =>
      var call := s.calls[id];
      SetCall(SetCall(s, id, Stop(call.t, call.todo - {cb})), next, Invoke(call.t, cb, Starting))
    case DispatchDone(id) => EndCall(s, id)
    case InvokeStart(id) =>
      var call := s.calls[id];
      var node := s.nodes[call.cb];
      if !node.active then EndCall(SetNode(s, call.cb, Constructed(node)), id)
      else SetCall(SetNode(s, call.cb, node.(executing := true, executor := Some(call.t), runs := node.runs + 1)),
                   id, Invoke(call.t, call.cb, Running))
    case InvokeEnd(id) =>
      var cb := s.calls[id].cb;
      EndCall(SetNode(s, cb, Constructed(s.nodes[cb].(executing := false, executor := None))), id)
    case BeginDestroy(id, t, cb) =>
      SetCall(SetNode(s, cb, s.nodes[cb].(life := Life.Destroying)), id, Destroy(t, cb, Unregister))
    case DoUnregister(id) =>
      var call := s.calls[id];
      SetCall(s, id, Destroy(call.t, call.cb, Deactivate)).(callbacks := s.callbacks - {call.cb})
    case DoDeactivate(id) =>
      var call := s.calls[id];
      var node := s.nodes[call.cb].(active := false);
      if node.executing && node.executor != Some(call.t)
      then SetCall(SetNode(s, call.cb, node), id, Destroy(call.t, call.cb, Waiting))
      else EndCall(SetNode(s, call.cb, node.(life := Destroyed(call.t))), id)
    case DoWake(id) =>
      var call := s.calls[id];
      EndCall(SetNode(s, call.cb, s.nodes[call.cb].(life := Destroyed(call.t))), id)
  }

  function Initial(): State {
    State(false, {}, map[], map[], None)
  }

  /** A run: the states it passes through, each by one allowed action. */
  ghost predicate IsRun(run: seq<State>, actions: seq<Action>) {
    && |run| == |actions| + 1 && run[0] == Initial()
    && forall i :: 0 <= i < |actions| ==> Allowed(run[i], actions[i]) && run[i + 1] == Apply(run[i], actions[i])
  }

  // ---------------------------------------------------------------- the invariant

  ghost predicate SourceOk(s: State) {
    && s.callbacks <= s.nodes.Keys
    && (s.stopRequested ==> s.callbacks == {})
    && (s.stopRequested <==> s.dispatcher.Some?)
  }

  /** Nothing has invoked this callback yet. */
  predicate Unused(node: Node) {
    node.runs == 0 && !node.executing
  }

  ghost predicate NodeOk(s: State, cb: Cb)
    requires cb in s.nodes
  {
    var node := s.nodes[cb];
    && node.runs <= 1
    && (cb in s.callbacks ==> Unused(node) && !node.life.Constructing?)
    && (node.executing ==>
        node.runs == 1 && (node.life.Constructing? || node.executor == s.dispatcher))
    && (node.executing <==> node.executor.Some?)
    && (node.life.Destroyed? ==>
        !node.active && cb !in s.callbacks && (node.executing ==> node.executor == Some(node.life.destroyer)))
  }

  /** Each call names callbacks that exist, and stands where their fields say. */
  ghost predicate CallOk(s: State, id: CallId)
    requires id in s.calls
  {
    match s.calls[id]
    case Stop(t, todo) =>
      && s.dispatcher == Some(t)
      && forall cb :: cb in todo ==> cb in s.nodes && Unused(s.nodes[cb]) && !s.nodes[cb].life.Constructing?
    case Invoke(t, cb, stage) =>
      && s.stopRequested && cb in s.nodes
      && (if stage.Starting? then Unused(s.nodes[cb]) else s.nodes[cb].executing && s.nodes[cb].executor == Some(t))
      && (!s.nodes[cb].life.Constructing? ==> s.dispatcher == Some(t))
    case Destroy(t, cb, stage) =>
      && cb in s.nodes && s.nodes[cb].life.Destroying? && (cb in s.callbacks ==> stage.Unregister?)
      && (stage.Waiting? ==> !s.nodes[cb].active && (s.nodes[cb].executing ==> s.nodes[cb].executor != Some(t)))
  }

  /** The callbacks a call may still invoke. */
  function Invokes(call: Call): set<Cb> {
    match call
    case Stop(_, todo) => todo
    case Invoke(_, cb, _) => {cb}
    case Destroy(_, _, _) => {}
  }

  /** Two calls never compete for one callback. */
  ghost predicate Apart(x: Call, y: Call) {
    && Invokes(x) !! Invokes(y)
    && (x.Destroy? && y.Destroy? ==> x.cb != y.cb)
    && !(x.Stop? && y.Stop?)
  }

  ghost predicate Inv(s: State) {
    && SourceOk(s)
    && (forall cb :: cb in s.nodes ==> NodeOk(s, cb))
    && (forall id :: id in s.calls ==> CallOk(s, id) && Invokes(s.calls[id]) !! s.callbacks)
    && (forall x, y :: x in s.calls && y in s.calls && x != y ==> Apart(s.calls[x], s.calls[y]))
    && (forall cb :: cb in s.nodes ==> Accounted(s, cb))
  }

  /** The invocation of this callback is still to come: it is registered, or a call will make it. */
  ghost predicate Pending(s: State, cb: Cb) {
    cb in s.callbacks || exists id :: id in s.calls && cb in Invokes(s.calls[id])
  }

  ghost predicate RunningIn(s: State, id: CallId, cb: Cb) {
    InStage(s, id, Running) && s.calls[id].cb == cb
  }

  /** No callback is forgotten, and a body marked as executing is a call in progress. */
  ghost predicate Accounted(s: State, cb: Cb)
    requires cb in s.nodes
  {
    var node := s.nodes[cb];
    && (node.runs == 0 && (node.life.Live? || node.life.Constructing?) ==> Pending(s, cb) && node.active)
    && (node.executing ==> exists id :: RunningIn(s, id, cb))
  }

  // Every action is one of three kinds; each kind is shown to keep each part of the invariant.

  predicate Registering(a: Action) {
    a.Construct? || a.RequestStop?
  }

  predicate Invoking(a: Action) {
    a.DispatchNext? || a.DispatchDone? || a.InvokeStart? || a.InvokeEnd?
  }

  predicate Destructing(a: Action) {
    !Registering(a) && !Invoking(a)
  }

  lemma KeepsNodesRegistering(s: State, a: Action, cb: Cb)
    requires Inv(s) && Allowed(s, a) && Registering(a) && cb in Apply(s, a).nodes
    ensures NodeOk(Apply(s, a), cb)
  {
    hide Accounted, Apart;
  }

  lemma KeepsNodesInvoking(s: State, a: Action, cb: Cb)
    requires Inv(s) && Allowed(s, a) && Invoking(a) && cb in Apply(s, a).nodes
    ensures NodeOk(Apply(s, a), cb)
  {
    hide Accounted, Apart;
  }

  lemma KeepsNodesDestructing(s: State, a: Action, cb: Cb)
    requires Inv(s) && Allowed(s, a) && Destructing(a) && cb in Apply(s, a).nodes
    ensures NodeOk(Apply(s, a), cb)
  {
    hide Accounted, Apart;
  }

  lemma KeepsNodes(s: State, a: Action, cb: Cb)
    requires Inv(s) && Allowed(s, a) && cb in Apply(s, a).nodes
    ensures SourceOk(Apply(s, a)) && NodeOk(Apply(s, a), cb)
  {
    hide Inv, Apply, Allowed, NodeOk, SourceOk;
    KeepsSource(s, a);
    if Registering(a) {
      KeepsNodesRegistering(s, a, cb);
    } else if Invoking(a) {
      KeepsNodesInvoking(s, a, cb);
    } else {
      KeepsNodesDestructing(s, a, cb);
    }
  }

  lemma KeepsCallsRegistering(s: State, a: Action, id: CallId)
    requires Inv(s) && Allowed(s, a) && Registering(a) && id in Apply(s, a).calls
    ensures CallOk(Apply(s, a), id)
  {
    hide Accounted;
  }

  lemma KeepsCallsInvoking(s: State, a: Action, id: CallId)
    requires Inv(s) && Allowed(s, a) && Invoking(a) && id in Apply(s, a).calls
    ensures CallOk(Apply(s, a), id)
  {
    hide Accounted;
  }

  lemma KeepsCallsDestructing(s: State, a: Action, id: CallId)
    requires Inv(s) && Allowed(s, a) && Destructing(a) && id in Apply(s, a).calls
    ensures CallOk(Apply(s, a), id)
  {
    hide Accounted;
  }

  lemma KeepsCalls(s: State, a: Action, id: CallId)
    requires Inv(s) && Allowed(s, a) && id in Apply(s, a).calls
    ensures CallOk(Apply(s, a), id)
  {
    hide Inv, Apply, Allowed, CallOk;
    if Registering(a) {
      KeepsCallsRegistering(s, a, id);
    } else if Invoking(a) {
      KeepsCallsInvoking(s, a, id);
    } else {
      KeepsCallsDestructing(s, a, id);
    }
  }

  lemma KeepsRegistered(s: State, a: Action, id: CallId)
    requires Inv(s) && Allowed(s, a) && id in Apply(s, a).calls
    ensures Invokes(Apply(s, a).calls[id]) !! Apply(s, a).callbacks
  {
    hide Accounted, Apart;
  }

  lemma KeepsApartRegistering(s: State, a: Action, x: CallId, y: CallId)
    requires Inv(s) && Allowed(s, a) && Registering(a) && x in Apply(s, a).calls && y in Apply(s, a).calls && x != y
    ensures Apart(Apply(s, a).calls[x], Apply(s, a).calls[y])
  {
    hide Accounted, NodeOk;
  }

  lemma KeepsApartInvoking(s: State, a: Action, x: CallId, y: CallId)
    requires Inv(s) && Allowed(s, a) && Invoking(a) && x in Apply(s, a).calls && y in Apply(s, a).calls && x != y
    ensures Apart(Apply(s, a).calls[x], Apply(s, a).calls[y])
  {
    hide Accounted, NodeOk;
  }

  lemma KeepsApartDestructing(s: State, a: Action, x: CallId, y: CallId)
    requires Inv(s) && Allowed(s, a) && Destructing(a) && x in Apply(s, a).calls && y in Apply(s, a).calls && x != y
    ensures Apart(Apply(s, a).calls[x], Apply(s, a).calls[y])
  {
    hide Accounted, NodeOk;
  }

  lemma KeepsApart(s: State, a: Action, x: CallId, y: CallId)
    requires Inv(s) && Allowed(s, a) && x in Apply(s, a).calls && y in Apply(s, a).calls && x != y
    ensures Apart(Apply(s, a).calls[x], Apply(s, a).calls[y])
  {
    hide Inv, Apply, Allowed, Apart;
    if Registering(a) {
      KeepsApartRegistering(s, a, x, y);
    } else if Invoking(a) {
      KeepsApartInvoking(s, a, x, y);
    } else {
      KeepsApartDestructing(s, a, x, y);
    }
  }

  lemma KeepsPending(s: State, a: Action, cb: Cb)
    requires Inv(s) && Allowed(s, a) && cb in s.nodes && Pending(s, cb) && s.nodes[cb].active
    ensures var after := Apply(s, a);
            cb in after.nodes && (Pending(after, cb) || after.nodes[cb].runs > 0 || after.nodes[cb].life.Destroying?)
  {
    hide Accounted, Apart;
    var after := Apply(s, a);
    assert NodeOk(s, cb);
    if cb in s.callbacks {
      if a.RequestStop? && !s.stopRequested {
        assert cb in Invokes(after.calls[a.id]);
      }
      if a.DoUnregister? {
        assert CallOk(s, a.id);
      }
    } else {
      var id :| id in s.calls && cb in Invokes(s.calls[id]);
      assert CallOk(s, id);
      if a.DispatchNext? && a.id == id && a.cb == cb {
        assert cb in Invokes(after.calls[a.next]);
      } else if id in after.calls {
        assert after.nodes[cb].runs > 0 || cb in Invokes(after.calls[id]);
      }
    }
  }

  /** A body marked as executing is, and stays, a call in progress. */
  lemma KeepsRunning(s: State, a: Action, cb: Cb)
    requires Inv(s) && Allowed(s, a) && cb in s.nodes && Apply(s, a).nodes[cb].executing
    ensures exists id :: RunningIn(Apply(s, a), id, cb)
  {
    hide Apply, Allowed, Apart, Pending, NodeOk, CallOk;
    assert Accounted(s, cb);
    if s.nodes[cb].executing {
      var id :| RunningIn(s, id, cb);
      StaysRunning(s, a, id, cb);
    } else {
      StartsRunning(s, a, cb);
    }
  }

  lemma StaysRunning(s: State, a: Action, id: CallId, cb: Cb)
    requires Inv(s) && Allowed(s, a) && RunningIn(s, id, cb) && Apply(s, a).nodes[cb].executing
    ensures RunningIn(Apply(s, a), id, cb)
  {
    hide Apart, Accounted;
    assert NodeOk(s, cb) && CallOk(s, id);
  }

  lemma StartsRunning(s: State, a: Action, cb: Cb)
    requires Inv(s) && Allowed(s, a) && cb in s.nodes && !s.nodes[cb].executing && Apply(s, a).nodes[cb].executing
    ensures RunningIn(Apply(s, a), a.id, cb)
  {
    hide Apart, Accounted, CallOk, NodeOk;
  }

  lemma KeepsAccounts(s: State, a: Action, cb: Cb)
    requires Inv(s) && Allowed(s, a) && cb in Apply(s, a).nodes
    ensures Accounted(Apply(s, a), cb)
  {
    hide Apart, CallOk, RunningIn;
    var after := Apply(s, a);
    if cb !in s.nodes {
      assert a.Construct? && a.cb == cb;
      if s.stopRequested { assert cb in Invokes(after.calls[a.id]); }
    } else {
      assert NodeOk(s, cb) && Accounted(s, cb);
      if Pending(s, cb) && s.nodes[cb].active { KeepsPending(s, a, cb); }
      if after.nodes[cb].executing { KeepsRunning(s, a, cb); }
    }
  }

  lemma KeepsInv(s: State, a: Action)
    requires Inv(s) && Allowed(s, a)
    ensures Inv(Apply(s, a))
  {
    hide Apply, Allowed, NodeOk, CallOk, Apart, Accounted, SourceOk;
    var after := Apply(s, a);
    forall cb | cb in after.nodes ensures NodeOk(after, cb) && Accounted(after, cb) {
      KeepsNodes(s, a, cb);
      KeepsAccounts(s, a, cb);
    }
    forall id | id in after.calls ensures CallOk(after, id) && Invokes(after.calls[id]) !! after.callbacks {
      KeepsCalls(s, a, id);
      KeepsRegistered(s, a, id);
    }
    forall x, y | x in after.calls && y in after.calls && x != y ensures Apart(after.calls[x], after.calls[y]) {
      KeepsApart(s, a, x, y);
    }
    KeepsSource(s, a);
  }

  lemma KeepsSource(s: State, a: Action)
    requires Inv(s) && Allowed(s, a)
    ensures SourceOk(Apply(s, a))
  {
    hide NodeOk, CallOk, Apart, Accounted;
  }

  lemma {:induction false} InvAlways(run: seq<State>, actions: seq<Action>, i: nat)
    requires IsRun(run, actions) && i < |run|
    ensures Inv(run[i])
  {
    if i > 0 {
      InvAlways(run, actions, i - 1);
      KeepsInv(run[i - 1], actions[i - 1]);
    }
  }

  // ---------------------------------------------------------------- the results

  /** However registration, stop and destruction race, a body starts at most once. */
  lemma RunsAtMostOnce(run: seq<State>, actions: seq<Action>, i: nat, cb: Cb)
    requires IsRun(run, actions) && i < |run| && cb in run[i].nodes
    ensures run[i].nodes[cb].runs <= 1
  {
    InvAlways(run, actions, i);
  }

  /** And exactly once: when the stop has been dispatched, every callback still alive has run. */
  lemma EveryLiveCallbackRan(run: seq<State>, actions: seq<Action>, i: nat, cb: Cb)
    requires IsRun(run, actions) && i < |run| && run[i].stopRequested
    requires forall id :: id in run[i].calls ==> run[i].calls[id].Destroy?
    requires cb in run[i].nodes && run[i].nodes[cb].life.Live?
    ensures run[i].nodes[cb].runs == 1 && !run[i].nodes[cb].executing
  {
    InvAlways(run, actions, i);
    assert NodeOk(run[i], cb) && Accounted(run[i], cb);
  }

  lemma StaysDestroyed(s: State, a: Action, cb: Cb)
    requires Inv(s) && Allowed(s, a) && cb in s.nodes && s.nodes[cb].life.Destroyed?
    ensures var after := Apply(s, a);
            && cb in after.nodes && after.nodes[cb].life == s.nodes[cb].life
            && after.nodes[cb].runs == s.nodes[cb].runs && (after.nodes[cb].executing ==> s.nodes[cb].executing)
  {
    hide Apart, Accounted;
    assert NodeOk(s, cb);
    if a.DoUnregister? || a.DoDeactivate? || a.DoWake? || a.InvokeStart? || a.InvokeEnd? {
      assert CallOk(s, a.id);
    }
  }

  /**
   Once a callback is destroyed the stop source has forgotten it, its body never starts again, and if
   the body is still running, it runs on the very thread that destroyed it.
   */
  lemma {:induction false} QuietAfterDestruction(run: seq<State>, actions: seq<Action>, i: nat, j: nat, cb: Cb)
    requires IsRun(run, actions) && i <= j < |run| && cb in run[i].nodes && run[i].nodes[cb].life.Destroyed?
    ensures cb in run[j].nodes && run[j].nodes[cb].life == run[i].nodes[cb].life && cb !in run[j].callbacks
    ensures run[j].nodes[cb].runs == run[i].nodes[cb].runs
    ensures run[j].nodes[cb].executing ==> run[j].nodes[cb].executor == Some(run[i].nodes[cb].life.destroyer)
    decreases j - i
  {
    hide Apply, Allowed, CallOk, Apart, Accounted, SourceOk;
    InvAlways(run, actions, j);
    if i < j {
      QuietAfterDestruction(run, actions, i, j - 1, cb);
      InvAlways(run, actions, j - 1);
      StaysDestroyed(run[j - 1], actions[j - 1], cb);
    }
    assert NodeOk(run[j], cb);
  }

  /** The step with which `~Callback` returns leaves the callback destroyed by that thread. */
  lemma DestructorEnds(s: State, a: Action, id: CallId)
    requires Inv(s) && Allowed(s, a) && id in s.calls && s.calls[id].Destroy? && id !in Apply(s, a).calls
    ensures var call, after := s.calls[id], Apply(s, a);
            && call.cb in s.nodes && call.cb in after.nodes && after.nodes[call.cb].life == Destroyed(call.t)
            && after.nodes[call.cb].runs == s.nodes[call.cb].runs
            && after.nodes[call.cb].executing == s.nodes[call.cb].executing
            && after.nodes[call.cb].executor == s.nodes[call.cb].executor
  {
    hide Apart, Accounted, NodeOk;
    assert CallOk(s, id);
  }

  /** A body that is not running on a destroyed callback never runs there again. */
  lemma {:induction false} StaysEnded(run: seq<State>, actions: seq<Action>, i: nat, j: nat, cb: Cb)
    requires IsRun(run, actions) && i <= j < |run| && cb in run[i].nodes && run[i].nodes[cb].life.Destroyed?
    requires !run[i].nodes[cb].executing
    ensures cb in run[j].nodes && run[j].nodes[cb].life == run[i].nodes[cb].life && !run[j].nodes[cb].executing
    decreases j - i
  {
    hide Apply, Allowed, CallOk, Apart, Accounted, SourceOk, NodeOk;
    if i < j {
      StaysEnded(run, actions, i, j - 1, cb);
      InvAlways(run, actions, j - 1);
      StaysDestroyed(run[j - 1], actions[j - 1], cb);
    }
  }

  /**
   `~Callback` waits. When it returns on a thread that is not executing the body, the body is not
   running then or at any later time; and it returns with the body running only inside that body.
   */
  lemma DestructorWaits(run: seq<State>, actions: seq<Action>, i: nat, j: nat, id: CallId)
    requires IsRun(run, actions) && i < j < |run|
    requires id in run[i].calls && run[i].calls[id].Destroy? && id !in run[i + 1].calls
    ensures var call := run[i].calls[id];
            && call.cb in run[i].nodes && call.cb in run[j].nodes
            && run[j].nodes[call.cb].life == Destroyed(call.t)
            && run[j].nodes[call.cb].runs == run[i].nodes[call.cb].runs
            && (run[i].nodes[call.cb].executor != Some(call.t) ==> !run[j].nodes[call.cb].executing)
            && (run[i].nodes[call.cb].executing <==> run[i].nodes[call.cb].executor == Some(call.t))
  {
    hide Apply, Allowed, CallOk, Apart, Accounted, SourceOk;
    var call := run[i].calls[id];
    InvAlways(run, actions, i);
    DestructorEnds(run[i], actions[i], id);
    assert NodeOk(run[i], call.cb);
    QuietAfterDestruction(run, actions, i + 1, i + 1, call.cb);
    QuietAfterDestruction(run, actions, i + 1, j, call.cb);
    if !run[i + 1].nodes[call.cb].executing {
      StaysEnded(run, actions, i + 1, j, call.cb);
    }
  }

  /**
   A destructor that waits always waits for a body the dispatching thread is in the middle of, and
   that thread is never itself waiting for a body to end: destruction cannot deadlock.
   */
  lemma DestructionCannotDeadlock(run: seq<State>, actions: seq<Action>, i: nat, id: CallId)
    requires IsRun(run, actions) && i < |run| && Destroying(run[i], id, Waiting)
    requires run[i].nodes[run[i].calls[id].cb].executing
    ensures exists body ::
              RunningIn(run[i], body, run[i].calls[id].cb) && run[i].dispatcher == Some(run[i].calls[body].t)
    ensures run[i].dispatcher != Some(run[i].calls[id].t)
  {
    var s := run[i];
    InvAlways(run, actions, i);
    var cb := s.calls[id].cb;
    assert CallOk(s, id) && NodeOk(s, cb) && Accounted(s, cb);
    var body :| RunningIn(s, body, cb);
    assert CallOk(s, body);
  }
}
