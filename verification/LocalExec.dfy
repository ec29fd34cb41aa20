/** Local-exec request routing (cmd/karid/local_exec_route.go and the waiter functions of
    internal/filesync/session.go) as a state machine: one step per critical section, so that every
    interleaving of dispatch, cleanup, bridge teardown and completion is a run. */
module LocalExec {

  // Installed: the waiter is in the session's table. Queued: the request is on its way to the
  // daemon. Registered: Route has returned to its caller. Over: Route returned an error.
  datatype Phase = Installed | Queued | Registered | Over

  datatype Route = Route(bridge: string, session: string, phase: Phase)

  datatype Ref = Ref(bridge: string, session: string)

  /** `cancels` counts session cleanups still to be carried out for a request, `toClose` the waiter
      channels that somebody has taken out of the table and not yet closed. A request identifier
      also names the one channel made for it. */
  datatype State = State(
    bridges: map<string, set<string>>,
    requests: map<string, Ref>,
    routes: map<string, Route>,
    waiters: map<string, string>,
    cancels: multiset<string>,
    toClose: multiset<string>,
    closed: multiset<string>)

  datatype Step =
    | RegisterBridge(bridge: string)
    | UnregisterBridge(bridge: string)
    | Install(id: string, bridge: string, session: string)
    | QueueAccepts(id: string)
    | QueueFull(id: string)
    | Register(id: string)
    | Cleanup(id: string)
    | SessionCancel(id: string)
    | DoneArrives(id: string, session: string)
    | Close(id: string)

  function Init(): State {
    State(map[], map[], map[], map[], multiset{}, multiset{}, multiset{})
  }

  /** Bridge and request identifiers are fresh random numbers. */
  predicate Enabled(s: State, step: Step) {
    match step
    case RegisterBridge(b) => b !in s.bridges && forall id :: id in s.routes ==> s.routes[id].bridge != b
    case UnregisterBridge(b) => b in s.bridges
    case Install(id, _, _) => id !in s.routes
    case QueueAccepts(id) => id in s.routes && s.routes[id].phase == Installed
    case QueueFull(id) => id in s.routes && s.routes[id].phase == Installed
    case Register(id) => id in s.routes && s.routes[id].phase == Queued
    case Cleanup(id) => id in s.routes && s.routes[id].phase == Registered
    case SessionCancel(id) => id in s.cancels
    case DoneArrives(_, _) => true
    case Close(id) => id in s.toClose
  }

  /** Takes the waiter out of the table; whoever does so has to close it. */
  function Removed(s: State, id: string): State {
    if id in s.waiters then s.(waiters := s.waiters - {id}, toClose := s.toClose + multiset{id}) else s
  }

  function Stepped(s: State, step: Step): State
    requires Enabled(s, step)
  {
    match step
    case RegisterBridge(b) => s.(bridges := s.bridges[b := {}])
    case UnregisterBridge(b) =>
      s.(bridges := s.bridges - {b},
         requests := s.requests - s.bridges[b],
         cancels := s.cancels + multiset(s.bridges[b] * s.requests.Keys))
    case Install(id, b, session) =>
      s.(routes := s.routes[id := Route(b, session, Installed)], waiters := s.waiters[id := session])
    case QueueAccepts(id) => s.(routes := s.routes[id := s.routes[id].(phase := Queued)])
    case QueueFull(id) =>
      s.(routes := s.routes[id := s.routes[id].(phase := Over)], waiters := s.waiters - {id})
    case Register(id) =>
      var r := s.routes[id];
      if r.bridge in s.bridges then
        s.(bridges := s.bridges[r.bridge := s.bridges[r.bridge] + {id}],
           requests := s.requests[id := Ref(r.bridge, r.session)],
           routes := s.routes[id := r.(phase := Registered)])
      else
        s.(routes := s.routes[id := r.(phase := Over)], cancels := s.cancels + multiset{id})
    case Cleanup(id) =>
      var b := s.routes[id].bridge;
      s.(bridges := if b in s.bridges then s.bridges[b := s.bridges[b] - {id}] else s.bridges,
         requests := s.requests - {id},
         cancels := s.cancels + multiset{id})
    case SessionCancel(id) => Removed(s.(cancels := s.cancels - multiset{id}), id)
    case DoneArrives(id, session) =>
      if id in s.waiters && s.waiters[id] == session then Removed(s, id) else s
    case Close(id) => s.(toClose := s.toClose - multiset{id}, closed := s.closed + multiset{id})
  }

  /** The request table and the bridges' request sets describe each other exactly. */
  ghost predicate TablesAgree(s: State) {
    && (forall id :: id in s.requests ==> s.requests[id].bridge in s.bridges && id in s.bridges[s.requests[id].bridge])
    && (forall b, id :: b in s.bridges && id in s.bridges[b] ==> id in s.requests && s.requests[id].bridge == b)
  }

  predicate Dispatching(p: Phase) {
    p == Installed || p == Queued
  }

  ghost predicate RequestsHaveRoutes(s: State) {
    forall id :: id in s.requests ==>
      id in s.routes && s.routes[id] == Route(s.requests[id].bridge, s.requests[id].session, Registered)
  }

  ghost predicate WaitersAccounted(s: State) {
    forall id :: id in s.waiters ==>
      && id in s.routes && s.routes[id].session == s.waiters[id] && s.toClose[id] == 0 && s.closed[id] == 0
      && (Dispatching(s.routes[id].phase) || id in s.requests || id in s.cancels)
  }

  ghost predicate ClosesOnce(s: State) {
    forall id :: s.toClose[id] + s.closed[id] <= if id in s.routes then 1 else 0
  }

  ghost predicate Inv(s: State) {
    TablesAgree(s) && RequestsHaveRoutes(s) && WaitersAccounted(s) && ClosesOnce(s)
  }

  lemma StepKeepsTables(s: State, step: Step)
    requires TablesAgree(s) && RequestsHaveRoutes(s) && Enabled(s, step)
    ensures TablesAgree(Stepped(s, step))
  {
    match step
    case UnregisterBridge(b) => assert forall id :: id in s.bridges[b] ==> s.requests[id].bridge == b;
    case _ =>
  }

  lemma StepKeepsRequests(s: State, step: Step)
    requires TablesAgree(s) && RequestsHaveRoutes(s) && Enabled(s, step)
    ensures RequestsHaveRoutes(Stepped(s, step))
  {
  }

  lemma StepKeepsWaiters(s: State, step: Step)
    requires Inv(s) && Enabled(s, step)
    ensures WaitersAccounted(Stepped(s, step))
  {
    var s' := Stepped(s, step);
    forall id | id in s'.waiters
      ensures && id in s'.routes && s'.routes[id].session == s'.waiters[id] && s'.toClose[id] == 0 && s'.closed[id] == 0
              && (Dispatching(s'.routes[id].phase) || id in s'.requests || id in s'.cancels)
    {
      assert id in s.waiters ==> Accounted(s, id);
      WaiterSteps(s, step, id);
    }
  }

  ghost predicate Accounted(s: State, id: string) {
    && id in s.waiters && id in s.routes && s.routes[id].session == s.waiters[id]
    && s.toClose[id] == 0 && s.closed[id] == 0
    && (Dispatching(s.routes[id].phase) || id in s.requests || id in s.cancels)
  }

  lemma UnregisterKeepsWaiter(s: State, b: string, id: string)
    requires TablesAgree(s) && b in s.bridges && Accounted(s, id)
    ensures Accounted(Stepped(s, UnregisterBridge(b)), id)
  {
    var s' := Stepped(s, UnregisterBridge(b));
    if id in s.requests && id !in s'.requests {
      assert id in s.bridges[b] * s.requests.Keys;
    }
  }

  lemma RouteStepKeepsWaiter(s: State, step: Step, id: string)
    requires Enabled(s, step) && !step.RegisterBridge? && !step.UnregisterBridge? && id in Stepped(s, step).waiters
    requires id in s.waiters ==> Accounted(s, id)
    requires s.toClose[id] + s.closed[id] <= if id in s.routes then 1 else 0
    ensures Accounted(Stepped(s, step), id)
  {
    if step.id != id {
      assert id in s.waiters;
    }
  }

  lemma WaiterSteps(s: State, step: Step, id: string)
    requires TablesAgree(s) && Enabled(s, step) && id in Stepped(s, step).waiters
    requires id in s.waiters ==> Accounted(s, id)
    requires s.toClose[id] + s.closed[id] <= if id in s.routes then 1 else 0
    ensures Accounted(Stepped(s, step), id)
  {
    match step
    case RegisterBridge(_) =>
    case UnregisterBridge(b) => UnregisterKeepsWaiter(s, b, id);
    case _ => RouteStepKeepsWaiter(s, step, id);
  }

  lemma StepKeepsCloses(s: State, step: Step)
    requires Inv(s) && Enabled(s, step)
    ensures ClosesOnce(Stepped(s, step))
  {
  }

  ghost predicate Run(states: seq<State>, steps: seq<Step>) {
    && |states| == |steps| + 1 && states[0] == Init()
    && forall i :: 0 <= i < |steps| ==> Enabled(states[i], steps[i]) && states[i + 1] == Stepped(states[i], steps[i])
  }

  lemma {:induction false} RunKeepsInv(states: seq<State>, steps: seq<Step>)
    requires Run(states, steps)
    ensures Inv(states[|steps|])
  {
    if steps != [] {
      var n := |steps| - 1;
      RunKeepsInv(states[..n + 1], steps[..n]);
      StepKeepsTables(states[n], steps[n]);
      StepKeepsRequests(states[n], steps[n]);
      StepKeepsCloses(states[n], steps[n]);
      StepKeepsWaiters(states[n], steps[n]);
    }
  }

  /** In every interleaving the two tables agree, a bridge that is not registered has no request,
      and no channel is closed twice. */
  lemma RoutingIsConsistent(states: seq<State>, steps: seq<Step>)
    requires Run(states, steps)
    ensures var s := states[|steps|];
      && TablesAgree(s)
      && (forall id, b :: id in s.requests && b !in s.bridges ==> s.requests[id].bridge != b)
      && (forall id :: s.closed[id] <= 1)
  {
    RunKeepsInv(states, steps);
  }

  /** A channel is closed only by the step that follows its removal: one that is still in the table
      is open, and one waiting to be closed is out of the table. */
  lemma OnlyTheRemoverCloses(states: seq<State>, steps: seq<Step>, id: string)
    requires Run(states, steps)
    ensures var s := states[|steps|];
      && (id in s.waiters ==> s.toClose[id] == 0 && s.closed[id] == 0)
      && (id in s.toClose ==> s.toClose[id] == 1 && s.closed[id] == 0 && id !in s.waiters)
  {
    RunKeepsInv(states, steps);
  }

  /** No caller is left waiting for a bridge that is gone: once every cleanup that was started has
      been carried out, a waiter is in the table only while its Route call is still dispatching or
      its request still belongs to a registered bridge. */
  lemma NoOrphanedWaiter(states: seq<State>, steps: seq<Step>, id: string)
    requires Run(states, steps)
    requires var s := states[|steps|]; id in s.waiters && id !in s.cancels
    ensures var s := states[|steps|];
      && id in s.routes
      && (Dispatching(s.routes[id].phase) || (id in s.requests && s.routes[id].bridge in s.bridges))
  {
    RunKeepsInv(states, steps);
  }

  // ---- that the work is done --------------------------------------------------------------

  /** A request that its bridge is still there for is entered in both tables; otherwise its session is to
      be told to give it up. Nothing else changes. */
  lemma RegisterEnters(s: State, id: string)
    requires Enabled(s, Register(id))
    ensures var s', r := Stepped(s, Register(id)), s.routes[id];
            if r.bridge in s.bridges then
              && s'.requests == s.requests[id := Ref(r.bridge, r.session)]
              && s'.bridges == s.bridges[r.bridge := s.bridges[r.bridge] + {id}]
              && s'.cancels == s.cancels && s'.waiters == s.waiters && s'.routes[id] == r.(phase := Registered)
            else
              && s'.requests == s.requests && s'.bridges == s.bridges
              && s'.cancels == s.cancels + multiset{id} && s'.waiters == s.waiters && s'.routes[id] == r.(phase := Over)
  {
  }

  /** A bridge that goes takes its requests with it, and each of their sessions is to be told once. */
  lemma TeardownCancelsAll(s: State, b: string)
    requires TablesAgree(s) && Enabled(s, UnregisterBridge(b))
    ensures var s' := Stepped(s, UnregisterBridge(b));
            && b !in s'.bridges
            && (forall id :: id in s'.requests <==> id in s.requests && s.requests[id].bridge != b)
            && (forall id :: s'.cancels[id] == s.cancels[id] +
                  if id in s.requests && s.requests[id].bridge == b then 1 else 0)
  {
  }

  /** A caller that waits, or has waited, for what was dispatched: its channel is in the table, about to be
      closed, or closed. */
  ghost predicate Awaited(s: State, id: string) {
    id in s.routes && (id in s.waiters || s.toClose[id] + s.closed[id] == 1)
  }

  ghost predicate NobodyForgotten(s: State) {
    forall id :: id in s.routes && s.routes[id].phase != Over ==> Awaited(s, id)
  }

  lemma {:induction false} NobodyIsForgotten(states: seq<State>, steps: seq<Step>)
    requires Run(states, steps)
    ensures NobodyForgotten(states[|steps|])
  {
    if steps != [] {
      var n := |steps| - 1;
      NobodyIsForgotten(states[..n + 1], steps[..n]);
      RunKeepsInv(states[..n + 1], steps[..n]);
      var s, s' := states[n], states[n + 1];
      forall id | id in s'.routes && s'.routes[id].phase != Over ensures Awaited(s', id) {
        assert id in s.routes ==> Awaited(s, id) || s.routes[id].phase == Over;
        StaysAwaited(s, steps[n], id);
      }
    }
  }

  lemma StaysAwaited(s: State, step: Step, id: string)
    requires Inv(s) && Enabled(s, step)
    requires id in s.routes ==> Awaited(s, id) || s.routes[id].phase == Over
    requires id in Stepped(s, step).routes && Stepped(s, step).routes[id].phase != Over
    ensures Awaited(Stepped(s, step), id)
  {
  }

  /** Nobody waits for good: once a registered request is gone from the table, whether its bridge went or it
      was cleaned up, and what was to be told and closed has been, its caller's channel is closed. */
  lemma EveryCallerIsReleased(states: seq<State>, steps: seq<Step>, id: string)
    requires Run(states, steps)
    requires var s := states[|steps|];
             && id in s.routes && s.routes[id].phase == Registered && id !in s.requests
             && id !in s.cancels && id !in s.toClose
    ensures states[|steps|].closed[id] == 1
  {
    RunKeepsInv(states, steps);
    NobodyIsForgotten(states, steps);
    assert Awaited(states[|steps|], id);
  }

  /** A registered request stays in the table until it is cleaned up or its bridge goes. */
  lemma {:induction false} RequestStays(states: seq<State>, steps: seq<Step>, i: nat, id: string)
    requires Run(states, steps) && i <= |steps| && id in states[i].requests
    requires forall j :: i <= j < |steps| ==>
               steps[j] != Cleanup(id) && steps[j] != UnregisterBridge(states[i].requests[id].bridge)
    ensures id in states[|steps|].requests && states[|steps|].requests[id] == states[i].requests[id]
  {
    if i < |steps| {
      var n := |steps| - 1;
      RequestStays(states[..n + 1], steps[..n], i, id);
      RunKeepsInv(states[..n + 1], steps[..n]);
      StepKeepsRequest(states[n], steps[n], id);
    }
  }

  lemma StepKeepsRequest(s: State, step: Step, id: string)
    requires Inv(s) && Enabled(s, step) && id in s.requests
    requires step != Cleanup(id) && step != UnregisterBridge(s.requests[id].bridge)
    ensures id in Stepped(s, step).requests && Stepped(s, step).requests[id] == s.requests[id]
  {
    if step.UnregisterBridge? {
      assert id !in s.bridges[step.bridge];
    }
  }

  /** The word that a request is done, from the session it went to, releases its caller, and from any other
      session it does nothing. */
  lemma DoneReleases(states: seq<State>, steps: seq<Step>, i: nat, id: string, session: string)
    requires Run(states, steps) && i < |steps| && steps[i] == DoneArrives(id, session) && id in states[i].waiters
    ensures states[i].waiters[id] != session ==> states[i + 1] == states[i]
    ensures states[i].waiters[id] == session ==>
      id !in states[|steps|].waiters && states[|steps|].toClose[id] + states[|steps|].closed[id] == 1
  {
    RunKeepsInv(states[..i + 1], steps[..i]);
    if states[i].waiters[id] == session {
      StaysReleased(states, steps, i + 1, id);
    }
  }

  lemma {:induction false} StaysReleased(states: seq<State>, steps: seq<Step>, i: nat, id: string)
    requires Run(states, steps) && i <= |steps| && id in states[i].routes && id !in states[i].waiters
    ensures var s := states[|steps|];
            && id in s.routes && id !in s.waiters
            && s.toClose[id] + s.closed[id] == states[i].toClose[id] + states[i].closed[id]
  {
    if i < |steps| {
      var n := |steps| - 1;
      StaysReleased(states[..n + 1], steps[..n], i, id);
      StepStaysReleased(states[n], steps[n], id);
    }
  }

  lemma StepStaysReleased(s: State, step: Step, id: string)
    requires Enabled(s, step) && id in s.routes && id !in s.waiters
    ensures var s' := Stepped(s, step);
            && id in s'.routes && id !in s'.waiters && s'.toClose[id] + s'.closed[id] == s.toClose[id] + s.closed[id]
  {
  }
}
