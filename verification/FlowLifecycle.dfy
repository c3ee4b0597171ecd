/**
 * Goroutine-per-flow profiles (pkg/wmp/flowcontext.go): the flow map, the bounded action channels and
 * the done channels, under every interleaving of starts, goroutine cleanups, completions,
 * cancellations and deliveries. One step per lock region or channel operation.
 */
module FlowLifecycle {
  import opened Folds

  const ACTION_CAPACITY := 10

  /** The goroutine of a flow: running its function, past the map deletion of its cleanup, or gone. */
  datatype Runner = Active | Cleaned | Gone

  /** A `FlowContext`; `closed` says that `doneCh` is closed. */
  datatype Flow = Flow(id: string, runner: Runner, closed: bool, actions: seq<string>)

  /** A goroutine in `deliverAction`. */
  datatype Delivery = Delivery(flow: nat, action: string)

  /**
   * Contexts are numbered in creation order. `closers` are the threads of `HandleComplete`,
   * `HandleError` or `CancelFlow` that have taken a flow out of the map and still have to cancel it.
   */
  datatype Profile = Profile(
    types: set<string>,
    flows: map<string, nat>,
    contexts: seq<Flow>,
    closers: map<nat, nat>,
    deliveries: map<nat, Delivery>)

  datatype Step =
    | Start(id: string, flowType: string)
    | Clean(flow: nat)                          // deferred: lock, delete(flows, id), unlock
    | Finish(flow: nat)                         // deferred: cancel()
    | Remove(thread: nat, id: string)           // HandleComplete, HandleError, CancelFlow: the lock region
    | Close(thread: nat)                        // ... and their cancel()
    | Look(thread: nat, id: string, action: string)  // HandleAction: the read-lock region
    | Deliver(thread: nat)                      // deliverAction: the send case
    | Abandon(thread: nat)                      // deliverAction: the done case
    | Wait(flow: nat)                           // WaitForAction takes an action

  function Initial(types: set<string>): Profile {
    Profile(types, map[], [], map[], map[])
  }

  predicate Enabled(s: Profile, step: Step) {
    match step
    case Start(_, flowType) => flowType in s.types
    case Clean(f) => f < |s.contexts| && s.contexts[f].runner.Active?
    case Finish(f) => f < |s.contexts| && s.contexts[f].runner.Cleaned?
    case Remove(t, id) => t !in s.closers && id in s.flows
    case Close(t) => t in s.closers && s.closers[t] < |s.contexts|
    case Look(t, id, _) => t !in s.deliveries && id in s.flows
    case Deliver(t) =>
      t in s.deliveries && s.deliveries[t].flow < |s.contexts| &&
      |s.contexts[s.deliveries[t].flow].actions| < ACTION_CAPACITY
    case Abandon(t) =>
      t in s.deliveries && s.deliveries[t].flow < |s.contexts| && s.contexts[s.deliveries[t].flow].closed
    case Wait(f) => f < |s.contexts| && s.contexts[f].runner.Active? && s.contexts[f].actions != []
  }

  function Update(s: Profile, f: nat, flow: Flow): Profile
    requires f < |s.contexts|
  {
    s.(contexts := s.contexts[f := flow])
  }

  function Apply(s: Profile, step: Step): Profile
    requires Enabled(s, step)
  {
    match step
    case Start(id, _) =>
      s.(flows := s.flows[id := |s.contexts|], contexts := s.contexts + [Flow(id, Active, false, [])])
    case Clean(f) =>
      Update(s, f, s.contexts[f].(runner := Cleaned)).(flows := s.flows - {s.contexts[f].id})
    case Finish(f) => Update(s, f, s.contexts[f].(runner := Gone, closed := true))
    case Remove(t, id) => s.(flows := s.flows - {id}, closers := s.closers[t := s.flows[id]])
    case Close(t) => Update(s, s.closers[t], s.contexts[s.closers[t]].(closed := true)).(closers := s.closers - {t})
    case Look(t, id, action) => s.(deliveries := s.deliveries[t := Delivery(s.flows[id], action)])
    case Deliver(t) =>
      var Delivery(f, action) := s.deliveries[t];
      Update(s, f, s.contexts[f].(actions := s.contexts[f].actions + [action])).(deliveries := s.deliveries - {t})
    case Abandon(t) => s.(deliveries := s.deliveries - {t})
    case Wait(f) => Update(s, f, s.contexts[f].(actions := s.contexts[f].actions[1..]))
  }

  function Next(s: Profile, step: Step): Profile {
    if Enabled(s, step) then Apply(s, step) else s
  }

  function RunFrom(s: Profile, steps: seq<Step>): Profile {
    if steps == [] then s else Next(RunFrom(s, steps[..|steps| - 1]), steps[|steps| - 1])
  }

  // ---- Mapped flows are alive, in every interleaving ----

  predicate Mapped(s: Profile, f: nat) {
    f < |s.contexts| && s.contexts[f].id in s.flows && s.flows[s.contexts[f].id] == f
  }

  ghost predicate HasCloser(s: Profile, f: nat) {
    exists t :: t in s.closers && s.closers[t] == f
  }

  ghost predicate MapInv(s: Profile) {
    && (forall id :: id in s.flows ==> s.flows[id] < |s.contexts| && s.contexts[s.flows[id]].id == id)
    && (forall f: nat :: Mapped(s, f) ==> s.contexts[f].runner.Active? && !s.contexts[f].closed)
    && (forall t :: t in s.closers ==> s.closers[t] < |s.contexts| && !Mapped(s, s.closers[t]))
    && (forall t :: t in s.deliveries ==> s.deliveries[t].flow < |s.contexts|)
    && (forall f :: 0 <= f < |s.contexts| && s.contexts[f].runner.Gone? ==> s.contexts[f].closed)
  }

  /** Steps that leave the map, the closers and everyone's liveness alone. */
  lemma QuietStepKeepsMapInv(s: Profile, step: Step)
    requires MapInv(s) && Enabled(s, step) && (step.Look? || step.Deliver? || step.Abandon? || step.Wait?)
    ensures MapInv(Apply(s, step))
  {
    var s' := Apply(s, step);
    assert forall f: nat :: Mapped(s', f) == Mapped(s, f);
    if step.Look? {
      assert Mapped(s, s.flows[step.id]);
    }
  }

  lemma StartKeepsMapInv(s: Profile, id: string, flowType: string)
    requires MapInv(s) && flowType in s.types
    ensures MapInv(Apply(s, Start(id, flowType)))
  {
    var s' := Apply(s, Start(id, flowType));
    forall f: nat | f < |s.contexts| ensures Mapped(s', f) ==> Mapped(s, f) {
    }
  }

  lemma EndStepKeepsMapInv(s: Profile, step: Step)
    requires MapInv(s) && Enabled(s, step) && (step.Clean? || step.Finish? || step.Remove? || step.Close?)
    ensures MapInv(Apply(s, step))
  {
    var s' := Apply(s, step);
    assert |s'.contexts| == |s.contexts|;
    assert forall f :: 0 <= f < |s.contexts| ==> s'.contexts[f].id == s.contexts[f].id;
    assert forall f: nat :: Mapped(s', f) ==> Mapped(s, f);
  }

  lemma StepKeepsMapInv(s: Profile, step: Step)
    requires MapInv(s)
    ensures MapInv(Next(s, step))
  {
    if Enabled(s, step) {
      match step
      case Start(id, flowType) => StartKeepsMapInv(s, id, flowType);
      case Clean(_) => EndStepKeepsMapInv(s, step);
      case Finish(_) => EndStepKeepsMapInv(s, step);
      case Remove(_, _) => EndStepKeepsMapInv(s, step);
      case Close(_) => EndStepKeepsMapInv(s, step);
      case _ => QuietStepKeepsMapInv(s, step);
    }
  }

  lemma {:induction false} RunKeepsMapInv(types: set<string>, steps: seq<Step>)
    ensures MapInv(RunFrom(Initial(types), steps))
  {
    if steps != [] {
      RunKeepsMapInv(types, steps[..|steps| - 1]);
      StepKeepsMapInv(RunFrom(Initial(types), steps[..|steps| - 1]), steps[|steps| - 1]);
    }
  }

  /** What `ActiveFlows` counts. */
  function ActiveFlows(s: Profile): nat {
    |s.flows|
  }

  /** The flows whose goroutine has not cleaned up. */
  function RunningFlows(s: Profile): set<nat> {
    set f | 0 <= f < |s.contexts| && s.contexts[f].runner.Active?
  }

  lemma {:induction false} InjectionBound(m: map<string, nat>, target: set<nat>)
    requires forall k :: k in m ==> m[k] in target
    requires forall k, l :: k in m && l in m && k != l ==> m[k] != m[l]
    ensures |m| <= |target|
    decreases |m|
  {
    if m != map[] {
      var k :| k in m;
      var m' := m - {k};
      assert |m'| == |m| - 1 by {
        assert m'.Keys == m.Keys - {k};
        assert |m.Keys| == |m| && |m'.Keys| == |m'|;
      }
      InjectionBound(m', target - {m[k]});
    }
  }

  /**
   * In every interleaving, a context in the flow map is not closed and its goroutine has not cleaned
   * up, so `ActiveFlows` never exceeds the number of flows still running.
   */
  lemma MappedFlowsAreAlive(types: set<string>, steps: seq<Step>)
    ensures var s := RunFrom(Initial(types), steps);
            && (forall id :: id in s.flows ==>
                  && s.flows[id] < |s.contexts| && s.contexts[s.flows[id]].id == id
                  && !s.contexts[s.flows[id]].closed && s.contexts[s.flows[id]].runner.Active?)
            && ActiveFlows(s) <= |RunningFlows(s)|
  {
    RunKeepsMapInv(types, steps);
    var s := RunFrom(Initial(types), steps);
    forall id | id in s.flows ensures s.flows[id] in RunningFlows(s) && !s.contexts[s.flows[id]].closed {
      assert Mapped(s, s.flows[id]);
    }
    InjectionBound(s.flows, RunningFlows(s));
  }

  // ---- No flow is lost when ids are not restarted too early ----

  /** No goroutine that still has to clean up uses this id. */
  ghost predicate IdFree(s: Profile, id: string) {
    forall f :: 0 <= f < |s.contexts| && s.contexts[f].runner.Active? ==> s.contexts[f].id != id
  }

  ghost predicate Respects(s: Profile, step: Step) {
    step.Start? ==> IdFree(s, step.id)
  }

  /** No id is restarted before the earlier goroutine's cleanup has run. */
  ghost predicate SafeRun(types: set<string>, steps: seq<Step>) {
    forall i :: 0 <= i < |steps| ==> Respects(RunFrom(Initial(types), steps[..i]), steps[i])
  }

  /** Some thread is past the map and still has to cancel the flow. */
  ghost predicate CloseOwed(s: Profile, f: nat)
    requires f < |s.contexts|
  {
    s.contexts[f].runner.Cleaned? || HasCloser(s, f)
  }

  /** The flow can still be found, or has been told to stop, or is about to be. */
  ghost predicate Accounted(s: Profile, f: nat)
    requires f < |s.contexts|
  {
    Mapped(s, f) || s.contexts[f].closed || CloseOwed(s, f)
  }

  ghost predicate AllAccounted(s: Profile) {
    forall f: nat :: f < |s.contexts| ==> Accounted(s, f)
  }

  ghost predicate OneRunnerPerId(s: Profile) {
    forall f, g :: 0 <= f < g < |s.contexts| && s.contexts[f].runner.Active? && s.contexts[g].runner.Active? ==>
                     s.contexts[f].id != s.contexts[g].id
  }

  ghost predicate SafeInv(s: Profile) {
    MapInv(s) && OneRunnerPerId(s) && AllAccounted(s)
  }

  lemma ClosersKept(s: Profile, step: Step, f: nat)
    requires Enabled(s, step) && HasCloser(s, f)
    ensures HasCloser(Apply(s, step), f) || (step.Close? && s.closers[step.thread] == f)
  {
    var s' := Apply(s, step);
    var t :| t in s.closers && s.closers[t] == f;
    if t in s'.closers {
      assert s'.closers[t] == f;
    }
  }

  lemma StepKeepsAccounted(s: Profile, step: Step, f: nat)
    requires SafeInv(s) && Enabled(s, step) && Respects(s, step) && f < |s.contexts|
    ensures Accounted(Apply(s, step), f)
  {
    var s' := Apply(s, step);
    assert Accounted(s, f);
    if HasCloser(s, f) {
      ClosersKept(s, step, f);
    } else if Mapped(s, f) {
      if step.Remove? && step.id == s.contexts[f].id {
        assert s'.closers[step.thread] == f;
        assert HasCloser(s', f);
      } else if step.Clean? && f != step.flow {
        assert s.contexts[f].id != s.contexts[step.flow].id;
      }
    }
  }

  lemma StepKeepsSafe(s: Profile, step: Step)
    requires SafeInv(s) && Respects(s, step)
    ensures SafeInv(Next(s, step))
  {
    StepKeepsMapInv(s, step);
    if Enabled(s, step) {
      var s' := Apply(s, step);
      assert forall f :: 0 <= f < |s.contexts| ==>
        s'.contexts[f].id == s.contexts[f].id && (s'.contexts[f].runner.Active? ==> s.contexts[f].runner.Active?);
      forall f: nat | f < |s'.contexts| ensures Accounted(s', f) {
        if f < |s.contexts| {
          StepKeepsAccounted(s, step, f);
        } else {
          assert Mapped(s', f);
        }
      }
    }
  }

  lemma {:induction false} RunKeepsSafe(types: set<string>, steps: seq<Step>)
    requires SafeRun(types, steps)
    ensures SafeInv(RunFrom(Initial(types), steps))
  {
    if steps != [] {
      var init := steps[..|steps| - 1];
      assert forall i :: 0 <= i <= |init| ==> steps[..i] == init[..i];
      assert steps[..|init|] == init;
      RunKeepsSafe(types, init);
      StepKeepsSafe(RunFrom(Initial(types), init), steps[|init|]);
    }
  }

  /** A deliverer that can take neither case of its select. */
  predicate Blocked(s: Profile, t: nat) {
    t in s.deliveries && !Enabled(s, Deliver(t)) && !Enabled(s, Abandon(t))
  }

  lemma FullIsBlocked(s: Profile, t: nat)
    requires t in s.deliveries && s.deliveries[t].flow < |s.contexts|
    requires var f := s.contexts[s.deliveries[t].flow]; !f.closed && |f.actions| >= ACTION_CAPACITY
    ensures Blocked(s, t)
  {
  }

  /**
   * In a safe run every flow outside the map is closed or some thread still owes its close; so a
   * deliverer is blocked only on a full flow that is still mapped or about to be closed.
   */
  lemma NoFlowIsLost(types: set<string>, steps: seq<Step>)
    requires SafeRun(types, steps)
    ensures var s := RunFrom(Initial(types), steps);
            && (forall f: nat :: f < |s.contexts| && !Mapped(s, f) ==> s.contexts[f].closed || CloseOwed(s, f))
            && (forall t :: Blocked(s, t) ==>
                  && s.deliveries[t].flow < |s.contexts|
                  && |s.contexts[s.deliveries[t].flow].actions| >= 10
                  && (Mapped(s, s.deliveries[t].flow) || CloseOwed(s, s.deliveries[t].flow)))
  {
    RunKeepsSafe(types, steps);
    SafeStateLosesNoFlow(RunFrom(Initial(types), steps));
  }

  lemma SafeStateLosesNoFlow(s: Profile)
    requires SafeInv(s)
    ensures forall f: nat :: f < |s.contexts| && !Mapped(s, f) ==> s.contexts[f].closed || CloseOwed(s, f)
    ensures forall t :: Blocked(s, t) ==>
              && s.deliveries[t].flow < |s.contexts|
              && |s.contexts[s.deliveries[t].flow].actions| >= 10
              && (Mapped(s, s.deliveries[t].flow) || CloseOwed(s, s.deliveries[t].flow))
  {
    forall f: nat | f < |s.contexts| && !Mapped(s, f) ensures s.contexts[f].closed || CloseOwed(s, f) {
      assert Accounted(s, f);
    }
  }

  lemma StaysClosed(s: Profile, step: Step, f: nat)
    requires f < |s.contexts| && s.contexts[f].closed
    ensures f < |Next(s, step).contexts| && Next(s, step).contexts[f].closed
  {
  }

  /** Once a flow is closed it stays closed, and no deliverer to it is ever blocked again. */
  lemma {:induction false} ClosedNeverBlocks(s: Profile, steps: seq<Step>, f: nat)
    requires f < |s.contexts| && s.contexts[f].closed
    ensures var s' := RunFrom(s, steps);
            && f < |s'.contexts| && s'.contexts[f].closed
            && forall t :: t in s'.deliveries && s'.deliveries[t].flow == f ==> !Blocked(s', t)
  {
    if steps != [] {
      ClosedNeverBlocks(s, steps[..|steps| - 1], f);
      StaysClosed(RunFrom(s, steps[..|steps| - 1]), steps[|steps| - 1], f);
    }
  }

  /**
   * The condition is needed: from any safe state, restarting an id whose goroutine `g` has not
   * cleaned up, followed by that cleanup, leaves the new flow unmapped, open and owed by nobody.
   */
  lemma EarlyRestartLosesFlow(s: Profile, g: nat, flowType: string)
    requires SafeInv(s) && g < |s.contexts| && s.contexts[g].runner.Active? && flowType in s.types
    ensures var s' := RunFrom(s, [Start(s.contexts[g].id, flowType), Clean(g)]);
            |s.contexts| < |s'.contexts| && !Accounted(s', |s.contexts|)
  {
    RunTwo(s, Start(s.contexts[g].id, flowType), Clean(g));
    var s' := Next(Next(s, Start(s.contexts[g].id, flowType)), Clean(g));
    assert s'.closers == s.closers;
    assert s'.contexts[|s.contexts|] == Flow(s.contexts[g].id, Active, false, []);
    assert !HasCloser(s', |s.contexts|);
  }

  lemma RunTwo(s: Profile, a: Step, b: Step)
    ensures RunFrom(s, [a, b]) == Next(Next(s, a), b)
  {
    assert [a, b][..1] == [a] && [a][..0] == [];
    assert RunFrom(s, [a]) == Next(RunFrom(s, []), a);
  }

  /** The step is a start or an ending of a flow with this id. */
  predicate Touches(s: Profile, step: Step, id: string) {
    || (step.Start? && step.id == id)
    || (step.Remove? && step.id == id)
    || (step.Clean? && step.flow < |s.contexts| && s.contexts[step.flow].id == id)
  }

  /** Every other step leaves a mapped flow mapped and open. */
  lemma LeftAloneStaysOpen(s: Profile, step: Step, f: nat)
    requires MapInv(s) && Mapped(s, f) && !Touches(s, step, s.contexts[f].id)
    ensures var s' := Next(s, step);
            Mapped(s', f) && s'.contexts[f].id == s.contexts[f].id && !s'.contexts[f].closed
  {
  }

  // ---- Actions ----

  function ActionsOf(s: Profile, f: nat): seq<string> {
    if f < |s.contexts| then s.contexts[f].actions else []
  }

  /** The action a step puts into the channel of flow `f`. */
  function DeliveredBy(s: Profile, step: Step, f: nat): seq<string> {
    if step.Deliver? && Enabled(s, step) && s.deliveries[step.thread].flow == f
    then [s.deliveries[step.thread].action] else []
  }

  /** The action a step takes out of it: what `WaitForAction` returns. */
  function TakenBy(s: Profile, step: Step, f: nat): seq<string> {
    if step.Wait? && Enabled(s, step) && step.flow == f then [s.contexts[f].actions[0]] else []
  }

  function Delivered(types: set<string>, steps: seq<Step>, f: nat): seq<string> {
    if steps == [] then []
    else
      var init := steps[..|steps| - 1];
      Delivered(types, init, f) + DeliveredBy(RunFrom(Initial(types), init), steps[|steps| - 1], f)
  }

  function Taken(types: set<string>, steps: seq<Step>, f: nat): seq<string> {
    if steps == [] then []
    else
      var init := steps[..|steps| - 1];
      Taken(types, init, f) + TakenBy(RunFrom(Initial(types), init), steps[|steps| - 1], f)
  }

  lemma StepMovesActions(s: Profile, step: Step, f: nat)
    requires MapInv(s)
    ensures ActionsOf(s, f) + DeliveredBy(s, step, f) == TakenBy(s, step, f) + ActionsOf(Next(s, step), f)
    ensures |ActionsOf(s, f)| <= 10 ==> |ActionsOf(Next(s, step), f)| <= 10
  {
  }

  /**
   * In every interleaving, for every flow: the actions delivered, in order, are those its function has
   * taken followed by those still in the channel, of which there are never more than ten.
   */
  lemma {:induction false} ActionsInOrder(types: set<string>, steps: seq<Step>, f: nat)
    ensures Delivered(types, steps, f) == Taken(types, steps, f) + ActionsOf(RunFrom(Initial(types), steps), f)
    ensures |ActionsOf(RunFrom(Initial(types), steps), f)| <= 10
  {
    if steps != [] {
      var init, step := steps[..|steps| - 1], steps[|steps| - 1];
      var s := RunFrom(Initial(types), init);
      ActionsInOrder(types, init, f);
      RunKeepsMapInv(types, init);
      StepMovesActions(s, step, f);
      Assoc(Taken(types, init, f), ActionsOf(s, f), DeliveredBy(s, step, f));
      Assoc(Taken(types, init, f), TakenBy(s, step, f), ActionsOf(Next(s, step), f));
    }
  }

  /** The threads about to deliver this action to this flow. */
  function Delivering(s: Profile, d: Delivery): set<nat> {
    set t | t in s.deliveries && s.deliveries[t] == d
  }

  /** How often a step looks up this flow with this action, through the id the flow is mapped under. */
  function LooksUp(s: Profile, step: Step, d: Delivery): nat {
    if step.Look? && Enabled(s, step) && s.flows[step.id] == d.flow && step.action == d.action then 1 else 0
  }

  /** How often a step ends the delivery of this action to this flow, into the channel or because it is closed. */
  function Settles(s: Profile, step: Step, d: Delivery): nat {
    if (step.Deliver? || step.Abandon?) && Enabled(s, step) && s.deliveries[step.thread] == d then 1 else 0
  }

  function Lookups(types: set<string>, steps: seq<Step>, d: Delivery): nat {
    if steps == [] then 0
    else
      var init := steps[..|steps| - 1];
      Lookups(types, init, d) + LooksUp(RunFrom(Initial(types), init), steps[|steps| - 1], d)
  }

  function Settled(types: set<string>, steps: seq<Step>, d: Delivery): nat {
    if steps == [] then 0
    else
      var init := steps[..|steps| - 1];
      Settled(types, init, d) + Settles(RunFrom(Initial(types), init), steps[|steps| - 1], d)
  }

  lemma LookAdds(s: Profile, step: Step, d: Delivery)
    requires LooksUp(s, step, d) == 1
    ensures Delivering(Next(s, step), d) == Delivering(s, d) + {step.thread} && step.thread !in Delivering(s, d)
  {
  }

  lemma SettlingRemoves(s: Profile, step: Step, d: Delivery)
    requires Settles(s, step, d) == 1
    ensures Delivering(Next(s, step), d) == Delivering(s, d) - {step.thread} && step.thread in Delivering(s, d)
  {
  }

  lemma OthersStay(s: Profile, step: Step, d: Delivery)
    requires LooksUp(s, step, d) == 0 && Settles(s, step, d) == 0
    ensures Delivering(Next(s, step), d) == Delivering(s, d)
  {
  }

  lemma StepMovesDeliveries(s: Profile, step: Step, d: Delivery)
    ensures |Delivering(s, d)| + LooksUp(s, step, d) == Settles(s, step, d) + |Delivering(Next(s, step), d)|
  {
    if LooksUp(s, step, d) == 1 {
      LookAdds(s, step, d);
    } else if Settles(s, step, d) == 1 {
      SettlingRemoves(s, step, d);
    } else {
      OthersStay(s, step, d);
    }
  }

  /**
   * Every action looked up for a flow is delivered to that flow, abandoned because the flow is closed, or
   * still held by its deliverer, and nothing else is ever delivered.
   */
  lemma {:induction false} DeliveriesConserved(types: set<string>, steps: seq<Step>, d: Delivery)
    ensures Lookups(types, steps, d) == Settled(types, steps, d) + |Delivering(RunFrom(Initial(types), steps), d)|
  {
    if steps != [] {
      var init := steps[..|steps| - 1];
      DeliveriesConserved(types, init, d);
      StepMovesDeliveries(RunFrom(Initial(types), init), steps[|steps| - 1], d);
    }
  }

  // ---- What can always happen ----

  lemma CanCleanUp(s: Profile, f: nat)
    requires f < |s.contexts| && s.contexts[f].runner.Active?
    ensures var s' := Next(Next(s, Clean(f)), Finish(f));
            && f < |s'.contexts| && s'.contexts[f].closed && s'.contexts[f].runner.Gone?
            && s'.flows == s.flows - {s.contexts[f].id}
  {
  }

  lemma CanBeEnded(s: Profile, t: nat, id: string)
    requires MapInv(s) && id in s.flows && t !in s.closers
    ensures var s' := Next(Next(s, Remove(t, id)), Close(t));
            && s.flows[id] < |s'.contexts| && s'.contexts[s.flows[id]].closed
            && s'.flows == s.flows - {id} && s'.closers == s.closers
  {
    var s1 := Next(s, Remove(t, id));
    assert s1.closers[t] == s.flows[id] && s1.contexts == s.contexts;
    assert s1.closers - {t} == s.closers;
  }

  /**
   * In every interleaving, a flow that runs can take the oldest action of its channel, and can clean up
   * and is then closed and unmapped; a mapped flow can be ended by anyone and is then closed, nothing else
   * being unmapped; and a thread that took a flow out can always close it.
   */
  lemma FlowsCanEnd(types: set<string>, steps: seq<Step>, f: nat, t: nat, id: string)
    ensures var s := RunFrom(Initial(types), steps);
            && (f < |s.contexts| && s.contexts[f].runner.Active? ==>
                  var s' := Next(Next(s, Clean(f)), Finish(f));
                  && f < |s'.contexts| && s'.contexts[f].closed && s'.contexts[f].runner.Gone?
                  && s'.flows == s.flows - {s.contexts[f].id})
            && (f < |s.contexts| && s.contexts[f].runner.Active? && s.contexts[f].actions != [] ==>
                  Next(s, Wait(f)).contexts == s.contexts[f := s.contexts[f].(actions := s.contexts[f].actions[1..])])
            && (id in s.flows && t !in s.closers ==>
                  var s' := Next(Next(s, Remove(t, id)), Close(t));
                  && s.flows[id] < |s'.contexts| && s'.contexts[s.flows[id]].closed
                  && s'.flows == s.flows - {id} && s'.closers == s.closers)
            && (t in s.closers ==>
                  s.closers[t] < |s.contexts| && Next(s, Close(t)).contexts[s.closers[t]].closed)
  {
    RunKeepsMapInv(types, steps);
    var s := RunFrom(Initial(types), steps);
    if f < |s.contexts| && s.contexts[f].runner.Active? {
      CanCleanUp(s, f);
    }
    if id in s.flows && t !in s.closers {
      CanBeEnded(s, t, id);
    }
  }
}
