/**
 * The objects of pkg/wmp/flowcontext.go: a profile's map of flow contexts, each with its action and
 * done channels. Every lock region and channel operation makes one step of `FlowLifecycle`.
 */
module AsyncFlow {
  import opened FlowLifecycle

  /** `closed` says that `doneCh` is closed; `actions` is what `actionCh` holds. */
  class FlowContext {
    const flowId: string
    /** Its place in creation order. */
    ghost const number: nat
    var closed: bool
    var actions: seq<string>

    constructor (id: string, ghost number: nat)
      ensures flowId == id && this.number == number && !closed && actions == []
    {
      flowId := id;
      this.number := number;
      closed, actions := false, [];
    }
  }

  datatype ActionOutcome = NotFound | Accepted | Stuck

  datatype WaitOutcome = Took(action: string) | Cancelled | Ended | Waiting

  class AsyncFlowProfile {
    const types: set<string>
    var flows: map<string, FlowContext>
    /** Every context ever made, in creation order. */
    ghost var contexts: seq<FlowContext>
    ghost var state: Profile

    /** The context of a flow is in the model's state. */
    ghost predicate Shows(f: Flow, fc: FlowContext)
      reads fc
    {
      fc.flowId == f.id && fc.closed == f.closed && fc.actions == f.actions
    }

    ghost predicate Valid()
      reads this, contexts
    {
      MapInv(state) && Linked()
    }

    /** The objects are what the model's state says. */
    ghost predicate Linked()
      reads this, contexts
    {
      && state.types == types
      && |contexts| == |state.contexts|
      && (forall i :: 0 <= i < |contexts| ==> contexts[i].number == i && Shows(state.contexts[i], contexts[i]))
      && flows.Keys == state.flows.Keys
      && (forall id :: id in flows ==> state.flows[id] < |contexts| && flows[id] == contexts[state.flows[id]])
    }

    constructor (types: set<string>)
      ensures Valid() && state == Initial(types)
    {
      this.types := types;
      flows := map[];
      contexts := [];
      state := Initial(types);
    }

    /** A known type gets a new open context, mapped under the id whatever was there before. */
    method StartFlow(id: string, flowType: string) returns (ok: bool)
      requires Valid()
      modifies this
      ensures Valid()
      ensures ok == (flowType in types)
      ensures state == Next(old(state), Start(id, flowType))
      ensures ok ==>
                && id in flows && fresh(flows[id]) && flows == old(flows)[id := flows[id]]
                && contexts == old(contexts) + [flows[id]]
                && flows[id].flowId == id && !flows[id].closed && flows[id].actions == []
      ensures !ok ==> flows == old(flows) && contexts == old(contexts)
    {
      ok := flowType in types;
      if ok {
        StepKeepsMapInv(state, Start(id, flowType));
        var fc := new FlowContext(id, |contexts|);
        flows := flows[id := fc];
        contexts := contexts + [fc];
        state := Next(state, Start(id, flowType));
      }
    }

    /** `delete(flows, id)`, for a step that deletes the id and changes nothing the contexts show. */
    method Forget(id: string, ghost after: Profile)
      requires Linked() && MapInv(after) && after.types == types && after.flows == state.flows - {id}
      requires |after.contexts| == |state.contexts|
      requires forall i :: 0 <= i < |after.contexts| ==>
                 after.contexts[i] == state.contexts[i].(runner := after.contexts[i].runner)
      modifies this`flows, this`state
      ensures Valid() && state == after && flows == old(flows) - {id}
    {
      flows := flows - {id};
      state := after;
    }

    /** The lock region of a goroutine's cleanup: whatever its id maps to by then is deleted. */
    method Unlist(fc: FlowContext, ghost n: nat)
      requires Valid() && n < |contexts| && contexts[n] == fc && state.contexts[n].runner.Active?
      modifies this
      ensures Valid() && contexts == old(contexts) && flows == old(flows) - {fc.flowId}
      ensures state == Next(old(state), Clean(n))
    {
      StepKeepsMapInv(state, Clean(n));
      Forget(fc.flowId, Next(state, Clean(n)));
    }

    /** Closes the done channel unless it is closed; `step` is the model's close for this thread. */
    method Cancel(fc: FlowContext, ghost n: nat, ghost step: Step)
      requires Valid() && n < |contexts| && contexts[n] == fc && Enabled(state, step)
      requires step == Finish(n) || (step.Close? && state.closers[step.thread] == n)
      modifies this`state, fc
      ensures Valid() && fc.closed && fc.actions == old(fc.actions)
      ensures state == Next(old(state), step)
    {
      StepKeepsMapInv(state, step);
      if !fc.closed {
        fc.closed := true;
      }
      state := Next(state, step);
    }

    /** The goroutine's deferred cleanup, nothing else happening in between. */
    method CleanUp(fc: FlowContext, ghost n: nat)
      requires Valid() && n < |contexts| && contexts[n] == fc && state.contexts[n].runner.Active?
      modifies this, fc
      ensures Valid() && fc.closed && fc.actions == old(fc.actions) && contexts == old(contexts)
      ensures state == Next(Next(old(state), Clean(n)), Finish(n))
      ensures flows == old(flows) - {fc.flowId}
    {
      Unlist(fc, n);
      Cancel(fc, n, Finish(n));
    }

    /** The lock region of `HandleComplete`, `HandleError` and `CancelFlow`. */
    method TakeOut(id: string, ghost t: nat) returns (fc: FlowContext?)
      requires Valid() && t !in state.closers
      modifies this
      ensures Valid() && contexts == old(contexts)
      ensures state == Next(old(state), Remove(t, id))
      ensures flows == old(flows) - {id} && (fc == null <==> id !in old(flows))
      ensures fc == null ==> state == old(state)
      ensures fc != null ==> fc in contexts && fc == old(flows[id])
      ensures fc != null ==>
                t in state.closers && state.closers[t] == fc.number < |contexts| && fc == contexts[fc.number]
    {
      if id !in flows {
        return null;
      }
      StepKeepsMapInv(state, Remove(t, id));
      fc := flows[id];
      Forget(id, Next(state, Remove(t, id)));
    }

    /** `HandleComplete`, `HandleError` and `CancelFlow`: afterwards the flow is unmapped and closed. */
    method EndFlow(id: string, ghost t: nat)
      requires Valid() && t !in state.closers
      modifies this, contexts
      ensures Valid() && flows == old(flows) - {id} && contexts == old(contexts)
      ensures state == Next(Next(old(state), Remove(t, id)), Close(t))
      ensures forall c :: c in contexts ==>
                && c.actions == old(c.actions)
                && c.closed == (old(c.closed) || (id in old(flows) && c == old(flows)[id]))
    {
      var fc := TakeOut(id, t);
      if fc == null {
        assert !Enabled(state, Close(t));
      } else {
        assert Enabled(state, Close(t));
        Cancel(fc, fc.number, Close(t));
      }
    }

    /** The read-lock region of `HandleAction`; what it finds is open. */
    method Find(id: string, action: string, ghost t: nat) returns (fc: FlowContext?, ghost n: nat)
      requires Valid() && t !in state.deliveries
      modifies this`state
      ensures Valid() && state == Next(old(state), Look(t, id, action))
      ensures fc == null <==> id !in flows
      ensures fc != null ==>
                && n < |contexts| && contexts[n] == fc == flows[id] && !fc.closed
                && t in state.deliveries && state.deliveries[t] == Delivery(n, action)
    {
      n := 0;
      if id !in flows {
        return null, n;
      }
      n := state.flows[id];
      assert Mapped(state, n);
      StepKeepsMapInv(state, Look(t, id, action));
      fc := flows[id];
      state := Next(state, Look(t, id, action));
    }

    /**
     * `HandleAction`. A mapped flow is open, so the action is accepted exactly if the channel has room;
     * otherwise the deliverer is left waiting.
     */
    method HandleAction(id: string, action: string, ghost t: nat) returns (o: ActionOutcome)
      requires Valid() && t !in state.deliveries
      modifies this`state, if id in flows then {flows[id]} else {}
      ensures Valid()
      ensures o.NotFound? <==> id !in flows
      ensures o.NotFound? ==> state == old(state)
      ensures o.Accepted? ==> state == Next(Next(old(state), Look(t, id, action)), Deliver(t))
      ensures o.Stuck? ==> state == Next(old(state), Look(t, id, action)) && Blocked(state, t)
      ensures id in flows ==>
                && !flows[id].closed && (o.Accepted? <==> |old(flows[id].actions)| < 10)
                && (o.Accepted? ==> flows[id].actions == old(flows[id].actions) + [action])
                && (o.Stuck? ==> flows[id].actions == old(flows[id].actions))
    {
      ghost var n;
      var fc: FlowContext?;
      fc, n := Find(id, action, t);
      if fc == null {
        return NotFound;
      }
      var accepted := DeliverAction(fc, action, n, t);
      if accepted {
        return Accepted;
      }
      return Stuck;
    }

    /** `deliverAction` to an open flow: into the channel if there is room, otherwise left waiting. */
    method DeliverAction(fc: FlowContext, action: string, ghost n: nat, ghost t: nat) returns (accepted: bool)
      requires Valid() && n < |contexts| && contexts[n] == fc && !fc.closed
      requires t in state.deliveries && state.deliveries[t] == Delivery(n, action)
      modifies this`state, fc
      ensures Valid() && !fc.closed
      ensures accepted <==> |old(fc.actions)| < 10
      ensures accepted ==> state == Next(old(state), Deliver(t)) && fc.actions == old(fc.actions) + [action]
      ensures !accepted ==> state == old(state) && fc.actions == old(fc.actions) && Blocked(state, t)
    {
      assert Shows(state.contexts[n], fc);
      accepted := |fc.actions| < ACTION_CAPACITY;
      if accepted {
        PutAction(fc, action, n, t);
      } else {
        FullIsBlocked(state, t);
      }
    }

    /** The send case of `deliverAction`. */
    method PutAction(fc: FlowContext, action: string, ghost n: nat, ghost t: nat)
      requires Valid() && n < |contexts| && contexts[n] == fc && |fc.actions| < ACTION_CAPACITY
      requires t in state.deliveries && state.deliveries[t] == Delivery(n, action)
      modifies this`state, fc
      ensures Valid() && state == Next(old(state), Deliver(t))
      ensures fc.actions == old(fc.actions) + [action] && fc.closed == old(fc.closed)
    {
      assert Shows(state.contexts[n], fc);
      ghost var flow := state.contexts[n].(actions := fc.actions + [action]);
      StepKeepsMapInv(state, Deliver(t));
      assert Next(state, Deliver(t)) == Update(state, n, flow).(deliveries := state.deliveries - {t});
      fc.actions := fc.actions + [action];
      state := Next(state, Deliver(t));
    }

    /** The receive case of `WaitForAction`. */
    method Take(fc: FlowContext, ghost n: nat)
      requires Valid() && n < |contexts| && contexts[n] == fc && state.contexts[n].runner.Active? && fc.actions != []
      modifies this`state, fc
      ensures Valid() && state == Next(old(state), Wait(n))
      ensures fc.actions == old(fc.actions)[1..] && fc.closed == old(fc.closed)
    {
      assert Shows(state.contexts[n], fc);
      ghost var flow := state.contexts[n].(actions := fc.actions[1..]);
      StepKeepsMapInv(state, Wait(n));
      assert Next(state, Wait(n)) == Update(state, n, flow);
      fc.actions := fc.actions[1..];
      state := Next(state, Wait(n));
    }

    /**
     * `WaitForAction`, by the flow's own goroutine. `ended` says that the timer or the context has run
     * out, and `coin` which of several ready cases Go picks. An action taken is the oldest one.
     */
    method WaitForAction(fc: FlowContext, ghost n: nat, ended: bool, coin: bool) returns (o: WaitOutcome)
      requires Valid() && n < |contexts| && contexts[n] == fc && state.contexts[n].runner.Active?
      modifies this`state, fc
      ensures Valid() && fc.closed == old(fc.closed)
      ensures o.Took? ==>
                && old(fc.actions) != [] && o.action == old(fc.actions)[0] && fc.actions == old(fc.actions)[1..]
                && state == Next(old(state), Wait(n))
      ensures !o.Took? ==> fc.actions == old(fc.actions) && state == old(state)
      ensures !fc.closed && !ended ==> (o.Took? <==> old(fc.actions) != []) && (o.Waiting? <==> old(fc.actions) == [])
      ensures o.Cancelled? ==> fc.closed
      ensures o.Ended? ==> ended
    {
      assert Shows(state.contexts[n], fc);
      if fc.actions != [] && (coin || (!fc.closed && !ended)) {
        o := Took(fc.actions[0]);
        Take(fc, n);
      } else if fc.closed {
        o := Cancelled;
      } else {
        o := if ended then Ended else Waiting;
      }
    }

    method ActiveFlows() returns (n: nat)
      requires Valid()
      ensures n == |flows| == FlowLifecycle.ActiveFlows(state) <= |RunningFlows(state)|
    {
      n := |flows|;
      assert |flows.Keys| == |state.flows.Keys|;
      forall id | id in state.flows ensures state.flows[id] in RunningFlows(state) {
        assert Mapped(state, state.flows[id]);
      }
      InjectionBound(state.flows, RunningFlows(state));
    }
  }
}
