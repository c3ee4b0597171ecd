/**
 * Flow messages arriving at a peer with a goroutine-per-flow profile: routing (flow cases of
 * pkg/wmp/peer.go) and flow contexts (pkg/wmp/flowcontext.go) together.
 */
module FlowCancel {
  import R = FlowRouting
  import L = FlowLifecycle

  /** The routing tables and the contexts of profile `h`. */
  datatype State = State(routing: R.State, profile: L.Profile)

  /** A message from the remote side, handled by `thread`, or a step of a goroutine of this side. */
  datatype Event = Message(m: R.Msg, thread: nat) | Internal(step: L.Step)

  /** What the message makes profile `h` do first. */
  function Reaction(m: R.Msg, thread: nat): seq<L.Step> {
    match m
    case Start(id, flowType, _, _) => [L.Start(id, flowType)]
    case Action(id) => [L.Look(thread, id, "")]
    case Complete(id) => [L.Remove(thread, id)]
    case Error(id) => [L.Remove(thread, id)]
    case Progress(_) => []
    case Cancel(_) => []
  }

  function Next(r: R.Registry, h: nat, s: State, e: Event): State {
    match e
    case Internal(step) => s.(profile := L.Next(s.profile, step))
    case Message(m, t) =>
      State(R.Step(r, s.routing, m),
            if R.Reached(r, s.routing, m) == R.Profile(h) then L.RunFrom(s.profile, Reaction(m, t)) else s.profile)
  }

  function Run(r: R.Registry, h: nat, s: State, es: seq<Event>): State {
    if es == [] then s else Next(r, h, Run(r, h, s, es[..|es| - 1]), es[|es| - 1])
  }

  /** Nothing starts the flow again, and nothing on this side ends it. */
  ghost predicate Undisturbed(s: State, e: Event, id: string) {
    match e
    case Message(m, _) => m.id == id ==> !m.Start?
    case Internal(step) => !L.Touches(s.profile, step, id)
  }

  /** The flow is out of the routing tables, mapped, and open. */
  ghost predicate Orphaned(s: State, f: nat, id: string) {
    && L.MapInv(s.profile) && id !in s.routing.owners
    && L.Mapped(s.profile, f) && s.profile.contexts[f].id == id && !s.profile.contexts[f].closed
  }

  lemma RunOne(s: L.Profile, step: L.Step)
    ensures L.RunFrom(s, [step]) == L.Next(s, step)
  {
    assert [step][..0] == [];
    assert L.RunFrom(s, []) == s;
  }

  lemma EventKeepsOrphan(r: R.Registry, h: nat, s: State, e: Event, f: nat, id: string)
    requires Orphaned(s, f, id) && Undisturbed(s, e, id)
    ensures Orphaned(Next(r, h, s, e), f, id)
  {
    if e.Internal? {
      L.StepKeepsMapInv(s.profile, e.step);
      L.LeftAloneStaysOpen(s.profile, e.step, f);
    } else if R.Reached(r, s.routing, e.m) == R.Profile(h) && Reaction(e.m, e.thread) != [] {
      var step := Reaction(e.m, e.thread)[0];
      assert Reaction(e.m, e.thread) == [step];
      RunOne(s.profile, step);
      L.StepKeepsMapInv(s.profile, step);
      L.LeftAloneStaysOpen(s.profile, step, f);
    }
  }

  /**
   * What reaches the profile has its effect there: a complete or error message takes the flow out of the
   * map, for its thread to close; a start of a known type maps a new open flow; an action of a mapped flow
   * goes to a deliverer for that flow.
   */
  lemma ReachedHasEffect(r: R.Registry, h: nat, s: State, m: R.Msg, t: nat)
    requires R.Reached(r, s.routing, m) == R.Profile(h)
    ensures var p, p' := s.profile, Next(r, h, s, Message(m, t)).profile;
            && ((m.Complete? || m.Error?) && m.id in p.flows && t !in p.closers ==>
                  p'.flows == p.flows - {m.id} && t in p'.closers && p'.closers[t] == p.flows[m.id])
            && (m.Start? && m.flowType in p.types ==>
                  && p'.flows == p.flows[m.id := |p.contexts|]
                  && p'.contexts == p.contexts + [L.Flow(m.id, L.Active, false, [])])
            && (m.Action? && m.id in p.flows && t !in p.deliveries ==>
                  t in p'.deliveries && p'.deliveries[t].flow == p.flows[m.id])
            && (m.Progress? ==> p' == p)
  {
    if Reaction(m, t) != [] {
      RunOne(s.profile, Reaction(m, t)[0]);
      assert Reaction(m, t) == [Reaction(m, t)[0]];
    }
  }

  /**
   * A cancel message never closes a profile's flow: whatever arrives and runs after it, until the flow
   * is started again or its own goroutine ends, the context stays mapped and open, and no complete,
   * error or action message for it gets through.
   */
  lemma {:induction false} CancelNeverCloses(r: R.Registry, h: nat, s: State, f: nat, t: nat, es: seq<Event>)
    requires L.MapInv(s.profile) && L.Mapped(s.profile, f)
    requires var id := s.profile.contexts[f].id;
             var s1 := Next(r, h, s, Message(R.Cancel(id), t));
             forall i :: 0 <= i < |es| ==> Undisturbed(Run(r, h, s1, es[..i]), es[i], id)
    ensures var id := s.profile.contexts[f].id;
            var s' := Run(r, h, Next(r, h, s, Message(R.Cancel(id), t)), es);
            && Orphaned(s', f, id)
            && forall m: R.Msg :: m.id == id && !m.Start? ==> R.Reached(r, s'.routing, m) == R.Base
  {
    var id := s.profile.contexts[f].id;
    var s1 := Next(r, h, s, Message(R.Cancel(id), t));
    if es == [] {
      assert Run(r, h, s1, es) == s1;
    } else {
      var init := es[..|es| - 1];
      assert forall i :: 0 <= i <= |init| ==> es[..i] == init[..i];
      assert es[..|init|] == init;
      CancelNeverCloses(r, h, s, f, t, init);
      EventKeepsOrphan(r, h, Run(r, h, s1, init), es[|init|], f, id);
    }
  }
}
