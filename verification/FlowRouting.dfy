/**
 * Which handler a flow message reaches (flow cases of pkg/wmp/peer.go, `flowOwners` of
 * pkg/wmp/registry.go), and the flow-type table of the openid4x profile
 * (pkg/wmp/openid4x/openid4x.go).
 */
module FlowRouting {
  import opened Options

  const OID4VCI := "oid4vci"
  const OID4VP := "oid4vp"

  /** Registered flow types, and which of the profiles behind them are openid4x profiles. */
  datatype Registry = Registry(byType: map<string, nat>, openId: set<nat>)

  /**
   * One incoming flow message with what the code outside this model decides: whether openid4x accepts
   * the start parameters, and whether the start callback returns a non-nil result without an error.
   */
  datatype Msg =
    | Start(id: string, flowType: string, valid: bool, started: bool)
    | Progress(id: string)
    | Action(id: string)
    | Complete(id: string)
    | Error(id: string)
    | Cancel(id: string)

  datatype Target = Base | Profile(handler: nat)

  /** `owners` is the registry's `flowOwners`; `types[h]` is openid4x profile `h`'s `flowTypes`. */
  datatype State = State(owners: map<string, nat>, types: map<nat, map<string, string>>)

  const EMPTY := State(map[], map[])

  function TypesOf(s: State, h: nat): map<string, string> {
    if h in s.types then s.types[h] else map[]
  }

  /** The start gets past openid4x's checks, to where it records the flow type. */
  predicate Validated(m: Msg) {
    m.Start? && m.valid && (m.flowType == OID4VCI || m.flowType == OID4VP)
  }

  /** A profile handles the start and returns a result. */
  predicate Succeeds(r: Registry, m: Msg) {
    && m.Start? && m.flowType in r.byType && m.started
    && (r.byType[m.flowType] in r.openId ==> Validated(m))
  }

  predicate Ends(m: Msg) {
    m.Complete? || m.Error? || m.Cancel?
  }

  function Owner(s: State, id: string): Target {
    if id in s.owners then Profile(s.owners[id]) else Base
  }

  function Reached(r: Registry, s: State, m: Msg): Target {
    match m
    case Start(_, flowType, _, _) => if flowType in r.byType then Profile(r.byType[flowType]) else Base
    case Cancel(_) => Base
    case _ => Owner(s, m.id)
  }

  function Step(r: Registry, s: State, m: Msg): State {
    match m
    case Start(id, flowType, _, _) =>
      if flowType !in r.byType then s
      else
        var h := r.byType[flowType];
        var types' := if h in r.openId && Validated(m) then s.types[h := TypesOf(s, h)[id := flowType]] else s.types;
        State(if Succeeds(r, m) then s.owners[id := h] else s.owners, types')
    case Progress(_) => s
    case Action(_) => s
    case Complete(id) => EndStep(r, s, id)
    case Error(id) => EndStep(r, s, id)
    case Cancel(id) => s.(owners := s.owners - {id})
  }

  function EndStep(r: Registry, s: State, id: string): State {
    if id !in s.owners then s
    else
      var h := s.owners[id];
      State(s.owners - {id}, if h in r.openId then s.types[h := TypesOf(s, h) - {id}] else s.types)
  }

  function Run(r: Registry, msgs: seq<Msg>): State {
    if msgs == [] then EMPTY else Step(r, Run(r, msgs[..|msgs| - 1]), msgs[|msgs| - 1])
  }

  // ---- Ownership by history ----

  /** The message changes who owns the flow: a successful profile start of it, or one of its endings. */
  predicate Decides(r: Registry, m: Msg, id: string) {
    m.id == id && (Succeeds(r, m) || Ends(m))
  }

  /** Message `i` is the last successful profile start of the flow, with no ending after it. */
  ghost predicate LastStart(r: Registry, msgs: seq<Msg>, id: string, i: nat) {
    && i < |msgs| && msgs[i].id == id && Succeeds(r, msgs[i])
    && forall j :: i < j < |msgs| ==> !Decides(r, msgs[j], id)
  }

  /** That start was handled by profile `h`. */
  ghost predicate StartedBy(r: Registry, msgs: seq<Msg>, id: string, h: nat) {
    exists i: nat :: LastStart(r, msgs, id, i) && r.byType[msgs[i].flowType] == h
  }

  lemma {:induction false} OwnerByHistory(r: Registry, msgs: seq<Msg>, id: string)
    ensures id in Run(r, msgs).owners ==> StartedBy(r, msgs, id, Run(r, msgs).owners[id])
    ensures id !in Run(r, msgs).owners ==> forall i: nat :: !LastStart(r, msgs, id, i)
  {
    if msgs != [] {
      var init, m := msgs[..|msgs| - 1], msgs[|msgs| - 1];
      OwnerByHistory(r, init, id);
      var n := |init|;
      if Decides(r, m, id) {
        if Succeeds(r, m) {
          assert LastStart(r, msgs, id, n);
        } else {
          forall i: nat ensures !LastStart(r, msgs, id, i) {
            assert i < n ==> Decides(r, msgs[n], id);
          }
        }
      } else {
        forall i: nat ensures LastStart(r, msgs, id, i) == LastStart(r, init, id, i) {
          if LastStart(r, init, id, i) {
            forall j | i < j < |msgs| ensures !Decides(r, msgs[j], id) {
              assert j < n ==> msgs[j] == init[j];
            }
            assert msgs[i] == init[i];
          }
          if LastStart(r, msgs, id, i) {
            assert i != n;
            forall j | i < j < n ensures !Decides(r, init[j], id) {
              assert init[j] == msgs[j];
            }
          }
        }
      }
    }
  }

  /**
   * Over any run, a flow's progress, action, complete or error message reaches profile `h` if and
   * only if the last successful profile start of that flow, not followed by complete, error or
   * cancel, was `h`'s; with no such start it reaches the base handler.
   */
  lemma RoutedByLastStart(r: Registry, msgs: seq<Msg>, m: Msg)
    requires !m.Start? && !m.Cancel?
    ensures forall h: nat :: Reached(r, Run(r, msgs), m) == Profile(h) <==> StartedBy(r, msgs, m.id, h)
    ensures Reached(r, Run(r, msgs), m) == Base <==> forall i: nat :: !LastStart(r, msgs, m.id, i)
  {
    OwnerByHistory(r, msgs, m.id);
    forall i: nat, j: nat | LastStart(r, msgs, m.id, i) && LastStart(r, msgs, m.id, j) ensures i == j {
      assert Decides(r, msgs[i], m.id) && Decides(r, msgs[j], m.id);
    }
  }

  // ---- The openid4x flow-type table ----

  /** The start is recorded in profile `h`'s table. */
  predicate Records(r: Registry, m: Msg, h: nat, id: string) {
    Validated(m) && m.id == id && m.flowType in r.byType && r.byType[m.flowType] == h
  }

  /** The flow type of the last start of `id` that reached profile `h` and passed its checks, successful or not. */
  function LastRecorded(r: Registry, msgs: seq<Msg>, h: nat, id: string): Option<string> {
    if msgs == [] then None
    else
      var m := msgs[|msgs| - 1];
      if Records(r, m, h, id) then Some(m.flowType) else LastRecorded(r, msgs[..|msgs| - 1], h, id)
  }

  ghost predicate TypesKept(r: Registry, msgs: seq<Msg>, s: State) {
    forall id :: id in s.owners && s.owners[id] in r.openId ==>
      && id in TypesOf(s, s.owners[id])
      && LastRecorded(r, msgs, s.owners[id], id) == Some(TypesOf(s, s.owners[id])[id])
  }

  /**
   * Every flow owned by an openid4x profile has an entry in that profile's `flowTypes`, and it is the
   * type of the last start of that flow the profile accepted.
   */
  lemma {:induction false} OwnedFlowsHaveTypes(r: Registry, msgs: seq<Msg>)
    ensures TypesKept(r, msgs, Run(r, msgs))
  {
    if msgs != [] {
      var init, m := msgs[..|msgs| - 1], msgs[|msgs| - 1];
      OwnedFlowsHaveTypes(r, init);
      var s, s' := Run(r, init), Run(r, msgs);
      forall id | id in s'.owners && s'.owners[id] in r.openId
        ensures id in TypesOf(s', s'.owners[id])
        ensures LastRecorded(r, msgs, s'.owners[id], id) == Some(TypesOf(s', s'.owners[id])[id])
      {
        var h := s'.owners[id];
        if !Records(r, m, h, id) {
          assert id in s.owners && s.owners[id] == h;
          assert id in TypesOf(s, h);
        }
      }
    }
  }

  /** Message `j` makes profile `h` forget the flow: a complete or error message that reaches it. */
  ghost predicate Forgets(r: Registry, msgs: seq<Msg>, j: nat, h: nat, id: string) {
    j < |msgs| && (msgs[j].Complete? || msgs[j].Error?) && msgs[j].id == id && StartedBy(r, msgs[..j], id, h)
  }

  /** Profile `h` has recorded the flow in message `i` and neither recorded nor forgotten it since. */
  ghost predicate HeldSince(r: Registry, msgs: seq<Msg>, h: nat, id: string, i: nat) {
    && i < |msgs| && Records(r, msgs[i], h, id)
    && forall j :: i < j < |msgs| ==> !Records(r, msgs[j], h, id) && !Forgets(r, msgs, j, h, id)
  }

  lemma HeldStill(r: Registry, msgs: seq<Msg>, h: nat, id: string, i: nat)
    requires msgs != [] && i < |msgs| - 1
    requires var n := |msgs| - 1; !Records(r, msgs[n], h, id) && !Forgets(r, msgs, n, h, id)
    ensures HeldSince(r, msgs, h, id, i) == HeldSince(r, msgs[..|msgs| - 1], h, id, i)
  {
    var init := msgs[..|msgs| - 1];
    forall j: nat | j < |init| ensures Forgets(r, msgs, j, h, id) == Forgets(r, init, j, h, id) && msgs[j] == init[j] {
      assert msgs[..j] == init[..j];
    }
    if HeldSince(r, msgs, h, id, i) {
      forall j | i < j < |init| ensures !Records(r, init[j], h, id) && !Forgets(r, init, j, h, id) {
        assert !Records(r, msgs[j], h, id);
      }
    }
    if HeldSince(r, init, h, id, i) {
      forall j | i < j < |msgs| ensures !Records(r, msgs[j], h, id) && !Forgets(r, msgs, j, h, id) {
        assert j < |init| ==> !Records(r, init[j], h, id);
      }
    }
  }

  lemma StepKeepsEntry(r: Registry, s: State, m: Msg, h: nat, id: string)
    requires !Records(r, m, h, id)
    requires (m.Complete? || m.Error?) && m.id == id ==> Owner(s, id) != Profile(h)
    ensures ActionType(Step(r, s, m), h, id) == ActionType(s, h, id)
  {
  }

  /** A message that neither records nor forgets the flow leaves its entry alone. */
  lemma EntryKept(r: Registry, msgs: seq<Msg>, h: nat, id: string)
    requires msgs != [] && h in r.openId
    requires var n := |msgs| - 1; !Records(r, msgs[n], h, id) && !Forgets(r, msgs, n, h, id)
    ensures ActionType(Run(r, msgs), h, id) == ActionType(Run(r, msgs[..|msgs| - 1]), h, id)
  {
    var init, m := msgs[..|msgs| - 1], msgs[|msgs| - 1];
    RoutedByLastStart(r, init, Progress(id));
    assert Owner(Run(r, init), id) == Profile(h) <==> StartedBy(r, init, id, h);
    StepKeepsEntry(r, Run(r, init), m, h, id);
  }

  lemma EntryForgotten(r: Registry, msgs: seq<Msg>, h: nat, id: string)
    requires msgs != [] && h in r.openId && Forgets(r, msgs, |msgs| - 1, h, id)
    ensures ActionType(Run(r, msgs), h, id) == None
  {
    RoutedByLastStart(r, msgs[..|msgs| - 1], Progress(id));
  }

  /**
   * Exactly which flows an openid4x profile holds: those it has recorded in a start that passed its
   * checks, successful or not, with no complete or error message reaching it for that flow since. The
   * entry is the type of that start.
   */
  lemma {:induction false} TypesByHistory(r: Registry, msgs: seq<Msg>, h: nat, id: string)
    requires h in r.openId
    ensures ActionType(Run(r, msgs), h, id) == None <==> forall i: nat :: !HeldSince(r, msgs, h, id, i)
    ensures forall i: nat :: HeldSince(r, msgs, h, id, i) ==>
              ActionType(Run(r, msgs), h, id) == Some(msgs[i].flowType)
  {
    if msgs != [] {
      var n := |msgs| - 1;
      TypesByHistory(r, msgs[..n], h, id);
      if Records(r, msgs[n], h, id) {
        assert HeldSince(r, msgs, h, id, n);
      } else if Forgets(r, msgs, n, h, id) {
        EntryForgotten(r, msgs, h, id);
      } else {
        EntryKept(r, msgs, h, id);
        forall i: nat | i < n ensures HeldSince(r, msgs, h, id, i) == HeldSince(r, msgs[..n], h, id, i) {
          HeldStill(r, msgs, h, id, i);
        }
      }
    }
  }

  lemma RunSnoc(r: Registry, msgs: seq<Msg>, m: Msg)
    ensures Run(r, msgs + [m]) == Step(r, Run(r, msgs), m)
  {
    assert (msgs + [m])[..|msgs|] == msgs;
  }

  /**
   * `Cancel` drops the ownership without telling the profile. Until the flow is started again nothing
   * about it reaches a profile, so an openid4x profile keeps its entry for good.
   */
  lemma {:induction false} CancelLeavesEntry(r: Registry, msgs: seq<Msg>, id: string, later: seq<Msg>, h: nat)
    requires forall m :: m in later && m.id == id ==> !m.Start?
    ensures id !in Run(r, msgs + [Cancel(id)] + later).owners
    ensures ActionType(Run(r, msgs + [Cancel(id)] + later), h, id) == ActionType(Run(r, msgs), h, id)
  {
    var cancelled := msgs + [Cancel(id)];
    if later == [] {
      RunSnoc(r, msgs, Cancel(id));
      assert cancelled + later == cancelled;
    } else {
      var init, m := later[..|later| - 1], later[|later| - 1];
      assert m in later && cancelled + later == (cancelled + init) + [m];
      CancelLeavesEntry(r, msgs, id, init, h);
      RunSnoc(r, cancelled + init, m);
      StepKeepsEntry(r, Run(r, cancelled + init), m, h, id);
    }
  }

  /** Which action callback the profile would run for the flow. */
  function ActionType(s: State, h: nat, id: string): Option<string> {
    if id in TypesOf(s, h) then Some(TypesOf(s, h)[id]) else None
  }

  /**
   * The running flow's own type is the one used for its actions exactly when the last start of its id
   * that the profile accepted has that type.
   */
  lemma ActionTypeExact(r: Registry, msgs: seq<Msg>, id: string, i: nat)
    requires LastStart(r, msgs, id, i) && r.byType[msgs[i].flowType] in r.openId
    ensures var h := r.byType[msgs[i].flowType];
            ActionType(Run(r, msgs), h, id) == Some(msgs[i].flowType) <==>
            LastRecorded(r, msgs, h, id) == Some(msgs[i].flowType)
  {
    RoutedByLastStart(r, msgs, Progress(id));
    assert StartedBy(r, msgs, id, r.byType[msgs[i].flowType]);
    OwnedFlowsHaveTypes(r, msgs);
    assert Reached(r, Run(r, msgs), Progress(id)) == Profile(r.byType[msgs[i].flowType]);
  }

  /** So a start that fails in its callback can redirect the actions of the flow already running under its id. */
  lemma FailedRestartRedirects()
    ensures var r := Registry(map[OID4VCI := 0, OID4VP := 0], {0});
            var msgs := [Start("f", OID4VCI, true, true), Start("f", OID4VP, true, false)];
            && LastStart(r, msgs, "f", 0)
            && ActionType(Run(r, msgs), 0, "f") == Some(OID4VP)
  {
  }

  // ---- What each message does, in any run ----

  /** The start returns a result from the profile behind its type; an openid4x one wants valid parameters. */
  predicate ProfileStarts(r: Registry, flowType: string, valid: bool, started: bool) {
    && flowType in r.byType && started
    && (r.byType[flowType] in r.openId ==> valid && (flowType == "oid4vci" || flowType == "oid4vp"))
  }

  /** A start goes to the profile registered for its type, if any; a cancel always to the base handler. */
  lemma StartAndCancelReach(r: Registry, msgs: seq<Msg>, id: string, flowType: string, valid: bool, started: bool)
    ensures forall h: nat :: Reached(r, Run(r, msgs), Start(id, flowType, valid, started)) == Profile(h) <==>
              flowType in r.byType && r.byType[flowType] == h
    ensures flowType !in r.byType ==> Reached(r, Run(r, msgs), Start(id, flowType, valid, started)) == Base
    ensures Reached(r, Run(r, msgs), Cancel(id)) == Base
  {
  }

  /** Ownership changes exactly on a start that succeeds, to the profile of its type, and on an ending. */
  lemma OwnersAfter(r: Registry, msgs: seq<Msg>, m: Msg)
    ensures m.Start? ==>
              Run(r, msgs + [m]).owners
              == if ProfileStarts(r, m.flowType, m.valid, m.started)
                 then Run(r, msgs).owners[m.id := r.byType[m.flowType]] else Run(r, msgs).owners
    ensures m.Complete? || m.Error? || m.Cancel? ==> Run(r, msgs + [m]).owners == Run(r, msgs).owners - {m.id}
    ensures m.Progress? || m.Action? ==> Run(r, msgs + [m]).owners == Run(r, msgs).owners
  {
    RunSnoc(r, msgs, m);
  }

  /** A flow type is recorded before the start is known to succeed, and forgotten only by an ending of its owner. */
  lemma TypesAfter(r: Registry, msgs: seq<Msg>, m: Msg, h: nat, id: string)
    requires h in r.openId
    ensures var s, after := Run(r, msgs), ActionType(Run(r, msgs + [m]), h, id);
            after ==
            if m.Start? && m.id == id && m.flowType in r.byType && r.byType[m.flowType] == h && m.valid &&
               (m.flowType == "oid4vci" || m.flowType == "oid4vp") then Some(m.flowType)
            else if (m.Complete? || m.Error?) && m.id == id && id in s.owners && s.owners[id] == h then None
            else ActionType(s, h, id)
  {
    RunSnoc(r, msgs, m);
    if !Records(r, m, h, id) && !((m.Complete? || m.Error?) && m.id == id && Owner(Run(r, msgs), id) == Profile(h)) {
      StepKeepsEntry(r, Run(r, msgs), m, h, id);
    }
  }

  /** The peer's routing tables, updated message by message. */
  class Router {
    const registry: Registry
    var flowOwners: map<string, nat>
    var flowTypes: map<nat, map<string, string>>

    constructor (r: Registry)
      ensures registry == r && Current() == EMPTY
    {
      registry := r;
      flowOwners, flowTypes := map[], map[];
    }

    ghost function Current(): State
      reads this
    {
      State(flowOwners, flowTypes)
    }

    method Dispatch(m: Msg) returns (target: Target)
      modifies this
      ensures target == Reached(registry, old(Current()), m)
      ensures Current() == Step(registry, old(Current()), m)
    {
      target := Base;
      match m
      case Start(id, flowType, valid, started) =>
        if flowType in registry.byType {
          var h := registry.byType[flowType];
          target := Profile(h);
          var ok := StartFlow(h, m);
          if ok {
            flowOwners := flowOwners[id := h];
          }
        }
      case Complete(id) => target := EndFlow(id);
      case Error(id) => target := EndFlow(id);
      case Cancel(id) =>
        if id in flowOwners {
          flowOwners := flowOwners - {id};
        }
      case Progress(id) =>
        if id in flowOwners {
          target := Profile(flowOwners[id]);
        }
      case Action(id) =>
        if id in flowOwners {
          target := Profile(flowOwners[id]);
        }
    }

    /** `StartFlow` of the profile behind the flow type. */
    method StartFlow(h: nat, m: Msg) returns (ok: bool)
      requires m.Start? && m.flowType in registry.byType && registry.byType[m.flowType] == h
      modifies this`flowTypes
      ensures ok == Succeeds(registry, m)
      ensures flowTypes == Step(registry, old(Current()), m).types
    {
      if h in registry.openId {
        if !m.valid || (m.flowType != OID4VCI && m.flowType != OID4VP) {
          return false;
        }
        var mine := if h in flowTypes then flowTypes[h] else map[];
        flowTypes := flowTypes[h := mine[m.id := m.flowType]];
      }
      ok := m.started;
    }

    /** The complete and error cases: tell the owner, then untrack. */
    method EndFlow(id: string) returns (target: Target)
      modifies this
      ensures target == Owner(old(Current()), id)
      ensures Current() == EndStep(registry, old(Current()), id)
    {
      if id !in flowOwners {
        return Base;
      }
      var h := flowOwners[id];
      if h in registry.openId {
        var mine := if h in flowTypes then flowTypes[h] else map[];
        flowTypes := flowTypes[h := mine - {id}];
      }
      flowOwners := flowOwners - {id};
      target := Profile(h);
    }
  }
}
