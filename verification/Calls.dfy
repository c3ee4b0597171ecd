/**
 * Outgoing calls of one peer (pkg/wmp/peer.go): the `pending` map, one-slot response channels, and
 * the goroutines that meet there. One step per lock region, channel operation or transport write.
 */
module Calls {
  import opened Options

  /** A JSON-RPC id as it appears on the wire. */
  datatype RawId = Absent | Null | Str(text: string) | Other(json: string)

  /** The `pending` key `handleResponse` computes: a decoded string, or the raw text as a fallback. */
  function Key(id: RawId): string {
    match id
    case Absent => ""
    case Null => ""
    case Str(s) => s
    case Other(json) => json
  }

  /** The id `NewRequest` puts on a request; the empty string makes a notification. */
  function RequestId(id: string): RawId {
    if id == "" then Absent else Str(id)
  }

  /** The id of a notification. */
  predicate IsNotificationId(id: RawId) {
    id.Absent? || id.Null?
  }

  const PARSE_ERROR := -32700
  const INVALID_REQUEST := -32600

  /** An RPC error; its message text is determined by its code. */
  datatype RpcError = RpcError(code: int, data: Option<string>)

  datatype Body = Result(json: string) | Error(error: RpcError)

  datatype Response = Response(id: RawId, body: Body)

  /** The error sent with a null id for bytes that are too long or cannot be decoded. */
  function BadInput(tooLarge: bool): RpcError {
    if tooLarge then RpcError(INVALID_REQUEST, Some("message too large")) else RpcError(PARSE_ERROR, None)
  }

  /** `out` says whether the bytes of a failed send got out all the same; the caller cannot tell. */
  datatype CallOutcome = Answered(body: Body) | SendFailure(out: bool) | ContextDone

  /** Where the goroutine in `CallWithID` is. */
  datatype Phase =
    | Registered                      // in `pending`, about to send
    | Waiting                         // sent, in the select
    | Leaving(outcome: CallOutcome)   // send failed or context done, about to delete from `pending`
    | Returned(outcome: CallOutcome)

  /** `inbox` is the one-slot channel; `sends` counts every send into it. */
  datatype Call = Call(id: string, payload: string, phase: Phase, inbox: seq<Response>, sends: nat)

  /** A goroutine in `handleResponse` that has taken a channel out of `pending` and is about to send into it. */
  datatype Carrier = Carrier(call: nat, response: Response)

  /** Calls are numbered in the order they register; the number identifies the call's channel. */
  datatype Table = Table(calls: seq<Call>, pending: map<string, nat>, carriers: map<nat, Carrier>)

  const EMPTY := Table([], map[], map[])

  datatype Step =
    | Register(id: string, payload: string)
    | Send(call: nat, ok: bool, out: bool)
    | GiveUp(call: nat)
    | Unregister(call: nat)
    | Take(thread: nat, response: Response)
    | Put(thread: nat)
    | Receive(call: nat)

  predicate Enabled(s: Table, step: Step) {
    match step
    case Register(_, _) => true
    case Send(c, _, _) => c < |s.calls| && s.calls[c].phase.Registered?
    case GiveUp(c) => c < |s.calls| && s.calls[c].phase.Waiting?
    case Unregister(c) => c < |s.calls| && s.calls[c].phase.Leaving?
    case Take(t, _) => t !in s.carriers
    case Put(t) => t in s.carriers && s.carriers[t].call < |s.calls| && s.calls[s.carriers[t].call].inbox == []
    case Receive(c) => c < |s.calls| && s.calls[c].phase.Waiting? && s.calls[c].inbox != []
  }

  function SetPhase(s: Table, c: nat, phase: Phase): Table
    requires c < |s.calls|
  {
    s.(calls := s.calls[c := s.calls[c].(phase := phase)])
  }

  function Apply(s: Table, step: Step): Table
    requires Enabled(s, step)
  {
    match step
    case Register(id, payload) =>
      s.(calls := s.calls + [Call(id, payload, Registered, [], 0)], pending := s.pending[id := |s.calls|])
    case Send(c, ok, out) => SetPhase(s, c, if ok then Waiting else Leaving(SendFailure(out)))
    case GiveUp(c) => SetPhase(s, c, Leaving(ContextDone))
    case Unregister(c) =>
      SetPhase(s, c, Returned(s.calls[c].phase.outcome)).(pending := s.pending - {s.calls[c].id})
    case Take(t, response) =>
      var key := Key(response.id);
      if key in s.pending then
        s.(pending := s.pending - {key}, carriers := s.carriers[t := Carrier(s.pending[key], response)])
      else s
    case Put(t) =>
      var Carrier(c, response) := s.carriers[t];
      var call := s.calls[c];
      s.(calls := s.calls[c := call.(inbox := call.inbox + [response], sends := call.sends + 1)],
         carriers := s.carriers - {t})
    case Receive(c) =>
      var call := s.calls[c];
      s.(calls := s.calls[c := call.(phase := Returned(Answered(call.inbox[0].body)), inbox := call.inbox[1..])])
  }

  /** A step that is not possible leaves the peer as it is. */
  function Next(s: Table, step: Step): Table {
    if Enabled(s, step) then Apply(s, step) else s
  }

  function RunFrom(s: Table, steps: seq<Step>): Table {
    if steps == [] then s else Next(RunFrom(s, steps[..|steps| - 1]), steps[|steps| - 1])
  }

  function Run(steps: seq<Step>): Table {
    RunFrom(EMPTY, steps)
  }

  // ---- At most one send per channel ----

  /** Call `c`'s channel is still in `pending`. */
  predicate Listed(s: Table, c: nat) {
    c < |s.calls| && s.calls[c].id in s.pending && s.pending[s.calls[c].id] == c
  }

  ghost predicate Carried(s: Table, c: nat) {
    exists t :: t in s.carriers && s.carriers[t].call == c
  }

  /** A channel is reachable through at most one of: `pending`, one carrier, or a send already made. */
  ghost predicate OneSend(s: Table) {
    && (forall id :: id in s.pending ==>
          s.pending[id] < |s.calls| && s.calls[s.pending[id]].id == id && s.calls[s.pending[id]].sends == 0)
    && (forall t :: t in s.carriers ==>
          s.carriers[t].call < |s.calls| && s.calls[s.carriers[t].call].sends == 0 && !Listed(s, s.carriers[t].call))
    && (forall t, u :: t in s.carriers && u in s.carriers && t != u ==> s.carriers[t].call != s.carriers[u].call)
    && (forall c: nat :: 0 <= c < |s.calls| ==> |s.calls[c].inbox| <= s.calls[c].sends <= 1)
  }

  /** Nothing sent, nothing taken: the calls keep their ids and counts, and `pending` can only shrink. */
  ghost predicate OnlyLess(s: Table, s': Table) {
    && |s'.calls| == |s.calls| && s'.carriers == s.carriers
    && (forall c :: 0 <= c < |s.calls| ==>
          && s'.calls[c].id == s.calls[c].id && s'.calls[c].sends == s.calls[c].sends
          && |s'.calls[c].inbox| <= |s.calls[c].inbox|)
    && (forall id :: id in s'.pending ==> id in s.pending && s'.pending[id] == s.pending[id])
  }

  lemma OnlyLessKeepsOneSend(s: Table, s': Table)
    requires OneSend(s) && OnlyLess(s, s')
    ensures OneSend(s')
  {
    assert forall c: nat :: Listed(s', c) ==> Listed(s, c);
  }

  lemma OwnStepKeepsOneSend(s: Table, step: Step)
    requires OneSend(s) && Enabled(s, step) && (step.Send? || step.GiveUp? || step.Unregister? || step.Receive?)
    ensures OneSend(Apply(s, step))
  {
    assert OnlyLess(s, Apply(s, step));
    OnlyLessKeepsOneSend(s, Apply(s, step));
  }

  lemma RegisterKeepsOneSend(s: Table, id: string, payload: string)
    requires OneSend(s)
    ensures OneSend(Apply(s, Register(id, payload)))
  {
    var s' := Apply(s, Register(id, payload));
    forall t | t in s'.carriers ensures !Listed(s', s'.carriers[t].call) {
      assert !Listed(s, s.carriers[t].call);
    }
  }

  lemma TakeKeepsOneSend(s: Table, t: nat, response: Response)
    requires OneSend(s) && t !in s.carriers
    ensures OneSend(Apply(s, Take(t, response)))
  {
    var key := Key(response.id);
    if key in s.pending {
      assert Listed(s, s.pending[key]);
    }
  }

  lemma PutKeepsOneSend(s: Table, t: nat)
    requires OneSend(s) && Enabled(s, Put(t))
    ensures OneSend(Apply(s, Put(t)))
  {
    var s' := Apply(s, Put(t));
    assert |s'.calls| == |s.calls|;
    assert forall c :: 0 <= c < |s.calls| ==> s'.calls[c].id == s.calls[c].id;
    forall id | id in s'.pending ensures s'.calls[s'.pending[id]].sends == 0 {
      assert Listed(s, s.pending[id]);
    }
  }

  lemma StepKeepsOneSend(s: Table, step: Step)
    requires OneSend(s)
    ensures OneSend(Next(s, step))
  {
    if Enabled(s, step) {
      match step
      case Register(id, payload) => RegisterKeepsOneSend(s, id, payload);
      case Take(t, response) => TakeKeepsOneSend(s, t, response);
      case Put(t) => PutKeepsOneSend(s, t);
      case _ => OwnStepKeepsOneSend(s, step);
    }
  }

  lemma {:induction false} RunKeepsOneSend(steps: seq<Step>)
    ensures OneSend(Run(steps))
  {
    if steps != [] {
      RunKeepsOneSend(steps[..|steps| - 1]);
      StepKeepsOneSend(Run(steps[..|steps| - 1]), steps[|steps| - 1]);
    }
  }

  /**
   * In every interleaving, even with reused ids, each channel gets at most one send, and a goroutine
   * about to send finds the slot free.
   */
  lemma SendNeverBlocks(steps: seq<Step>)
    ensures forall c: nat :: 0 <= c < |Run(steps).calls| ==> Run(steps).calls[c].sends <= 1
    ensures forall t :: t in Run(steps).carriers ==> Enabled(Run(steps), Put(t))
  {
    RunKeepsOneSend(steps);
  }

  // ---- `pending` is exact when ids are unique among calls in flight ----

  predicate InFlight(s: Table, c: nat) {
    c < |s.calls| && !s.calls[c].phase.Returned?
  }

  /** A response for the call has been taken off the wire. */
  ghost predicate AnswerTaken(s: Table, c: nat) {
    c < |s.calls| && (s.calls[c].sends > 0 || Carried(s, c))
  }

  ghost predicate IdFree(s: Table, id: string) {
    forall c: nat :: InFlight(s, c) ==> s.calls[c].id != id
  }

  ghost predicate UniqueIds(s: Table) {
    forall c: nat, d: nat :: InFlight(s, c) && InFlight(s, d) && c != d ==> s.calls[c].id != s.calls[d].id
  }

  /** `pending` holds exactly the calls that are neither answered nor returned. */
  ghost predicate Exact(s: Table) {
    forall c: nat :: Listed(s, c) <==> InFlight(s, c) && !AnswerTaken(s, c)
  }

  ghost predicate Respects(s: Table, step: Step) {
    step.Register? ==> IdFree(s, step.id)
  }

  /** No call registers an id that another call in flight is using. */
  ghost predicate UniqueRun(steps: seq<Step>) {
    forall i :: 0 <= i < |steps| ==> Respects(Run(steps[..i]), steps[i])
  }

  ghost predicate ExactInv(s: Table) {
    OneSend(s) && UniqueIds(s) && Exact(s)
  }

  /** Carriers keep carrying the same call unless the step is theirs. */
  lemma CarriedFrame(s: Table, step: Step, c: nat)
    requires Enabled(s, step) && !step.Take? && !step.Put?
    ensures Carried(Apply(s, step), c) == Carried(s, c)
  {
    assert Apply(s, step).carriers == s.carriers;
  }

  /** Taking makes the pending call the only one newly carried. */
  lemma TakeCarries(s: Table, t: nat, response: Response, c: nat)
    requires t !in s.carriers && Key(response.id) in s.pending
    ensures Carried(Apply(s, Take(t, response)), c) <==> Carried(s, c) || c == s.pending[Key(response.id)]
  {
    var s' := Apply(s, Take(t, response));
    assert s'.carriers[t].call == s.pending[Key(response.id)];
    if Carried(s, c) {
      var u :| u in s.carriers && s.carriers[u].call == c;
      assert u in s'.carriers && s'.carriers[u].call == c;
    }
  }

  /** Taking unlists the pending call and no other. */
  lemma TakeUnlists(s: Table, t: nat, response: Response, c: nat)
    requires OneSend(s) && t !in s.carriers && Key(response.id) in s.pending
    ensures Listed(Apply(s, Take(t, response)), c) <==> Listed(s, c) && c != s.pending[Key(response.id)]
  {
  }

  lemma TakeKeepsExact(s: Table, t: nat, response: Response)
    requires ExactInv(s) && t !in s.carriers
    ensures ExactInv(Apply(s, Take(t, response)))
  {
    var s' := Apply(s, Take(t, response));
    StepKeepsOneSend(s, Take(t, response));
    assert s'.calls == s.calls;
    if Key(response.id) in s.pending {
      forall c: nat ensures Listed(s', c) <==> InFlight(s', c) && !AnswerTaken(s', c) {
        TakeCarries(s, t, response, c);
        TakeUnlists(s, t, response, c);
      }
    }
  }

  lemma PutKeepsExact(s: Table, t: nat)
    requires ExactInv(s) && Enabled(s, Put(t))
    ensures ExactInv(Apply(s, Put(t)))
  {
    var s' := Apply(s, Put(t));
    StepKeepsOneSend(s, Put(t));
    var d := s.carriers[t].call;
    forall c: nat ensures AnswerTaken(s', c) == AnswerTaken(s, c) {
      assert Carried(s, d);
      if c != d && Carried(s, c) {
        var u :| u in s.carriers && s.carriers[u].call == c;
        assert u in s'.carriers && s'.carriers[u].call == c;
      }
    }
    forall c: nat ensures Listed(s', c) == Listed(s, c) && InFlight(s', c) == InFlight(s, c) {
    }
  }

  lemma AnswersFrame(s: Table, step: Step, c: nat)
    requires Enabled(s, step) && (step.Send? || step.GiveUp? || step.Unregister? || step.Receive?)
    ensures AnswerTaken(Apply(s, step), c) == AnswerTaken(s, c)
  {
    CarriedFrame(s, step, c);
  }

  lemma OwnStepFrame(s: Table, step: Step, c: nat)
    requires Enabled(s, step) && (step.Send? || step.GiveUp? || step.Receive?)
    ensures Listed(Apply(s, step), c) == Listed(s, c)
    ensures InFlight(Apply(s, step), c) <==> InFlight(s, c) && !(c == step.call && step.Receive?)
    ensures c < |s.calls| ==> Apply(s, step).calls[c].id == s.calls[c].id
  {
  }

  lemma OwnStepKeepsExact(s: Table, step: Step)
    requires ExactInv(s) && Enabled(s, step) && (step.Send? || step.GiveUp? || step.Receive?)
    ensures ExactInv(Apply(s, step))
  {
    var s' := Apply(s, step);
    StepKeepsOneSend(s, step);
    forall c: nat
      ensures InFlight(s', c) ==> InFlight(s, c) && s'.calls[c].id == s.calls[c].id
      ensures Listed(s', c) <==> InFlight(s', c) && !AnswerTaken(s', c)
    {
      OwnStepFrame(s, step, c);
      AnswersFrame(s, step, c);
    }
  }

  lemma UnregisterKeepsExact(s: Table, d: nat)
    requires ExactInv(s) && Enabled(s, Unregister(d))
    ensures ExactInv(Apply(s, Unregister(d)))
  {
    var s' := Apply(s, Unregister(d));
    StepKeepsOneSend(s, Unregister(d));
    forall c: nat ensures InFlight(s', c) <==> InFlight(s, c) && c != d {
    }
    forall c: nat ensures Listed(s', c) <==> Listed(s, c) && c != d {
      assert Listed(s, c) ==> InFlight(s, c);
    }
    forall c: nat ensures Listed(s', c) <==> InFlight(s', c) && !AnswerTaken(s', c) {
      AnswersFrame(s, Unregister(d), c);
    }
  }

  lemma RegisterFrame(s: Table, id: string, payload: string, c: nat)
    requires Exact(s) && IdFree(s, id) && c < |s.calls|
    ensures var s' := Apply(s, Register(id, payload));
            && s'.calls[c] == s.calls[c] && InFlight(s', c) == InFlight(s, c)
            && Listed(s', c) == Listed(s, c) && AnswerTaken(s', c) == AnswerTaken(s, c)
  {
    CarriedFrame(s, Register(id, payload), c);
    assert Listed(s, c) ==> InFlight(s, c);
  }

  lemma RegisterLists(s: Table, id: string, payload: string)
    requires OneSend(s)
    ensures var s' := Apply(s, Register(id, payload)); Listed(s', |s.calls|) && !AnswerTaken(s', |s.calls|)
  {
    CarriedFrame(s, Register(id, payload), |s.calls|);
    assert !Carried(s, |s.calls|);
  }

  lemma RegisterKeepsExact(s: Table, id: string, payload: string)
    requires ExactInv(s) && IdFree(s, id)
    ensures ExactInv(Apply(s, Register(id, payload)))
  {
    var s' := Apply(s, Register(id, payload));
    StepKeepsOneSend(s, Register(id, payload));
    RegisterLists(s, id, payload);
    forall c: nat | c < |s.calls|
      ensures s'.calls[c] == s.calls[c] && InFlight(s', c) == InFlight(s, c)
      ensures Listed(s', c) <==> InFlight(s', c) && !AnswerTaken(s', c)
    {
      RegisterFrame(s, id, payload, c);
    }
  }

  lemma StepKeepsExact(s: Table, step: Step)
    requires ExactInv(s) && Respects(s, step)
    ensures ExactInv(Next(s, step))
  {
    if Enabled(s, step) {
      match step
      case Register(id, payload) => RegisterKeepsExact(s, id, payload);
      case Take(t, response) => TakeKeepsExact(s, t, response);
      case Put(t) => PutKeepsExact(s, t);
      case Unregister(c) => UnregisterKeepsExact(s, c);
      case _ => OwnStepKeepsExact(s, step);
    }
  }

  lemma {:induction false} RunKeepsExact(steps: seq<Step>)
    requires UniqueRun(steps)
    ensures ExactInv(Run(steps))
  {
    if steps != [] {
      var init := steps[..|steps| - 1];
      assert forall i :: 0 <= i <= |init| ==> steps[..i] == init[..i];
      assert steps[..|init|] == init;
      RunKeepsExact(init);
      StepKeepsExact(Run(init), steps[|init|]);
    }
  }

  /**
   * With ids unique among calls in flight, `pending` holds exactly the registered calls that are
   * neither answered nor returned, under their own ids; with no call in flight it is empty.
   */
  lemma PendingExact(steps: seq<Step>)
    requires UniqueRun(steps)
    ensures var s := Run(steps);
            && (forall id :: id in s.pending ==>
                  && InFlight(s, s.pending[id]) && !AnswerTaken(s, s.pending[id]) && s.calls[s.pending[id]].id == id)
            && (forall c: nat :: InFlight(s, c) && !AnswerTaken(s, c) ==> Listed(s, c))
            && ((forall c: nat :: !InFlight(s, c)) ==> s.pending == map[])
  {
    RunKeepsExact(steps);
    var s := Run(steps);
    forall id | id in s.pending
      ensures InFlight(s, s.pending[id]) && !AnswerTaken(s, s.pending[id]) && s.calls[s.pending[id]].id == id
    {
      assert Listed(s, s.pending[id]);
    }
  }

  /**
   * The condition is needed: from any exact state, registering an id that a call in flight is using
   * leads, in at most two more steps of that call, to a state where the new call still waits for its
   * answer but is no longer in `pending`.
   */
  lemma ReusedIdBreaks(s: Table, c: nat, payload: string) returns (steps: seq<Step>)
    requires ExactInv(s) && InFlight(s, c)
    ensures |steps| <= 2
    ensures var s' := RunFrom(Next(s, Register(s.calls[c].id, payload)), steps);
            && InFlight(s', |s.calls|) && !AnswerTaken(s', |s.calls|) && !Listed(s', |s.calls|)
            && !Exact(s')
  {
    var id := s.calls[c].id;
    var n := |s.calls|;
    var s1 := Next(s, Register(id, payload));
    CarriedFrame(s, Register(id, payload), n);
    assert !Carried(s, n);
    var leave: Step := if s.calls[c].phase.Registered? then Send(c, false, false) else GiveUp(c);
    var s2 := Next(s1, leave);
    var s3 := Next(s2, Unregister(c));
    steps := [leave] + [Unregister(c)];
    assert steps[..1] == [leave] && steps[..0] == [];
    assert RunFrom(s1, []) == s1 && RunFrom(s1, [leave]) == s2;
    assert s3.carriers == s1.carriers;
    assert !Carried(s3, n) by {
      assert forall t :: t in s3.carriers ==> s3.carriers[t].call == s1.carriers[t].call;
    }
    assert InFlight(s3, n) && !AnswerTaken(s3, n) && !Listed(s3, n);
  }

  // ---- How calls end ----

  /** A call that has decided on its outcome keeps it, and one that has returned stays returned. */
  lemma DecidedStays(s: Table, step: Step, c: nat)
    requires c < |s.calls|
    ensures var s' := Next(s, step);
            && c < |s'.calls|
            && (forall o :: s.calls[c].phase == Leaving(o) ==> s'.calls[c].phase in {Leaving(o), Returned(o)})
            && (forall o :: s.calls[c].phase == Returned(o) ==> s'.calls[c].phase == Returned(o))
  {
  }

  lemma {:induction false} DecidedForGood(s: Table, steps: seq<Step>, c: nat, o: CallOutcome)
    requires c < |s.calls| && s.calls[c].phase in {Leaving(o), Returned(o)}
    ensures c < |RunFrom(s, steps).calls| && RunFrom(s, steps).calls[c].phase in {Leaving(o), Returned(o)}
  {
    if steps != [] {
      DecidedForGood(s, steps[..|steps| - 1], c, o);
      DecidedStays(RunFrom(s, steps[..|steps| - 1]), steps[|steps| - 1], c);
    }
  }

  /**
   * In every run a call can be brought to its end by itself, and ends as what happened to it says: a
   * failed send as a send failure, an ended context as that, and a received response as its body. A send
   * that succeeds leaves it waiting.
   */
  lemma CallEnds(steps: seq<Step>, c: nat, out: bool)
    requires c < |Run(steps).calls|
    ensures var s := Run(steps);
            && (s.calls[c].phase.Registered? ==>
                  && Next(Next(s, Send(c, false, out)), Unregister(c)).calls[c].phase == Returned(SendFailure(out))
                  && Next(s, Send(c, true, out)).calls[c].phase == Waiting)
            && (s.calls[c].phase.Waiting? ==>
                  && Next(Next(s, GiveUp(c)), Unregister(c)).calls[c].phase == Returned(ContextDone)
                  && (s.calls[c].inbox != [] ==>
                        Next(s, Receive(c)).calls[c].phase == Returned(Answered(s.calls[c].inbox[0].body))))
            && (forall o :: s.calls[c].phase == Leaving(o) ==> Next(s, Unregister(c)).calls[c].phase == Returned(o))
  {
  }

  /**
   * A response taken while the call waits for it gets through: in every reachable state with unique ids,
   * taking it, putting it into the channel and receiving returns exactly its body to that call.
   */
  lemma ResponseGetsThrough(s: Table, t: nat, c: nat, body: Body)
    requires OneSend(s) && Listed(s, c) && s.calls[c].phase.Waiting? && t !in s.carriers
    ensures var s' := Next(Next(Next(s, Take(t, Response(Str(s.calls[c].id), body))), Put(t)), Receive(c));
            s'.calls[c].phase == Returned(Answered(body)) && s'.calls[c].id == s.calls[c].id && !Listed(s', c)
  {
    var r := Response(Str(s.calls[c].id), body);
    var s1 := Next(s, Take(t, r));
    assert s.calls[c].inbox == [];
    assert s1.carriers[t] == Carrier(c, r) && s1.calls == s.calls;
    var s2 := Next(s1, Put(t));
    assert s2.calls[c].inbox == [] + [r] == [r];
  }

  /** A response with a null or missing id can reach a call only if one was registered under the empty id. */
  lemma NullIdReaches(s: Table, t: nat, response: Response)
    requires OneSend(s) && t !in s.carriers && (response.id.Null? || response.id.Absent?)
    ensures Next(s, Take(t, response)) != s <==> exists c: nat :: Listed(s, c) && s.calls[c].id == ""
  {
    if "" in s.pending {
      assert Listed(s, s.pending[""]);
      assert t in Next(s, Take(t, response)).carriers;
    }
  }

  /** The lock regions of `CallWithID` and `handleResponse`, on the peer's real field. */
  class Pending {
    var pending: map<string, nat>

    constructor ()
      ensures pending == EMPTY.pending
    {
      pending := map[];
    }

    method Register(id: string, channel: nat)
      modifies this
      ensures pending == old(pending)[id := channel]
      ensures forall s: Table, payload :: s.pending == old(pending) && |s.calls| == channel ==>
                pending == Next(s, Step.Register(id, payload)).pending
    {
      pending := pending[id := channel];
    }

    method Unregister(id: string)
      modifies this
      ensures pending == old(pending) - {id}
      ensures forall s: Table, c: nat ::
                s.pending == old(pending) && Enabled(s, Step.Unregister(c)) && s.calls[c].id == id ==>
                pending == Next(s, Step.Unregister(c)).pending
    {
      pending := pending - {id};
    }

    /** A string id is looked up as it is, a null or missing one as the empty text, any other as its raw text. */
    method Take(id: RawId) returns (channel: nat, ok: bool)
      modifies this
      ensures var key := match id case Str(text) => text case Other(json) => json case Null => "" case Absent => "";
              && ok == (key in old(pending)) && (ok ==> channel == old(pending)[key])
              && pending == old(pending) - {key}
      ensures forall s: Table, t, body :: s.pending == old(pending) && t !in s.carriers ==>
                var s' := Next(s, Step.Take(t, Response(id, body)));
                && pending == s'.pending
                && ok == (t in s'.carriers)
                && (ok ==> s'.carriers[t] == Carrier(channel, Response(id, body)))
    {
      var key := Key(id);
      channel, ok := 0, key in pending;
      if ok {
        channel := pending[key];
        pending := pending - {key};
      }
    }
  }
}
