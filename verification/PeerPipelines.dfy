/**
 * The two-peer system with the request pipeline inside: what a worker answers is what the
 * asynchronous pipeline of its side makes of the message (pkg/wmp/peer.go).
 */
module PeerPipelines {
  import opened Options
  import C = Calls
  import opened TwoPeers
  import P = Pipelines

  /** A side's hooks and handlers, and the method name and parameters a payload stands for. */
  datatype Node = Node(hooks: P.Hooks, decode: string -> (string, string))

  function MessageOf(n: Node, id: C.RawId, payload: string): P.Message {
    var (name, params) := n.decode(payload);
    P.Message(id, name, params, None, None)
  }

  function BodyOf(r: P.RpcResponse): C.Body
    requires P.ExactlyOne(r)
  {
    if r.result.Some? then C.Result(r.result.value) else C.Error(r.error.value)
  }

  /** The outcome of an identified request: the one response the pipeline writes for it. */
  function Outcome(n: Node, id: C.RawId, payload: string): C.Body
    requires !C.IsNotificationId(id) && MessageOf(n, id, payload).name != ""
  {
    var m := MessageOf(n, id, payload);
    P.OneResponsePerRequest(n.hooks, m);
    BodyOf(P.Async(n.hooks, m).written[0])
  }

  /** The pipeline's responses as they go on the wire. */
  function OnTheWire(rs: seq<P.RpcResponse>): seq<Wire>
    requires forall r :: r in rs ==> P.ExactlyOne(r)
  {
    seq(|rs|, i requires 0 <= i < |rs| => Reply(C.Response(rs[i].id, BodyOf(rs[i]))))
  }

  /** What processing a request may leave as its outcome. */
  predicate Processed(n: Node, id: C.RawId, payload: string, body: C.Body) {
    MessageOf(n, id, payload).name != "" && (!C.IsNotificationId(id) ==> body == Outcome(n, id, payload))
  }

  /** The response a worker writes is exactly what the asynchronous pipeline writes for its message. */
  lemma ResponseIsPipelines(n: Node, p: Peer, inbound: seq<Wire>, t: nat)
    requires t in p.workers && p.workers[t].body.Some?
    requires var w := p.workers[t]; Processed(n, w.id, w.payload, w.body.value)
    ensures var w := p.workers[t];
            var written := P.Async(n.hooks, MessageOf(n, w.id, w.payload)).written;
            && (forall r :: r in written ==> P.ExactlyOne(r))
            && Act(p, inbound, Respond(t, true)).written == OnTheWire(written)
  {
    var w := p.workers[t];
    P.OneResponsePerRequest(n.hooks, MessageOf(n, w.id, w.payload));
  }

  // ---- Whole runs ----

  datatype Pair = Pair(a: Node, b: Node)

  /** The hooks and handlers in force at each step of a run; they may change from step to step. */
  type Schedule = nat -> Pair

  function NodeAt(ns: Schedule, k: nat, side: Side): Node {
    if side.A? then ns(k).a else ns(k).b
  }

  /** A step that processes a request leaves the outcome its side's pipeline gives at that step. */
  predicate Follows(ns: Schedule, k: nat, s: System, e: SystemStep) {
    var p := PeerOf(s, e.side);
    e.step.Handle? && e.step.thread in p.workers ==>
      var w := p.workers[e.step.thread];
      Processed(NodeAt(ns, k, e.side), w.id, w.payload, e.step.body)
  }

  /** Every request of the run is processed by its side's pipeline. */
  ghost predicate Driven(ns: Schedule, es: seq<SystemStep>) {
    forall k :: 0 <= k < |es| ==> Follows(ns, k, Run(es[..k]), es[k])
  }

  /** The request was processed by the pipeline in force at one of the first `limit` steps. */
  ghost predicate ProcessedWithin(ns: Schedule, limit: nat, side: Side, e: Entry) {
    exists k: nat :: k < limit && Processed(NodeAt(ns, k, side), e.id, e.payload, e.body)
  }

  ghost predicate LogFollows(ns: Schedule, limit: nat, side: Side, log: seq<Entry>) {
    forall e :: e in log ==> ProcessedWithin(ns, limit, side, e)
  }

  lemma StepFollows(ns: Schedule, k: nat, s: System, e: SystemStep, side: Side)
    requires Follows(ns, k, s, e) && LogFollows(ns, k, side, PeerOf(s, side).log)
    ensures LogFollows(ns, k + 1, side, PeerOf(Next(s, e), side).log)
  {
    var p, inbound := PeerOf(s, e.side), InboundOf(s, e.side);
    if side == e.side && Ready(p, inbound, e.step) && !e.step.Handle? {
      assert Act(p, inbound, e.step).peer.log == p.log;
    }
    forall x | x in PeerOf(Next(s, e), side).log ensures ProcessedWithin(ns, k + 1, side, x) {
      if x in PeerOf(s, side).log {
        assert ProcessedWithin(ns, k, side, x);
      } else {
        assert Processed(NodeAt(ns, k, side), x.id, x.payload, x.body);
      }
    }
  }

  lemma {:induction false} RunFollows(ns: Schedule, es: seq<SystemStep>, side: Side)
    requires Driven(ns, es)
    ensures LogFollows(ns, |es|, side, PeerOf(Run(es), side).log)
  {
    if es != [] {
      var init := es[..|es| - 1];
      assert forall i :: 0 <= i <= |init| ==> es[..i] == init[..i];
      assert es[..|init|] == init;
      RunFollows(ns, init, side);
      StepFollows(ns, |init|, Run(init), es[|init|], side);
    }
  }

  /** In every such run, every response written is one the pipeline writes for the worker's message. */
  lemma EveryResponseIsPipelines(ns: Schedule, es: seq<SystemStep>, side: Side, t: nat) returns (k: nat)
    requires Driven(ns, es)
    requires var p := PeerOf(Run(es), side); t in p.workers && p.workers[t].body.Some?
    ensures k < |es|
    ensures var p := PeerOf(Run(es), side);
            var n, w := NodeAt(ns, k, side), p.workers[t];
            var written := P.Async(n.hooks, MessageOf(n, w.id, w.payload)).written;
            && (forall r :: r in written ==> P.ExactlyOne(r))
            && Act(p, [], Respond(t, true)).written == OnTheWire(written)
  {
    RunKeeps(es);
    RunFollows(ns, es, side);
    var p := PeerOf(Run(es), side);
    var w := p.workers[t];
    assert ProcessedWithin(ns, |es|, side, Entry(w.id, w.payload, w.body.value));
    k :| k < |es| && Processed(NodeAt(ns, k, side), w.id, w.payload, w.body.value);
    ResponseIsPipelines(NodeAt(ns, k, side), p, [], t);
  }

  /**
   * End to end: in every such run a call that returned a response returned exactly the one response
   * that the other side's pipeline, as it was at one of the steps, makes of the call's own id and
   * payload, be it asynchronous or synchronous; and the other side processed that request exactly once.
   */
  lemma CallReturnsPipelineAnswer(ns: Schedule, es: seq<SystemStep>, side: Side, c: nat) returns (k: nat)
    requires Driven(ns, es) && c < |PeerOf(Run(es), side).table.calls|
    requires var call := PeerOf(Run(es), side).table.calls[c];
             call.phase.Returned? && call.phase.outcome.Answered?
    ensures k < |es|
    ensures var call := PeerOf(Run(es), side).table.calls[c];
            var n, log := NodeAt(ns, k, Opposite(side)), OtherOf(Run(es), side).log;
            var m := MessageOf(n, C.Str(call.id), call.payload);
            && |P.Async(n.hooks, m).written| == 1 && P.ExactlyOne(P.Async(n.hooks, m).written[0])
            && call.phase.outcome.body == BodyOf(P.Async(n.hooks, m).written[0])
            && P.Sync(n.hooks, m).written == P.Async(n.hooks, m).written
            && exists i :: && 0 <= i < |log| && log[i].id == C.Str(call.id)
                           && forall j :: 0 <= j < |log| && j != i ==> log[j].id != C.Str(call.id)
  {
    CallGetsItsOwnAnswer(es, side, c);
    RunFollows(ns, es, Opposite(side));
    var call := PeerOf(Run(es), side).table.calls[c];
    var log := OtherOf(Run(es), side).log;
    var i :| && 0 <= i < |log|
             && log[i] == Entry(C.Str(call.id), call.payload, call.phase.outcome.body)
             && forall j :: 0 <= j < |log| && j != i ==> log[j].id != C.Str(call.id);
    assert log[i] in log && ProcessedWithin(ns, |es|, Opposite(side), log[i]);
    k :| k < |es| && Processed(NodeAt(ns, k, Opposite(side)), log[i].id, log[i].payload, log[i].body);
    var n := NodeAt(ns, k, Opposite(side));
    P.OneResponsePerRequest(n.hooks, MessageOf(n, C.Str(call.id), call.payload));
    P.SameAnswersExcept(n.hooks, MessageOf(n, C.Str(call.id), call.payload));
  }
}
