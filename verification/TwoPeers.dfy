/**
 * Two peers joined by two first-in first-out, possibly lossy, transports (pkg/wmp/peer.go).
 * Each side makes calls, runs every incoming request in its own goroutine, and answers bad input
 * with a null-id error.
 */
module TwoPeers {
  import opened Options
  import opened Calls

  datatype Wire =
    | Request(id: RawId, payload: string)
    | Reply(response: Response)
    | Junk(tooLarge: bool)                 // bytes that are too long, or do not decode

  /** A goroutine in `handleRequest`; `body` is set once the request has been processed. */
  datatype Worker = Worker(id: RawId, payload: string, body: Option<Body>)

  /** A request that has been processed, by the handler or by a hook that rejected it, with the outcome. */
  datatype Entry = Entry(id: RawId, payload: string, body: Body)

  datatype Peer = Peer(table: Table, workers: map<nat, Worker>, log: seq<Entry>)

  datatype PeerStep =
    | Begin(id: string, payload: string)        // CallWithID registers
    | Transmit(call: nat, ok: bool, out: bool)  // its write returns ok or an error; the bytes may be out either way
    | Local(step: Step)                         // any other step of a call or of a carrier
    | Notify(payload: string)
    | SendJunk(tooLarge: bool)
    | Serve(thread: nat)                        // read one message and dispatch it
    | Lose(index: nat)                          // the transport drops a message on its way here
    | Handle(thread: nat, body: Body)           // the hooks and the handler run
    | Respond(thread: nat, out: bool)           // the worker writes its response, if one is due, and ends

  /** `generateRequestID` gives a non-empty id this peer has never used. */
  predicate FreshId(p: Peer, id: string) {
    id != "" && forall c :: 0 <= c < |p.table.calls| ==> p.table.calls[c].id != id
  }

  predicate Ready(p: Peer, inbound: seq<Wire>, step: PeerStep) {
    match step
    case Begin(id, _) => FreshId(p, id)
    case Transmit(c, ok, out) => Enabled(p.table, Send(c, ok, out))
    case Local(s) => (s.GiveUp? || s.Unregister? || s.Put? || s.Receive?) && Enabled(p.table, s)
    case Notify(_) => true
    case SendJunk(_) => true
    case Serve(t) => inbound != [] && t !in p.workers && t !in p.table.carriers
    case Lose(i) => i < |inbound|
    case Handle(t, _) => t in p.workers && p.workers[t].body.None?
    case Respond(t, _) => t in p.workers && p.workers[t].body.Some?
  }

  function Without<T>(xs: seq<T>, i: nat): (ys: seq<T>)
    requires i < |xs|
    ensures |ys| == |xs| - 1
    ensures forall k :: 0 <= k < |ys| ==> ys[k] == if k < i then xs[k] else xs[k + 1]
    ensures forall y :: y in ys ==> y in xs
  {
    xs[..i] + xs[i + 1..]
  }

  /** The peer, what is left to read, and what it writes. */
  datatype Effect = Effect(peer: Peer, inbound: seq<Wire>, written: seq<Wire>)

  function Act(p: Peer, inbound: seq<Wire>, step: PeerStep): Effect
    requires Ready(p, inbound, step)
  {
    match step
    case Begin(id, payload) => Effect(p.(table := Apply(p.table, Register(id, payload))), inbound, [])
    case Transmit(c, ok, out) =>
      var call := p.table.calls[c];
      Effect(p.(table := Apply(p.table, Send(c, ok, out))), inbound,
             if ok || out then [Request(RequestId(call.id), call.payload)] else [])
    case Local(s) => Effect(p.(table := Apply(p.table, s)), inbound, [])
    case Notify(payload) => Effect(p, inbound, [Request(Absent, payload)])
    case SendJunk(tooLarge) => Effect(p, inbound, [Junk(tooLarge)])
    case Serve(t) =>
      (match inbound[0]
       case Request(id, payload) =>
         Effect(p.(workers := p.workers[t := Worker(id, payload, None)]), inbound[1..], [])
       case Reply(response) => Effect(p.(table := Apply(p.table, Take(t, response))), inbound[1..], [])
       case Junk(tooLarge) => Effect(p, inbound[1..], [Reply(Response(Null, Error(BadInput(tooLarge))))]))
    case Lose(i) => Effect(p, Without(inbound, i), [])
    case Handle(t, body) =>
      var w := p.workers[t];
      Effect(p.(workers := p.workers[t := w.(body := Some(body))], log := p.log + [Entry(w.id, w.payload, body)]),
             inbound, [])
    case Respond(t, out) =>
      var w := p.workers[t];
      Effect(p.(workers := p.workers - {t}), inbound,
             if out && !IsNotificationId(w.id) then [Reply(Response(w.id, w.body.value))] else [])
  }

  datatype Side = A | B

  datatype System = System(a: Peer, b: Peer, toA: seq<Wire>, toB: seq<Wire>)

  const NEW_PEER := Peer(EMPTY, map[], [])

  const START := System(NEW_PEER, NEW_PEER, [], [])

  datatype SystemStep = SystemStep(side: Side, step: PeerStep)

  function Next(s: System, e: SystemStep): System {
    match e.side
    case A =>
      if Ready(s.a, s.toA, e.step) then
        var x := Act(s.a, s.toA, e.step);
        System(x.peer, s.b, x.inbound, s.toB + x.written)
      else s
    case B =>
      if Ready(s.b, s.toB, e.step) then
        var x := Act(s.b, s.toB, e.step);
        System(s.a, x.peer, s.toA + x.written, x.inbound)
      else s
  }

  function Run(es: seq<SystemStep>): System {
    if es == [] then START else Next(Run(es[..|es| - 1]), es[|es| - 1])
  }

  // ---- The invariant of one direction: `x` calls, `y` serves ----

  /** Distinct, non-empty ids over the whole life of the peer. */
  ghost predicate FreshIds(calls: seq<Call>) {
    && (forall c :: 0 <= c < |calls| ==> calls[c].id != "")
    && (forall c, d :: 0 <= c < d < |calls| ==> calls[c].id != calls[d].id)
  }

  /** The call's request got out: it is past its send, and the send did not fail with nothing written. */
  predicate GotOut(call: Call) {
    match call.phase
    case Registered => false
    case Waiting => true
    case Leaving(o) => o != SendFailure(false)
    case Returned(o) => o != SendFailure(false)
  }

  /** Some call with this id and payload got its request out. */
  ghost predicate Issued(calls: seq<Call>, id: string, payload: string) {
    exists c :: 0 <= c < |calls| && calls[c].id == id && calls[c].payload == payload && GotOut(calls[c])
  }

  // Places where the one request with a given id can be: on the wire, with a running worker, in the log.

  predicate OnWire(m: Wire, id: string) {
    m.Request? && m.id == Str(id)
  }

  ghost predicate Travelling(net: seq<Wire>, id: string) {
    exists i :: 0 <= i < |net| && OnWire(net[i], id)
  }

  predicate RunsFor(w: Worker, id: string) {
    w.id == Str(id) && w.body.None?
  }

  ghost predicate Running(workers: map<nat, Worker>, id: string) {
    exists t :: t in workers && RunsFor(workers[t], id)
  }

  ghost predicate Logged(log: seq<Entry>, id: string) {
    exists i :: 0 <= i < |log| && log[i].id == Str(id)
  }

  ghost predicate WireOnce(net: seq<Wire>) {
    forall i, j, id :: 0 <= i < j < |net| && OnWire(net[i], id) ==> !OnWire(net[j], id)
  }

  ghost predicate WorkerOnce(workers: map<nat, Worker>) {
    forall t, u, id :: t in workers && u in workers && t != u && RunsFor(workers[t], id) ==> !RunsFor(workers[u], id)
  }

  ghost predicate LogOnce(log: seq<Entry>) {
    forall i, j :: 0 <= i < j < |log| && log[i].id.Str? ==> log[i].id != log[j].id
  }

  /** A request is in at most one of the three places. */
  ghost predicate OnePlace(y: Peer, toY: seq<Wire>) {
    && WireOnce(toY) && WorkerOnce(y.workers) && LogOnce(y.log)
    && forall id ::
         && !(Travelling(toY, id) && Running(y.workers, id))
         && !(Travelling(toY, id) && Logged(y.log, id))
         && !(Running(y.workers, id) && Logged(y.log, id))
  }

  ghost predicate PayloadIssued(calls: seq<Call>, id: RawId, payload: string) {
    id.Str? ==> Issued(calls, id.text, payload)
  }

  /** Every identified request, wherever it is, was sent by one of the caller's calls. */
  ghost predicate AllIssued(calls: seq<Call>, y: Peer, toY: seq<Wire>) {
    && (forall m :: m in toY && m.Request? ==> PayloadIssued(calls, m.id, m.payload))
    && (forall t :: t in y.workers ==> PayloadIssued(calls, y.workers[t].id, y.workers[t].payload))
    && (forall e :: e in y.log ==> PayloadIssued(calls, e.id, e.payload))
  }

  /** A response is the logged outcome of the request with its id, or carries no id. */
  ghost predicate Backed(log: seq<Entry>, response: Response) {
    response.id.Null? || (response.id.Str? && exists payload :: Entry(response.id, payload, response.body) in log)
  }

  ghost predicate WorkersLogged(y: Peer) {
    forall t :: t in y.workers && y.workers[t].body.Some? ==>
                  Entry(y.workers[t].id, y.workers[t].payload, y.workers[t].body.value) in y.log
  }

  ghost predicate WorkerIds(y: Peer) {
    forall t :: t in y.workers ==> y.workers[t].id.Str? || y.workers[t].id.Absent?
  }

  ghost predicate RequestIds(net: seq<Wire>) {
    forall m :: m in net && m.Request? ==> m.id.Str? || m.id.Absent?
  }

  ghost predicate RepliesBacked(log: seq<Entry>, toX: seq<Wire>) {
    forall m :: m in toX && m.Reply? ==> Backed(log, m.response)
  }

  /** The body answers the call: the other side ran this very request and produced it. */
  ghost predicate Answers(call: Call, body: Body, log: seq<Entry>) {
    Entry(Str(call.id), call.payload, body) in log
  }

  /** Whatever has reached the caller's side answers the call it was routed to. */
  ghost predicate CallsAnswered(x: Table, log: seq<Entry>) {
    && (forall t :: t in x.carriers ==>
          x.carriers[t].call < |x.calls| && Answers(x.calls[x.carriers[t].call], x.carriers[t].response.body, log))
    && (forall c, r :: 0 <= c < |x.calls| && r in x.calls[c].inbox ==> Answers(x.calls[c], r.body, log))
    && (forall c :: 0 <= c < |x.calls| && x.calls[c].phase.Returned? && x.calls[c].phase.outcome.Answered? ==>
          Answers(x.calls[c], x.calls[c].phase.outcome.body, log))
    && (forall c :: 0 <= c < |x.calls| && x.calls[c].phase.Leaving? ==> !x.calls[c].phase.outcome.Answered?)
  }

  ghost predicate Direction(x: Peer, y: Peer, toY: seq<Wire>, toX: seq<Wire>) {
    && OneSend(x.table)
    && FreshIds(x.table.calls)
    && OnePlace(y, toY)
    && AllIssued(x.table.calls, y, toY)
    && WorkerIds(y) && RequestIds(toY) && WorkersLogged(y)
    && RepliesBacked(y.log, toX)
    && CallsAnswered(x.table, y.log)
  }

  // ---- Steps of the caller ----

  /** Calls keep their id and payload, and what got out stays out. */
  ghost predicate CallsAdvance(calls: seq<Call>, calls': seq<Call>) {
    && |calls| <= |calls'|
    && forall c :: 0 <= c < |calls| ==>
         && calls'[c].id == calls[c].id && calls'[c].payload == calls[c].payload
         && (GotOut(calls[c]) ==> GotOut(calls'[c]))
  }

  lemma IssuedAdvances(calls: seq<Call>, calls': seq<Call>, y: Peer, toY: seq<Wire>)
    requires CallsAdvance(calls, calls') && AllIssued(calls, y, toY)
    ensures AllIssued(calls', y, toY)
  {
    forall id, payload | Issued(calls, id, payload) ensures Issued(calls', id, payload) {
      var c :| 0 <= c < |calls| && calls[c].id == id && calls[c].payload == payload && GotOut(calls[c]);
      assert calls'[c].id == id && calls'[c].payload == payload && GotOut(calls'[c]);
    }
  }

  lemma TableAdvances(s: Table, step: Step)
    requires Enabled(s, step)
    ensures CallsAdvance(s.calls, Apply(s, step).calls)
  {
  }

  lemma BeginAnswers(s: Table, id: string, payload: string, log: seq<Entry>)
    requires OneSend(s) && CallsAnswered(s, log)
    ensures CallsAnswered(Apply(s, Register(id, payload)), log)
  {
  }

  lemma BeginKeeps(x: Peer, y: Peer, toY: seq<Wire>, toX: seq<Wire>, id: string, payload: string)
    requires Direction(x, y, toY, toX) && FreshId(x, id)
    ensures Direction(Act(x, toX, Begin(id, payload)).peer, y, toY, toX)
  {
    var step := Register(id, payload);
    TableAdvances(x.table, step);
    StepKeepsOneSend(x.table, step);
    IssuedAdvances(x.table.calls, Apply(x.table, step).calls, y, toY);
    BeginAnswers(x.table, id, payload, y.log);
  }

  /** A step of a call or of a carrier, whatever else it makes the peer write. */
  lemma TableStepKeeps(x: Peer, y: Peer, toY: seq<Wire>, toX: seq<Wire>, step: Step)
    requires Direction(x, y, toY, toX) && Enabled(x.table, step) && !step.Register? && !step.Take?
    ensures Direction(x.(table := Apply(x.table, step)), y, toY, toX)
  {
    TableAdvances(x.table, step);
    StepKeepsOneSend(x.table, step);
    IssuedAdvances(x.table.calls, Apply(x.table, step).calls, y, toY);
    if step.Put? {
      PutAnswers(x.table, step.thread, y.log);
    } else {
      OwnStepAnswers(x.table, step, y.log);
    }
  }

  lemma PutAnswers(s: Table, t: nat, log: seq<Entry>)
    requires CallsAnswered(s, log) && Enabled(s, Put(t))
    ensures CallsAnswered(Apply(s, Put(t)), log)
  {
    var s' := Apply(s, Put(t));
    var d := s.carriers[t].call;
    assert s.calls[d].inbox == [];
    forall c, r | 0 <= c < |s'.calls| && r in s'.calls[c].inbox ensures Answers(s'.calls[c], r.body, log) {
      assert c == d ==> r == s.carriers[t].response;
    }
  }

  lemma OwnStepAnswers(s: Table, step: Step, log: seq<Entry>)
    requires CallsAnswered(s, log) && Enabled(s, step)
    requires step.Send? || step.GiveUp? || step.Unregister? || step.Receive?
    ensures CallsAnswered(Apply(s, step), log)
  {
    var s' := Apply(s, step);
    if step.Receive? {
      assert s.calls[step.call].inbox[0] in s.calls[step.call].inbox;
    }
    forall c, r | 0 <= c < |s'.calls| && r in s'.calls[c].inbox ensures Answers(s'.calls[c], r.body, log) {
      assert r in s.calls[c].inbox;
    }
  }

  /** A request that is nowhere yet may be sent. */
  lemma SendKeepsOnePlace(y: Peer, toY: seq<Wire>, id: string, payload: string)
    requires OnePlace(y, toY)
    requires !Travelling(toY, id) && !Running(y.workers, id) && !Logged(y.log, id)
    ensures OnePlace(y, toY + [Request(Str(id), payload)])
  {
    var net := toY + [Request(Str(id), payload)];
    forall id' ensures Travelling(net, id') <==> Travelling(toY, id') || id' == id {
      if Travelling(toY, id') {
        var i :| 0 <= i < |toY| && OnWire(toY[i], id');
        assert OnWire(net[i], id');
      }
      assert OnWire(net[|toY|], id);
    }
    forall i, j, id' | 0 <= i < j < |net| && OnWire(net[i], id') ensures !OnWire(net[j], id') {
      assert OnWire(toY[i], id');
    }
  }

  /** A message that is no identified request leaves every request where it is. */
  lemma PostKeepsOnePlace(y: Peer, toY: seq<Wire>, m: Wire)
    requires OnePlace(y, toY) && (m.Request? ==> !m.id.Str?)
    ensures OnePlace(y, toY + [m])
  {
    var net := toY + [m];
    forall id ensures Travelling(net, id) ==> Travelling(toY, id) {
      if Travelling(net, id) {
        var i :| 0 <= i < |net| && OnWire(net[i], id);
        assert OnWire(toY[i], id);
      }
    }
  }

  /** A call whose request did not get out has no request anywhere. */
  lemma UnsentIsNowhere(x: Peer, y: Peer, toY: seq<Wire>, c: nat)
    requires FreshIds(x.table.calls) && AllIssued(x.table.calls, y, toY)
    requires c < |x.table.calls| && !GotOut(x.table.calls[c])
    ensures var id := x.table.calls[c].id; !Travelling(toY, id) && !Running(y.workers, id) && !Logged(y.log, id)
  {
    var calls := x.table.calls;
    var id := calls[c].id;
    forall payload ensures !Issued(calls, id, payload) {
    }
    forall i | 0 <= i < |toY| ensures !OnWire(toY[i], id) {
      assert toY[i] in toY;
    }
    forall i | 0 <= i < |y.log| ensures y.log[i].id != Str(id) {
      assert y.log[i] in y.log;
    }
  }

  lemma RequestKeeps(x: Peer, y: Peer, toY: seq<Wire>, toX: seq<Wire>, id: string, payload: string)
    requires Direction(x, y, toY, toX) && Issued(x.table.calls, id, payload)
    requires !Travelling(toY, id) && !Running(y.workers, id) && !Logged(y.log, id)
    ensures Direction(x, y, toY + [Request(Str(id), payload)], toX)
  {
    SendKeepsOnePlace(y, toY, id, payload);
  }

  lemma TransmitKeeps(x: Peer, y: Peer, toY: seq<Wire>, toX: seq<Wire>, c: nat, ok: bool, out: bool)
    requires Direction(x, y, toY, toX) && Ready(x, toX, Transmit(c, ok, out))
    ensures var e := Act(x, toX, Transmit(c, ok, out)); Direction(e.peer, y, toY + e.written, toX)
  {
    var e := Act(x, toX, Transmit(c, ok, out));
    var call := x.table.calls[c];
    UnsentIsNowhere(x, y, toY, c);
    TableStepKeeps(x, y, toY, toX, Send(c, ok, out));
    if e.written == [] {
      assert toY + e.written == toY;
    } else {
      assert e.peer.table.calls[c].id == call.id && GotOut(e.peer.table.calls[c]);
      RequestKeeps(e.peer, y, toY, toX, call.id, call.payload);
    }
  }

  /** Writing something other than an identified request changes nothing for the direction the writer calls in. */
  lemma PostKeeps(x: Peer, y: Peer, toY: seq<Wire>, toX: seq<Wire>, m: Wire)
    requires Direction(x, y, toY, toX) && (m.Request? ==> m.id.Absent?)
    ensures Direction(x, y, toY + [m], toX)
  {
    PostKeepsOnePlace(y, toY, m);
  }

  /** The call pending under a backed response's key is the one it answers, and the response has an id. */
  lemma RoutedCallAnswered(x: Peer, y: Peer, toY: seq<Wire>, response: Response)
    requires OneSend(x.table) && FreshIds(x.table.calls) && AllIssued(x.table.calls, y, toY)
    requires Backed(y.log, response) && Key(response.id) in x.table.pending
    ensures !response.id.Null?
    ensures Answers(x.table.calls[x.table.pending[Key(response.id)]], response.body, y.log)
  {
    var s, key := x.table, Key(response.id);
    var c := s.pending[key];
    assert s.calls[c].id != "";
    var payload :| Entry(response.id, payload, response.body) in y.log;
    assert PayloadIssued(s.calls, response.id, payload);
    var d :| 0 <= d < |s.calls| && s.calls[d].id == key && s.calls[d].payload == payload;
    assert c == d;
  }

  /** A reply with a null id reaches no call, and any other is routed to the call it answers. */
  lemma TakeRoutes(x: Peer, y: Peer, toY: seq<Wire>, t: nat, response: Response)
    requires OneSend(x.table) && FreshIds(x.table.calls) && AllIssued(x.table.calls, y, toY)
    requires CallsAnswered(x.table, y.log) && t !in x.table.carriers && Backed(y.log, response)
    ensures CallsAnswered(Apply(x.table, Take(t, response)), y.log)
    ensures response.id.Null? ==> Apply(x.table, Take(t, response)) == x.table
  {
    if Key(response.id) in x.table.pending {
      RoutedCallAnswered(x, y, toY, response);
    }
  }

  lemma ReadReplyKeeps(x: Peer, y: Peer, toY: seq<Wire>, toX: seq<Wire>, t: nat)
    requires Direction(x, y, toY, toX) && Ready(x, toX, Serve(t)) && toX[0].Reply?
    ensures Direction(Act(x, toX, Serve(t)).peer, y, toY, toX[1..])
  {
    var step := Take(t, toX[0].response);
    assert toX[0] in toX;
    TableAdvances(x.table, step);
    StepKeepsOneSend(x.table, step);
    IssuedAdvances(x.table.calls, Apply(x.table, step).calls, y, toY);
    TakeRoutes(x, y, toY, t, toX[0].response);
  }

  lemma CallerStepKeeps(x: Peer, y: Peer, toY: seq<Wire>, toX: seq<Wire>, step: PeerStep)
    requires Direction(x, y, toY, toX) && Ready(x, toX, step)
    ensures var e := Act(x, toX, step); Direction(e.peer, y, toY + e.written, e.inbound)
  {
    var e := Act(x, toX, step);
    if e.written == [] {
      assert toY + e.written == toY;
    }
    match step
    case Begin(id, payload) => BeginKeeps(x, y, toY, toX, id, payload);
    case Transmit(c, ok, out) => TransmitKeeps(x, y, toY, toX, c, ok, out);
    case Local(s) => TableStepKeeps(x, y, toY, toX, s);
    case Serve(t) =>
      if toX[0].Reply? {
        ReadReplyKeeps(x, y, toY, toX, t);
      } else if toX[0].Junk? {
        PostKeeps(x, y, toY, toX[1..], e.written[0]);
      }
    case Notify(payload) => PostKeeps(x, y, toY, toX, e.written[0]);
    case SendJunk(_) => PostKeeps(x, y, toY, toX, e.written[0]);
    case Respond(t, _) =>
      if e.written != [] {
        PostKeeps(x, y, toY, toX, e.written[0]);
      }
    case _ =>
  }

  // ---- Steps of the server ----

  lemma LosingKeepsOnePlace(y: Peer, toY: seq<Wire>, i: nat)
    requires OnePlace(y, toY) && i < |toY|
    ensures OnePlace(y, Without(toY, i))
    ensures forall id :: Travelling(Without(toY, i), id) ==> Travelling(toY, id) && !OnWire(toY[i], id)
  {
    var net := Without(toY, i);
    forall id | Travelling(net, id) ensures Travelling(toY, id) && !OnWire(toY[i], id) {
      var k :| 0 <= k < |net| && OnWire(net[k], id);
      var k' := if k < i then k else k + 1;
      assert OnWire(toY[k'], id);
    }
    forall j, k, id | 0 <= j < k < |net| && OnWire(net[j], id) ensures !OnWire(net[k], id) {
      assert OnWire(toY[if j < i then j else j + 1], id);
    }
  }

  lemma LoseKeeps(x: Peer, y: Peer, toY: seq<Wire>, toX: seq<Wire>, i: nat)
    requires Direction(x, y, toY, toX) && i < |toY|
    ensures Direction(x, y, Without(toY, i), toX)
  {
    LosingKeepsOnePlace(y, toY, i);
  }

  lemma ReadRequestKeeps(x: Peer, y: Peer, toY: seq<Wire>, toX: seq<Wire>, t: nat)
    requires Direction(x, y, toY, toX) && Ready(y, toY, Serve(t)) && toY[0].Request?
    ensures Direction(x, Act(y, toY, Serve(t)).peer, toY[1..], toX)
  {
    var y' := Act(y, toY, Serve(t)).peer;
    var m := toY[0];
    assert m in toY;
    LosingKeepsOnePlace(y, toY, 0);
    assert Without(toY, 0) == toY[1..];
    forall id ensures Running(y'.workers, id) <==> Running(y.workers, id) || OnWire(m, id) {
      if Running(y.workers, id) {
        var u :| u in y.workers && RunsFor(y.workers[u], id);
        assert u in y'.workers && RunsFor(y'.workers[u], id);
      }
      if OnWire(m, id) {
        assert RunsFor(y'.workers[t], id);
      }
    }
    forall id | OnWire(m, id) ensures Travelling(toY, id) {
    }
    forall u, v, id | u in y'.workers && v in y'.workers && u != v && RunsFor(y'.workers[u], id)
      ensures !RunsFor(y'.workers[v], id)
    {
      assert u == t ==> OnWire(m, id) && Travelling(toY, id);
      assert v == t ==> Running(y.workers, id);
    }
  }

  lemma LogGrows(log: seq<Entry>, e: Entry, x: Table, toX: seq<Wire>)
    requires CallsAnswered(x, log) && RepliesBacked(log, toX)
    ensures CallsAnswered(x, log + [e]) && RepliesBacked(log + [e], toX)
  {
    forall m | m in toX && m.Reply? ensures Backed(log + [e], m.response) {
      if m.response.id.Str? {
        var payload :| Entry(m.response.id, payload, m.response.body) in log;
        assert Entry(m.response.id, payload, m.response.body) in log + [e];
      }
    }
    forall call: Call, body: Body | Answers(call, body, log) ensures Answers(call, body, log + [e]) {
    }
  }

  lemma HandleKeeps(x: Peer, y: Peer, toY: seq<Wire>, toX: seq<Wire>, t: nat, body: Body)
    requires Direction(x, y, toY, toX) && Ready(y, toY, Handle(t, body))
    ensures Direction(x, Act(y, toY, Handle(t, body)).peer, toY, toX)
  {
    var y' := Act(y, toY, Handle(t, body)).peer;
    var w := y.workers[t];
    LogGrows(y.log, Entry(w.id, w.payload, body), x.table, toX);
    HandleKeepsOnePlace(y, toY, t, body);
  }

  lemma HandleKeepsOnePlace(y: Peer, toY: seq<Wire>, t: nat, body: Body)
    requires OnePlace(y, toY) && Ready(y, toY, Handle(t, body))
    ensures OnePlace(Act(y, toY, Handle(t, body)).peer, toY)
  {
    var y' := Act(y, toY, Handle(t, body)).peer;
    var w := y.workers[t];
    forall id | Running(y'.workers, id) ensures Running(y.workers, id) && !RunsFor(w, id) {
      var u :| u in y'.workers && RunsFor(y'.workers[u], id);
      assert u != t && RunsFor(y.workers[u], id);
    }
    forall id ensures Logged(y'.log, id) <==> Logged(y.log, id) || w.id == Str(id) {
      if Logged(y.log, id) {
        var i :| 0 <= i < |y.log| && y.log[i].id == Str(id);
        assert y'.log[i].id == Str(id);
      }
      assert y'.log[|y.log|].id == w.id;
    }
    forall id | w.id == Str(id) ensures Running(y.workers, id) {
      assert RunsFor(w, id);
    }
    forall i, j | 0 <= i < j < |y'.log| && y'.log[i].id.Str? ensures y'.log[i].id != y'.log[j].id {
      assert j == |y.log| ==> Logged(y.log, y.log[i].id.text);
    }
  }

  lemma RespondKeeps(x: Peer, y: Peer, toY: seq<Wire>, toX: seq<Wire>, t: nat, out: bool)
    requires Direction(x, y, toY, toX) && Ready(y, toY, Respond(t, out))
    ensures var e := Act(y, toY, Respond(t, out)); Direction(x, e.peer, toY, toX + e.written)
  {
    var e := Act(y, toY, Respond(t, out));
    var w := y.workers[t];
    forall id | Running(e.peer.workers, id) ensures Running(y.workers, id) {
      var u :| u in e.peer.workers && RunsFor(e.peer.workers[u], id);
      assert RunsFor(y.workers[u], id);
    }
    if e.written != [] {
      assert Entry(w.id, w.payload, w.body.value) in y.log;
      assert Backed(y.log, e.written[0].response);
    }
  }

  lemma ServerStepKeeps(x: Peer, y: Peer, toY: seq<Wire>, toX: seq<Wire>, step: PeerStep)
    requires Direction(x, y, toY, toX) && Ready(y, toY, step)
    ensures var e := Act(y, toY, step); Direction(x, e.peer, e.inbound, toX + e.written)
  {
    var e := Act(y, toY, step);
    if e.written == [] {
      assert toX + e.written == toX;
    }
    match step
    case Serve(t) =>
      if toY[0].Request? {
        ReadRequestKeeps(x, y, toY, toX, t);
      } else {
        LoseKeeps(x, y, toY, toX, 0);
        assert Without(toY, 0) == toY[1..];
      }
    case Lose(i) => LoseKeeps(x, y, toY, toX, i);
    case Handle(t, body) => HandleKeeps(x, y, toY, toX, t, body);
    case Respond(t, out) => RespondKeeps(x, y, toY, toX, t, out);
    case _ =>
  }

  // ---- Whole runs ----

  ghost predicate Inv(s: System) {
    Direction(s.a, s.b, s.toB, s.toA) && Direction(s.b, s.a, s.toA, s.toB)
  }

  lemma StepKeeps(s: System, e: SystemStep)
    requires Inv(s)
    ensures Inv(Next(s, e))
  {
    if e.side.A? && Ready(s.a, s.toA, e.step) {
      CallerStepKeeps(s.a, s.b, s.toB, s.toA, e.step);
      ServerStepKeeps(s.b, s.a, s.toA, s.toB, e.step);
    } else if e.side.B? && Ready(s.b, s.toB, e.step) {
      CallerStepKeeps(s.b, s.a, s.toA, s.toB, e.step);
      ServerStepKeeps(s.a, s.b, s.toB, s.toA, e.step);
    }
  }

  lemma {:induction false} RunKeeps(es: seq<SystemStep>)
    ensures Inv(Run(es))
  {
    if es != [] {
      RunKeeps(es[..|es| - 1]);
      StepKeeps(Run(es[..|es| - 1]), es[|es| - 1]);
    }
  }

  function PeerOf(s: System, side: Side): Peer {
    if side.A? then s.a else s.b
  }

  function OtherOf(s: System, side: Side): Peer {
    if side.A? then s.b else s.a
  }

  function InboundOf(s: System, side: Side): seq<Wire> {
    if side.A? then s.toA else s.toB
  }

  function Opposite(side: Side): Side {
    if side.A? then B else A
  }

  /**
   * Correlation: in every run, a call that returned a response returned what the other side's
   * handler produced for that very request, which it ran exactly once.
   */
  lemma CallGetsItsOwnAnswer(es: seq<SystemStep>, side: Side, c: nat)
    requires c < |PeerOf(Run(es), side).table.calls|
    requires var call := PeerOf(Run(es), side).table.calls[c];
             call.phase.Returned? && call.phase.outcome.Answered?
    ensures var call := PeerOf(Run(es), side).table.calls[c];
            var log := OtherOf(Run(es), side).log;
            exists i :: && 0 <= i < |log|
                        && log[i] == Entry(Str(call.id), call.payload, call.phase.outcome.body)
                        && forall j :: 0 <= j < |log| && j != i ==> log[j].id != Str(call.id)
  {
    RunKeeps(es);
    var call := PeerOf(Run(es), side).table.calls[c];
    var log := OtherOf(Run(es), side).log;
    assert Answers(call, call.phase.outcome.body, log);
    var i :| 0 <= i < |log| && log[i] == Entry(Str(call.id), call.payload, call.phase.outcome.body);
    forall j | 0 <= j < |log| && j != i ensures log[j].id != Str(call.id) {
    }
  }

  /** No request is ever handled twice, whether or not its call is answered. */
  lemma HandledAtMostOnce(es: seq<SystemStep>, side: Side)
    ensures LogOnce(PeerOf(Run(es), side).log)
  {
    RunKeeps(es);
  }

  /** A call whose request did not get out is never handled. */
  lemma NotOutNeverHandled(es: seq<SystemStep>, side: Side, c: nat)
    requires c < |PeerOf(Run(es), side).table.calls| && !GotOut(PeerOf(Run(es), side).table.calls[c])
    ensures forall e :: e in OtherOf(Run(es), side).log ==> e.id != Str(PeerOf(Run(es), side).table.calls[c].id)
  {
    RunKeeps(es);
    var s := Run(es);
    UnsentIsNowhere(PeerOf(s, side), OtherOf(s, side), if side.A? then s.toB else s.toA, c);
  }

  /** Reading a null-id error response never touches any call. */
  lemma NullIdCompletesNothing(es: seq<SystemStep>, side: Side, t: nat)
    requires var s := Run(es);
             var inbound := if side.A? then s.toA else s.toB;
             Ready(PeerOf(s, side), inbound, Serve(t)) && inbound[0].Reply? && inbound[0].response.id.Null?
    ensures PeerOf(Next(Run(es), SystemStep(side, Serve(t))), side) == PeerOf(Run(es), side)
  {
    RunKeeps(es);
    var s := Run(es);
    var inbound := if side.A? then s.toA else s.toB;
    assert inbound[0] in inbound;
    if side.A? {
      TakeRoutes(s.a, s.b, s.toB, t, inbound[0].response);
    } else {
      TakeRoutes(s.b, s.a, s.toA, t, inbound[0].response);
    }
  }

  // ---- Every message written is read, lost or under way ----

  /** How often a step has to put this message on the wire. */
  function Says(p: Peer, inbound: seq<Wire>, step: PeerStep, m: Wire): nat
    requires Ready(p, inbound, step)
  {
    match step
    case Transmit(c, ok, out) =>
      if (ok || out) && m == Request(Str(p.table.calls[c].id), p.table.calls[c].payload) then 1 else 0
    case Notify(payload) => if m == Request(Absent, payload) then 1 else 0
    case SendJunk(tooLarge) => if m == Junk(tooLarge) then 1 else 0
    case Respond(t, out) =>
      var w := p.workers[t];
      if out && !w.id.Absent? && !w.id.Null? && m == Reply(Response(w.id, w.body.value)) then 1 else 0
    case Serve(_) =>
      var tooLarge, undecodable := RpcError(-32600, Some("message too large")), RpcError(-32700, None);
      if inbound[0] == Junk(true) && m == Reply(Response(Null, Error(tooLarge))) then 1
      else if inbound[0] == Junk(false) && m == Reply(Response(Null, Error(undecodable))) then 1
      else 0
    case _ => 0
  }

  /** How often a step takes this message off the wire by reading it. */
  function Reads(inbound: seq<Wire>, step: PeerStep, m: Wire): nat {
    if step.Serve? && inbound != [] && inbound[0] == m then 1 else 0
  }

  function Loses(inbound: seq<Wire>, step: PeerStep, m: Wire): nat {
    if step.Lose? && step.index < |inbound| && inbound[step.index] == m then 1 else 0
  }

  lemma WithoutCounts(net: seq<Wire>, i: nat)
    requires i < |net|
    ensures multiset(net) == multiset(Without(net, i)) + multiset{net[i]}
  {
    assert net == net[..i] + [net[i]] + net[i + 1..];
  }

  lemma ActWrites(p: Peer, inbound: seq<Wire>, step: PeerStep, m: Wire)
    requires Ready(p, inbound, step) && FreshIds(p.table.calls)
    ensures multiset(Act(p, inbound, step).written)[m] == Says(p, inbound, step, m)
  {
  }

  lemma ActConsumes(p: Peer, inbound: seq<Wire>, step: PeerStep, m: Wire)
    requires Ready(p, inbound, step)
    ensures multiset(inbound)[m]
            == multiset(Act(p, inbound, step).inbound)[m] + Reads(inbound, step, m) + Loses(inbound, step, m)
  {
    if step.Lose? {
      WithoutCounts(inbound, step.index);
    } else if step.Serve? {
      assert inbound == [inbound[0]] + inbound[1..];
    }
  }

  /** How often a step of the system makes `side` have to write the message, read it, or lose it. */
  function SaidBy(s: System, e: SystemStep, side: Side, m: Wire): nat {
    if e.side == side && Ready(PeerOf(s, side), InboundOf(s, side), e.step)
    then Says(PeerOf(s, side), InboundOf(s, side), e.step, m) else 0
  }

  function ReadBy(s: System, e: SystemStep, side: Side, m: Wire): nat {
    if e.side == side && Ready(PeerOf(s, side), InboundOf(s, side), e.step)
    then Reads(InboundOf(s, side), e.step, m) else 0
  }

  function LostBy(s: System, e: SystemStep, side: Side, m: Wire): nat {
    if e.side == side then Loses(InboundOf(s, side), e.step, m) else 0
  }

  function Said(es: seq<SystemStep>, side: Side, m: Wire): nat {
    if es == [] then 0
    else Said(es[..|es| - 1], side, m) + SaidBy(Run(es[..|es| - 1]), es[|es| - 1], side, m)
  }

  function Read(es: seq<SystemStep>, side: Side, m: Wire): nat {
    if es == [] then 0
    else Read(es[..|es| - 1], side, m) + ReadBy(Run(es[..|es| - 1]), es[|es| - 1], side, m)
  }

  function Lost(es: seq<SystemStep>, side: Side, m: Wire): nat {
    if es == [] then 0
    else Lost(es[..|es| - 1], side, m) + LostBy(Run(es[..|es| - 1]), es[|es| - 1], side, m)
  }

  /** The peer that acts, what it reads from, and what the other side will read from. */
  lemma NextAt(s: System, e: SystemStep)
    ensures var p, inbound := PeerOf(s, e.side), InboundOf(s, e.side);
            var s' := Next(s, e);
            if Ready(p, inbound, e.step) then
              var f := Act(p, inbound, e.step);
              && PeerOf(s', e.side) == f.peer && PeerOf(s', Opposite(e.side)) == PeerOf(s, Opposite(e.side))
              && InboundOf(s', e.side) == f.inbound
              && InboundOf(s', Opposite(e.side)) == InboundOf(s, Opposite(e.side)) + f.written
            else s' == s
  {
  }

  lemma StepConserves(s: System, e: SystemStep, side: Side, m: Wire)
    requires FreshIds(PeerOf(s, Opposite(side)).table.calls)
    ensures multiset(InboundOf(s, side))[m] + SaidBy(s, e, Opposite(side), m)
            == ReadBy(s, e, side, m) + LostBy(s, e, side, m) + multiset(InboundOf(Next(s, e), side))[m]
  {
    NextAt(s, e);
    var p, inbound := PeerOf(s, e.side), InboundOf(s, e.side);
    if Ready(p, inbound, e.step) {
      if e.side == side {
        ActConsumes(p, inbound, e.step, m);
      } else {
        ActWrites(p, inbound, e.step, m);
        var written := Act(p, inbound, e.step).written;
        assert multiset(InboundOf(s, side) + written) == multiset(InboundOf(s, side)) + multiset(written);
      }
    }
  }

  lemma RunFreshIds(es: seq<SystemStep>, side: Side)
    ensures FreshIds(PeerOf(Run(es), side).table.calls) && OneSend(PeerOf(Run(es), side).table)
  {
    RunKeeps(es);
  }

  /**
   * Conservation on the wire, for every message of every kind: what one side's steps had to write is
   * what the other side has read, what was lost, and what is still under way. What they had to write is
   * the call's own id and payload, a notification without an id, the worker's own id and outcome, and
   * the null-id errors -32600 and -32700.
   */
  lemma {:induction false} MessagesConserved(es: seq<SystemStep>, side: Side, m: Wire)
    ensures Said(es, Opposite(side), m)
            == Read(es, side, m) + Lost(es, side, m) + multiset(InboundOf(Run(es), side))[m]
  {
    if es != [] {
      var init, e := es[..|es| - 1], es[|es| - 1];
      MessagesConserved(init, side, m);
      RunFreshIds(init, Opposite(side));
      StepConserves(Run(init), e, side, m);
    }
  }

  // ---- Every request read is processed ----

  /** A request without its outcome. */
  datatype Ask = Ask(id: RawId, payload: string)

  function Logs(log: seq<Entry>): (asks: seq<Ask>)
    ensures |asks| == |log| && forall i :: 0 <= i < |log| ==> asks[i] == Ask(log[i].id, log[i].payload)
  {
    seq(|log|, i requires 0 <= i < |log| => Ask(log[i].id, log[i].payload))
  }

  /** The workers that still have to process this request. */
  function Unfinished(workers: map<nat, Worker>, a: Ask): set<nat> {
    set t | t in workers && workers[t] == Worker(a.id, a.payload, None)
  }

  /** How many requests of this kind the peer is processing or has processed. */
  function Kept(p: Peer, a: Ask): nat {
    multiset(Logs(p.log))[a] + |Unfinished(p.workers, a)|
  }

  lemma WorkerAdded(workers: map<nat, Worker>, t: nat, id: RawId, payload: string, a: Ask)
    requires t !in workers
    ensures |Unfinished(workers[t := Worker(id, payload, None)], a)|
            == |Unfinished(workers, a)| + if a == Ask(id, payload) then 1 else 0
  {
    var before, after := Unfinished(workers, a), Unfinished(workers[t := Worker(id, payload, None)], a);
    if a == Ask(id, payload) {
      assert after == before + {t};
    } else {
      assert after == before;
    }
  }

  lemma ServeKeeps(p: Peer, inbound: seq<Wire>, t: nat, a: Ask)
    requires Ready(p, inbound, Serve(t))
    ensures Kept(Act(p, inbound, Serve(t)).peer, a) == Kept(p, a) + Reads(inbound, Serve(t), Request(a.id, a.payload))
  {
    if inbound[0].Request? {
      WorkerAdded(p.workers, t, inbound[0].id, inbound[0].payload, a);
    }
  }

  lemma HandleMoves(p: Peer, inbound: seq<Wire>, t: nat, body: Body, a: Ask)
    requires Ready(p, inbound, Handle(t, body))
    ensures Kept(Act(p, inbound, Handle(t, body)).peer, a) == Kept(p, a)
  {
    var p' := Act(p, inbound, Handle(t, body)).peer;
    var w := p.workers[t];
    assert Logs(p'.log) == Logs(p.log) + [Ask(w.id, w.payload)];
    if w == Worker(a.id, a.payload, None) {
      assert Unfinished(p'.workers, a) == Unfinished(p.workers, a) - {t};
    } else {
      assert Unfinished(p'.workers, a) == Unfinished(p.workers, a);
    }
  }

  lemma ActKeepsRequests(p: Peer, inbound: seq<Wire>, step: PeerStep, a: Ask)
    requires Ready(p, inbound, step)
    ensures Kept(Act(p, inbound, step).peer, a) == Kept(p, a) + Reads(inbound, step, Request(a.id, a.payload))
  {
    match step
    case Serve(t) => ServeKeeps(p, inbound, t, a);
    case Handle(t, body) => HandleMoves(p, inbound, t, body, a);
    case Respond(t, _) => assert Unfinished(p.workers - {t}, a) == Unfinished(p.workers, a);
    case _ =>
  }

  /**
   * In every run, every request a side has read, notifications included, is being processed or is in the
   * log, as often as it was read.
   */
  lemma {:induction false} EveryRequestReadIsKept(es: seq<SystemStep>, side: Side, a: Ask)
    ensures Read(es, side, Request(a.id, a.payload)) == Kept(PeerOf(Run(es), side), a)
  {
    if es != [] {
      var init, e := es[..|es| - 1], es[|es| - 1];
      var s := Run(init);
      EveryRequestReadIsKept(init, side, a);
      NextAt(s, e);
      if e.side == side && Ready(PeerOf(s, side), InboundOf(s, side), e.step) {
        ActKeepsRequests(PeerOf(s, side), InboundOf(s, side), e.step, a);
      }
    } else {
      assert Unfinished(map[], a) == {};
    }
  }

  /**
   * In every reachable state a worker can finish: with any outcome, its request is logged with it, and the
   * reply goes out with the request's own id, unless it is a notification.
   */
  lemma WorkerFinishes(es: seq<SystemStep>, side: Side, t: nat, body: Body)
    requires var p := PeerOf(Run(es), side); t in p.workers && p.workers[t].body.None?
    ensures var s := Run(es);
            var w := PeerOf(s, side).workers[t];
            var s' := Next(Next(s, SystemStep(side, Handle(t, body))), SystemStep(side, Respond(t, true)));
            && PeerOf(s', side).log == PeerOf(s, side).log + [Entry(w.id, w.payload, body)]
            && PeerOf(s', side).workers == PeerOf(s, side).workers - {t}
            && InboundOf(s', Opposite(side))
               == InboundOf(s, Opposite(side))
                  + if w.id.Absent? || w.id.Null? then [] else [Reply(Response(w.id, body))]
  {
    var s := Run(es);
    NextAt(s, SystemStep(side, Handle(t, body)));
    var s1 := Next(s, SystemStep(side, Handle(t, body)));
    assert PeerOf(s1, side).workers - {t} == PeerOf(s, side).workers - {t};
    NextAt(s1, SystemStep(side, Respond(t, true)));
    assert InboundOf(s, Opposite(side)) + [] == InboundOf(s, Opposite(side));
  }

  /**
   * In every reachable state a reply that is next to be read gets through to the call that waits for it:
   * reading, putting and receiving returns exactly its body to that call.
   */
  lemma ReplyGetsThrough(es: seq<SystemStep>, side: Side, t: nat, c: nat, body: Body)
    requires var p, inbound := PeerOf(Run(es), side), InboundOf(Run(es), side);
             && Ready(p, inbound, Serve(t)) && Listed(p.table, c) && p.table.calls[c].phase.Waiting?
             && inbound[0] == Reply(Response(Str(p.table.calls[c].id), body))
    ensures var s1 := Next(Run(es), SystemStep(side, Serve(t)));
            var s2 := Next(s1, SystemStep(side, Local(Put(t))));
            var s3 := Next(s2, SystemStep(side, Local(Receive(c))));
            c < |PeerOf(s3, side).table.calls| && PeerOf(s3, side).table.calls[c].phase == Returned(Answered(body))
  {
    RunFreshIds(es, side);
    var s1 := Next(Run(es), SystemStep(side, Serve(t)));
    ResponseGetsThrough(PeerOf(Run(es), side).table, t, c, body);
    TakeAt(Run(es), side, t);
    LocalAt(s1, side, Put(t));
    LocalAt(Next(s1, SystemStep(side, Local(Put(t)))), side, Receive(c));
  }

  lemma LocalAt(s: System, side: Side, step: Step)
    requires step.GiveUp? || step.Unregister? || step.Put? || step.Receive?
    ensures PeerOf(Next(s, SystemStep(side, Local(step))), side).table == Calls.Next(PeerOf(s, side).table, step)
  {
    NextAt(s, SystemStep(side, Local(step)));
  }

  lemma TakeAt(s: System, side: Side, t: nat)
    requires Ready(PeerOf(s, side), InboundOf(s, side), Serve(t)) && InboundOf(s, side)[0].Reply?
    ensures PeerOf(Next(s, SystemStep(side, Serve(t))), side).table
            == Calls.Next(PeerOf(s, side).table, Take(t, InboundOf(s, side)[0].response))
  {
    NextAt(s, SystemStep(side, Serve(t)));
  }

  // ---- Each side's `pending` map ----

  lemma ActKeepsExact(p: Peer, inbound: seq<Wire>, step: PeerStep)
    requires ExactInv(p.table) && Ready(p, inbound, step)
    ensures ExactInv(Act(p, inbound, step).peer.table)
  {
    match step
    case Begin(id, payload) => StepKeepsExact(p.table, Register(id, payload));
    case Transmit(c, ok, out) => StepKeepsExact(p.table, Send(c, ok, out));
    case Local(s) => StepKeepsExact(p.table, s);
    case Serve(t) =>
      if inbound[0].Reply? {
        StepKeepsExact(p.table, Take(t, inbound[0].response));
      }
    case _ =>
  }

  /** With fresh ids, each side's `pending` is exact throughout: in every run, for every side. */
  lemma {:induction false} PendingExactThroughout(es: seq<SystemStep>)
    ensures ExactInv(Run(es).a.table) && ExactInv(Run(es).b.table)
  {
    if es != [] {
      var s, e := Run(es[..|es| - 1]), es[|es| - 1];
      PendingExactThroughout(es[..|es| - 1]);
      if e.side.A? && Ready(s.a, s.toA, e.step) {
        ActKeepsExact(s.a, s.toA, e.step);
      } else if e.side.B? && Ready(s.b, s.toB, e.step) {
        ActKeepsExact(s.b, s.toB, e.step);
      }
    }
  }

  // ---- Calls do get answered ----

  function RunFrom(s: System, es: seq<SystemStep>): System
    decreases es
  {
    if es == [] then s else RunFrom(Next(s, es[0]), es[1..])
  }

  lemma {:induction false} RunIsRunFrom(es: seq<SystemStep>, more: seq<SystemStep>)
    ensures Run(es + more) == RunFrom(Run(es), more)
    decreases more
  {
    if more == [] {
      assert es + more == es;
    } else {
      assert es + more == (es + [more[0]]) + more[1..];
      assert (es + [more[0]])[..|es|] == es;
      RunIsRunFrom(es + [more[0]], more[1..]);
    }
  }

  /** A run in which side A calls and gets the answer of side B's handler. */
  function Exchange(id: string, payload: string, body: Body): seq<SystemStep> {
    [SystemStep(A, Begin(id, payload)),
     SystemStep(A, Transmit(0, true, true)),
     SystemStep(B, Serve(0)),
     SystemStep(B, Handle(0, body)),
     SystemStep(B, Respond(0, true)),
     SystemStep(A, Serve(0)),
     SystemStep(A, Local(Put(0))),
     SystemStep(A, Local(Receive(0)))]
  }

  function CallOnWire(id: string, payload: string): System {
    START.(a := Peer(Table([Call(id, payload, Waiting, [], 0)], map[id := 0], map[]), map[], []),
           toB := [Request(Str(id), payload)])
  }

  lemma CallSent(id: string, payload: string)
    requires id != ""
    ensures Next(Next(START, SystemStep(A, Begin(id, payload))), SystemStep(A, Transmit(0, true, true)))
            == CallOnWire(id, payload)
  {
    var s := Next(START, SystemStep(A, Begin(id, payload)));
    assert s.a.table.calls == [Call(id, payload, Registered, [], 0)];
    assert s.a.table.calls[0 := Call(id, payload, Waiting, [], 0)] == [Call(id, payload, Waiting, [], 0)];
    assert [] + [Request(Str(id), payload)] == [Request(Str(id), payload)];
  }

  function Handled(id: string, payload: string, body: Body): System {
    var worker := Worker(Str(id), payload, Some(body));
    CallOnWire(id, payload).(b := Peer(EMPTY, map[0 := worker], [Entry(Str(id), payload, body)]),
                       toB := [])
  }

  lemma CallHandled(id: string, payload: string, body: Body)
    ensures Next(Next(CallOnWire(id, payload), SystemStep(B, Serve(0))), SystemStep(B, Handle(0, body)))
            == Handled(id, payload, body)
  {
    var s := Next(CallOnWire(id, payload), SystemStep(B, Serve(0)));
    assert s.b.workers == map[0 := Worker(Str(id), payload, None)];
    assert s.b.workers[0 := Worker(Str(id), payload, Some(body))] == map[0 := Worker(Str(id), payload, Some(body))];
  }

  function Carrying(id: string, payload: string, body: Body): System {
    var carrier := Carrier(0, Response(Str(id), body));
    START.(a := Peer(Table([Call(id, payload, Waiting, [], 0)], map[], map[0 := carrier]), map[], []),
           b := Peer(EMPTY, map[], [Entry(Str(id), payload, body)]))
  }

  lemma ResponseTaken(id: string, payload: string, body: Body)
    ensures Next(Next(Handled(id, payload, body), SystemStep(B, Respond(0, true))), SystemStep(A, Serve(0)))
            == Carrying(id, payload, body)
  {
    var s := Next(Handled(id, payload, body), SystemStep(B, Respond(0, true)));
    assert s.toA == [Reply(Response(Str(id), body))];
    assert s.b.workers == map[];
    var t := s.a.table;
    assert t.pending - {id} == map[];
    assert t.carriers[0 := Carrier(0, Response(Str(id), body))] == map[0 := Carrier(0, Response(Str(id), body))];
  }

  lemma ResponseReceived(id: string, payload: string, body: Body)
    ensures var put, receive := SystemStep(A, Local(Put(0))), SystemStep(A, Local(Receive(0)));
            var s := Next(Next(Carrying(id, payload, body), put), receive);
            && s.a.table.calls == [Call(id, payload, Returned(Answered(body)), [], 1)]
            && s.b.log == [Entry(Str(id), payload, body)]
  {
    var r := Response(Str(id), body);
    assert [] + [r] == [r] && [r][1..] == [];
    var s := Next(Carrying(id, payload, body), SystemStep(A, Local(Put(0))));
    assert s.a.table.calls[0].inbox == [r];
    assert s.a.table.calls == [Call(id, payload, Waiting, [Response(Str(id), body)], 1)];
  }

  lemma ExchangeCompletes(id: string, payload: string, body: Body)
    requires id != ""
    ensures Run(Exchange(id, payload, body)).a.table.calls == [Call(id, payload, Returned(Answered(body)), [], 1)]
    ensures Run(Exchange(id, payload, body)).b.log == [Entry(Str(id), payload, body)]
  {
    var es := Exchange(id, payload, body);
    RunIsRunFrom([], es);
    assert [] + es == es;
    CallSent(id, payload);
    CallHandled(id, payload, body);
    RunFour(START, es);
    ResponseTaken(id, payload, body);
    ResponseReceived(id, payload, body);
    RunFour(Handled(id, payload, body), es[4..]);
    assert es[4..][4..] == [];
  }

  lemma RunFour(s: System, es: seq<SystemStep>)
    requires |es| >= 4
    ensures RunFrom(s, es) == RunFrom(Next(Next(Next(Next(s, es[0]), es[1]), es[2]), es[3]), es[4..])
  {
    assert es[1..][1..] == es[2..] && es[2..][1..] == es[3..] && es[3..][1..] == es[4..];
    var s1 := Next(s, es[0]);
    assert RunFrom(s1, es[1..]) == RunFrom(Next(s1, es[1]), es[2..]);
    var s2 := Next(s1, es[1]);
    assert RunFrom(s2, es[2..]) == RunFrom(Next(s2, es[2]), es[3..]);
  }
}
