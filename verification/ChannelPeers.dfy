/**
 * Two peers joined by two channel transports (pkg/wmp/channel_transport.go). For each direction a pump
 * takes messages from one side's `Out` and pushes them into the other side's transport; when a push is
 * refused it may retry or give the message up.
 */
module ChannelPeers {
  import opened Folds
  import C = Calls
  import opened TwoPeers
  import opened ChannelTransport

  /** A peer with its own transport. */
  datatype End = End(peer: Peer, transport: State<Wire>)

  datatype EndStep =
    | Own(step: PeerStep)                             // a step of a call or a handler, off the transport
    | WriteCall(call: nat, coin: bool)
    | WriteNotify(payload: string, coin: bool)
    | WriteJunk(tooLarge: bool, coin: bool)
    | ReadOne(thread: nat, coin: bool, reply: bool)   // one turn of `Serve`; `reply` is the coin of its own write
    | WriteResponse(thread: nat, coin: bool)
    | Shut                                            // `Peer.Close`

  predicate OffTransport(step: PeerStep) {
    step.Begin? || step.Local? || step.Handle?
  }

  /** `sendJSON`: the end after the write, and whether it was accepted. */
  function Send(x: End, written: seq<Wire>, coin: bool): (End, bool) {
    if written == [] then (x, true)
    else
      var (t, o) := WriteStep(x.transport, written[0], coin);
      (x.(transport := t), o.Sent?)
  }

  function CallRequest(p: Peer, c: nat): Wire
    requires c < |p.table.calls|
  {
    Request(C.RequestId(p.table.calls[c].id), p.table.calls[c].payload)
  }

  function EndNext(x: End, e: EndStep): End {
    match e
    case Own(step) =>
      if OffTransport(step) && Ready(x.peer, [], step) then x.(peer := Act(x.peer, [], step).peer) else x
    case WriteCall(c, coin) =>
      if !C.Enabled(x.peer.table, C.Send(c, true, false)) then x
      else
        var (x', ok) := Send(x, [CallRequest(x.peer, c)], coin);
        x'.(peer := Act(x.peer, [], Transmit(c, ok, false)).peer)
    case WriteNotify(payload, coin) => Send(x, [Request(C.Absent, payload)], coin).0
    case WriteJunk(tooLarge, coin) => Send(x, [Junk(tooLarge)], coin).0
    case ReadOne(t, coin, reply) =>
      var (tr, o) := ReadStep(x.transport, coin);
      if !o.Got? || !Ready(x.peer, [o.data], Serve(t)) then x
      else
        var f := Act(x.peer, [o.data], Serve(t));
        Send(End(f.peer, tr), f.written, reply).0
    case WriteResponse(t, coin) =>
      if !Ready(x.peer, [], Respond(t, true)) then x
      else
        var f := Act(x.peer, [], Respond(t, true));
        Send(x.(peer := f.peer), f.written, coin).0
    case Shut => x.(transport := x.transport.(closed := true))
  }

  /** `hand[to]` is the message the pump towards that side has taken and not yet delivered. */
  datatype Net = Net(a: End, b: End, handToA: seq<Wire>, handToB: seq<Wire>)

  datatype NetStep =
    | At(side: Side, step: EndStep)
    | Pick(to: Side)
    | Deliver(to: Side, coin: bool, retry: bool)

  function EndOf(n: Net, side: Side): End {
    if side.A? then n.a else n.b
  }

  function HandTo(n: Net, side: Side): seq<Wire> {
    if side.A? then n.handToA else n.handToB
  }

  function WithEnd(n: Net, side: Side, x: End): Net {
    if side.A? then n.(a := x) else n.(b := x)
  }

  function WithHand(n: Net, side: Side, hand: seq<Wire>): Net {
    if side.A? then n.(handToA := hand) else n.(handToB := hand)
  }

  function NetNext(n: Net, e: NetStep): Net {
    match e
    case At(side, step) => WithEnd(n, side, EndNext(EndOf(n, side), step))
    case Pick(to) =>
      var from := EndOf(n, Opposite(to));
      var (t, o) := TakeStep(from.transport);
      if HandTo(n, to) != [] || !o.Got? then n
      else WithHand(WithEnd(n, Opposite(to), from.(transport := t)), to, [o.data])
    case Deliver(to, coin, retry) =>
      if HandTo(n, to) == [] then n
      else
        var x := EndOf(n, to);
        var (t, o) := PushStep(x.transport, HandTo(n, to)[0], coin);
        if !o.Sent? && retry then n
        else WithHand(WithEnd(n, to, x.(transport := t)), to, HandTo(n, to)[1..])
  }

  datatype Sizes = Sizes(inA: nat, outA: nat, inB: nat, outB: nat)

  function Fresh(z: Sizes): Net {
    Net(End(NEW_PEER, New(z.inA, z.outA)), End(NEW_PEER, New(z.inB, z.outB)), [], [])
  }

  function NetRun(z: Sizes, es: seq<NetStep>): Net {
    if es == [] then Fresh(z) else NetNext(NetRun(z, es[..|es| - 1]), es[|es| - 1])
  }

  // ---- The channels are a first-in first-out, possibly lossy, transport ----

  /** Everything on its way to a side: what it can read, what the pump holds, what the other side wrote. */
  function Towards(n: Net, side: Side): seq<Wire> {
    EndOf(n, side).transport.inbox + HandTo(n, side) + EndOf(n, Opposite(side)).transport.outbox
  }

  function Abstract(n: Net): System {
    System(n.a.peer, n.b.peer, Towards(n, A), Towards(n, B))
  }

  /** The steps of the two-peer system that a step of the ends stands for. */
  function EndTrace(x: End, e: EndStep, side: Side, towardsOther: nat): seq<SystemStep> {
    match e
    case Own(step) => if OffTransport(step) then [SystemStep(side, step)] else []
    case WriteCall(c, coin) =>
      if !C.Enabled(x.peer.table, C.Send(c, true, false)) then []
      else [SystemStep(side, Transmit(c, Send(x, [CallRequest(x.peer, c)], coin).1, false))]
    case WriteNotify(payload, coin) =>
      if Send(x, [Request(C.Absent, payload)], coin).1 then [SystemStep(side, Notify(payload))] else []
    case WriteJunk(tooLarge, coin) =>
      if Send(x, [Junk(tooLarge)], coin).1 then [SystemStep(side, SendJunk(tooLarge))] else []
    case ReadOne(t, coin, reply) =>
      var (tr, o) := ReadStep(x.transport, coin);
      if !o.Got? || !Ready(x.peer, [o.data], Serve(t)) then []
      else
        var f := Act(x.peer, [o.data], Serve(t));
        [SystemStep(side, Serve(t))]
        + if Send(End(f.peer, tr), f.written, reply).1 then [] else [SystemStep(Opposite(side), Lose(towardsOther))]
    case WriteResponse(t, coin) =>
      if !Ready(x.peer, [], Respond(t, true)) then []
      else
        var f := Act(x.peer, [], Respond(t, true));
        [SystemStep(side, Respond(t, Send(x.(peer := f.peer), f.written, coin).1))]
    case Shut => []
  }

  function Trace(n: Net, e: NetStep): seq<SystemStep> {
    match e
    case At(side, step) => EndTrace(EndOf(n, side), step, side, |Towards(n, Opposite(side))|)
    case Pick(_) => []
    case Deliver(to, coin, retry) =>
      if HandTo(n, to) == [] || retry then []
      else
        var t := EndOf(n, to).transport;
        if PushStep(t, HandTo(n, to)[0], coin).1.Sent? then [] else [SystemStep(to, Lose(|t.inbox|))]
  }

  function TraceOf(z: Sizes, es: seq<NetStep>): seq<SystemStep> {
    if es == [] then []
    else
      var init := es[..|es| - 1];
      TraceOf(z, init) + Trace(NetRun(z, init), es[|es| - 1])
  }

  /** A system seen from one side. */
  function Seen(side: Side, mine: Peer, other: Peer, toMe: seq<Wire>, toOther: seq<Wire>): System {
    if side.A? then System(mine, other, toMe, toOther) else System(other, mine, toOther, toMe)
  }

  lemma RunOne(s: System, e: SystemStep)
    ensures RunFrom(s, [e]) == Next(s, e)
  {
    assert [e][1..] == [];
  }

  lemma RunTwo(s: System, e: SystemStep, f: SystemStep)
    ensures RunFrom(s, [e] + [f]) == Next(Next(s, e), f)
  {
    assert ([e] + [f])[1..] == [f];
    RunOne(Next(s, e), f);
  }

  lemma NextSeen(side: Side, mine: Peer, other: Peer, toMe: seq<Wire>, toOther: seq<Wire>, step: PeerStep)
    requires Ready(mine, toMe, step)
    ensures var f := Act(mine, toMe, step);
            RunFrom(Seen(side, mine, other, toMe, toOther), [SystemStep(side, step)])
            == Seen(side, f.peer, other, f.inbound, toOther + f.written)
  {
    RunOne(Seen(side, mine, other, toMe, toOther), SystemStep(side, step));
  }

  /** What a step of one end makes of the traffic in the two directions. */
  function EndSeen(side: Side, x: End, other: Peer, behind: seq<Wire>, ahead: seq<Wire>): System {
    Seen(side, x.peer, other, x.transport.inbox + behind, ahead + x.transport.outbox)
  }

  lemma SendAppends(x: End, written: seq<Wire>, coin: bool, ahead: seq<Wire>)
    requires |written| <= 1
    ensures var (x', ok) := Send(x, written, coin);
            && x'.peer == x.peer && x'.transport.inbox == x.transport.inbox
            && ahead + x'.transport.outbox == (ahead + x.transport.outbox) + if ok then written else []
  {
    if written != [] {
      assert written == [written[0]];
      assert ahead + (x.transport.outbox + written) == (ahead + x.transport.outbox) + written;
    }
  }

  /** Nothing is read or written: only the peer moves. */
  lemma OwnSimulates(side: Side, x: End, other: Peer, behind: seq<Wire>, ahead: seq<Wire>, step: PeerStep)
    requires OffTransport(step)
    ensures EndSeen(side, EndNext(x, Own(step)), other, behind, ahead)
            == RunFrom(EndSeen(side, x, other, behind, ahead), [SystemStep(side, step)])
  {
    var toMe, toOther := x.transport.inbox + behind, ahead + x.transport.outbox;
    if Ready(x.peer, [], step) {
      assert Act(x.peer, toMe, step) == Act(x.peer, [], step).(inbound := toMe);
      NextSeen(side, x.peer, other, toMe, toOther, step);
    } else {
      RunOne(EndSeen(side, x, other, behind, ahead), SystemStep(side, step));
    }
  }

  /** A step that reads nothing and writes at most one message, which the transport may refuse. */
  lemma WriteSimulates(side: Side, x: End, x': End, other: Peer, behind: seq<Wire>, ahead: seq<Wire>, step: PeerStep)
    requires Ready(x.peer, x.transport.inbox + behind, step)
    requires var f := Act(x.peer, x.transport.inbox + behind, step);
             && f.inbound == x.transport.inbox + behind
             && x'.peer == f.peer && x'.transport.inbox == x.transport.inbox
             && ahead + x'.transport.outbox == (ahead + x.transport.outbox) + f.written
    ensures EndSeen(side, x', other, behind, ahead)
            == RunFrom(EndSeen(side, x, other, behind, ahead), [SystemStep(side, step)])
  {
    NextSeen(side, x.peer, other, x.transport.inbox + behind, ahead + x.transport.outbox, step);
  }

  lemma ReadSimulates(side: Side, x: End, other: Peer, behind: seq<Wire>, ahead: seq<Wire>,
                      t: nat, coin: bool, reply: bool)
    requires ReadStep(x.transport, coin).1.Got? && Ready(x.peer, [x.transport.inbox[0]], Serve(t))
    ensures EndSeen(side, EndNext(x, ReadOne(t, coin, reply)), other, behind, ahead)
            == RunFrom(EndSeen(side, x, other, behind, ahead),
                       EndTrace(x, ReadOne(t, coin, reply), side, |ahead + x.transport.outbox|))
  {
    var toMe, toOther := x.transport.inbox + behind, ahead + x.transport.outbox;
    var (tr, o) := ReadStep(x.transport, coin);
    var f := Act(x.peer, [o.data], Serve(t));
    assert toMe[0] == o.data && toMe[1..] == tr.inbox + behind;
    assert Act(x.peer, toMe, Serve(t)) == f.(inbound := tr.inbox + behind);
    NextSeen(side, x.peer, other, toMe, toOther, Serve(t));
    SendAppends(End(f.peer, tr), f.written, reply, ahead);
    if Send(End(f.peer, tr), f.written, reply).1 {
      assert [SystemStep(side, Serve(t))] + [] == [SystemStep(side, Serve(t))];
    } else {
      LastLost(side, f.peer, other, tr.inbox + behind, toOther, f.written[0]);
      assert f.written == [f.written[0]];
      RunTwo(Seen(side, x.peer, other, toMe, toOther), SystemStep(side, Serve(t)),
             SystemStep(Opposite(side), Lose(|toOther|)));
      RunOne(Seen(side, x.peer, other, toMe, toOther), SystemStep(side, Serve(t)));
      assert toOther + [] == toOther;
    }
  }

  /** Losing the message written last is not having written it. */
  lemma LastLost(side: Side, mine: Peer, other: Peer, toMe: seq<Wire>, toOther: seq<Wire>, m: Wire)
    ensures Next(Seen(side, mine, other, toMe, toOther + [m]), SystemStep(Opposite(side), Lose(|toOther|)))
            == Seen(side, mine, other, toMe, toOther)
  {
    assert Without(toOther + [m], |toOther|) == toOther;
    assert toMe + [] == toMe;
  }

  lemma EndSimulates(side: Side, x: End, other: Peer, behind: seq<Wire>, ahead: seq<Wire>, e: EndStep)
    ensures EndSeen(side, EndNext(x, e), other, behind, ahead)
            == RunFrom(EndSeen(side, x, other, behind, ahead), EndTrace(x, e, side, |ahead + x.transport.outbox|))
  {
    match e
    case Own(step) =>
      if OffTransport(step) {
        OwnSimulates(side, x, other, behind, ahead, step);
      }
    case WriteCall(c, coin) =>
      if C.Enabled(x.peer.table, C.Send(c, true, false)) {
        var w := [CallRequest(x.peer, c)];
        SendAppends(x, w, coin, ahead);
        WriteSimulates(side, x, EndNext(x, e), other, behind, ahead, Transmit(c, Send(x, w, coin).1, false));
      }
    case WriteNotify(payload, coin) =>
      SendAppends(x, [Request(C.Absent, payload)], coin, ahead);
      if Send(x, [Request(C.Absent, payload)], coin).1 {
        WriteSimulates(side, x, EndNext(x, e), other, behind, ahead, Notify(payload));
      } else {
        assert (ahead + x.transport.outbox) + [] == ahead + x.transport.outbox;
      }
    case WriteJunk(tooLarge, coin) =>
      SendAppends(x, [Junk(tooLarge)], coin, ahead);
      if Send(x, [Junk(tooLarge)], coin).1 {
        WriteSimulates(side, x, EndNext(x, e), other, behind, ahead, SendJunk(tooLarge));
      } else {
        assert (ahead + x.transport.outbox) + [] == ahead + x.transport.outbox;
      }
    case ReadOne(t, coin, reply) =>
      var o := ReadStep(x.transport, coin).1;
      if o.Got? && Ready(x.peer, [o.data], Serve(t)) {
        ReadSimulates(side, x, other, behind, ahead, t, coin, reply);
      }
    case WriteResponse(t, coin) =>
      if Ready(x.peer, [], Respond(t, true)) {
        var f := Act(x.peer, [], Respond(t, true));
        SendAppends(x.(peer := f.peer), f.written, coin, ahead);
        WriteSimulates(side, x, EndNext(x, e), other, behind, ahead,
                       Respond(t, Send(x.(peer := f.peer), f.written, coin).1));
      }
    case Shut =>
  }

  lemma AbstractSeen(n: Net, side: Side)
    ensures var x, y := EndOf(n, side), EndOf(n, Opposite(side));
            Abstract(n) == EndSeen(side, x, y.peer, HandTo(n, side) + y.transport.outbox,
                                   y.transport.inbox + HandTo(n, Opposite(side)))
  {
    var x, y := EndOf(n, side), EndOf(n, Opposite(side));
    assert Towards(n, side) == x.transport.inbox + (HandTo(n, side) + y.transport.outbox);
  }

  lemma DeliveredSimulates(n: Net, to: Side, coin: bool, retry: bool)
    requires HandTo(n, to) != [] && PushStep(EndOf(n, to).transport, HandTo(n, to)[0], coin).1.Sent?
    ensures Abstract(NetNext(n, Deliver(to, coin, retry))) == Abstract(n)
  {
    var inbox, hand := EndOf(n, to).transport.inbox, HandTo(n, to);
    assert (inbox + [hand[0]]) + hand[1..] == inbox + hand;
  }

  lemma DroppedSimulates(n: Net, to: Side, coin: bool)
    requires HandTo(n, to) != [] && !PushStep(EndOf(n, to).transport, HandTo(n, to)[0], coin).1.Sent?
    ensures Abstract(NetNext(n, Deliver(to, coin, false)))
            == Next(Abstract(n), SystemStep(to, Lose(|EndOf(n, to).transport.inbox|)))
  {
    var inbox, hand := EndOf(n, to).transport.inbox, HandTo(n, to);
    var out := EndOf(n, Opposite(to)).transport.outbox;
    assert Without(inbox + hand + out, |inbox|) == inbox + hand[1..] + out;
    assert Towards(n, Opposite(to)) + [] == Towards(n, Opposite(to));
  }

  lemma DeliverSimulates(n: Net, to: Side, coin: bool, retry: bool)
    ensures Abstract(NetNext(n, Deliver(to, coin, retry))) == RunFrom(Abstract(n), Trace(n, Deliver(to, coin, retry)))
  {
    if HandTo(n, to) != [] {
      if PushStep(EndOf(n, to).transport, HandTo(n, to)[0], coin).1.Sent? {
        DeliveredSimulates(n, to, coin, retry);
      } else if !retry {
        DroppedSimulates(n, to, coin);
        RunOne(Abstract(n), SystemStep(to, Lose(|EndOf(n, to).transport.inbox|)));
      }
    }
  }

  lemma PickSimulates(n: Net, to: Side)
    ensures Abstract(NetNext(n, Pick(to))) == Abstract(n)
  {
    var inbox, out := EndOf(n, to).transport.inbox, EndOf(n, Opposite(to)).transport.outbox;
    if HandTo(n, to) == [] && out != [] {
      assert inbox + [out[0]] + out[1..] == inbox + [] + out;
    }
  }

  /** One step of the net is a short run of the two-peer system. */
  lemma StepSimulates(n: Net, e: NetStep)
    ensures Abstract(NetNext(n, e)) == RunFrom(Abstract(n), Trace(n, e))
  {
    match e
    case At(side, step) =>
      var x, y := EndOf(n, side), EndOf(n, Opposite(side));
      AbstractSeen(n, side);
      AbstractSeen(NetNext(n, e), side);
      EndSimulates(side, x, y.peer, HandTo(n, side) + y.transport.outbox,
                   y.transport.inbox + HandTo(n, Opposite(side)), step);
    case Pick(to) => PickSimulates(n, to);
    case Deliver(to, coin, retry) => DeliverSimulates(n, to, coin, retry);
  }

  /** Every run over channel transports is a run of the two-peer system. */
  lemma {:induction false} ChannelsRefineTwoPeers(z: Sizes, es: seq<NetStep>)
    ensures Abstract(NetRun(z, es)) == Run(TraceOf(z, es))
  {
    if es != [] {
      var init, e := es[..|es| - 1], es[|es| - 1];
      ChannelsRefineTwoPeers(z, init);
      StepSimulates(NetRun(z, init), e);
      RunIsRunFrom(TraceOf(z, init), Trace(NetRun(z, init), e));
    }
  }

  // ---- What calls can rely on over this transport ----

  /** A failed send wrote nothing: the channel takes a message whole or not at all. */
  ghost predicate WholeSends(p: Peer) {
    forall call :: call in p.table.calls ==>
      && (call.phase.Leaving? && call.phase.outcome.SendFailure? ==> !call.phase.outcome.out)
      && (call.phase.Returned? && call.phase.outcome.SendFailure? ==> !call.phase.outcome.out)
  }

  lemma ActSendsWhole(p: Peer, inbound: seq<Wire>, step: PeerStep)
    requires WholeSends(p) && Ready(p, inbound, step) && (step.Transmit? ==> !step.out)
    ensures WholeSends(Act(p, inbound, step).peer)
  {
    var calls, calls' := p.table.calls, Act(p, inbound, step).peer.table.calls;
    forall c | 0 <= c < |calls'| && calls'[c].phase.Returned? && calls'[c].phase.outcome.SendFailure?
      ensures !calls'[c].phase.outcome.out
    {
      assert calls[c] in calls;
    }
  }

  lemma EndSendsWhole(x: End, e: EndStep)
    requires WholeSends(x.peer)
    ensures WholeSends(EndNext(x, e).peer)
  {
    match e
    case Own(step) =>
      if OffTransport(step) && Ready(x.peer, [], step) {
        ActSendsWhole(x.peer, [], step);
      }
    case WriteCall(c, coin) =>
      if C.Enabled(x.peer.table, C.Send(c, true, false)) {
        ActSendsWhole(x.peer, [], Transmit(c, Send(x, [CallRequest(x.peer, c)], coin).1, false));
      }
    case ReadOne(t, coin, reply) =>
      var o := ReadStep(x.transport, coin).1;
      if o.Got? && Ready(x.peer, [o.data], Serve(t)) {
        ActSendsWhole(x.peer, [o.data], Serve(t));
      }
    case _ =>
  }

  lemma {:induction false} RunSendsWhole(z: Sizes, es: seq<NetStep>, side: Side)
    ensures WholeSends(EndOf(NetRun(z, es), side).peer)
  {
    if es != [] {
      var n, e := NetRun(z, es[..|es| - 1]), es[|es| - 1];
      RunSendsWhole(z, es[..|es| - 1], side);
      if e.At? && e.side == side {
        EndSendsWhole(EndOf(n, side), e.step);
      }
    }
  }

  /**
   * In every run over channel transports, with buffers of any size, refusals, closes and messages given
   * up by the pumps: a call that returned a response returned the outcome of that very request, which
   * the other side processed exactly once.
   */
  lemma AnsweredOverChannels(z: Sizes, es: seq<NetStep>, side: Side, c: nat)
    requires c < |EndOf(NetRun(z, es), side).peer.table.calls|
    requires var call := EndOf(NetRun(z, es), side).peer.table.calls[c];
             call.phase.Returned? && call.phase.outcome.Answered?
    ensures var call := EndOf(NetRun(z, es), side).peer.table.calls[c];
            var log := EndOf(NetRun(z, es), Opposite(side)).peer.log;
            exists i :: && 0 <= i < |log|
                        && log[i] == Entry(C.Str(call.id), call.payload, call.phase.outcome.body)
                        && forall j :: 0 <= j < |log| && j != i ==> log[j].id != C.Str(call.id)
  {
    ChannelsRefineTwoPeers(z, es);
    CallGetsItsOwnAnswer(TraceOf(z, es), side, c);
  }

  /** In every such run no request is processed twice. */
  lemma HandledOnceOverChannels(z: Sizes, es: seq<NetStep>, side: Side)
    ensures LogOnce(EndOf(NetRun(z, es), side).peer.log)
  {
    ChannelsRefineTwoPeers(z, es);
    HandledAtMostOnce(TraceOf(z, es), side);
  }

  /** In every such run, however long it goes on, a call that returned a send error is not processed. */
  lemma FailedSendNeverHandled(z: Sizes, es: seq<NetStep>, side: Side, c: nat)
    requires c < |EndOf(NetRun(z, es), side).peer.table.calls|
    requires var call := EndOf(NetRun(z, es), side).peer.table.calls[c];
             call.phase.Returned? && call.phase.outcome.SendFailure?
    ensures var id := C.Str(EndOf(NetRun(z, es), side).peer.table.calls[c].id);
            forall e :: e in EndOf(NetRun(z, es), Opposite(side)).peer.log ==> e.id != id
  {
    ChannelsRefineTwoPeers(z, es);
    RunSendsWhole(z, es, side);
    var calls := EndOf(NetRun(z, es), side).peer.table.calls;
    assert calls[c] in calls;
    NotOutNeverHandled(TraceOf(z, es), side, c);
  }

  /** Both `pending` maps are exact, and no buffer exceeds its size, in every reachable state. */
  lemma {:induction false} ChannelsKeepBounds(z: Sizes, es: seq<NetStep>)
    ensures var n := NetRun(z, es);
            && C.ExactInv(n.a.peer.table) && C.ExactInv(n.b.peer.table)
            && Bounded(n.a.transport) && Bounded(n.b.transport) && |n.handToA| <= 1 && |n.handToB| <= 1
  {
    ChannelsRefineTwoPeers(z, es);
    PendingExactThroughout(TraceOf(z, es));
    if es != [] {
      ChannelsKeepBounds(z, es[..|es| - 1]);
      StepKeepsBounds(NetRun(z, es[..|es| - 1]), es[|es| - 1]);
    }
  }

  lemma EndKeepsBounds(x: End, e: EndStep)
    requires Bounded(x.transport)
    ensures Bounded(EndNext(x, e).transport)
  {
  }

  lemma StepKeepsBounds(n: Net, e: NetStep)
    requires Bounded(n.a.transport) && Bounded(n.b.transport) && |n.handToA| <= 1 && |n.handToB| <= 1
    ensures var n' := NetNext(n, e);
            Bounded(n'.a.transport) && Bounded(n'.b.transport) && |n'.handToA| <= 1 && |n'.handToB| <= 1
  {
    match e
    case At(side, step) => EndKeepsBounds(EndOf(n, side), step);
    case Pick(_) =>
    case Deliver(_, _, _) =>
  }

  // ---- End to end, nothing is reordered, repeated or made up ----

  /** The messages a step gets accepted by `WriteMessage` on the other side. */
  function AcceptedBy(n: Net, e: NetStep, to: Side): seq<Wire> {
    var before, after := EndOf(n, Opposite(to)).transport.outbox, EndOf(NetNext(n, e), Opposite(to)).transport.outbox;
    if e.At? && |before| < |after| then after[|before|..] else []
  }

  /** The message a step reads with `ReadMessage` on this side. */
  function ReadingBy(n: Net, e: NetStep, to: Side): seq<Wire> {
    var x := EndOf(n, to);
    if e.At? && e.side == to && e.step.ReadOne? then
      var o := ReadStep(x.transport, e.step.coin).1;
      if o.Got? && Ready(x.peer, [o.data], Serve(e.step.thread)) then [o.data] else []
    else []
  }

  /** The message a step of the pump gives up after its push was refused. */
  function GivenUpBy(n: Net, e: NetStep, to: Side): seq<Wire> {
    if e.Deliver? && e.to == to && !e.retry && HandTo(n, to) != [] &&
       !PushStep(EndOf(n, to).transport, HandTo(n, to)[0], e.coin).1.Sent?
    then [HandTo(n, to)[0]] else []
  }

  function Accepted(z: Sizes, es: seq<NetStep>, to: Side): seq<Wire> {
    if es == [] then []
    else
      var init := es[..|es| - 1];
      Accepted(z, init, to) + AcceptedBy(NetRun(z, init), es[|es| - 1], to)
  }

  function ReadBack(z: Sizes, es: seq<NetStep>, to: Side): seq<Wire> {
    if es == [] then []
    else
      var init := es[..|es| - 1];
      ReadBack(z, init, to) + ReadingBy(NetRun(z, init), es[|es| - 1], to)
  }

  function GivenUp(z: Sizes, es: seq<NetStep>, to: Side): seq<Wire> {
    if es == [] then []
    else
      var init := es[..|es| - 1];
      GivenUp(z, init, to) + GivenUpBy(NetRun(z, init), es[|es| - 1], to)
  }

  /** `xs` is `ys` with some elements left out. */
  predicate Subsequence(xs: seq<Wire>, ys: seq<Wire>)
    decreases |ys|
  {
    xs == [] ||
    (ys != [] &&
      var n, m := |xs| - 1, |ys| - 1;
      (xs[n] == ys[m] && Subsequence(xs[..n], ys[..m])) || Subsequence(xs, ys[..m]))
  }

  lemma SubsequenceSnoc(xs: seq<Wire>, ys: seq<Wire>, zs: seq<Wire>)
    requires Subsequence(xs, ys) && |zs| <= 1
    ensures Subsequence(xs + zs, ys + zs)
  {
    if zs == [] {
      assert xs + zs == xs && ys + zs == ys;
    } else {
      assert (xs + zs)[..|xs|] == xs && (ys + zs)[..|ys|] == ys;
    }
  }

  lemma {:induction false} SubsequenceWithout(xs: seq<Wire>, ys: seq<Wire>, i: nat)
    requires Subsequence(xs, ys) && i < |xs|
    ensures Subsequence(Without(xs, i), ys)
    decreases |ys|
  {
    var n, m := |xs| - 1, |ys| - 1;
    var less := Without(xs, i);
    if xs[n] == ys[m] && Subsequence(xs[..n], ys[..m]) {
      if i == n {
        assert less == xs[..n];
      } else {
        SubsequenceWithout(xs[..n], ys[..m], i);
        assert less[..n - 1] == Without(xs[..n], i);
      }
    } else {
      SubsequenceWithout(xs, ys[..m], i);
    }
  }

  /** A step of an end reads at most the first message of its inbox and writes at most one more message. */
  lemma EndMoves(x: End, e: EndStep)
    ensures var x' := EndNext(x, e);
            && x.transport.outbox <= x'.transport.outbox && |x'.transport.outbox| <= |x.transport.outbox| + 1
            && (!e.ReadOne? ==> x'.transport.inbox == x.transport.inbox)
  {
  }

  lemma EndReads(n: Net, side: Side, step: EndStep, to: Side)
    ensures var e := At(side, step);
            EndOf(n, to).transport.inbox == ReadingBy(n, e, to) + EndOf(NetNext(n, e), to).transport.inbox
  {
    EndMoves(EndOf(n, side), step);
  }

  lemma EndWrites(n: Net, side: Side, step: EndStep, to: Side)
    ensures var e := At(side, step);
            && |AcceptedBy(n, e, to)| <= 1
            && EndOf(NetNext(n, e), Opposite(to)).transport.outbox
               == EndOf(n, Opposite(to)).transport.outbox + AcceptedBy(n, e, to)
  {
    EndMoves(EndOf(n, side), step);
  }

  lemma EndTraffic(n: Net, side: Side, step: EndStep, to: Side)
    ensures var e := At(side, step);
            ReadingBy(n, e, to) + Towards(NetNext(n, e), to) == Towards(n, to) + AcceptedBy(n, e, to)
  {
    var e, n' := At(side, step), NetNext(n, At(side, step));
    EndReads(n, side, step, to);
    EndWrites(n, side, step, to);
    Regroup(ReadingBy(n, e, to), EndOf(n', to).transport.inbox, HandTo(n, to),
            EndOf(n, Opposite(to)).transport.outbox, AcceptedBy(n, e, to));
  }

  lemma Regroup(r: seq<Wire>, inbox: seq<Wire>, hand: seq<Wire>, out: seq<Wire>, a: seq<Wire>)
    ensures r + (inbox + hand + (out + a)) == ((r + inbox) + hand + out) + a
  {
  }

  lemma PickTraffic(n: Net, side: Side, to: Side)
    ensures Towards(NetNext(n, Pick(side)), to) == Towards(n, to)
  {
    PickSimulates(n, side);
    assert Abstract(n) == Abstract(NetNext(n, Pick(side)));
  }

  lemma DeliverTraffic(n: Net, side: Side, coin: bool, retry: bool, to: Side)
    ensures var e := Deliver(side, coin, retry);
            if GivenUpBy(n, e, to) == [] then Towards(NetNext(n, e), to) == Towards(n, to)
            else
              var i := |EndOf(n, to).transport.inbox|;
              && i < |Towards(n, to)| && GivenUpBy(n, e, to) == [Towards(n, to)[i]]
              && Towards(NetNext(n, e), to) == Without(Towards(n, to), i)
  {
    var n' := NetNext(n, Deliver(side, coin, retry));
    if HandTo(n, side) != [] {
      if PushStep(EndOf(n, side).transport, HandTo(n, side)[0], coin).1.Sent? {
        DeliveredSimulates(n, side, coin, retry);
        assert Abstract(n).toA == Abstract(n').toA && Abstract(n).toB == Abstract(n').toB;
      } else if !retry && side == to {
        GivenUpTraffic(EndOf(n, to).transport.inbox, HandTo(n, to), EndOf(n, Opposite(to)).transport.outbox);
      }
    }
  }

  lemma GivenUpTraffic(inbox: seq<Wire>, hand: seq<Wire>, out: seq<Wire>)
    requires hand != []
    ensures var all := inbox + hand + out;
            |inbox| < |all| && all[|inbox|] == hand[0] && Without(all, |inbox|) == inbox + hand[1..] + out
  {
  }

  /** What one step does to the traffic towards a side. */
  lemma StepTraffic(n: Net, e: NetStep, to: Side)
    ensures |AcceptedBy(n, e, to)| <= 1
    ensures GivenUpBy(n, e, to) == [] ==>
              ReadingBy(n, e, to) + Towards(NetNext(n, e), to) == Towards(n, to) + AcceptedBy(n, e, to)
    ensures GivenUpBy(n, e, to) != [] ==>
              var i := |EndOf(n, to).transport.inbox|;
              && i < |Towards(n, to)| && GivenUpBy(n, e, to) == [Towards(n, to)[i]]
              && Towards(NetNext(n, e), to) == Without(Towards(n, to), i)
              && ReadingBy(n, e, to) == [] && AcceptedBy(n, e, to) == []
  {
    match e
    case At(side, step) =>
      EndWrites(n, side, step, to);
      EndTraffic(n, side, step, to);
    case Pick(side) =>
      PickTraffic(n, side, to);
      assert ReadingBy(n, e, to) == [] && AcceptedBy(n, e, to) == [];
    case Deliver(side, coin, retry) =>
      DeliverTraffic(n, side, coin, retry, to);
      assert ReadingBy(n, e, to) == [] && AcceptedBy(n, e, to) == [];
  }

  /** Accounts of one direction: accepted, read, given up and under way. */
  ghost predicate Accounts(accepted: seq<Wire>, read: seq<Wire>, lost: seq<Wire>, underWay: seq<Wire>) {
    && multiset(accepted) == multiset(read) + multiset(lost) + multiset(underWay)
    && Subsequence(read + underWay, accepted)
    && (lost == [] ==> accepted == read + underWay)
  }

  lemma MoveAccounts(accepted: seq<Wire>, read: seq<Wire>, lost: seq<Wire>, underWay: seq<Wire>,
                     a: seq<Wire>, r: seq<Wire>, underWay': seq<Wire>)
    requires Accounts(accepted, read, lost, underWay) && |a| <= 1 && r + underWay' == underWay + a
    ensures Accounts(accepted + a, read + r, lost, underWay')
  {
    Assoc(read, r, underWay');
    Assoc(read, underWay, a);
    SubsequenceSnoc(read + underWay, accepted, a);
    MoveCounts(underWay, a, r, underWay');
  }

  lemma MoveCounts(underWay: seq<Wire>, a: seq<Wire>, r: seq<Wire>, underWay': seq<Wire>)
    requires r + underWay' == underWay + a
    ensures multiset(r) + multiset(underWay') == multiset(underWay) + multiset(a)
  {
    assert multiset(r + underWay') == multiset(r) + multiset(underWay');
    assert multiset(underWay + a) == multiset(underWay) + multiset(a);
  }

  lemma LoseCounts(lost: seq<Wire>, underWay: seq<Wire>, i: nat)
    requires i < |underWay|
    ensures multiset(lost + [underWay[i]]) + multiset(Without(underWay, i)) == multiset(lost) + multiset(underWay)
  {
    assert underWay == underWay[..i] + [underWay[i]] + underWay[i + 1..];
  }

  lemma WithoutLater(xs: seq<Wire>, ys: seq<Wire>, i: nat)
    requires i < |ys|
    ensures Without(xs + ys, |xs| + i) == xs + Without(ys, i)
  {
  }

  lemma GroupCounts(a: multiset<Wire>, b: multiset<Wire>, c: multiset<Wire>)
    ensures a + b + c == a + (b + c)
  {
  }

  lemma LoseInOrder(accepted: seq<Wire>, read: seq<Wire>, underWay: seq<Wire>, i: nat)
    requires Subsequence(read + underWay, accepted) && i < |underWay|
    ensures Subsequence(read + Without(underWay, i), accepted)
  {
    WithoutLater(read, underWay, i);
    SubsequenceWithout(read + underWay, accepted, |read| + i);
  }

  lemma LoseAccounts(accepted: seq<Wire>, read: seq<Wire>, lost: seq<Wire>, underWay: seq<Wire>, i: nat)
    requires Accounts(accepted, read, lost, underWay) && i < |underWay|
    ensures Accounts(accepted, read, lost + [underWay[i]], Without(underWay, i))
  {
    LoseCounts(lost, underWay, i);
    LoseInOrder(accepted, read, underWay, i);
    GroupCounts(multiset(read), multiset(lost), multiset(underWay));
    GroupCounts(multiset(read), multiset(lost + [underWay[i]]), multiset(Without(underWay, i)));
  }

  lemma StepAccounts(accepted: seq<Wire>, read: seq<Wire>, lost: seq<Wire>, n: Net, e: NetStep, to: Side)
    requires Accounts(accepted, read, lost, Towards(n, to))
    ensures Accounts(accepted + AcceptedBy(n, e, to), read + ReadingBy(n, e, to), lost + GivenUpBy(n, e, to),
                     Towards(NetNext(n, e), to))
  {
    StepTraffic(n, e, to);
    var a, r, g := AcceptedBy(n, e, to), ReadingBy(n, e, to), GivenUpBy(n, e, to);
    if g == [] {
      assert lost + g == lost;
      MoveAccounts(accepted, read, lost, Towards(n, to), a, r, Towards(NetNext(n, e), to));
    } else {
      assert accepted + a == accepted && read + r == read;
      LoseAccounts(accepted, read, lost, Towards(n, to), |EndOf(n, to).transport.inbox|);
    }
  }

  lemma {:induction false} RunAccounts(z: Sizes, es: seq<NetStep>, to: Side)
    ensures Accounts(Accepted(z, es, to), ReadBack(z, es, to), GivenUp(z, es, to), Towards(NetRun(z, es), to))
  {
    if es != [] {
      var init := es[..|es| - 1];
      RunAccounts(z, init, to);
      StepAccounts(Accepted(z, init, to), ReadBack(z, init, to), GivenUp(z, init, to),
                   NetRun(z, init), es[|es| - 1], to);
    }
  }

  /**
   * End to end, in every run: every message `WriteMessage` accepted has been read once by the other
   * side, been given up by the pump, or is still under way, and what was read comes in the order it was
   * written. Nothing is missing, so that what was read and is under way is exactly what was accepted, if
   * and only if the pump has given nothing up.
   */
  lemma EndToEndInOrder(z: Sizes, es: seq<NetStep>, to: Side)
    ensures var accepted, read, underWay := Accepted(z, es, to), ReadBack(z, es, to), Towards(NetRun(z, es), to);
            && multiset(accepted) == multiset(read) + multiset(GivenUp(z, es, to)) + multiset(underWay)
            && Subsequence(read + underWay, accepted)
            && (accepted == read + underWay <==> GivenUp(z, es, to) == [])
  {
    RunAccounts(z, es, to);
    var accepted, read, underWay := Accepted(z, es, to), ReadBack(z, es, to), Towards(NetRun(z, es), to);
    var lost := GivenUp(z, es, to);
    assert |multiset(accepted)| == |multiset(read)| + |multiset(lost)| + |multiset(underWay)|;
  }

  // ---- Every request read is processed ----

  lemma EndKeepsRequests(x: End, e: EndStep, a: Ask)
    requires !e.ReadOne?
    ensures Kept(EndNext(x, e).peer, a) == Kept(x.peer, a)
  {
    match e
    case Own(step) =>
      if OffTransport(step) && Ready(x.peer, [], step) {
        ActKeepsRequests(x.peer, [], step, a);
      }
    case WriteCall(c, coin) =>
      if C.Enabled(x.peer.table, C.Send(c, true, false)) {
        ActKeepsRequests(x.peer, [], Transmit(c, Send(x, [CallRequest(x.peer, c)], coin).1, false), a);
      }
    case WriteResponse(t, coin) =>
      if Ready(x.peer, [], Respond(t, true)) {
        ActKeepsRequests(x.peer, [], Respond(t, true), a);
      }
    case _ =>
  }

  lemma StepKeepsRequests(n: Net, e: NetStep, side: Side, a: Ask)
    ensures Kept(EndOf(NetNext(n, e), side).peer, a)
            == Kept(EndOf(n, side).peer, a) + multiset(ReadingBy(n, e, side))[Request(a.id, a.payload)]
  {
    if e.At? && e.side == side {
      var x := EndOf(n, side);
      if e.step.ReadOne? {
        var o := ReadStep(x.transport, e.step.coin).1;
        if o.Got? && Ready(x.peer, [o.data], Serve(e.step.thread)) {
          ActKeepsRequests(x.peer, [o.data], Serve(e.step.thread), a);
        }
      } else {
        EndKeepsRequests(x, e.step, a);
      }
    }
  }

  /**
   * In every run over channel transports, the requests `ReadMessage` has returned to a side, notifications
   * included, are those it is processing and those in its log, as often as they were read.
   */
  lemma {:induction false} RequestsReadAreKept(z: Sizes, es: seq<NetStep>, side: Side, a: Ask)
    ensures multiset(ReadBack(z, es, side))[Request(a.id, a.payload)] == Kept(EndOf(NetRun(z, es), side).peer, a)
  {
    if es == [] {
      assert Unfinished(map[], a) == {};
    } else {
      var init, e := es[..|es| - 1], es[|es| - 1];
      var n := NetRun(z, init);
      RequestsReadAreKept(z, init, side, a);
      StepKeepsRequests(n, e, side, a);
      assert multiset(ReadBack(z, init, side) + ReadingBy(n, e, side))
          == multiset(ReadBack(z, init, side)) + multiset(ReadingBy(n, e, side));
    }
  }
}
