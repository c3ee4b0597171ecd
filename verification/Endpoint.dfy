/**
 * A peer on a channel transport as an object (pkg/wmp/peer.go): its `pending` map and its transport are
 * the real fields, and each atomic piece of `CallWithID`, `Serve`, `handleResponse` and `handleRequest`
 * is a method that makes exactly one step of the model in `ChannelPeers`.
 */
module Endpoint {
  import opened Options
  import C = Calls
  import opened TwoPeers
  import opened ChannelTransport
  import opened ChannelPeers

  /** How a turn of the read loop ends: a message was handled, it would block, or the loop is over. */
  datatype Turn = Served | Blocked | Ended

  class Endpoint {
    const pending: C.Pending
    const transport: Transport<Wire>
    /** Response channels made so far; a channel is known by its number. */
    var channels: nat
    /** The calls, carriers and workers: the goroutines' own state. */
    ghost var peer: Peer

    ghost predicate Valid()
      reads this, pending, transport
    {
      transport.Valid() && peer.table.pending == pending.pending && |peer.table.calls| == channels
    }

    ghost function Current(): End
      reads this, transport
    {
      End(peer, transport.Current())
    }

    constructor (inSize: nat, outSize: nat)
      ensures Valid() && Current() == End(NEW_PEER, New(inSize, outSize))
      ensures fresh(pending) && fresh(transport)
    {
      pending := new C.Pending();
      transport := new Transport<Wire>(inSize, outSize);
      channels := 0;
      peer := NEW_PEER;
    }

    /** The start of `CallWithID`: make the channel and register it. */
    method Begin(id: string, payload: string) returns (channel: nat)
      requires Valid() && FreshId(peer, id)
      modifies this, pending
      ensures Valid() && Current() == EndNext(old(Current()), Own(PeerStep.Begin(id, payload)))
      ensures channel < |peer.table.calls| && peer.table.calls[channel] == C.Call(id, payload, C.Registered, [], 0)
    {
      channel := channels;
      pending.Register(id, channel);
      channels := channels + 1;
      peer := Act(peer, [], PeerStep.Begin(id, payload)).peer;
    }

    /** `sendJSON` of the request: on success the call waits, on failure it is on its way out. */
    method WriteRequest(channel: nat, id: string, payload: string, coin: bool) returns (ok: bool)
      requires Valid() && channel < |peer.table.calls| && peer.table.calls[channel].phase.Registered?
      requires peer.table.calls[channel].id == id && peer.table.calls[channel].payload == payload
      modifies this`peer, transport
      ensures Valid() && Current() == EndNext(old(Current()), WriteCall(channel, coin))
      ensures id != "" ==>
                transport.written == old(transport.written) + if ok then [Request(C.Str(id), payload)] else []
      ensures !transport.closed ==> (ok <==> |old(transport.outbox)| < transport.outSize)
      ensures peer.table.calls[channel].phase == if ok then C.Waiting else C.Leaving(C.SendFailure(false))
    {
      var o := transport.WriteMessage(Request(C.RequestId(id), payload), coin);
      ok := o.Sent?;
      peer := Act(peer, [], Transmit(channel, ok, false)).peer;
    }

    /** The deletion on the way out of `CallWithID`. */
    method Forget(channel: nat, id: string)
      requires Valid() && channel < |peer.table.calls| && peer.table.calls[channel].phase.Leaving?
      requires peer.table.calls[channel].id == id
      modifies this`peer, pending
      ensures Valid() && Current() == EndNext(old(Current()), Own(Local(C.Unregister(channel))))
    {
      assert C.Enabled(peer.table, C.Unregister(channel));
      pending.Unregister(id);
      peer := Act(peer, [], Local(C.Unregister(channel))).peer;
    }

    /** `handleResponse` up to the send into the channel it found. */
    method Route(response: C.Response, ghost thread: nat)
      requires Valid() && thread !in peer.table.carriers
      modifies this`peer, pending
      ensures Valid() && peer == old(peer).(table := C.Next(old(peer).table, C.Take(thread, response)))
    {
      var channel, ok := pending.Take(response.id);
      peer := peer.(table := C.Next(peer.table, C.Take(thread, response)));
    }

    /** What `Serve` does with a message it has read. */
    method Dispatch(m: Wire, ghost thread: nat, reply: bool)
      requires Valid() && thread !in peer.workers && thread !in peer.table.carriers
      modifies this`peer, pending, transport
      ensures Valid() && transport.inbox == old(transport.inbox) && transport.closed == old(transport.closed)
      ensures transport.read == old(transport.read) && transport.pushed == old(transport.pushed)
      ensures var f := Act(old(peer), [m], Serve(thread));
              Current() == Send(End(f.peer, old(transport.Current())), f.written, reply).0
      ensures m.Request? ==>
                && peer == old(peer).(workers := old(peer).workers[thread := Worker(m.id, m.payload, None)])
                && transport.written == old(transport.written)
      ensures m.Reply? && m.response.id.Str? ==>
                && pending.pending == old(pending.pending) - {m.response.id.text}
                && (m.response.id.text in old(pending.pending) ==>
                      && thread in peer.table.carriers
                      && peer.table.carriers[thread] == C.Carrier(old(pending.pending)[m.response.id.text], m.response))
                && (m.response.id.text !in old(pending.pending) ==> peer == old(peer))
      ensures m.Junk? ==>
                var error := if m.tooLarge then C.RpcError(-32600, Some("message too large"))
                             else C.RpcError(-32700, None);
                && peer == old(peer)
                && (!transport.closed && |old(transport.outbox)| < transport.outSize ==>
                      transport.written == old(transport.written) + [Reply(C.Response(C.Null, C.Error(error)))])
    {
      match m
      case Request(id, payload) =>
        peer := peer.(workers := peer.workers[thread := Worker(id, payload, None)]);
      case Reply(response) =>
        Route(response, thread);
      case Junk(tooLarge) =>
        var sent := transport.WriteMessage(Reply(C.Response(C.Null, C.Error(C.BadInput(tooLarge)))), reply);
    }

    /** One turn of `Serve`. */
    method ServeOne(ghost thread: nat, coin: bool, reply: bool) returns (turn: Turn)
      requires Valid() && thread !in peer.workers && thread !in peer.table.carriers
      modifies this`peer, pending, transport
      ensures Valid() && Current() == EndNext(old(Current()), ReadOne(thread, coin, reply))
      ensures turn.Ended? ==> transport.closed
      ensures turn.Blocked? ==> !transport.closed && transport.inbox == []
      ensures turn.Served? ==>
                |old(transport.read)| < |transport.pushed|
                && transport.read == old(transport.read) + [transport.pushed[|old(transport.read)|]]
      ensures turn.Served? && transport.pushed[|old(transport.read)|].Request? ==>
                var m := transport.pushed[|old(transport.read)|];
                peer == old(peer).(workers := old(peer).workers[thread := Worker(m.id, m.payload, None)])
    {
      var o := transport.ReadMessage(coin);
      if !o.Got? {
        return if o.WouldBlock? then Blocked else Ended;
      }
      Dispatch(o.data, thread, reply);
      turn := Served;
    }

    /** The end of `handleRequest`: the response is written unless the request was a notification. */
    method Answer(ghost thread: nat, id: C.RawId, body: C.Body, coin: bool)
      requires Valid() && thread in peer.workers
      requires peer.workers[thread].id == id && peer.workers[thread].body == Some(body)
      modifies this`peer, transport
      ensures Valid() && Current() == EndNext(old(Current()), WriteResponse(thread, coin))
      ensures id.Absent? || id.Null? ==> transport.written == old(transport.written)
      ensures !id.Absent? && !id.Null? && !transport.closed && |old(transport.outbox)| < transport.outSize ==>
                transport.written == old(transport.written) + [Reply(C.Response(id, body))]
    {
      peer := peer.(workers := peer.workers - {thread});
      if !C.IsNotificationId(id) {
        var o := transport.WriteMessage(Reply(C.Response(id, body)), coin);
      }
    }

    /** `Notify`: a request without an id. */
    method Notify(payload: string, coin: bool) returns (ok: bool)
      requires Valid()
      modifies transport
      ensures Valid() && Current() == EndNext(old(Current()), WriteNotify(payload, coin))
      ensures transport.written == old(transport.written) + if ok then [Request(C.Absent, payload)] else []
      ensures !transport.closed ==> (ok <==> |old(transport.outbox)| < transport.outSize)
    {
      var o := transport.WriteMessage(Request(C.RequestId(""), payload), coin);
      ok := o.Sent?;
    }

    /** `Close`. */
    method Close()
      requires Valid()
      modifies transport
      ensures Valid() && Current() == EndNext(old(Current()), Shut) && transport.closed
    {
      transport.Close();
    }
  }
}
