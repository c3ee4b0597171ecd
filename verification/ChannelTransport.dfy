/**
 * The channel-backed transport (pkg/wmp/channel_transport.go). When several cases of a `select` are
 * ready Go picks one at random; the coin of each operation says which.
 */
module ChannelTransport {

  datatype State<T> = State(inSize: nat, outSize: nat, inbox: seq<T>, outbox: seq<T>, closed: bool)

  function New<T>(inSize: nat, outSize: nat): State<T> {
    State(inSize, outSize, [], [], false)
  }

  datatype Outcome<T> = Sent | Got(data: T) | ErrClosed | ErrFull | WouldBlock

  /** A non-blocking send into a bounded channel, racing with the closed case. */
  function TrySend<T>(buffer: seq<T>, size: nat, closed: bool, data: T, coin: bool): (seq<T>, Outcome<T>) {
    if closed && (coin || |buffer| >= size) then (buffer, ErrClosed)
    else if |buffer| < size then (buffer + [data], Sent)
    else (buffer, ErrFull)
  }

  function PushStep<T>(s: State<T>, data: T, coin: bool): (State<T>, Outcome<T>) {
    var (b, o) := TrySend(s.inbox, s.inSize, s.closed, data, coin);
    (s.(inbox := b), o)
  }

  function WriteStep<T>(s: State<T>, data: T, coin: bool): (State<T>, Outcome<T>) {
    var (b, o) := TrySend(s.outbox, s.outSize, s.closed, data, coin);
    (s.(outbox := b), o)
  }

  function ReadStep<T>(s: State<T>, coin: bool): (State<T>, Outcome<T>) {
    if s.closed && (coin || s.inbox == []) then (s, ErrClosed)
    else if s.inbox != [] then (s.(inbox := s.inbox[1..]), Got(s.inbox[0]))
    else (s, WouldBlock)
  }

  /** A receive from the channel that `Out` returns, which is never closed. */
  function TakeStep<T>(s: State<T>): (State<T>, Outcome<T>) {
    if s.outbox != [] then (s.(outbox := s.outbox[1..]), Got(s.outbox[0])) else (s, WouldBlock)
  }

  predicate Bounded<T>(s: State<T>) {
    |s.inbox| <= s.inSize && |s.outbox| <= s.outSize
  }

  /**
   * `Push` is documented to fail once the transport is closed. It is sure to fail exactly if the
   * buffer is also full; with room in the buffer the `select` may still accept the message.
   */
  lemma ClosedPushSurelyFails<T>(s: State<T>, data: T)
    requires s.closed
    ensures (forall coin :: !PushStep(s, data, coin).1.Sent?) <==> |s.inbox| >= s.inSize
  {
    assert PushStep(s, data, false).1 == if |s.inbox| < s.inSize then Sent else ErrClosed;
  }

  /** A closed transport with nothing buffered is the one that `ReadMessage` is sure to refuse to read from. */
  lemma ClosedReadSurelyFails<T>(s: State<T>)
    requires s.closed
    ensures (forall coin :: ReadStep(s, coin).1.ErrClosed?) <==> s.inbox == []
  {
    assert ReadStep(s, false).1 == if s.inbox == [] then ErrClosed else Got(s.inbox[0]);
  }

  /** The transport object, with what each of its four ends has seen so far. */
  class Transport<T> {
    const inSize: nat
    const outSize: nat
    var inbox: seq<T>
    var outbox: seq<T>
    var closed: bool
    ghost var pushed: seq<T>
    ghost var read: seq<T>
    ghost var written: seq<T>
    ghost var taken: seq<T>

    ghost function Current(): State<T>
      reads this
    {
      State(inSize, outSize, inbox, outbox, closed)
    }

    /** In both directions what was accepted is what has come out, in order, then what is buffered. */
    ghost predicate Valid()
      reads this
    {
      && pushed == read + inbox && |inbox| <= inSize
      && written == taken + outbox && |outbox| <= outSize
    }

    constructor (inSize: nat, outSize: nat)
      ensures Valid() && Current() == New(inSize, outSize) && pushed == [] && written == []
    {
      this.inSize, this.outSize := inSize, outSize;
      inbox, outbox, closed := [], [], false;
      pushed, read, written, taken := [], [], [], [];
    }

    /** Accepted once and for all, or refused without a trace; on an open transport refused only when full. */
    method Push(data: T, coin: bool) returns (o: Outcome<T>)
      requires Valid()
      modifies this`inbox, this`pushed
      ensures Valid() && (Current(), o) == PushStep(old(Current()), data, coin)
      ensures pushed == if o.Sent? then old(pushed) + [data] else old(pushed)
      ensures !closed ==> (o.Sent? <==> |old(pushed)| - |read| < inSize)
      ensures o.Sent? || o.ErrFull? || (o.ErrClosed? && closed)
    {
      var room := |inbox| < inSize;
      if closed && (coin || !room) {
        return ErrClosed;
      } else if room {
        inbox := inbox + [data];
        pushed := pushed + [data];
        return Sent;
      }
      o := ErrFull;
    }

    method WriteMessage(data: T, coin: bool) returns (o: Outcome<T>)
      requires Valid()
      modifies this`outbox, this`written
      ensures Valid() && (Current(), o) == WriteStep(old(Current()), data, coin)
      ensures written == if o.Sent? then old(written) + [data] else old(written)
      ensures !closed ==> (o.Sent? <==> |old(written)| - |taken| < outSize)
      ensures o.Sent? || o.ErrFull? || (o.ErrClosed? && closed)
    {
      var room := |outbox| < outSize;
      if closed && (coin || !room) {
        return ErrClosed;
      } else if room {
        outbox := outbox + [data];
        written := written + [data];
        return Sent;
      }
      o := ErrFull;
    }

    /** The n-th message read is the n-th message pushed; a reader blocks only if it has read them all. */
    method ReadMessage(coin: bool) returns (o: Outcome<T>)
      requires Valid()
      modifies this`inbox, this`read
      ensures Valid() && (Current(), o) == ReadStep(old(Current()), coin)
      ensures o.Got? ==> |old(read)| < |pushed| && o.data == pushed[|old(read)|] && read == old(read) + [o.data]
      ensures !o.Got? ==> read == old(read) && if o.WouldBlock? then !closed && read == pushed else closed
    {
      if closed && (coin || inbox == []) {
        return ErrClosed;
      } else if inbox != [] {
        o := Got(inbox[0]);
        read := read + [inbox[0]];
        inbox := inbox[1..];
        return;
      }
      o := WouldBlock;
    }

    /** A receive from `Out`: the n-th message taken is the n-th one written. */
    method TakeOut() returns (o: Outcome<T>)
      requires Valid()
      modifies this`outbox, this`taken
      ensures Valid() && (Current(), o) == TakeStep(old(Current()))
      ensures o.Got? ==> |old(taken)| < |written| && o.data == written[|old(taken)|] && taken == old(taken) + [o.data]
      ensures !o.Got? ==> o.WouldBlock? && taken == old(taken) == written
    {
      if outbox == [] {
        return WouldBlock;
      }
      o := Got(outbox[0]);
      taken := taken + [outbox[0]];
      outbox := outbox[1..];
    }

    /** No reader stays blocked on a closed transport, nothing buffered is lost, and closing again does nothing. */
    method Close()
      requires Valid()
      modifies this`closed
      ensures Valid() && Current() == old(Current()).(closed := true)
      ensures forall coin :: !ReadStep(Current(), coin).1.WouldBlock?
      ensures old(closed) ==> Current() == old(Current())
    {
      closed := true;
    }
  }
}
