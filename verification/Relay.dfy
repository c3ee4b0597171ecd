/** The relay object of pkg/wmp/relay/relay.go, with its slices and their in-place compaction. */
module Relay {
  import opened Options
  import opened RelayHistory

  /** A Go slice that starts at the beginning of its backing array. */
  datatype Slice = Slice(buf: array<Message>, len: nat)

  /** The slice's elements are `q`. */
  ghost predicate Holds(s: Slice, q: seq<Message>)
    reads s.buf
  {
    s.len <= s.buf.Length && s.buf[..s.len] == q
  }

  /**
   * The `queue[:0]` loop: keeps the unexpired messages of `buf[..len]`, in order, at the front of the
   * same array. The write index never passes the read index, so no unread element is overwritten.
   */
  method Compact(buf: array<Message>, len: nat, now: Time) returns (kept: nat)
    requires len <= buf.Length
    modifies buf
    ensures kept <= len
    ensures buf[..kept] == Unexpired(old(buf[..len]), now)
    ensures buf[len..] == old(buf[len..])
  {
    kept := 0;
    var i := 0;
    while i < len
      invariant kept <= i <= len
      invariant buf[..kept] == Unexpired(old(buf[..i]), now)
      invariant forall j :: i <= j < buf.Length ==> buf[j] == old(buf[j])
    {
      UnexpiredSnoc(old(buf[..i]), old(buf[i]), now);
      assert old(buf[..i + 1]) == old(buf[..i]) + [old(buf[i])];
      if now < buf[i].expiresAt {
        buf[kept] := buf[i];
        kept := kept + 1;
      }
      i := i + 1;
    }
  }

  /** `append`: in place while the backing array has room, into a larger array otherwise. */
  method Append(s: Slice, m: Message) returns (r: Slice)
    requires s.len <= s.buf.Length
    modifies s.buf
    ensures r.len == s.len + 1 <= r.buf.Length
    ensures r.buf[..r.len] == old(s.buf[..s.len]) + [m]
    ensures r.buf == s.buf || fresh(r.buf)
  {
    var buf := s.buf;
    if s.len == buf.Length {
      buf := new Message[2 * s.len + 1];
      for i := 0 to s.len
        invariant buf[..i] == s.buf[..i]
        invariant s.buf[..] == old(s.buf[..])
      {
        buf[i] := s.buf[i];
      }
    }
    buf[s.len] := m;
    r := Slice(buf, s.len + 1);
  }

  /** The copying loop of `Drain`. */
  method CopyUnexpired(s: Slice, now: Time) returns (messages: seq<Message>)
    requires s.len <= s.buf.Length
    ensures messages == Unexpired(s.buf[..s.len], now)
  {
    messages := [];
    for i := 0 to s.len
      invariant messages == Unexpired(s.buf[..i], now)
    {
      UnexpiredSnoc(s.buf[..i], s.buf[i], now);
      assert s.buf[..i + 1] == s.buf[..i] + [s.buf[i]];
      if now < s.buf[i].expiresAt {
        messages := messages + [s.buf[i]];
      }
    }
  }

  /** Compacting (to `mid`) and then appending (to `after`) is the whole `Enqueue`. */
  lemma EnqueueHalves(c: Config, before: RelayState, mid: RelayState, after: RelayState, accepted: bool, p: string,
                      data: string, now: Time)
    requires mid == before.(queues := before.queues[p := Unexpired(QueueOf(before, p), now)])
    requires accepted == (|mid.queues[p]| < c.maxQueueSize)
    requires after == if accepted then Appended(mid, p, NewMessage(c, data, now)) else mid
    ensures (after, Verdict(accepted)) == Step(c, before, Op(now, Enqueue(p, data)))
  {
    var live := Unexpired(QueueOf(before, p), now);
    var q := live + [NewMessage(c, data, now)];
    assert before.queues[p := live][p := q] == before.queues[p := q];
  }

  /** The message at the end of a queue that exists. */
  function Appended(s: RelayState, p: string, m: Message): RelayState
    requires p in s.queues
  {
    s.(queues := s.queues[p := s.queues[p] + [m]])
  }

  const REGISTER_METHOD := "wmp.relay.register"
  const SECOND := 1_000_000_000

  /** What `HandleMethod` returns. */
  datatype Reply = UnknownMethod | InvalidParams | SenderRequired | Registered(ttlSeconds: int)

  class Relay {
    const config: Config
    var registrations: map<string, Registration>
    var queues: map<string, Slice>
    /** The abstract state; `Valid` ties it to the fields above. */
    ghost var state: RelayState

    /** Every backing array allocated so far. */
    ghost var buffers: set<array<Message>>

    /** Slices are in range, no two share a backing array, and each holds its abstract queue. */
    ghost predicate Valid()
      reads this, buffers
    {
      && Sane(config)
      && state.registrations == registrations
      && state.queues.Keys == queues.Keys
      && Unshared()
      && forall p :: p in queues ==> queues[p].buf in buffers && Holds(queues[p], state.queues[p])
    }

    ghost predicate Unshared()
      reads this
    {
      forall p, q :: p in queues && q in queues && queues[p].buf == queues[q].buf ==> p == q
    }

    /** Valid but for what participant `id`'s slice, which has array `buf` if it exists, holds. */
    ghost predicate ValidBut(id: string, buf: array<Message>)
      reads this, buffers
    {
      && Sane(config)
      && state.registrations == registrations
      && state.queues.Keys == queues.Keys
      && Unshared()
      && (forall p :: p in queues && p != id ==>
            queues[p].buf in buffers && queues[p].buf != buf && Holds(queues[p], state.queues[p]))
    }

    /** `queues[id] = s`, for a slice that shares its array with no other. */
    method Store(id: string, s: Slice, ghost q: seq<Message>)
      requires ValidBut(id, s.buf) && Holds(s, q)
      modifies this`queues, this`state, this`buffers
      ensures Valid() && buffers == old(buffers) + {s.buf} && id in queues && queues[id] == s
      ensures state == old(state).(queues := old(state).queues[id := q])
    {
      buffers := buffers + {s.buf};
      queues := queues[id := s];
      state := state.(queues := state.queues[id := q]);
    }

    /** `delete(queues, id)`. */
    method Remove(id: string, ghost buf: array<Message>)
      requires ValidBut(id, buf)
      modifies this`queues, this`state
      ensures Valid() && state == old(state).(queues := old(state).queues - {id})
    {
      queues := queues - {id};
      state := state.(queues := state.queues - {id});
    }

    constructor (c: Config)
      ensures Valid() && config == Defaults(c) && state == RelayState(map[], map[])
    {
      config := Defaults(c);
      registrations := map[];
      queues := map[];
      state := RelayState(map[], map[]);
      buffers := {};
    }

    /** `HandleMethod`; `sender` is what the parameters decode to, if they do. */
    method HandleMethod(name: string, sender: Option<string>, now: Time) returns (r: Reply)
      requires Valid()
      modifies this`registrations, this`state
      ensures Valid()
      ensures name != "wmp.relay.register" ==> r == UnknownMethod && state == old(state)
      ensures name == "wmp.relay.register" && sender.None? ==> r == InvalidParams && state == old(state)
      ensures name == "wmp.relay.register" && sender.Some? ==>
                && state == Step(config, old(state), Op(now, Register(sender.value))).0
                && (sender.value == "" ==> r == SenderRequired && state == old(state))
                && (sender.value != "" ==> r == Registered(config.registrationTtl / 1_000_000_000))
    {
      if name != REGISTER_METHOD {
        return UnknownMethod;
      }
      if sender.None? {
        return InvalidParams;
      }
      var p := sender.value;
      if p == "" {
        return SenderRequired;
      }
      registrations := registrations[p := Registration(p, now, now + config.registrationTtl)];
      state := state.(registrations := registrations);
      r := Registered(config.registrationTtl / SECOND);
    }

    method Unregister(participant: string)
      requires Valid()
      modifies this`registrations, this`state
      ensures Valid() && forall now :: state == Step(config, old(state), Op(now, Action.Unregister(participant))).0
    {
      registrations := registrations - {participant};
      state := state.(registrations := registrations);
    }

    method IsRegistered(participant: string, now: Time) returns (registered: bool)
      requires Valid()
      ensures (state, Answer(registered)) == Step(config, state, Op(now, Action.IsRegistered(participant)))
      ensures registered <==> participant in registrations && now < registrations[participant].expiresAt
    {
      registered := participant in registrations && now < registrations[participant].expiresAt;
    }

    method Enqueue(participant: string, data: string, now: Time) returns (accepted: bool)
      requires Valid()
      modifies this`queues, this`state, this`buffers, buffers
      ensures Valid() && fresh(buffers - old(buffers))
      ensures (state, Verdict(accepted)) == Step(config, old(state), Op(now, Action.Enqueue(participant, data)))
      ensures var live := Unexpired(QueueOf(old(state), participant), now);
              && (accepted <==> |live| < config.maxQueueSize)
              && QueueOf(state, participant)
                 == if accepted then live + [Message(data, now, now + config.messageTtl)] else live
    {
      var length := DropExpired(participant, now);
      ghost var mid := state;
      accepted := length < config.maxQueueSize;
      if accepted {
        AppendTo(participant, Message(data, now, now + config.messageTtl));
      }
      EnqueueHalves(config, old(state), mid, state, accepted, participant, data, now);
    }

    /** The second half of `Enqueue`. */
    method AppendTo(participant: string, m: Message)
      requires Valid() && participant in queues
      modifies this`queues, this`state, this`buffers, buffers
      ensures Valid() && fresh(buffers - old(buffers))
      ensures state == Appended(old(state), participant, m)
    {
      var s := Append(queues[participant], m);
      Store(participant, s, state.queues[participant] + [m]);
    }

    /** The first half of `Enqueue`: compact one queue in place and store the shortened slice. */
    method DropExpired(participant: string, now: Time) returns (length: nat)
      requires Valid()
      modifies this`queues, this`state, this`buffers, buffers
      ensures Valid() && fresh(buffers - old(buffers))
      ensures participant in queues && length == |state.queues[participant]|
      ensures state == old(state.(queues := state.queues[participant := Unexpired(QueueOf(state, participant), now)]))
    {
      var s: Slice;
      if participant in queues {
        s := queues[participant];
      } else {
        var empty := new Message[0];
        s := Slice(empty, 0);
      }
      ghost var q := QueueOf(state, participant);
      assert Holds(s, q);
      var kept := Compact(s.buf, s.len, now);
      Store(participant, Slice(s.buf, kept), Unexpired(q, now));
      length := kept;
    }

    /** `isNil` tells the nil result from an empty list. */
    method Drain(participant: string, now: Time) returns (messages: seq<Message>, isNil: bool)
      requires Valid()
      modifies this`queues, this`state
      ensures Valid()
      ensures (state, Messages(messages)) == Step(config, old(state), Op(now, Action.Drain(participant)))
      ensures isNil == (QueueOf(old(state), participant) == [])
      ensures messages == Unexpired(QueueOf(old(state), participant), now) && QueueOf(state, participant) == []
    {
      if participant !in queues || queues[participant].len == 0 {
        return [], true;
      }
      messages := CopyUnexpired(queues[participant], now);
      isNil := false;
      Remove(participant, queues[participant].buf);
    }

    method PurgeExpired(now: Time)
      requires Valid()
      modifies this`registrations, this`queues, this`state, this`buffers, buffers
      ensures Valid() && buffers == old(buffers)
      ensures state == Step(config, old(state), Op(now, Action.PurgeExpired)).0
      ensures registrations
              == map p | p in old(registrations) && now <= old(registrations)[p].expiresAt :: old(registrations)[p]
    {
      PurgeRegistrations(now);
      PurgeQueues(now);
    }

    method PurgeRegistrations(now: Time)
      requires Valid()
      modifies this`registrations, this`state
      ensures Valid()
      ensures state == old(state).(registrations := PurgeStep(old(state), now).registrations)
    {
      var todo := registrations.Keys;
      while todo != {}
        invariant todo <= registrations.Keys <= old(registrations).Keys
        invariant forall p :: p in old(registrations) ==>
                    (p in registrations <==> p in todo || now <= old(registrations)[p].expiresAt)
        invariant forall p :: p in registrations ==> registrations[p] == old(registrations)[p]
        invariant state == old(state)
      {
        var id :| id in todo;
        if now > registrations[id].expiresAt {
          registrations := registrations - {id};
        }
        todo := todo - {id};
      }
      assert registrations == PurgeStep(old(state), now).registrations;
      state := state.(registrations := registrations);
    }

    /** The abstract queues halfway through the purge, with the participants in `todo` still to visit. */
    ghost static predicate PurgedExcept(before: map<string, seq<Message>>, after: map<string, seq<Message>>,
                                        todo: set<string>, now: Time) {
      && todo <= after.Keys <= before.Keys
      && (forall p :: p in todo ==> p in after && p in before && after[p] == before[p])
      && (forall p :: p in before && p !in todo ==> (p in after <==> Unexpired(before[p], now) != []))
      && (forall p :: p in after && p !in todo ==> p in before && after[p] == Unexpired(before[p], now))
    }

    method PurgeQueues(now: Time)
      requires Valid()
      modifies this`queues, this`state, this`buffers, buffers
      ensures Valid() && buffers == old(buffers)
      ensures state == old(state).(queues := PurgeStep(old(state), now).queues)
    {
      ghost var before := state.queues;
      var todo := queues.Keys;
      while todo != {}
        invariant Valid() && buffers == old(buffers)
        invariant state == old(state).(queues := state.queues)
        invariant PurgedExcept(before, state.queues, todo, now)
      {
        var id :| id in todo;
        ghost var mid := state.queues;
        PurgeQueue(id, now);
        PurgedOneMore(before, mid, state.queues, todo, id, now);
        todo := todo - {id};
      }
      PurgedAll(old(state), state.queues, now);
    }

    static lemma PurgedOneMore(before: map<string, seq<Message>>, mid: map<string, seq<Message>>,
                               after: map<string, seq<Message>>, todo: set<string>, id: string, now: Time)
      requires PurgedExcept(before, mid, todo, now) && id in todo
      requires var live := Unexpired(mid[id], now); after == if live == [] then mid - {id} else mid[id := live]
      ensures PurgedExcept(before, after, todo - {id}, now)
    {
    }

    static lemma PurgedAll(before: RelayState, after: map<string, seq<Message>>, now: Time)
      requires PurgedExcept(before.queues, after, {}, now)
      ensures after == PurgeStep(before, now).queues
    {
      assert after.Keys == PurgeStep(before, now).queues.Keys;
    }

    method PurgeQueue(id: string, now: Time)
      requires Valid() && id in queues
      modifies this`queues, this`state, this`buffers, buffers
      ensures Valid() && buffers == old(buffers)
      ensures var live := Unexpired(old(state).queues[id], now);
              var qs := old(state).queues;
              state == old(state).(queues := if live == [] then qs - {id} else qs[id := live])
    {
      var s := queues[id];
      ghost var q := state.queues[id];
      assert Holds(s, q);
      ghost var live := Unexpired(q, now);
      var kept := Compact(s.buf, s.len, now);
      assert Holds(Slice(s.buf, kept), live);
      if kept == 0 {
        Remove(id, s.buf);
      } else {
        Store(id, Slice(s.buf, kept), live);
      }
    }

    method QueueLength(participant: string) returns (n: nat)
      requires Valid()
      ensures n == |QueueOf(state, participant)|
    {
      n := if participant in queues then queues[participant].len else 0;
    }
  }
}
