/** The server's replay buffer for Server-Sent Events (pkg/wmp/httpsse/httpsse.go). */
module EventWindow {
  import opened Text

  datatype Event = Event(id: string, data: string)

  const PREFIX := "evt-"  // the format "evt-%d"

  function EventId(n: nat): string {
    PREFIX + Decimal(n)
  }

  /** The number printed in an event id. */
  function EventNumber(id: string): nat {
    if |id| < |PREFIX| then 0 else DecimalValue(id[|PREFIX|..])
  }

  lemma EventIdRoundTrip(n: nat)
    ensures EventNumber(EventId(n)) == n
    ensures EventId(n) != ""
  {
    assert EventId(n)[|PREFIX|..] == Decimal(n);
    DecimalRoundTrip(n);
  }

  /** Event number `k` (from 1) of a session that has buffered `history`. */
  function EventAt(history: seq<string>, k: nat): Event
    requires 1 <= k <= |history|
  {
    Event(EventId(k), history[k - 1])
  }

  /** Events `from + 1`, ..., `to`. */
  function Numbered(history: seq<string>, from: nat, to: nat): (es: seq<Event>)
    requires from <= to <= |history|
    ensures |es| == to - from
    ensures forall i :: 0 <= i < |es| ==> es[i] == EventAt(history, from + i + 1)
  {
    seq(to - from, i requires 0 <= i < to - from => EventAt(history, from + i + 1))
  }

  /** How many of `n` events are no longer buffered. */
  function Evicted(n: nat, maxEvents: nat): nat {
    if n <= maxEvents then 0 else n - maxEvents
  }

  /** The last `min(n, maxEvents)` events of the history. */
  function Window(history: seq<string>, maxEvents: nat): seq<Event> {
    Numbered(history, Evicted(|history|, maxEvents), |history|)
  }

  /** The events after the first one with the given id; nothing if the id does not occur. */
  function After(events: seq<Event>, id: string): seq<Event> {
    if events == [] then []
    else if events[0].id == id then events[1..]
    else After(events[1..], id)
  }

  lemma {:induction false} AfterAt(events: seq<Event>, id: string, i: nat)
    requires i < |events| && events[i].id == id
    requires forall j :: 0 <= j < i ==> events[j].id != id
    ensures After(events, id) == events[i + 1..]
  {
    if i > 0 {
      AfterAt(events[1..], id, i - 1);
    }
  }

  lemma {:induction false} AfterAbsent(events: seq<Event>, id: string)
    requires forall e :: e in events ==> e.id != id
    ensures After(events, id) == []
  {
    if events != [] {
      AfterAbsent(events[1..], id);
    }
  }

  lemma EventIdsDiffer(j: nat, k: nat)
    requires j != k
    ensures EventId(j) != EventId(k)
  {
    EventIdRoundTrip(j);
    EventIdRoundTrip(k);
  }

  /** In a stretch of numbered events, what follows event `k`. */
  lemma AfterNumber(history: seq<string>, low: nat, k: nat)
    requires low < k <= |history|
    ensures After(Numbered(history, low, |history|), EventId(k)) == Numbered(history, k, |history|)
  {
    var es := Numbered(history, low, |history|);
    forall j | 0 <= j < k - low - 1 ensures es[j].id != EventId(k) {
      EventIdsDiffer(low + j + 1, k);
    }
    AfterAt(es, EventId(k), k - low - 1);
    NumberedTail(history, low, k);
  }

  lemma NumberedTail(history: seq<string>, low: nat, k: nat)
    requires low <= k <= |history|
    ensures Numbered(history, low, |history|)[k - low..] == Numbered(history, k, |history|)
  {
  }

  /** Append, then evict the oldest if over the cap. */
  function Buffered(events: seq<Event>, maxEvents: nat, e: Event): seq<Event> {
    var longer := events + [e];
    if |longer| > maxEvents then longer[|longer| - maxEvents..] else longer
  }

  lemma NumberedSnoc(history: seq<string>, from: nat, data: string)
    requires from <= |history|
    ensures Numbered(history + [data], from, |history| + 1)
            == Numbered(history, from, |history|) + [Event(EventId(|history| + 1), data)]
  {
  }

  /** Buffering gives the window of the longer history. */
  lemma WindowGrows(history: seq<string>, maxEvents: nat, data: string)
    requires 1 <= maxEvents
    ensures Window(history + [data], maxEvents)
            == Buffered(Window(history, maxEvents), maxEvents, Event(EventId(|history| + 1), data))
  {
    var low := Evicted(|history|, maxEvents);
    NumberedSnoc(history, low, data);
    if |history| >= maxEvents {
      NumberedTail(history + [data], low, low + 1);
    }
  }

  /**
   * Replaying after event `k` gives exactly the history suffix after `k` if `k` is still buffered,
   * and nothing if it was evicted (or not yet assigned).
   */
  lemma ReplayExact(history: seq<string>, maxEvents: nat, k: nat)
    ensures Evicted(|history|, maxEvents) < k <= |history| ==>
              After(Window(history, maxEvents), EventId(k)) == Numbered(history, k, |history|)
    ensures !(Evicted(|history|, maxEvents) < k <= |history|) ==>
              After(Window(history, maxEvents), EventId(k)) == []
  {
    var low := Evicted(|history|, maxEvents);
    if low < k <= |history| {
      AfterNumber(history, low, k);
    } else {
      forall j | low < j <= |history| ensures EventId(j) != EventId(k) {
        EventIdsDiffer(j, k);
      }
      AfterAbsent(Window(history, maxEvents), EventId(k));
    }
  }

  /** A `Last-Event-ID` that is no retained event's id replays nothing, whatever its text. */
  lemma ReplayUnknown(history: seq<string>, maxEvents: nat, id: string)
    requires forall k :: Evicted(|history|, maxEvents) < k <= |history| ==> id != EventId(k)
    ensures After(Window(history, maxEvents), id) == []
  {
    AfterAbsent(Window(history, maxEvents), id);
  }

  /**
   * A client that has missed exactly `maxEvents` events gets no replay, although every event it
   * missed is still in the buffer.
   */
  lemma FullWindowMissed(history: seq<string>, maxEvents: nat, k: nat)
    requires 1 <= maxEvents && k + maxEvents == |history|
    ensures After(Window(history, maxEvents), EventId(k)) == []
    ensures Window(history, maxEvents) == Numbered(history, k, |history|)
  {
    ReplayExact(history, maxEvents, k);
  }

  /** The id of event `n` is the text "evt-" and the numeral of `n`, and no other text. */
  lemma EventIdExact(n: nat, id: string)
    ensures id == EventId(n) <==>
            |id| >= 4 && id[..4] == "evt-" && Numeral(id[4..]) && DecimalValue(id[4..]) == n
  {
    DecimalRoundTrip(n);
    assert EventId(n)[4..] == Decimal(n);
    if |id| >= 4 && id[..4] == "evt-" && Numeral(id[4..]) && DecimalValue(id[4..]) == n {
      DecimalUnique(id[4..]);
      assert id == id[..4] + id[4..];
    }
  }

  /** The text is "evt-" and a numeral of an event that is still buffered. */
  predicate Retained(id: string, n: nat, maxEvents: nat) {
    && |id| >= 4 && id[..4] == "evt-" && Numeral(id[4..])
    && 1 <= DecimalValue(id[4..]) <= n && n - maxEvents < DecimalValue(id[4..])
  }

  /** The events after event `k`, told by their ids and payloads. */
  ghost predicate SuffixAfter(es: seq<Event>, history: seq<string>, k: nat) {
    && k + |es| == |history|
    && forall i :: 0 <= i < |es| ==> es[i].data == history[k + i] && es[i].id == "evt-" + Decimal(k + i + 1)
  }

  /**
   * Replay for any text a client may send: if it is "evt-" and the numeral of a retained event, exactly
   * the history after that event, each event under its own id; nothing otherwise.
   */
  lemma ReplayOfText(history: seq<string>, maxEvents: nat, id: string)
    ensures Retained(id, |history|, maxEvents) ==>
              SuffixAfter(After(Window(history, maxEvents), id), history, DecimalValue(id[4..]))
    ensures !Retained(id, |history|, maxEvents) ==> After(Window(history, maxEvents), id) == []
  {
    if Retained(id, |history|, maxEvents) {
      EventIdExact(DecimalValue(id[4..]), id);
      ReplayExact(history, maxEvents, DecimalValue(id[4..]));
    } else {
      forall k | Evicted(|history|, maxEvents) < k <= |history| ensures id != EventId(k) {
        EventIdExact(k, id);
      }
      ReplayUnknown(history, maxEvents, id);
    }
  }

  /** The buffer is the last `maxEvents` payloads under their own ids, or all of them. */
  lemma WindowExact(history: seq<string>, maxEvents: nat)
    ensures var w := Window(history, maxEvents);
            && |w| == (if |history| <= maxEvents then |history| else maxEvents)
            && SuffixAfter(w, history, |history| - |w|)
  {
  }

  class ServerSession {
    var events: seq<Event>
    var nextId: nat
    const maxEvents: nat
    /** Every payload ever buffered. */
    ghost var history: seq<string>

    ghost predicate Valid()
      reads this
    {
      && 1 <= maxEvents
      && nextId == |history|
      && events == Window(history, maxEvents)
    }

    constructor (max: int)
      ensures Valid() && history == [] && events == []
      ensures maxEvents == if max <= 0 then 200 else max
    {
      maxEvents := if max <= 0 then 200 else max;
      events := [];
      nextId := 0;
      history := [];
    }

    method BufferEvent(data: string) returns (id: string)
      requires Valid()
      modifies this
      ensures Valid()
      ensures history == old(history) + [data]
      ensures id == "evt-" + Decimal(|history|) == EventId(|history|)
      ensures |events| == (if |history| <= maxEvents then |history| else maxEvents)
      ensures SuffixAfter(events, history, |history| - |events|)
    {
      ghost var h := history + [data];
      WindowGrows(history, maxEvents, data);
      WindowExact(h, maxEvents);
      nextId := nextId + 1;
      id := EventId(nextId);
      events := Buffered(events, maxEvents, Event(id, data));
      history := h;
    }

    method ReplayAfter(lastEventId: string) returns (result: seq<Event>)
      requires Valid()
      ensures result == After(Window(history, maxEvents), lastEventId)
      ensures Retained(lastEventId, |history|, maxEvents) ==>
                SuffixAfter(result, history, DecimalValue(lastEventId[4..]))
      ensures !Retained(lastEventId, |history|, maxEvents) ==> result == []
    {
      ReplayOfText(history, maxEvents, lastEventId);
      if lastEventId == "" {
        return [];
      }
      var i := 0;
      while i < |events|
        invariant 0 <= i <= |events|
        invariant After(events, lastEventId) == After(events[i..], lastEventId)
      {
        if events[i].id == lastEventId && i + 1 < |events| {
          return events[i + 1..];
        }
        i := i + 1;
      }
      result := [];
    }
  }
}
