/**
 * Reconnection with `Last-Event-ID`, end to end: the server's window, the bytes on the wire, a cut
 * at any byte, and the client's committed id (pkg/wmp/httpsse/httpsse.go).
 */
module SseResume {
  import opened Text
  import opened EventWindow
  import opened SseFraming
  import opened Folds

  /** One connection: the payloads sent live during it, and how many bytes of it reach the client. */
  datatype Connection = Connection(live: seq<string>, cut: nat)

  /** Server history, client's committed id, and everything the client has delivered. */
  datatype Session = Session(history: seq<string>, last: string, delivered: seq<Event>)

  const START := Session([], "", [])

  function Min(a: nat, b: nat): nat {
    if a <= b then a else b
  }

  /** The events `handleSSE` writes: the replay, then the live events as they are buffered. */
  function Written(maxEvents: nat, s: Session, c: Connection): seq<Event> {
    After(Window(s.history, maxEvents), s.last)
    + Numbered(s.history + c.live, |s.history|, |s.history + c.live|)
  }

  function Received(maxEvents: nat, s: Session, c: Connection): Reader {
    var stream := Stream(Written(maxEvents, s, c));
    ReadStream(stream[..Min(c.cut, |stream|)], s.last)
  }

  function Connect(maxEvents: nat, s: Session, c: Connection): Session {
    var r := Received(maxEvents, s, c);
    Session(s.history + c.live, r.last, s.delivered + r.delivered)
  }

  function Run(maxEvents: nat, s: Session, cs: seq<Connection>): Session {
    if cs == [] then s else Connect(maxEvents, Run(maxEvents, s, cs[..|cs| - 1]), cs[|cs| - 1])
  }

  predicate GoodPayloads(cs: seq<Connection>) {
    forall c :: c in cs ==> forall p :: p in c.live ==> Transportable(p)
  }

  /** The event numbers the client has delivered, in delivery order. */
  function Numbers(es: seq<Event>): (ns: seq<nat>)
    ensures |ns| == |es|
    ensures forall i :: 0 <= i < |ns| ==> ns[i] == EventNumber(es[i].id)
  {
    seq(|es|, i requires 0 <= i < |es| => EventNumber(es[i].id))
  }

  ghost predicate Increasing(ns: seq<nat>) {
    forall i, j :: 0 <= i < j < |ns| ==> ns[i] < ns[j]
  }

  ghost predicate Contiguous(ns: seq<nat>) {
    forall i :: 0 < i < |ns| ==> ns[i] == ns[i - 1] + 1
  }

  /** The number of the last event the client has seen; 0 before the first. */
  function LastSeen(s: Session): nat {
    if s.delivered == [] then 0 else EventNumber(s.delivered[|s.delivered| - 1].id)
  }

  /** Buffered events the client has not seen. */
  function Missed(s: Session): int {
    |s.history| - LastSeen(s)
  }

  ghost predicate Genuine(history: seq<string>, e: Event) {
    var k := EventNumber(e.id);
    1 <= k <= |history| && e == EventAt(history, k)
  }

  /** What every connection keeps. */
  ghost predicate Inv(s: Session) {
    && (forall p :: p in s.history ==> Transportable(p))
    && (forall e :: e in s.delivered ==> Genuine(s.history, e))
    && Increasing(Numbers(s.delivered))
    && s.last == (if s.delivered == [] then "" else s.delivered[|s.delivered| - 1].id)
  }

  lemma NumberedWellFormed(history: seq<string>, from: nat, to: nat)
    requires from <= to <= |history|
    requires forall p :: p in history ==> Transportable(p)
    ensures forall e :: e in Numbered(history, from, to) ==> WellFormed(e)
  {
    forall e | e in Numbered(history, from, to) ensures WellFormed(e) {
      var es := Numbered(history, from, to);
      var i :| 0 <= i < |es| && es[i] == e;
      var n := from + i + 1;
      var digits := Decimal(n);
      var id := EventId(n);
      assert digits[|digits| - 1] in digits;
      assert id[|id| - 1] == digits[|digits| - 1];
      assert e.data in history;
    }
  }

  /** The number of the event that precedes the first one written. */
  function Base(maxEvents: nat, s: Session): nat {
    if s.delivered != [] && Missed(s) < maxEvents then LastSeen(s) else |s.history|
  }

  /** A client that has seen nothing asks for no id, and gets no replay. */
  lemma NoReplayAtFirst(maxEvents: nat, history: seq<string>)
    ensures After(Window(history, maxEvents), "") == []
  {
    forall k ensures EventId(k) != "" { EventIdRoundTrip(k); }
    ReplayUnknown(history, maxEvents, "");
  }

  lemma ReplayAfterLast(maxEvents: nat, s: Session)
    requires Inv(s) && s.delivered != []
    ensures 1 <= LastSeen(s) <= |s.history| && s.last == EventId(LastSeen(s))
    ensures After(Window(s.history, maxEvents), s.last) == Numbered(s.history, Base(maxEvents, s), |s.history|)
  {
    assert s.delivered[|s.delivered| - 1] in s.delivered;
    ReplayExact(s.history, maxEvents, LastSeen(s));
  }

  /** The replay is exactly the stretch from `Base` to the end of the history. */
  lemma ReplayIsStretch(maxEvents: nat, s: Session)
    requires Inv(s)
    ensures Base(maxEvents, s) <= |s.history|
    ensures After(Window(s.history, maxEvents), s.last) == Numbered(s.history, Base(maxEvents, s), |s.history|)
  {
    if s.delivered == [] {
      NoReplayAtFirst(maxEvents, s.history);
    } else {
      ReplayAfterLast(maxEvents, s);
    }
  }

  lemma NumberedConcat(h: seq<string>, live: seq<string>, base: nat)
    requires base <= |h|
    ensures Numbered(h, base, |h|) + Numbered(h + live, |h|, |h + live|) == Numbered(h + live, base, |h + live|)
  {
  }

  /** What a connection writes is one consecutive stretch of the (extended) history. */
  lemma WrittenIsStretch(maxEvents: nat, s: Session, c: Connection)
    requires Inv(s)
    ensures Base(maxEvents, s) <= |s.history|
    ensures Written(maxEvents, s, c) == Numbered(s.history + c.live, Base(maxEvents, s), |s.history + c.live|)
  {
    ReplayIsStretch(maxEvents, s);
    NumberedConcat(s.history, c.live, Base(maxEvents, s));
  }

  /** What is written can be carried by the wire format. */
  lemma WrittenWellFormed(maxEvents: nat, s: Session, c: Connection)
    requires Inv(s) && GoodPayloads([c])
    ensures forall e :: e in Written(maxEvents, s, c) ==> WellFormed(e)
  {
    var h := s.history + c.live;
    assert c in [c];
    WrittenIsStretch(maxEvents, s, c);
    NumberedWellFormed(h, Base(maxEvents, s), |h|);
  }

  /** The reader delivered the stretch of the history that starts after `base`, and committed its last id. */
  ghost predicate Delivers(r: Reader, h: seq<string>, base: nat, last: string) {
    && base + |r.delivered| <= |h|
    && r.delivered == Numbered(h, base, base + |r.delivered|)
    && r.last == (if r.delivered == [] then last else r.delivered[|r.delivered| - 1].id)
  }

  lemma PrefixDelivers(r: Reader, es: seq<Event>, h: seq<string>, base: nat, last: string)
    requires base <= |h| && es == Numbered(h, base, |h|) && r.delivered <= es
    requires r.last == (if r.delivered == [] then last else r.delivered[|r.delivered| - 1].id)
    ensures Delivers(r, h, base, last)
  {
  }

  /** A cut stream of a stretch of the history delivers the beginning of that stretch. */
  lemma CutStretch(es: seq<Event>, h: seq<string>, base: nat, cut: nat, last: string)
    requires base <= |h| && es == Numbered(h, base, |h|) && forall e :: e in es ==> WellFormed(e)
    requires cut <= |Stream(es)|
    ensures Delivers(ReadStream(Stream(es)[..cut], last), h, base, last)
  {
    TruncatedReadBack(es, cut, last);
    PrefixDelivers(ReadStream(Stream(es)[..cut], last), es, h, base, last);
  }

  /** A connection delivers a consecutive stretch of the history, starting right after `Base`. */
  lemma ConnectDelivers(maxEvents: nat, s: Session, c: Connection)
    requires Inv(s) && GoodPayloads([c])
    ensures Delivers(Received(maxEvents, s, c), s.history + c.live, Base(maxEvents, s), s.last)
  {
    var h, base, es := s.history + c.live, Base(maxEvents, s), Written(maxEvents, s, c);
    WrittenWellFormed(maxEvents, s, c);
    WrittenIsStretch(maxEvents, s, c);
    CutStretch(es, h, base, Min(c.cut, |Stream(es)|), s.last);
  }

  lemma NumbersOfNumbered(history: seq<string>, from: nat, to: nat)
    requires from <= to <= |history|
    ensures forall i :: 0 <= i < to - from ==> Numbers(Numbered(history, from, to))[i] == from + i + 1
    ensures forall e :: e in Numbered(history, from, to) ==> Genuine(history, e)
  {
    forall n ensures EventNumber(EventId(n)) == n { EventIdRoundTrip(n); }
  }

  lemma StretchNumbers(h: seq<string>, base: nat, got: seq<Event>)
    requires base + |got| <= |h| && got == Numbered(h, base, base + |got|)
    ensures forall i :: 0 <= i < |got| ==> Numbers(got)[i] == base + i + 1
    ensures forall e :: e in got ==> Genuine(h, e)
  {
    NumbersOfNumbered(h, base, base + |got|);
  }

  lemma IncreasingAppend(ns0: seq<nat>, ns1: seq<nat>, base: nat)
    requires Increasing(ns0) && (ns0 != [] ==> ns0[|ns0| - 1] <= base)
    requires forall i :: 0 <= i < |ns1| ==> ns1[i] == base + i + 1
    ensures Increasing(ns0 + ns1)
  {
    assert forall i :: 0 <= i < |ns0| ==> ns0[i] <= ns0[|ns0| - 1];
  }

  lemma ContiguousAppend(ns0: seq<nat>, ns1: seq<nat>, base: nat)
    requires forall i :: 0 <= i < |ns1| ==> ns1[i] == base + i + 1
    ensures Contiguous(ns0 + ns1) <==> Contiguous(ns0) && (ns0 != [] && ns1 != [] ==> ns0[|ns0| - 1] == base)
  {
    var ns := ns0 + ns1;
    if Contiguous(ns) {
      forall i | 0 < i < |ns0| ensures ns0[i] == ns0[i - 1] + 1 {
        assert ns[i] == ns[i - 1] + 1;
      }
      if ns0 != [] && ns1 != [] {
        assert ns[|ns0|] == ns[|ns0| - 1] + 1;
      }
    }
  }

  lemma NumbersConcat(xs: seq<Event>, ys: seq<Event>)
    ensures Numbers(xs + ys) == Numbers(xs) + Numbers(ys)
  {
  }

  lemma GenuineGrows(h: seq<string>, h': seq<string>, e: Event)
    requires h <= h' && Genuine(h, e)
    ensures Genuine(h', e)
  {
  }

  lemma NumbersIncrease(s: Session, base: nat, got: seq<Event>)
    requires Increasing(Numbers(s.delivered)) && LastSeen(s) <= base
    requires forall i :: 0 <= i < |got| ==> Numbers(got)[i] == base + i + 1
    ensures Increasing(Numbers(s.delivered + got))
  {
    IncreasingAppend(Numbers(s.delivered), Numbers(got), base);
    NumbersConcat(s.delivered, got);
  }

  lemma LastOfConcat(xs: seq<Event>, ys: seq<Event>)
    requires ys != []
    ensures (xs + ys)[|xs + ys| - 1] == ys[|ys| - 1]
  {
  }

  lemma AllGenuine(delivered: seq<Event>, got: seq<Event>, history: seq<string>, h: seq<string>)
    requires history <= h
    requires (forall e :: e in delivered ==> Genuine(history, e)) && forall e :: e in got ==> Genuine(h, e)
    ensures forall e :: e in delivered + got ==> Genuine(h, e)
  {
    forall e | e in delivered ensures Genuine(h, e) {
      GenuineGrows(history, h, e);
    }
  }

  /** Delivering a stretch of the history that starts after `base` keeps the invariant. */
  lemma ExtendKeeps(s: Session, live: seq<string>, base: nat, r: Reader)
    requires Inv(s) && (forall p :: p in live ==> Transportable(p))
    requires LastSeen(s) <= base && Delivers(r, s.history + live, base, s.last)
    ensures Inv(Session(s.history + live, r.last, s.delivered + r.delivered))
  {
    var h, got := s.history + live, r.delivered;
    var all := s.delivered + got;
    StretchNumbers(h, base, got);
    NumbersIncrease(s, base, got);
    AllGenuine(s.delivered, got, s.history, h);
    assert r.last == (if all == [] then "" else all[|all| - 1].id) by {
      if got == [] {
        assert all == s.delivered;
      } else {
        LastOfConcat(s.delivered, got);
      }
    }
  }

  lemma LastSeenAtMostBase(maxEvents: nat, s: Session)
    requires Inv(s)
    ensures LastSeen(s) <= Base(maxEvents, s)
  {
    if s.delivered != [] {
      assert s.delivered[|s.delivered| - 1] in s.delivered;
    }
  }

  lemma ConnectKeeps(maxEvents: nat, s: Session, c: Connection)
    requires Inv(s) && GoodPayloads([c])
    ensures Inv(Connect(maxEvents, s, c))
  {
    var r := Received(maxEvents, s, c);
    ConnectDelivers(maxEvents, s, c);
    LastSeenAtMostBase(maxEvents, s);
    assert c in [c];
    ExtendKeeps(s, c.live, Base(maxEvents, s), r);
  }

  lemma {:induction false} RunKeeps(maxEvents: nat, cs: seq<Connection>)
    requires GoodPayloads(cs)
    ensures Inv(Run(maxEvents, START, cs))
  {
    if cs != [] {
      var c := cs[|cs| - 1];
      assert c in cs;
      RunKeeps(maxEvents, cs[..|cs| - 1]);
      ConnectKeeps(maxEvents, Run(maxEvents, START, cs[..|cs| - 1]), c);
    }
  }

  /** Over any number of disconnects ids strictly increase, and every payload is the one buffered under its id. */
  lemma DeliveriesIncrease(maxEvents: nat, cs: seq<Connection>)
    requires GoodPayloads(cs)
    ensures var s := Run(maxEvents, START, cs);
            && Increasing(Numbers(s.delivered))
            && forall e :: e in s.delivered ==> Genuine(s.history, e)
  {
    RunKeeps(maxEvents, cs);
  }

  // ---- Contiguity ----

  /** The connection resumes a client that has already seen something, and delivers something. */
  ghost predicate Resumes(maxEvents: nat, s: Session, c: Connection) {
    s.delivered != [] && Received(maxEvents, s, c).delivered != []
  }

  /** Every resuming connection of the run finds at most `maxEvents - 1` missed events. */
  ghost predicate ShortOutages(maxEvents: nat, cs: seq<Connection>) {
    forall j :: 0 <= j < |cs| ==> ShortOutage(maxEvents, Run(maxEvents, START, cs[..j]), cs[j])
  }

  ghost predicate ShortOutage(maxEvents: nat, s: Session, c: Connection) {
    Resumes(maxEvents, s, c) ==> Missed(s) <= maxEvents - 1
  }

  lemma ShortOutagesSnoc(maxEvents: nat, cs: seq<Connection>, c: Connection)
    ensures ShortOutages(maxEvents, cs + [c]) <==>
            ShortOutages(maxEvents, cs) && ShortOutage(maxEvents, Run(maxEvents, START, cs), c)
  {
    var all := cs + [c];
    forall j | 0 <= j <= |cs| ensures all[..j] == cs[..j] {
    }
    assert cs[..|cs|] == cs && all[|cs|] == c;
    if ShortOutages(maxEvents, all) {
      assert ShortOutage(maxEvents, Run(maxEvents, START, all[..|cs|]), all[|cs|]);
      forall j | 0 <= j < |cs| ensures ShortOutage(maxEvents, Run(maxEvents, START, cs[..j]), cs[j]) {
        assert ShortOutage(maxEvents, Run(maxEvents, START, all[..j]), all[j]);
      }
    }
  }

  lemma ConnectContiguous(maxEvents: nat, s: Session, c: Connection)
    requires 1 <= maxEvents && Inv(s) && GoodPayloads([c])
    ensures var got := Received(maxEvents, s, c).delivered;
            Contiguous(Numbers(s.delivered + got)) <==>
            Contiguous(Numbers(s.delivered)) && (s.delivered != [] && got != [] ==> Missed(s) <= maxEvents - 1)
  {
    var got := Received(maxEvents, s, c).delivered;
    ConnectDelivers(maxEvents, s, c);
    StretchContiguous(maxEvents, s, s.history + c.live, got);
  }

  lemma StretchContiguous(maxEvents: nat, s: Session, h: seq<string>, got: seq<Event>)
    requires 1 <= maxEvents && Inv(s) && Base(maxEvents, s) + |got| <= |h|
    requires got == Numbered(h, Base(maxEvents, s), Base(maxEvents, s) + |got|)
    ensures Contiguous(Numbers(s.delivered + got)) <==>
            Contiguous(Numbers(s.delivered)) && (s.delivered != [] && got != [] ==> Missed(s) <= maxEvents - 1)
  {
    var base := Base(maxEvents, s);
    StretchNumbers(h, base, got);
    ContiguousAppend(Numbers(s.delivered), Numbers(got), base);
    NumbersConcat(s.delivered, got);
    if s.delivered != [] {
      assert s.delivered[|s.delivered| - 1] in s.delivered;
    }
  }

  /**
   * The exact bound of the resume protocol: once a first event has arrived, nothing is ever skipped
   * if and only if every connection that resumed and delivered something found at most
   * `maxEvents - 1` missed events.
   */
  lemma {:induction false} ContiguousIffShortOutages(maxEvents: nat, cs: seq<Connection>)
    requires 1 <= maxEvents && GoodPayloads(cs)
    ensures Contiguous(Numbers(Run(maxEvents, START, cs).delivered)) <==> ShortOutages(maxEvents, cs)
  {
    if cs != [] {
      var init, c := cs[..|cs| - 1], cs[|cs| - 1];
      assert c in cs && cs == init + [c];
      RunKeeps(maxEvents, init);
      ContiguousIffShortOutages(maxEvents, init);
      ConnectContiguous(maxEvents, Run(maxEvents, START, init), c);
      ShortOutagesSnoc(maxEvents, init, c);
    }
  }

  /** A connection that is never cut delivers everything written. */
  lemma UncutDelivers(maxEvents: nat, s: Session, live: seq<string>) returns (c: Connection)
    requires Inv(s) && GoodPayloads([Connection(live, 0)])
    ensures c.live == live && |Received(maxEvents, s, c).delivered| >= |live|
  {
    assert Connection(live, 0) in [Connection(live, 0)];
    var es := Written(maxEvents, s, Connection(live, 0));
    c := Connection(live, |Stream(es)|);
    WrittenWellFormed(maxEvents, s, Connection(live, 0));
    TruncatedReadBack(es, |Stream(es)|, s.last);
    assert Written(maxEvents, s, c) == es;
  }

  lemma LongOutageSkips(maxEvents: nat, s: Session) returns (c: Connection)
    requires 1 <= maxEvents && Inv(s) && s.delivered != [] && Missed(s) > maxEvents - 1
    ensures GoodPayloads([c]) && !Contiguous(Numbers(Connect(maxEvents, s, c).delivered))
  {
    c := UncutDelivers(maxEvents, s, ["x"]);
    ConnectContiguous(maxEvents, s, c);
  }

  /**
   * The same bound as a check before connecting: of a client that has seen something and skipped
   * nothing, every next connection, whatever it carries and wherever it is cut, keeps it that way if and
   * only if the client has missed at most `maxEvents - 1` events.
   */
  lemma SafeToResumeIff(maxEvents: nat, cs: seq<Connection>)
    requires 1 <= maxEvents && GoodPayloads(cs)
    requires var s := Run(maxEvents, START, cs); s.delivered != [] && Contiguous(Numbers(s.delivered))
    ensures var s := Run(maxEvents, START, cs);
            (forall c :: GoodPayloads([c]) ==> Contiguous(Numbers(Connect(maxEvents, s, c).delivered))) <==>
            Missed(s) <= maxEvents - 1
  {
    var s := Run(maxEvents, START, cs);
    RunKeeps(maxEvents, cs);
    if Missed(s) <= maxEvents - 1 {
      forall c | GoodPayloads([c]) ensures Contiguous(Numbers(Connect(maxEvents, s, c).delivered)) {
        ConnectContiguous(maxEvents, s, c);
      }
    } else {
      var c := LongOutageSkips(maxEvents, s);
      assert !Contiguous(Numbers(Connect(maxEvents, s, c).delivered));
    }
  }

  /** `handleSSE` writing to a client whose connection ends after `cut` bytes, on the two real objects. */
  method ServeConnection(server: ServerSession, client: ClientTransport, live: seq<string>, cut: nat)
    requires server.Valid() && client.Valid()
    modifies server, client
    ensures server.Valid() && client.Valid()
    ensures Session(server.history, client.lastEventId, client.log)
            == Connect(server.maxEvents, old(Session(server.history, client.lastEventId, client.log)),
                       Connection(live, cut))
  {
    var replay := server.ReplayAfter(client.lastEventId);
    var stream := WriteAll(replay);
    stream := ServeLive(server, live, stream, replay);
    client.ReadSse(stream[..Min(cut, |stream|)]);
  }

  method WriteAll(es: seq<Event>) returns (stream: string)
    ensures stream == Stream(es)
  {
    stream := "";
    for i := 0 to |es|
      invariant stream == Stream(es[..i])
    {
      StreamSnoc(es[..i], es[i]);
      assert es[..i + 1] == es[..i] + [es[i]];
      stream := stream + Frame(es[i]);
    }
    assert es[..|es|] == es;
  }

  lemma TakeSnoc(base: seq<string>, xs: seq<string>, i: nat)
    requires i < |xs|
    ensures base + xs[..i] + [xs[i]] == base + xs[..i + 1]
  {
  }

  lemma LiveStep(replay: seq<Event>, h: seq<string>, from: nat, data: string)
    requires from <= |h|
    ensures Stream(replay + Numbered(h + [data], from, |h| + 1))
            == Stream(replay + Numbered(h, from, |h|)) + Frame(Event(EventId(|h| + 1), data))
  {
    var all, e := Numbered(h, from, |h|), Event(EventId(|h| + 1), data);
    assert Numbered(h + [data], from, |h| + 1) == all + [e];
    Assoc(replay, all, [e]);
    StreamSnoc(replay + all, e);
  }

  /** One live payload: number and buffer it, and write its frame. */
  method SendLive(server: ServerSession, data: string, stream: string, ghost replay: seq<Event>, ghost from: nat)
    returns (longer: string)
    requires server.Valid() && from <= |server.history|
    requires stream == Stream(replay + Numbered(server.history, from, |server.history|))
    modifies server
    ensures server.Valid() && server.history == old(server.history) + [data]
    ensures longer == Stream(replay + Numbered(server.history, from, |server.history|))
  {
    LiveStep(replay, server.history, from, data);
    var id := server.BufferEvent(data);
    longer := stream + Frame(Event(id, data));
  }

  /** The live loop of `handleSSE`: number, buffer and write each payload as it comes. */
  method ServeLive(server: ServerSession, live: seq<string>, replayed: string, ghost replay: seq<Event>)
    returns (stream: string)
    requires server.Valid() && replayed == Stream(replay)
    modifies server
    ensures server.Valid() && server.history == old(server.history) + live
    ensures stream == Stream(replay + Numbered(server.history, |old(server.history)|, |server.history|))
  {
    stream := replayed;
    ghost var base := server.history;
    assert replay + Numbered(base, |base|, |base|) == replay;
    for i := 0 to |live|
      invariant server.Valid() && server.history == base + live[..i]
      invariant stream == Stream(replay + Numbered(server.history, |base|, |server.history|))
    {
      stream := SendLive(server, live[i], stream, replay, |base|);
      TakeSnoc(base, live, i);
    }
    assert live[..|live|] == live;
  }

  lemma {:induction false} StreamSnoc(es: seq<Event>, e: Event)
    ensures Stream(es + [e]) == Stream(es) + Frame(e)
    decreases es
  {
    if es == [] {
      assert [e][1..] == [];
      assert es + [e] == [e];
    } else {
      assert (es + [e])[1..] == es[1..] + [e];
      StreamSnoc(es[1..], e);
      Assoc(Frame(es[0]), Stream(es[1..]), Frame(e));
    }
  }
}
