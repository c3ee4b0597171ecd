/**
 * The Server-Sent Events wire format as the server writes it and the client reads it
 * (pkg/wmp/httpsse/httpsse.go).
 */
module SseFraming {
  import opened Text
  import opened EventWindow
  import opened Folds

  const ID_FIELD := "id: "
  const DATA_FIELD := "data: "
  const EVENT_LINE := "event: wmp"

  function Line(text: string): string {
    text + "\n"
  }

  /** What `handleSSE` writes for one event. */
  function Frame(e: Event): string {
    Line(ID_FIELD + e.id) + Line(EVENT_LINE) + Line(DATA_FIELD + e.data) + Line("")
  }

  function Stream(es: seq<Event>): string {
    if es == [] then "" else Frame(es[0]) + Stream(es[1..])
  }

  /** Payloads the line format can carry. */
  predicate Transportable(data: string) {
    '\n' !in data && data != "" && !IsSpace(data[|data| - 1])
  }

  predicate WellFormed(e: Event) {
    Transportable(e.id) && Transportable(e.data)
  }

  /**
   * The client's reader. `partial` holds the bytes of a line whose newline has not arrived,
   * `current` the id seen but not yet committed, `last` the committed `lastEventID`.
   */
  datatype Reader = Reader(partial: string, current: string, last: string, delivered: seq<Event>)

  /** One iteration of the read loop, on a line without its newline. */
  function ReadLine(r: Reader, raw: string): Reader {
    var line := TrimSpace(raw);
    if HasPrefix(line, ID_FIELD) then
      r.(current := line[|ID_FIELD|..])
    else if HasPrefix(line, DATA_FIELD) then
      var data := line[|DATA_FIELD|..];
      r.(current := "", last := if r.current != "" then r.current else r.last,
         delivered := r.delivered + [Event(r.current, data)])
    else r
  }

  function ReadChar(r: Reader, c: char): Reader {
    if c == '\n' then ReadLine(r.(partial := ""), r.partial) else r.(partial := r.partial + [c])
  }

  function Fresh(last: string): Reader {
    Reader("", "", last, [])
  }

  /** A whole connection; whatever is left in `partial` when the bytes end is discarded. */
  function ReadStream(s: string, last: string): Reader {
    Fold(ReadChar, Fresh(last), s)
  }

  // ---- What every stream keeps, well formed or not ----

  /** The id the reader should report as last received. */
  function LastId(initial: string, delivered: seq<Event>): string {
    if delivered == [] then initial
    else
      var e := delivered[|delivered| - 1];
      if e.id != "" then e.id else LastId(initial, delivered[..|delivered| - 1])
  }

  /**
   * The committed id is that of the latest delivered event that has one, so an id is committed only
   * together with its data; and everything delivered is transportable.
   */
  ghost predicate ReaderInv(initial: string, r: Reader) {
    && '\n' !in r.partial
    && r.last == LastId(initial, r.delivered)
    && forall e :: e in r.delivered ==> Transportable(e.data)
  }

  /** Whatever follows a field name that ends in a space, in a trimmed line, is transportable. */
  lemma TailTransportable(field: string, line: string)
    requires field <= line && field != "" && IsSpace(field[|field| - 1]) && !IsSpace(line[|line| - 1])
    requires '\n' !in line
    ensures Transportable(line[|field|..])
  {
    var tail := line[|field|..];
    assert tail == "" ==> line == field;
    assert forall c :: c in tail ==> c in line;
  }

  lemma ReadLineKeeps(initial: string, r: Reader, raw: string)
    requires ReaderInv(initial, r) && '\n' !in raw
    ensures ReaderInv(initial, ReadLine(r, raw)) && r.delivered <= ReadLine(r, raw).delivered
  {
    var line := TrimSpace(raw);
    var r' := ReadLine(r, raw);
    if !HasPrefix(line, ID_FIELD) && HasPrefix(line, DATA_FIELD) {
      TailTransportable(DATA_FIELD, line);
      assert r'.delivered[..|r'.delivered| - 1] == r.delivered;
    }
  }

  lemma {:induction false} ReadingKeeps(initial: string, r: Reader, s: string)
    requires ReaderInv(initial, r)
    ensures ReaderInv(initial, Fold(ReadChar, r, s)) && r.delivered <= Fold(ReadChar, r, s).delivered
    decreases s
  {
    if s != "" {
      if s[0] == '\n' {
        ReadLineKeeps(initial, r.(partial := ""), r.partial);
      }
      ReadingKeeps(initial, ReadChar(r, s[0]), s[1..]);
    }
  }

  lemma ReadingOn(read: string, rest: string, last: string)
    ensures ReaderInv(last, ReadStream(read, last))
    ensures ReadStream(read, last).delivered <= ReadStream(read + rest, last).delivered
  {
    ReadingKeeps(last, Fresh(last), read);
    ReadingKeeps(last, ReadStream(read, last), rest);
    FoldConcat(ReadChar, Fresh(last), read, rest);
  }

  /** Cutting any stream, well formed or not, only loses a suffix of what it delivers. */
  lemma CutStream(s: string, cut: nat, last: string)
    requires cut <= |s|
    ensures ReaderInv(last, ReadStream(s[..cut], last))
    ensures ReadStream(s[..cut], last).delivered <= ReadStream(s, last).delivered
  {
    var read, rest := s[..cut], s[cut..];
    assert s == read + rest;
    ReadingOn(read, rest, last);
  }

  // ---- Reading back what the server wrote ----

  lemma {:induction false} ReadText(r: Reader, text: string)
    requires '\n' !in text
    ensures Fold(ReadChar, r, text) == r.(partial := r.partial + text)
    decreases text
  {
    if text != "" {
      assert r.partial + text == (r.partial + [text[0]]) + text[1..];
      ReadText(ReadChar(r, text[0]), text[1..]);
    } else {
      assert r.partial + text == r.partial;
    }
  }

  lemma ReadWholeLine(r: Reader, text: string)
    requires '\n' !in text && r.partial == ""
    ensures Fold(ReadChar, r, Line(text)) == ReadLine(r, text)
  {
    ReadText(r, text);
    FoldSnoc(ReadChar, r, text, '\n');
    assert "" + text == text;
  }

  /** What the reader makes of the bytes from a position on. */
  ghost function ReadFrom(r: Reader, stream: string, pos: nat): Reader
    requires pos <= |stream|
  {
    Fold(ReadChar, r, stream[pos..])
  }

  lemma NextLine(r: Reader, stream: string, pos: nat, raw: string, found: bool)
    requires r.partial == "" && '\n' !in raw
    requires pos + |raw| <= |stream| && raw == stream[pos..pos + |raw|]
    requires if found then pos + |raw| < |stream| && stream[pos + |raw|] == '\n' else pos + |raw| == |stream|
    ensures found ==> ReadFrom(r, stream, pos) == ReadFrom(ReadLine(r, raw), stream, pos + |raw| + 1)
    ensures !found ==> ReadFrom(r, stream, pos) == r.(partial := raw)
  {
    if found {
      var rest := stream[pos + |raw| + 1..];
      assert stream[pos..] == Line(raw) + rest;
      FoldConcat(ReadChar, r, Line(raw), rest);
      ReadWholeLine(r, raw);
    } else {
      assert stream[pos..] == raw;
      ReadText(r, raw);
    }
  }

  lemma ReadIdLine(r: Reader, id: string)
    requires Transportable(id) && r.partial == ""
    ensures Fold(ReadChar, r, Line(ID_FIELD + id)) == r.(current := id)
  {
    TrimSpaceId(ID_FIELD + id);
    ReadWholeLine(r, ID_FIELD + id);
  }

  lemma ReadDataLine(r: Reader, data: string)
    requires Transportable(data) && r.partial == "" && r.current != ""
    ensures Fold(ReadChar, r, Line(DATA_FIELD + data))
            == r.(current := "", last := r.current, delivered := r.delivered + [Event(r.current, data)])
  {
    TrimSpaceId(DATA_FIELD + data);
    assert (DATA_FIELD + data)[0] != ID_FIELD[0];
    ReadWholeLine(r, DATA_FIELD + data);
  }

  lemma ReadOtherLine(r: Reader, line: string)
    requires (line == EVENT_LINE || line == "") && r.partial == ""
    ensures Fold(ReadChar, r, Line(line)) == r
  {
    if line == EVENT_LINE {
      TrimSpaceId(line);
      assert line[0] == 'e';
    }
    ReadWholeLine(r, line);
  }

  lemma ReadFrame(r: Reader, e: Event)
    requires WellFormed(e) && r.partial == ""
    ensures Fold(ReadChar, r, Frame(e)) == r.(current := "", last := e.id, delivered := r.delivered + [e])
  {
    var r1 := r.(current := e.id);
    var r2 := r.(current := "", last := e.id, delivered := r.delivered + [e]);
    ReadIdLine(r, e.id);
    ReadOtherLine(r1, EVENT_LINE);
    ReadDataLine(r1, e.data);
    ReadOtherLine(r2, "");
    FoldConcat4(ReadChar, r, Line(ID_FIELD + e.id), Line(EVENT_LINE), Line(DATA_FIELD + e.data), Line(""));
  }

  lemma ReadFirstFrame(r: Reader, e: Event, rest: string)
    requires WellFormed(e) && r.partial == ""
    ensures Fold(ReadChar, r, Frame(e) + rest)
            == Fold(ReadChar, r.(current := "", last := e.id, delivered := r.delivered + [e]), rest)
  {
    FoldConcat(ReadChar, r, Frame(e), rest);
    ReadFrame(r, e);
  }

  /** The client reads back exactly the events the server wrote. */
  lemma {:induction false} ReadBack(r: Reader, es: seq<Event>)
    requires r.partial == ""
    requires forall e :: e in es ==> WellFormed(e)
    ensures Fold(ReadChar, r, Stream(es)).delivered == r.delivered + es
    decreases es
  {
    if es != [] {
      var e, tail := es[0], es[1..];
      assert e in es && es == [e] + tail;
      ReadFirstFrame(r, e, Stream(tail));
      ReadBack(r.(current := "", last := e.id, delivered := r.delivered + [e]), tail);
      Assoc(r.delivered, [e], tail);
    }
  }

  /**
   * Framing round trip under truncation: a connection cut at any byte delivers a prefix of the
   * events written, and its committed id is that of the last event delivered. Cutting nothing
   * loses nothing.
   */
  lemma TruncatedReadBack(es: seq<Event>, cut: nat, last: string)
    requires forall e :: e in es ==> WellFormed(e)
    requires cut <= |Stream(es)|
    ensures var r := ReadStream(Stream(es)[..cut], last);
            && r.delivered <= es
            && r.last == (if r.delivered == [] then last else r.delivered[|r.delivered| - 1].id)
            && (cut == |Stream(es)| ==> r.delivered == es)
  {
    var s := Stream(es);
    var r := ReadStream(s[..cut], last);
    CutStream(s, cut, last);
    ReadBack(Fresh(last), es);
    assert Fresh(last).delivered + es == es;
    if cut == |s| {
      assert s[..cut] == s;
    }
    if r.delivered != [] {
      assert r.delivered[|r.delivered| - 1] in es;
    }
  }

  /**
   * Exactly which payloads survive: newline-free, non-empty and not ending in white space. For any
   * other payload the client never delivers the event as it was written.
   */
  lemma SurvivesIffTransportable(id: string, data: string, last: string)
    requires Transportable(id)
    ensures ReadStream(Frame(Event(id, data)), last).delivered == [Event(id, data)] <==> Transportable(data)
  {
    var e := Event(id, data);
    ReadingKeeps(last, Fresh(last), Frame(e));
    if Transportable(data) {
      ReadFrame(Fresh(last), e);
    } else {
      assert e in [e];
    }
  }

  /** A frame, letter by letter. */
  lemma FrameText(e: Event)
    ensures Frame(e) == "id: " + e.id + "\nevent: wmp\ndata: " + e.data + "\n\n"
  {
  }

  /**
   * What each kind of line means to the client, with any white space around it, a carriage return for
   * instance. An id line is remembered and not yet committed.
   */
  lemma IdLineMeaning(r: Reader, left: string, text: string, right: string)
    requires Blank(left) && Blank(right) && Transportable(text)
    ensures ReadLine(r, left + ("id: " + text) + right) == r.(current := text)
  {
    TrimSpaceExact(left, ID_FIELD + text, right);
    assert (ID_FIELD + text)[4..] == text;
  }

  /** A data line is delivered under the remembered id, also under none, and commits that id if there is one. */
  lemma DataLineMeaning(r: Reader, left: string, text: string, right: string)
    requires Blank(left) && Blank(right) && Transportable(text)
    ensures ReadLine(r, left + ("data: " + text) + right)
            == Reader(r.partial, "", if r.current == "" then r.last else r.current,
                      r.delivered + [Event(r.current, text)])
  {
    var line := DATA_FIELD + text;
    TrimSpaceExact(left, line, right);
    ReadTrimmedData(r, left + line + right, text);
  }

  lemma ReadTrimmedData(r: Reader, raw: string, text: string)
    requires TrimSpace(raw) == DATA_FIELD + text
    ensures ReadLine(r, raw) == Reader(r.partial, "", if r.current == "" then r.last else r.current,
                                       r.delivered + [Event(r.current, text)])
  {
    assert (DATA_FIELD + text)[0] == 'd' && (DATA_FIELD + text)[|DATA_FIELD|..] == text;
  }

  /** Every other line is ignored. */
  lemma OtherLineMeaning(r: Reader, left: string, text: string, right: string)
    requires Blank(left) && Blank(right) && Transportable(text) && !IsSpace(text[0])
    requires !("id: " <= text) && !("data: " <= text)
    ensures ReadLine(r, left + text + right) == r
  {
    TrimSpaceExact(left, text, right);
  }

  /** The client side of the transport: what it has queued for `ReadMessage` and its committed id. */
  class ClientTransport {
    var incoming: seq<string>
    var lastEventId: string
    /** The queued payloads together with the ids they arrived under. */
    ghost var log: seq<Event>

    ghost predicate Valid()
      reads this
    {
      |log| == |incoming| && forall i :: 0 <= i < |log| ==> log[i].data == incoming[i]
    }

    constructor ()
      ensures Valid() && log == [] && lastEventId == ""
    {
      incoming, lastEventId, log := [], "", [];
    }

    /** `readSSE`, on the bytes that arrive before the connection ends. */
    method ReadSse(stream: string)
      requires Valid()
      modifies this
      ensures Valid()
      ensures var r := ReadStream(stream, old(lastEventId));
              lastEventId == r.last && log == old(log) + r.delivered
    {
      var currentId := "";
      var pos := 0;
      ghost var r := Fresh(lastEventId);
      ghost var whole := ReadStream(stream, lastEventId);
      assert stream[pos..] == stream;
      while true
        invariant pos <= |stream|
        invariant ReadFrom(r, stream, pos) == whole
        invariant r.partial == "" && currentId == r.current && lastEventId == r.last
        invariant Valid() && log == old(log) + r.delivered
        decreases |stream| - pos
      {
        var raw, found := ReadString(stream, pos);
        NextLine(r, stream, pos, raw, found);
        if !found {
          return;
        }
        pos := pos + |raw| + 1;
        currentId := HandleLine(raw, currentId, r, old(log));
        r := ReadLine(r, raw);
      }
    }

    /** The body of the read loop, once a line is complete. */
    method HandleLine(raw: string, currentId: string, ghost r: Reader, ghost base: seq<Event>) returns (next: string)
      requires Valid() && r.current == currentId && r.last == lastEventId && log == base + r.delivered
      modifies this
      ensures Valid()
      ensures var r' := ReadLine(r, raw); next == r'.current && lastEventId == r'.last && log == base + r'.delivered
    {
      next := currentId;
      var line := TrimSpace(raw);
      if HasPrefix(line, ID_FIELD) {
        next := line[|ID_FIELD|..];
      } else if HasPrefix(line, DATA_FIELD) {
        var data := line[|DATA_FIELD|..];
        Assoc(base, r.delivered, [Event(currentId, data)]);
        incoming := incoming + [data];
        log := log + [Event(currentId, data)];
        if currentId != "" {
          lastEventId := currentId;
          next := "";
        }
      }
    }

    /** `ReadString('\n')` from a position, without the newline; `found` is false at the end of the bytes. */
    static method ReadString(stream: string, pos: nat) returns (raw: string, found: bool)
      requires pos <= |stream|
      ensures pos + |raw| <= |stream| && raw == stream[pos..pos + |raw|] && '\n' !in raw
      ensures found ==> pos + |raw| < |stream| && stream[pos + |raw|] == '\n'
      ensures !found ==> pos + |raw| == |stream|
    {
      var end := pos;
      while end < |stream| && stream[end] != '\n'
        invariant pos <= end <= |stream| && '\n' !in stream[pos..end]
      {
        end := end + 1;
      }
      return stream[pos..end], end < |stream|;
    }
  }
}
