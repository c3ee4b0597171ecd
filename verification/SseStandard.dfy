/**
 * The event-stream format of section 9.2 of the WHATWG HTML Living Standard, as a reader of its own,
 * to compare with what the server writes (pkg/wmp/httpsse/httpsse.go).
 */
module SseStandard {
  import opened EventWindow
  import opened SseFraming
  import opened Folds

  /** An event as a conforming client dispatches it. */
  datatype Dispatched = Dispatched(kind: string, data: string, lastId: string)

  /** The standard's buffers, the characters of the line being read, and what has been dispatched. */
  datatype Parser = Parser(
    partial: string,
    afterCr: bool,
    data: string,
    kind: string,
    lastId: string,
    events: seq<Dispatched>)

  const NEW_PARSER := Parser("", false, "", "", "", [])

  /** Position of the first colon, or the length if there is none. */
  function Colon(line: string): (i: nat)
    ensures i <= |line| && ':' !in line[..i] && (i < |line| ==> line[i] == ':')
  {
    if line == "" || line[0] == ':' then 0
    else
      var i := 1 + Colon(line[1..]);
      assert line[..i] == [line[0]] + line[1..][..i - 1];
      i
  }

  function Field(line: string): string {
    line[..Colon(line)]
  }

  /** What follows the colon, without one leading space. */
  function FieldValue(line: string): string {
    var i := Colon(line);
    if i == |line| then ""
    else if i + 1 < |line| && line[i + 1] == ' ' then line[i + 2..]
    else line[i + 1..]
  }

  /** Process one complete line: a blank line dispatches, anything else sets a buffer or is ignored. */
  function EndLine(p: Parser, line: string): Parser {
    if line == "" then
      if p.data == "" then p.(kind := "")
      else
        var e := Dispatched(if p.kind == "" then "message" else p.kind, p.data[..|p.data| - 1], p.lastId);
        p.(data := "", kind := "", events := p.events + [e])
    else if Field(line) == "event" then p.(kind := FieldValue(line))
    else if Field(line) == "data" then p.(data := p.data + FieldValue(line) + "\n")
    else if Field(line) == "id" && '\0' !in FieldValue(line) then p.(lastId := FieldValue(line))
    else p
  }

  /** Lines end in a line feed, a carriage return, or both in that order. */
  function ParseChar(p: Parser, c: char): Parser {
    if c == '\n' && p.afterCr then p.(afterCr := false)
    else if c == '\n' || c == '\r' then EndLine(p.(partial := "", afterCr := c == '\r'), p.partial)
    else p.(partial := p.partial + [c], afterCr := false)
  }

  /** Text on one line of the stream. */
  predicate SingleLine(s: string) {
    '\n' !in s && '\r' !in s
  }

  predicate Conforming(e: Event) {
    SingleLine(e.id) && SingleLine(e.data) && '\0' !in e.id
  }

  function DispatchedOf(e: Event): Dispatched {
    Dispatched("wmp", e.data, e.id)
  }

  function AllDispatched(es: seq<Event>): (ds: seq<Dispatched>)
    ensures |ds| == |es|
    ensures forall i :: 0 <= i < |ds| ==> ds[i] == DispatchedOf(es[i])
  {
    seq(|es|, i requires 0 <= i < |es| => DispatchedOf(es[i]))
  }

  lemma {:induction false} ParseText(p: Parser, text: string)
    requires SingleLine(text) && !p.afterCr
    ensures Fold(ParseChar, p, text) == p.(partial := p.partial + text)
    decreases text
  {
    if text != "" {
      assert p.partial + text == (p.partial + [text[0]]) + text[1..];
      ParseText(ParseChar(p, text[0]), text[1..]);
    } else {
      assert p.partial + text == p.partial;
    }
  }

  lemma ParseLine(p: Parser, text: string)
    requires SingleLine(text) && !p.afterCr && p.partial == ""
    ensures Fold(ParseChar, p, Line(text)) == EndLine(p, text)
  {
    ParseText(p, text);
    FoldSnoc(ParseChar, p, text, '\n');
    assert "" + text == text;
  }

  /** A line made of a field name, a colon, a space and a value splits back into them. */
  lemma FieldLine(name: string, value: string)
    requires ':' !in name
    ensures Field(name + (": " + value)) == name && FieldValue(name + (": " + value)) == value
  {
    var line := name + (": " + value);
    ColonAt(name, ": " + value);
    assert line[..|name|] == name;
    assert line[|name| + 2..] == value;
  }

  lemma {:induction false} ColonAt(name: string, rest: string)
    requires ':' !in name && rest != "" && rest[0] == ':'
    ensures Colon(name + rest) == |name|
  {
    if name == "" {
      assert name + rest == rest;
    } else {
      assert (name + rest)[1..] == name[1..] + rest;
      ColonAt(name[1..], rest);
    }
  }

  lemma ParseIdLine(p: Parser, id: string)
    requires SingleLine(id) && '\0' !in id && !p.afterCr && p.partial == ""
    ensures Fold(ParseChar, p, Line(ID_FIELD + id)) == p.(lastId := id)
  {
    FieldLine("id", id);
    assert "id" + (": " + id) == ID_FIELD + id;
    ParseLine(p, ID_FIELD + id);
  }

  lemma ParseEventLine(p: Parser)
    requires !p.afterCr && p.partial == ""
    ensures Fold(ParseChar, p, Line(EVENT_LINE)) == p.(kind := "wmp")
  {
    FieldLine("event", "wmp");
    assert "event" + (": " + "wmp") == EVENT_LINE;
    ParseLine(p, EVENT_LINE);
  }

  lemma ParseDataLine(p: Parser, data: string)
    requires SingleLine(data) && !p.afterCr && p.partial == "" && p.data == ""
    ensures Fold(ParseChar, p, Line(DATA_FIELD + data)) == p.(data := data + "\n")
  {
    FieldLine("data", data);
    assert "data" + (": " + data) == DATA_FIELD + data;
    assert "" + data + "\n" == data + "\n";
    ParseLine(p, DATA_FIELD + data);
  }

  lemma ParseBlankLine(p: Parser, data: string)
    requires !p.afterCr && p.partial == "" && p.kind == "wmp" && p.data == data + "\n"
    ensures Fold(ParseChar, p, Line(""))
            == p.(data := "", kind := "", events := p.events + [Dispatched("wmp", data, p.lastId)])
  {
    ParseLine(p, "");
    assert p.data[..|p.data| - 1] == data;
  }

  lemma ParseFrame(p: Parser, e: Event)
    requires Conforming(e) && !p.afterCr && p.partial == "" && p.data == "" && p.kind == ""
    ensures Fold(ParseChar, p, Frame(e)) == p.(lastId := e.id, events := p.events + [DispatchedOf(e)])
  {
    FoldConcat4(ParseChar, p, Line(ID_FIELD + e.id), Line(EVENT_LINE), Line(DATA_FIELD + e.data), Line(""));
    var p1 := p.(lastId := e.id);
    var p2 := p1.(kind := "wmp");
    ParseIdLine(p, e.id);
    ParseEventLine(p1);
    ParseDataLine(p2, e.data);
    ParseBlankLine(p2.(data := e.data + "\n"), e.data);
  }

  lemma {:induction false} ParseFrames(p: Parser, es: seq<Event>)
    requires forall e :: e in es ==> Conforming(e)
    requires !p.afterCr && p.partial == "" && p.data == "" && p.kind == ""
    ensures Fold(ParseChar, p, Stream(es)).events == p.events + AllDispatched(es)
    decreases es
  {
    if es != [] {
      assert es[0] in es;
      var p' := p.(lastId := es[0].id, events := p.events + [DispatchedOf(es[0])]);
      FoldConcat(ParseChar, p, Frame(es[0]), Stream(es[1..]));
      ParseFrame(p, es[0]);
      ParseFrames(p', es[1..]);
      assert AllDispatched(es) == [DispatchedOf(es[0])] + AllDispatched(es[1..]);
      Assoc(p.events, [DispatchedOf(es[0])], AllDispatched(es[1..]));
    }
  }

  lemma {:induction false} ParsingGrows(p: Parser, s: string)
    ensures p.events <= Fold(ParseChar, p, s).events
    decreases s
  {
    if s != "" {
      ParsingGrows(ParseChar(p, s[0]), s[1..]);
    }
  }

  /**
   * The server's stream conforms: a client that follows the standard dispatches, in order, exactly
   * one event of type `wmp` per event written, with its id and payload; from a stream cut anywhere
   * it dispatches a prefix of them.
   */
  lemma StandardClientReads(es: seq<Event>, cut: nat)
    requires forall e :: e in es ==> Conforming(e)
    requires cut <= |Stream(es)|
    ensures Fold(ParseChar, NEW_PARSER, Stream(es)).events == AllDispatched(es)
    ensures Fold(ParseChar, NEW_PARSER, Stream(es)[..cut]).events <= AllDispatched(es)
  {
    var s := Stream(es);
    ParseFrames(NEW_PARSER, es);
    assert NEW_PARSER.events + AllDispatched(es) == AllDispatched(es);
    FoldConcat(ParseChar, NEW_PARSER, s[..cut], s[cut..]);
    assert s == s[..cut] + s[cut..];
    ParsingGrows(Fold(ParseChar, NEW_PARSER, s[..cut]), s[cut..]);
  }
}
