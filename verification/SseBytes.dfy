/**
 * The event stream as bytes: the client splits it at newline bytes and only then looks at the text of a
 * complete line (pkg/wmp/httpsse/httpsse.go), so a cut inside a multi-byte character does no harm.
 */
module SseBytes {
  import opened Text
  import opened EventWindow
  import opened SseFraming
  import opened SseResume
  import opened Folds

  const NEWLINE: byte := 10

  /** UTF-8. */
  function Utf8(c: char): seq<byte> {
    var n := c as int;
    if n < 0x80 then [n]
    else if n < 0x800 then [0xC0 + n / 0x40, 0x80 + n % 0x40]
    else if n < 0x1_0000 then [0xE0 + n / 0x1000, 0x80 + n / 0x40 % 0x40, 0x80 + n % 0x40]
    else [0xF0 + n / 0x4_0000, 0x80 + n / 0x1000 % 0x40, 0x80 + n / 0x40 % 0x40, 0x80 + n % 0x40]
  }

  /** The newline byte stands for a newline and occurs in no other character. */
  lemma NewlineOnlyInNewline(c: char)
    ensures if c == '\n' then Utf8(c) == [NEWLINE] else NEWLINE !in Utf8(c)
  {
  }

  function Encode(s: string): seq<byte> {
    if s == "" then [] else Encode(s[..|s| - 1]) + Utf8(s[|s| - 1])
  }

  predicate Continues(b: byte) {
    0x80 <= b < 0xC0
  }

  /** The first byte of a character is no continuation byte; the others are. */
  lemma Utf8Shape(c: char)
    ensures 1 <= |Utf8(c)| <= 4 && !Continues(Utf8(c)[0])
    ensures forall i :: 1 <= i < |Utf8(c)| ==> Continues(Utf8(c)[i])
  {
  }

  /** The code point of an encoded character. */
  function Value(bs: seq<int>): int {
    if |bs| == 1 then bs[0]
    else if |bs| == 2 then (bs[0] - 0xC0) * 0x40 + (bs[1] - 0x80)
    else if |bs| == 3 then (bs[0] - 0xE0) * 0x1000 + (bs[1] - 0x80) * 0x40 + (bs[2] - 0x80)
    else if |bs| == 4 then
      (bs[0] - 0xF0) * 0x4_0000 + (bs[1] - 0x80) * 0x1000 + (bs[2] - 0x80) * 0x40 + (bs[3] - 0x80)
    else 0
  }

  lemma ValueOfUtf8(c: char)
    ensures Value(Utf8(c)) == c as int
  {
    var n := c as int;
    assert n / 0x40 / 0x40 == n / 0x1000 && n / 0x1000 / 0x40 == n / 0x4_0000;
  }

  lemma Utf8Injective(c: char, d: char)
    requires Utf8(c) == Utf8(d)
    ensures c == d
  {
    ValueOfUtf8(c);
    ValueOfUtf8(d);
  }

  /** The last character can be told from the bytes. */
  lemma LastCharacter(xs: seq<byte>, c: char, ys: seq<byte>, d: char)
    requires xs + Utf8(c) == ys + Utf8(d)
    ensures c == d && xs == ys
  {
    var all := xs + Utf8(c);
    Utf8Shape(c);
    Utf8Shape(d);
    assert all[|xs|] == Utf8(c)[0] && all[|ys|] == Utf8(d)[0];
    assert all[|xs|..] == Utf8(c) && all[|ys|..] == Utf8(d) && all[..|xs|] == xs && all[..|ys|] == ys;
    Utf8Injective(c, d);
  }

  lemma {:induction false} EncodeInjective(s: string, t: string)
    requires Encode(s) == Encode(t)
    ensures s == t
  {
    if s != "" && t != "" {
      var m, n := |s| - 1, |t| - 1;
      LastCharacter(Encode(s[..m]), s[m], Encode(t[..n]), t[n]);
      EncodeInjective(s[..m], t[..n]);
      assert s == s[..m] + [s[m]] && t == t[..n] + [t[n]];
    } else if s != "" {
      Utf8Shape(s[|s| - 1]);
    } else if t != "" {
      Utf8Shape(t[|t| - 1]);
    }
  }

  /** The text the bytes stand for; empty if they stand for none. */
  ghost function TextOf(bs: seq<byte>): string {
    if exists s :: Encode(s) == bs then
      var s :| Encode(s) == bs;
      s
    else ""
  }

  lemma TextOfEncoded(s: string)
    ensures TextOf(Encode(s)) == s
  {
    EncodeInjective(TextOf(Encode(s)), s);
  }

  /** The bytes of an unfinished line, and the rest of the client's state. */
  datatype ByteReader = ByteReader(partial: seq<byte>, state: Reader)

  /** `ReadString('\n')` one byte at a time; a complete line goes to the read loop. */
  ghost function ReadByte(r: ByteReader, b: byte): ByteReader {
    if b == NEWLINE then ByteReader([], ReadLine(r.state, TextOf(r.partial)))
    else r.(partial := r.partial + [b])
  }

  ghost function ReadBytes(r: ByteReader, bs: seq<byte>): ByteReader {
    Fold(ReadByte, r, bs)
  }

  /** A whole connection; an unfinished line is discarded. */
  ghost function ReceiveBytes(bs: seq<byte>, last: string): Reader {
    ReadBytes(ByteReader([], Fresh(last)), bs).state
  }

  lemma {:induction false} WithinLine(r: ByteReader, bs: seq<byte>)
    requires NEWLINE !in bs
    ensures ReadBytes(r, bs) == r.(partial := r.partial + bs)
    decreases |bs|
  {
    if bs == [] {
      assert r.partial + bs == r.partial;
    } else {
      assert (r.partial + [bs[0]]) + bs[1..] == r.partial + bs;
      WithinLine(ReadByte(r, bs[0]), bs[1..]);
    }
  }

  /** The byte-level reader, after the encoding of what the character-level reader has read. */
  ghost predicate Matches(b: ByteReader, r: Reader) {
    b.partial == Encode(r.partial) && b.state == r.(partial := "")
  }

  lemma ReadCharMatches(b: ByteReader, r: Reader, c: char)
    requires Matches(b, r)
    ensures Matches(ReadBytes(b, Utf8(c)), ReadChar(r, c))
  {
    NewlineOnlyInNewline(c);
    if c == '\n' {
      FoldOne(ReadByte, b, NEWLINE);
      TextOfEncoded(r.partial);
    } else {
      WithinLine(b, Utf8(c));
      assert (r.partial + [c])[..|r.partial|] == r.partial;
    }
  }

  lemma {:induction false} WholeCharsMatch(s: string, last: string)
    ensures Matches(ReadBytes(ByteReader([], Fresh(last)), Encode(s)), ReadStream(s, last))
  {
    if s != "" {
      var n := |s| - 1;
      WholeCharsMatch(s[..n], last);
      assert s == s[..n] + [s[n]];
      FoldSnoc(ReadChar, Fresh(last), s[..n], s[n]);
      FoldConcat(ReadByte, ByteReader([], Fresh(last)), Encode(s[..n]), Utf8(s[n]));
      ReadCharMatches(ReadBytes(ByteReader([], Fresh(last)), Encode(s[..n])), ReadStream(s[..n], last), s[n]);
    }
  }

  /** A cut of the bytes falls after `j` whole characters and a part of the next that is no newline. */
  lemma {:induction false} CutFallsAfter(s: string, cut: nat) returns (j: nat, rest: seq<byte>)
    requires cut <= |Encode(s)|
    ensures j <= |s| && Encode(s)[..cut] == Encode(s[..j]) + rest && NEWLINE !in rest
    ensures cut == |Encode(s)| ==> j == |s|
  {
    j, rest := |s|, [];
    assert s[..j] == s;
    if cut < |Encode(s)| {
      var n := |s| - 1;
      var init := Encode(s[..n]);
      if cut < |init| {
        j, rest := CutFallsAfter(s[..n], cut);
        assert s[..n][..j] == s[..j];
        assert Encode(s)[..cut] == init[..cut];
      } else {
        NewlineOnlyInNewline(s[n]);
        j, rest := n, Utf8(s[n])[..cut - |init|];
        assert s[..n] == s[..j];
        assert Encode(s)[..cut] == init + rest;
      }
    }
  }

  /**
   * Cutting any stream at a byte, also inside a character, has the effect of cutting its text after some
   * whole character, so whatever holds of every cut of the text holds of every cut of the bytes.
   */
  lemma ByteCutIsTextCut(s: string, cut: nat, last: string) returns (j: nat)
    requires cut <= |Encode(s)|
    ensures j <= |s| && ReceiveBytes(Encode(s)[..cut], last) == ReadStream(s[..j], last).(partial := "")
    ensures cut == |Encode(s)| ==> j == |s|
  {
    var start := ByteReader([], Fresh(last));
    var rest;
    j, rest := CutFallsAfter(s, cut);
    WholeCharsMatch(s[..j], last);
    FoldConcat(ReadByte, start, Encode(s[..j]), rest);
    WithinLine(ReadBytes(start, Encode(s[..j])), rest);
  }

  /**
   * Framing round trip under truncation, at the level of bytes: a connection cut at any byte delivers a
   * prefix of the events written and commits the id of the last of them; cutting nothing loses nothing.
   */
  lemma CutAtAnyByte(es: seq<Event>, cut: nat, last: string)
    requires forall e :: e in es ==> WellFormed(e)
    requires cut <= |Encode(Stream(es))|
    ensures var r := ReceiveBytes(Encode(Stream(es))[..cut], last);
            && r.delivered <= es
            && r.last == (if r.delivered == [] then last else r.delivered[|r.delivered| - 1].id)
            && (cut == |Encode(Stream(es))| ==> r.delivered == es)
  {
    var j := ByteCutIsTextCut(Stream(es), cut, last);
    var r, text := ReceiveBytes(Encode(Stream(es))[..cut], last), ReadStream(Stream(es)[..j], last);
    assert r.delivered == text.delivered && r.last == text.last;
    TruncatedReadBack(es, j, last);
  }

  /**
   * A connection cut at any byte is one of the connections of the resume protocol, so what is proved of
   * every sequence of those holds of every sequence of cuts at bytes.
   */
  lemma ByteCutIsConnection(maxEvents: nat, s: Session, live: seq<string>, cut: nat) returns (c: Connection)
    requires cut <= |Encode(Stream(Written(maxEvents, s, Connection(live, 0))))|
    ensures var stream := Stream(Written(maxEvents, s, Connection(live, 0)));
            var r := ReceiveBytes(Encode(stream)[..cut], s.last);
            c.live == live && Connect(maxEvents, s, c) == Session(s.history + live, r.last, s.delivered + r.delivered)
  {
    var stream := Stream(Written(maxEvents, s, Connection(live, 0)));
    var j := ByteCutIsTextCut(stream, cut, s.last);
    c := Connection(live, j);
    assert Written(maxEvents, s, c) == Written(maxEvents, s, Connection(live, 0));
  }
}
