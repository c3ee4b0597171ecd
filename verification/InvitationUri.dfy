/** Printing and parsing invitation URIs (pkg/wmp/invitation.go). */
module InvitationUri {
  import opened Options
  import opened Text
  import opened Base64Url
  import opened Discovery

  const WMP_INVITE := "wmp://invite"
  const DATA := "data"
  const REF := "ref"
  const HTTPS_INVITE := "/wmp/invite#"

  /** `URI`, from the marshalled invitation. */
  function Uri(payload: seq<byte>): string {
    WMP_INVITE + ("?" + (DATA + ("=" + Encode(payload))))
  }

  /** `HTTPSURI`; none if the provider has no domain. */
  function HttpsUri(provider: string, payload: seq<byte>): Option<string> {
    var domain := ExtractDomain(provider);
    if domain == "" then None else Some((HTTPS + domain + HTTPS_INVITE) + Encode(payload))
  }

  // ---- Query strings, as `url.Parse` and `Query().Get` read them ----

  /** What follows the first occurrence of `c`; empty if there is none. */
  function PastFirst(s: string, c: char): string {
    var head := Before(s, [c]);
    if |head| < |s| then s[|head| + 1..] else ""
  }

  /** The text between the first '?' and the first '#'. */
  function RawQuery(uri: string): string {
    PastFirst(Before(uri, "#"), '?')
  }

  function HexValue(c: char): Option<nat> {
    if '0' <= c <= '9' then Some(c as int - '0' as int)
    else if 'a' <= c <= 'f' then Some(c as int - 'a' as int + 10)
    else if 'A' <= c <= 'F' then Some(c as int - 'A' as int + 10)
    else None
  }

  /** `url.QueryUnescape`. */
  function QueryUnescape(s: string): Option<string> {
    if s == "" then Some("")
    else if s[0] == '%' then
      if |s| < 3 || HexValue(s[1]).None? || HexValue(s[2]).None? then None
      else
        var rest := QueryUnescape(s[3..]);
        if rest.None? then rest
        else Some([(HexValue(s[1]).value * 16 + HexValue(s[2]).value) as char] + rest.value)
    else
      var rest := QueryUnescape(s[1..]);
      if rest.None? then rest else Some([if s[0] == '+' then ' ' else s[0]] + rest.value)
  }

  /** The value of one `key=value` piece if it is well formed and for this key. */
  function PieceValue(piece: string, key: string): Option<string> {
    if piece == "" || ';' in piece then None
    else
      var k, v := QueryUnescape(Before(piece, "=")), QueryUnescape(PastFirst(piece, '='));
      if k == Some(key) then v else None
  }

  /** The first value for the key; empty if there is none. */
  function QueryGet(query: string, key: string): string
    decreases |query|
  {
    if query == "" then ""
    else
      var v := PieceValue(Before(query, "&"), key);
      if v.Some? then v.value else QueryGet(PastFirst(query, '&'), key)
  }

  // ---- Parsing ----

  datatype ParseError = BadUrl | NeedsFetch(ref: string) | MissingData | MissingFragment | UnknownScheme | BadEncoding

  datatype Parsed = Payload(bytes: seq<byte>) | Failed(error: ParseError)

  /** Position of the last `c`, or -1. */
  function LastIndex(s: string, c: char): (i: int)
    ensures -1 <= i < |s|
  {
    if s == "" then -1 else if s[|s| - 1] == c then |s| - 1 else LastIndex(s[..|s| - 1], c)
  }

  function DecodePayload(encoded: string): Parsed {
    var bytes := Decode(encoded);
    if bytes.Some? then Payload(bytes.value) else Failed(BadEncoding)
  }

  /** `ParseInvitationURI` up to the JSON; `parses` says which texts `url.Parse` accepts. */
  function ParseUri(parses: string -> bool, uri: string): Parsed {
    if HasPrefix(uri, WMP_INVITE) then
      if !parses(uri) then Failed(BadUrl)
      else
        var encoded, ref := QueryGet(RawQuery(uri), DATA), QueryGet(RawQuery(uri), REF);
        if encoded != "" then DecodePayload(encoded)
        else if ref != "" then Failed(NeedsFetch(ref))
        else Failed(MissingData)
    else if Contains(uri, HTTPS_INVITE) then
      var i := LastIndex(uri, '#');
      if i < 0 || i == |uri| - 1 then Failed(MissingFragment) else DecodePayload(uri[i + 1..])
    else Failed(UnknownScheme)
  }

  // ---- Round trips ----

  lemma CutAt(head: string, c: char, rest: string)
    requires c !in head
    ensures Before(head + ([c] + rest), [c]) == head
    ensures PastFirst(head + ([c] + rest), c) == rest
  {
    BeforeClean(head, [c], [c] + rest);
    assert (head + ([c] + rest))[|head| + 1..] == rest;
  }

  lemma {:induction false} UnescapePlain(s: string)
    requires '%' !in s && '+' !in s
    ensures QueryUnescape(s) == Some(s)
  {
    if s != "" {
      UnescapePlain(s[1..]);
      assert [s[0]] + s[1..] == s;
    }
  }

  /** Free of the characters that mean something in a URI. */
  predicate Plain(s: string) {
    forall c :: c in s ==> c != '#' && c != '?' && c != '&' && c != '=' && c != ';' && c != '%' && c != '+'
  }

  /** None of the characters that mean something in a URI is in the base64url alphabet. */
  lemma EncodedIsPlain(s: string)
    requires Encoded(s)
    ensures Plain(s)
  {
  }

  lemma SingleQuery(key: string, value: string)
    requires key != "" && Plain(key) && Plain(value)
    ensures QueryGet(key + ("=" + value), key) == value
  {
    var query := key + ("=" + value);
    BeforeNone(query, "&");
    CutAt(key, '=', value);
    assert "=" == ['='];
    UnescapePlain(key);
    UnescapePlain(value);
  }

  /** The query of a text with one '?' and no '#'. */
  lemma RawQueryOf(head: string, query: string)
    requires '#' !in head && '#' !in query && '?' !in head
    ensures RawQuery(head + ("?" + query)) == query
  {
    var uri := head + ("?" + query);
    BeforeNone(uri, "#");
    assert "?" == ['?'];
    CutAt(head, '?', query);
  }

  /** `ParseInvitationURI` recovers the payload from `URI` output, exactly if the payload is not empty. */
  lemma UriRoundTrip(parses: string -> bool, payload: seq<byte>)
    requires parses(Uri(payload))
    ensures ParseUri(parses, Uri(payload)) == Payload(payload) <==> payload != []
    ensures payload == [] ==> ParseUri(parses, Uri(payload)) == Failed(MissingData)
  {
    var encoded := Encode(payload);
    EncodeAlphabet(payload);
    EncodedIsPlain(encoded);
    RawQueryOf(WMP_INVITE, DATA + ("=" + encoded));
    SingleQuery(DATA, encoded);
    RoundTrip(payload);
    if payload == [] {
      OtherKey(DATA, encoded, REF);
    }
  }

  lemma OtherKey(key: string, value: string, other: string)
    requires key != "" && key != other && Plain(key) && Plain(value)
    ensures QueryGet(key + ("=" + value), other) == ""
  {
    var query := key + ("=" + value);
    BeforeNone(query, "&");
    CutAt(key, '=', value);
    assert "=" == ['='];
    UnescapePlain(key);
  }

  lemma {:induction false} LastIndexOf(head: string, c: char, rest: string)
    requires c !in rest
    ensures LastIndex(head + [c] + rest, c) == |head|
  {
    var s := head + [c] + rest;
    if rest == "" {
      assert s == head + [c];
    } else {
      assert s[..|s| - 1] == head + [c] + rest[..|rest| - 1];
      LastIndexOf(head, c, rest[..|rest| - 1]);
    }
  }

  lemma {:induction false} ContainsMiddle(head: string, part: string, rest: string)
    ensures Contains(head + part + rest, part)
  {
    var s := head + part + rest;
    if head == "" {
      assert s == part + rest;
    } else {
      assert s[1..] == head[1..] + part + rest;
      ContainsMiddle(head[1..], part, rest);
    }
  }

  /**
   * `ParseInvitationURI` recovers the payload from `HTTPSURI` output for every provider with a
   * domain, whatever characters the domain contains, exactly if the payload is not empty.
   */
  lemma HttpsUriRoundTrip(parses: string -> bool, provider: string, payload: seq<byte>)
    requires ExtractDomain(provider) != ""
    ensures HttpsUri(provider, payload).Some?
    ensures var uri := HttpsUri(provider, payload).value;
            && (ParseUri(parses, uri) == Payload(payload) <==> payload != [])
            && (payload == [] ==> ParseUri(parses, uri) == Failed(MissingFragment))
  {
    var head := HTTPS + ExtractDomain(provider);
    var encoded := Encode(payload);
    var uri := head + HTTPS_INVITE + encoded;
    assert uri[0] == 'h';
    ContainsMiddle(head, HTTPS_INVITE, encoded);
    EncodeAlphabet(payload);
    EncodedIsPlain(encoded);
    FragmentOf(head + "/wmp/invite", encoded);
    assert head + HTTPS_INVITE == head + "/wmp/invite" + ['#'];
    RoundTrip(payload);
  }

  lemma FragmentOf(head: string, encoded: string)
    requires '#' !in encoded
    ensures var uri := head + ['#'] + encoded;
            LastIndex(uri, '#') == |head| && uri[|head| + 1..] == encoded && (|head| == |uri| - 1 <==> encoded == "")
  {
    LastIndexOf(head, '#', encoded);
  }

  // ---- The texts themselves ----

  /** The two links, letter by letter. */
  lemma LinkTexts(provider: string, payload: seq<byte>)
    ensures Uri(payload) == "wmp://invite?data=" + Encode(payload)
    ensures HttpsUri(provider, payload)
            == if ExtractDomain(provider) == "" then None
               else Some("https://" + ExtractDomain(provider) + "/wmp/invite#" + Encode(payload))
  {
    assert "https://" + ExtractDomain(provider) + "/wmp/invite#" + Encode(payload)
        == ("https://" + ExtractDomain(provider) + "/wmp/invite#") + Encode(payload);
  }

  /** In a query of several pairs the first one for the key decides. */
  lemma QueryPair(key: string, value: string, rest: string, other: string)
    requires key != "" && Plain(key) && Plain(value)
    ensures QueryGet(key + ("=" + value) + ("&" + rest), key) == value
    ensures other != key ==> QueryGet(key + ("=" + value) + ("&" + rest), other) == QueryGet(rest, other)
  {
    var piece := key + ("=" + value);
    assert '&' !in piece;
    assert "&" == ['&'] && "=" == ['='];
    CutAt(piece, '&', rest);
    CutAt(key, '=', value);
    UnescapePlain(key);
    UnescapePlain(value);
  }

  /** A piece with a semicolon, and an empty one, are skipped. */
  lemma BadPieceSkipped(piece: string, rest: string, key: string)
    requires '&' !in piece && (piece == "" || ';' in piece)
    ensures QueryGet(piece + ("&" + rest), key) == QueryGet(rest, key)
  {
    assert "&" == ['&'];
    CutAt(piece, '&', rest);
  }

  lemma HexTable(v: nat)
    requires v < 16
    ensures HexValue("0123456789abcdef"[v]) == Some(v) && HexValue("0123456789ABCDEF"[v]) == Some(v)
  {
    assert v in {0, 1, 2, 3, 4, 5, 6, 7, 8, 9, 10, 11, 12, 13, 14, 15};
  }

  /** Unescaping: a plus is a space, and a character that is neither plus nor percent sign is itself. */
  lemma UnescapeCharacter(c: char, rest: string)
    requires c != '%' && c != '+' && QueryUnescape(rest).Some?
    ensures QueryUnescape("+" + rest) == Some(" " + QueryUnescape(rest).value)
    ensures QueryUnescape([c] + rest) == Some([c] + QueryUnescape(rest).value)
  {
    assert ("+" + rest)[1..] == rest && ([c] + rest)[1..] == rest;
  }

  /** A percent sign and two hexadecimal digits are one character. */
  lemma UnescapePercent(a: char, b: char, high: nat, low: nat, rest: string)
    requires HexValue(a) == Some(high) && HexValue(b) == Some(low) && QueryUnescape(rest).Some?
    ensures QueryUnescape(['%', a, b] + rest) == Some([(16 * high + low) as char] + QueryUnescape(rest).value)
  {
    var escaped := ['%', a, b] + rest;
    assert escaped[3..] == rest && escaped[0] == '%' && escaped[1] == a && escaped[2] == b;
  }

  /** A link by reference is reported with the reference, not followed. */
  lemma RefLink(parses: string -> bool, ref: string)
    requires ref != "" && Plain(ref) && parses("wmp://invite?ref=" + ref)
    ensures ParseUri(parses, "wmp://invite?ref=" + ref) == Failed(NeedsFetch(ref))
  {
    assert "wmp://invite?ref=" + ref == WMP_INVITE + ("?" + (REF + ("=" + ref)));
    RawQueryOf(WMP_INVITE, REF + ("=" + ref));
    SingleQuery(REF, ref);
    OtherKey(REF, ref, DATA);
  }

  /** What the parser answers to a text that is neither kind of link, or an https link that carries nothing good. */
  lemma ParseErrors(parses: string -> bool, uri: string)
    ensures ParseUri(parses, uri) == Failed(UnknownScheme) <==>
            !("wmp://invite" <= uri) && !Contains(uri, "/wmp/invite#")
    ensures "wmp://invite" <= uri && !parses(uri) ==> ParseUri(parses, uri) == Failed(BadUrl)
    ensures !("wmp://invite" <= uri) && Contains(uri, "/wmp/invite#") ==>
              var i := LastIndex(uri, '#');
              ParseUri(parses, uri)
              == if i < 0 || i + 1 == |uri| then Failed(MissingFragment)
                 else if Decode(uri[i + 1..]).None? then Failed(BadEncoding)
                 else Payload(Decode(uri[i + 1..]).value)
  {
  }

  /** The last occurrence of the character, if there is one. */
  lemma {:induction false} LastIndexExact(s: string, c: char)
    ensures LastIndex(s, c) < 0 <==> c !in s
    ensures LastIndex(s, c) >= 0 ==> s[LastIndex(s, c)] == c && forall j :: LastIndex(s, c) < j < |s| ==> s[j] != c
  {
    if s != "" && s[|s| - 1] != c {
      LastIndexExact(s[..|s| - 1], c);
      assert s == s[..|s| - 1] + [s[|s| - 1]];
    }
  }

  // ---- With the JSON codec ----

  /** Any codec that reads back what it wrote, to a non-empty text. */
  ghost predicate Codec<T(!new)>(marshal: T -> seq<byte>, unmarshal: seq<byte> -> Option<T>) {
    forall x :: marshal(x) != [] && unmarshal(marshal(x)) == Some(x)
  }

  function ParseInvitation<T>(parses: string -> bool, unmarshal: seq<byte> -> Option<T>, uri: string): Option<T> {
    var p := ParseUri(parses, uri);
    if p.Payload? then unmarshal(p.bytes) else None
  }

  /** An invitation survives both kinds of link; the second is made from its own provider. */
  lemma InvitationRoundTrip<T(!new)>(parses: string -> bool, marshal: T -> seq<byte>,
                                     unmarshal: seq<byte> -> Option<T>, provider: T -> string, inv: T)
    requires Codec(marshal, unmarshal)
    ensures parses(Uri(marshal(inv))) ==> ParseInvitation(parses, unmarshal, Uri(marshal(inv))) == Some(inv)
    ensures var uri := HttpsUri(provider(inv), marshal(inv));
            && (uri.None? <==> ExtractDomain(provider(inv)) == "")
            && (uri.Some? ==> ParseInvitation(parses, unmarshal, uri.value) == Some(inv))
  {
    if parses(Uri(marshal(inv))) {
      UriRoundTrip(parses, marshal(inv));
    }
    if ExtractDomain(provider(inv)) != "" {
      HttpsUriRoundTrip(parses, provider(inv), marshal(inv));
    }
  }
}
