/**
 * Base64 with the URL and filename safe alphabet and no padding (sections 5 and 3.2 of RFC 4648), as
 * Go's `base64.RawURLEncoding` implements it.
 */
module Base64Url {
  import opened Options
  import opened Text

  function Symbol(v: nat): char
    requires v < 64
  {
    if v < 26 then ('A' as int + v) as char
    else if v < 52 then ('a' as int + v - 26) as char
    else if v < 62 then ('0' as int + v - 52) as char
    else if v == 62 then '-'
    else '_'
  }

  function SymbolValue(c: char): (v: Option<nat>)
    ensures v.Some? ==> v.value < 64 && Symbol(v.value) == c
  {
    if 'A' <= c <= 'Z' then Some(c as int - 'A' as int)
    else if 'a' <= c <= 'z' then Some(c as int - 'a' as int + 26)
    else if '0' <= c <= '9' then Some(c as int - '0' as int + 52)
    else if c == '-' then Some(62)
    else if c == '_' then Some(63)
    else None
  }

  lemma SymbolRoundTrip(v: nat)
    requires v < 64
    ensures SymbolValue(Symbol(v)) == Some(v)
  {
  }

  /** Text over the base64url alphabet. */
  predicate Encoded(s: string) {
    forall c :: c in s ==> SymbolValue(c).Some?
  }

  function Encode(bs: seq<byte>): string {
    if bs == [] then ""
    else if |bs| == 1 then
      [Symbol(bs[0] / 4), Symbol(bs[0] % 4 * 16)]
    else if |bs| == 2 then
      [Symbol(bs[0] / 4), Symbol(bs[0] % 4 * 16 + bs[1] / 16), Symbol(bs[1] % 16 * 4)]
    else
      [Symbol(bs[0] / 4), Symbol(bs[0] % 4 * 16 + bs[1] / 16), Symbol(bs[1] % 16 * 4 + bs[2] / 64), Symbol(bs[2] % 64)]
      + Encode(bs[3..])
  }

  /** The decoder skips line breaks anywhere in its input. */
  function WithoutLineBreaks(s: string): string {
    if s == "" then ""
    else if s[0] == '\n' || s[0] == '\r' then WithoutLineBreaks(s[1..])
    else [s[0]] + WithoutLineBreaks(s[1..])
  }

  function Decode(s: string): Option<seq<byte>> {
    DecodeGroups(WithoutLineBreaks(s))
  }

  /** Groups of four symbols; a last group of two or three gives one or two bytes, its spare bits ignored. */
  function DecodeGroups(s: string): Option<seq<byte>> {
    if s == "" then Some([])
    else if |s| == 1 then None
    else
      var a, b := SymbolValue(s[0]), SymbolValue(s[1]);
      if a.None? || b.None? then None
      else
        var first: byte := a.value * 4 + b.value / 16;
        if |s| == 2 then Some([first])
        else
          var c := SymbolValue(s[2]);
          if c.None? then None
          else
            var second: byte := b.value % 16 * 16 + c.value / 4;
            if |s| == 3 then Some([first, second])
            else
              var d, rest := SymbolValue(s[3]), DecodeGroups(s[4..]);
              if d.None? || rest.None? then None
              else Some([first, second, c.value % 4 * 64 + d.value] + rest.value)
  }

  lemma {:induction false} EncodeAlphabet(bs: seq<byte>)
    ensures Encoded(Encode(bs))
    ensures Encode(bs) == "" <==> bs == []
    decreases |bs|
  {
    forall v: nat | v < 64 ensures SymbolValue(Symbol(v)).Some? {
      SymbolRoundTrip(v);
    }
    if |bs| > 2 {
      EncodeAlphabet(bs[3..]);
    }
  }

  lemma {:induction false} NoLineBreaks(s: string)
    requires Encoded(s)
    ensures WithoutLineBreaks(s) == s
  {
    if s != "" {
      assert s[0] in s;
      NoLineBreaks(s[1..]);
    }
  }

  lemma DecodeOne(a: nat, b: nat, x: byte)
    requires a < 64 && b < 64 && x == a * 4 + b / 16
    ensures DecodeGroups([Symbol(a), Symbol(b)]) == Some([x])
  {
    SymbolRoundTrip(a);
    SymbolRoundTrip(b);
  }

  lemma DecodeTwo(a: nat, b: nat, c: nat, x: byte, y: byte)
    requires a < 64 && b < 64 && c < 64 && x == a * 4 + b / 16 && y == b % 16 * 16 + c / 4
    ensures DecodeGroups([Symbol(a), Symbol(b), Symbol(c)]) == Some([x, y])
  {
    SymbolRoundTrip(a);
    SymbolRoundTrip(b);
    SymbolRoundTrip(c);
  }

  lemma DecodeThree(a: nat, b: nat, c: nat, d: nat, x: byte, y: byte, z: byte, rest: string, tail: seq<byte>)
    requires a < 64 && b < 64 && c < 64 && d < 64
    requires x == a * 4 + b / 16 && y == b % 16 * 16 + c / 4 && z == c % 4 * 64 + d
    requires DecodeGroups(rest) == Some(tail)
    ensures DecodeGroups([Symbol(a), Symbol(b), Symbol(c), Symbol(d)] + rest) == Some([x, y, z] + tail)
  {
    SymbolRoundTrip(a);
    SymbolRoundTrip(b);
    SymbolRoundTrip(c);
    SymbolRoundTrip(d);
    assert ([Symbol(a), Symbol(b), Symbol(c), Symbol(d)] + rest)[4..] == rest;
  }

  /** Putting a high and a low part together and taking them apart again. */
  lemma HighLow(high: nat, low: nat, base: nat)
    requires low < base && base in {4, 16, 64}
    ensures (high * base + low) / base == high && (high * base + low) % base == low
  {
  }

  /** Three bytes survive being split into four six-bit values. */
  lemma Regroup(x: byte, y: byte, z: byte)
    ensures x / 4 * 4 + (x % 4 * 16 + y / 16) / 16 == x
    ensures (x % 4 * 16 + y / 16) % 16 * 16 + (y % 16 * 4 + z / 64) / 4 == y
    ensures (y % 16 * 4 + z / 64) % 4 * 64 + z % 64 == z
  {
    HighLow(x % 4, y / 16, 16);
    HighLow(y % 16, z / 64, 4);
  }

  lemma OneByte(x: byte) returns (a: nat, b: nat)
    ensures a < 64 && b < 64 && x == a * 4 + b / 16
    ensures Encode([x]) == [Symbol(a), Symbol(b)]
  {
    a, b := x / 4, x % 4 * 16;
    Regroup(x, 0, 0);
  }

  lemma TwoBytes(x: byte, y: byte) returns (a: nat, b: nat, c: nat)
    ensures a < 64 && b < 64 && c < 64 && x == a * 4 + b / 16 && y == b % 16 * 16 + c / 4
    ensures Encode([x, y]) == [Symbol(a), Symbol(b), Symbol(c)]
  {
    a, b, c := x / 4, x % 4 * 16 + y / 16, y % 16 * 4;
    Regroup(x, y, 0);
  }

  lemma ThreeBytes(x: byte, y: byte, z: byte, tail: seq<byte>) returns (a: nat, b: nat, c: nat, d: nat)
    ensures a < 64 && b < 64 && c < 64 && d < 64
    ensures x == a * 4 + b / 16 && y == b % 16 * 16 + c / 4 && z == c % 4 * 64 + d
    ensures Encode([x, y, z] + tail) == [Symbol(a), Symbol(b), Symbol(c), Symbol(d)] + Encode(tail)
  {
    a, b, c, d := x / 4, x % 4 * 16 + y / 16, y % 16 * 4 + z / 64, z % 64;
    Regroup(x, y, z);
    EncodeThree(x, y, z, tail);
  }

  lemma EncodeThree(x: byte, y: byte, z: byte, tail: seq<byte>)
    ensures Encode([x, y, z] + tail)
            == [Symbol(x / 4), Symbol(x % 4 * 16 + y / 16), Symbol(y % 16 * 4 + z / 64), Symbol(z % 64)] + Encode(tail)
  {
    assert ([x, y, z] + tail)[3..] == tail;
  }

  lemma {:induction false} GroupsRoundTrip(bs: seq<byte>)
    ensures DecodeGroups(Encode(bs)) == Some(bs)
    decreases |bs|
  {
    if |bs| == 1 {
      assert bs == [bs[0]];
      var a, b := OneByte(bs[0]);
      DecodeOne(a, b, bs[0]);
    } else if |bs| == 2 {
      assert bs == [bs[0], bs[1]];
      var a, b, c := TwoBytes(bs[0], bs[1]);
      DecodeTwo(a, b, c, bs[0], bs[1]);
    } else if |bs| > 2 {
      var head, tail := [bs[0], bs[1], bs[2]], bs[3..];
      assert bs == head + tail;
      GroupsRoundTrip(tail);
      var a, b, c, d := ThreeBytes(bs[0], bs[1], bs[2], tail);
      DecodeThree(a, b, c, d, bs[0], bs[1], bs[2], Encode(tail), tail);
    }
  }

  /** Decoding an encoding gives back exactly the bytes. */
  lemma RoundTrip(bs: seq<byte>)
    ensures Decode(Encode(bs)) == Some(bs)
  {
    EncodeAlphabet(bs);
    NoLineBreaks(Encode(bs));
    GroupsRoundTrip(bs);
  }

  // ---- Against RFC 4648 ----

  const UPPER := "ABCDEFGHIJKLMNOPQRSTUVWXYZ"
  const LOWER := "abcdefghijklmnopqrstuvwxyz"
  const DIGITS := "0123456789"
  const ALPHABET := UPPER + LOWER + DIGITS + "-_"

  lemma LetterTable(v: nat)
    requires v < 26
    ensures |UPPER| == 26 && UPPER[v] == ('A' as int + v) as char
    ensures |LOWER| == 26 && LOWER[v] == ('a' as int + v) as char
  {
    assert v in {0, 1, 2, 3, 4, 5, 6, 7, 8, 9, 10, 11, 12, 13, 14, 15, 16, 17, 18, 19, 20, 21, 22, 23, 24, 25};
  }

  lemma DigitTable(v: nat)
    requires v < 10
    ensures |DIGITS| == 10 && DIGITS[v] == ('0' as int + v) as char
  {
    assert v in {0, 1, 2, 3, 4, 5, 6, 7, 8, 9};
  }

  /** The table of section 5 of RFC 4648. */
  lemma AlphabetTable(v: nat)
    requires v < 64
    ensures |ALPHABET| == 64 && Symbol(v) == ALPHABET[v]
  {
    LetterTable(0);
    DigitTable(0);
    if v < 26 {
      LetterTable(v);
    } else if v < 52 {
      LetterTable(v - 26);
    } else if v < 62 {
      DigitTable(v - 52);
    }
  }

  /** Bit `k` of a number, bit 0 being the lowest. */
  function BitOf(v: nat, k: nat): nat
    decreases k
  {
    if k == 0 then v % 2 else BitOf(v / 2, k - 1)
  }

  lemma HalfOfSum(high: nat, low: nat, base: nat)
    requires base in {2, 4, 8, 16, 32, 64}
    ensures (high * base + low) / 2 == high * (base / 2) + low / 2 && (high * base + low) % 2 == low % 2
  {
    if base == 2 {
    } else if base == 4 {
      assert high * 4 == 2 * (high * 2);
    } else if base == 8 {
      assert high * 8 == 2 * (high * 4);
    } else if base == 16 {
      assert high * 16 == 2 * (high * 8);
    } else if base == 32 {
      assert high * 32 == 2 * (high * 16);
    } else {
      assert high * 64 == 2 * (high * 32);
    }
  }

  /** The bits of `high * base + low` are those of `low` and above them those of `high`. */
  lemma {:induction false} BitsOfSum(high: nat, low: nat, n: nat, base: nat, k: nat)
    requires (n, base) in {(0, 1), (1, 2), (2, 4), (3, 8), (4, 16), (5, 32), (6, 64)} && low < base
    ensures BitOf(high * base + low, k) == if k < n then BitOf(low, k) else BitOf(high, k - n)
    decreases k
  {
    if n > 0 {
      var half := base / 2;
      HalfOfSum(high, low, base);
      if k > 0 {
        BitsOfSum(high, low / 2, n - 1, half, k - 1);
      }
    }
  }

  lemma {:induction false} ZeroBits(k: nat)
    ensures BitOf(0, k) == 0
  {
    if k > 0 {
      ZeroBits(k - 1);
    }
  }

  lemma FirstSymbol(x: byte, k: nat)
    requires k < 6
    ensures BitOf(x / 4, k) == BitOf(x, k + 2)
  {
    BitsOfSum(x / 4, x % 4, 2, 4, k + 2);
    assert x / 4 * 4 + x % 4 == x;
  }

  lemma SecondSymbol(x: byte, y: byte, k: nat)
    requires k < 6
    ensures BitOf(x % 4 * 16 + y / 16, k) == if k >= 4 then BitOf(x, k - 4) else BitOf(y, k + 4)
  {
    BitsOfSum(x % 4, y / 16, 4, 16, k);
    if k >= 4 {
      BitsOfSum(x / 4, x % 4, 2, 4, k - 4);
      assert x / 4 * 4 + x % 4 == x;
    } else {
      BitsOfSum(y / 16, y % 16, 4, 16, k + 4);
      assert y / 16 * 16 + y % 16 == y;
    }
  }

  lemma ThirdSymbol(y: byte, z: byte, k: nat)
    requires k < 6
    ensures BitOf(y % 16 * 4 + z / 64, k) == if k >= 2 then BitOf(y, k - 2) else BitOf(z, k + 6)
  {
    BitsOfSum(y % 16, z / 64, 2, 4, k);
    if k >= 2 {
      BitsOfSum(y / 16, y % 16, 4, 16, k - 2);
      assert y / 16 * 16 + y % 16 == y;
    } else {
      BitsOfSum(z / 64, z % 64, 6, 64, k + 6);
      assert z / 64 * 64 + z % 64 == z;
    }
  }

  lemma FourthSymbol(z: byte, k: nat)
    requires k < 6
    ensures BitOf(z % 64, k) == BitOf(z, k)
  {
    BitsOfSum(z / 64, z % 64, 6, 64, k);
    assert z / 64 * 64 + z % 64 == z;
  }

  /** Bit `i` of the bytes, from the first and highest; zero beyond the end. */
  function ByteBit(bs: seq<byte>, i: nat): nat {
    if i / 8 < |bs| then BitOf(bs[i / 8], 7 - i % 8) else 0
  }

  /** Bit `k` of the six-bit value that the symbol stands for. */
  predicate HasBit(c: char, k: nat, bit: nat) {
    SymbolValue(c).Some? && BitOf(SymbolValue(c).value, k) == bit
  }

  lemma GroupBits(x: byte, y: byte, z: byte, i: nat)
    requires i < 24
    ensures BitOf(SixBits(x, y, z)[i / 6], 5 - i % 6) == ByteBit([x, y, z], i)
  {
    var k := 5 - i % 6;
    if i < 6 {
      FirstSymbol(x, k);
      assert i / 6 == 0 && i / 8 == 0 && 7 - i % 8 == k + 2;
    } else if i < 12 {
      SecondSymbol(x, y, k);
      assert i / 6 == 1 && k == 11 - i;
      assert if i < 8 then i / 8 == 0 && 7 - i % 8 == k - 4 else i / 8 == 1 && 7 - i % 8 == k + 4;
    } else if i < 18 {
      ThirdSymbol(y, z, k);
      assert i / 6 == 2 && k == 17 - i;
      assert if i < 16 then i / 8 == 1 && 7 - i % 8 == k - 2 else i / 8 == 2 && 7 - i % 8 == k + 6;
    } else {
      FourthSymbol(z, k);
      assert i / 6 == 3 && k == 23 - i && i / 8 == 2 && 7 - i % 8 == k;
    }
  }

  /** How many symbols the bytes take. */
  lemma {:induction false} EncodedLength(bs: seq<byte>)
    ensures |Encode(bs)| == (8 * |bs| + 5) / 6
    decreases |bs|
  {
    if |bs| > 2 {
      EncodedLength(bs[3..]);
    }
  }

  /** The six-bit values of three bytes. */
  function SixBits(x: byte, y: byte, z: byte): (values: seq<nat>)
    ensures |values| == 4 && forall v :: v in values ==> v < 64
  {
    [x / 4, x % 4 * 16 + y / 16, y % 16 * 4 + z / 64, z % 64]
  }

  function ByteAt(bs: seq<byte>, i: nat): byte {
    if i < |bs| then bs[i] else 0
  }

  lemma FirstGroup(bs: seq<byte>, j: nat)
    requires j < |Encode(bs)| && j < 4
    ensures Encode(bs)[j] == Symbol(SixBits(ByteAt(bs, 0), ByteAt(bs, 1), ByteAt(bs, 2))[j])
  {
    var values := SixBits(ByteAt(bs, 0), ByteAt(bs, 1), ByteAt(bs, 2));
    if |bs| == 1 {
      assert Encode(bs) == [Symbol(values[0]), Symbol(values[1])];
    } else if |bs| == 2 {
      assert Encode(bs) == [Symbol(values[0]), Symbol(values[1]), Symbol(values[2])];
    } else {
      assert Encode(bs)[..4] == [Symbol(values[0]), Symbol(values[1]), Symbol(values[2]), Symbol(values[3])];
      assert Encode(bs)[j] == Encode(bs)[..4][j];
    }
  }

  /** A missing byte has only zero bits. */
  lemma FirstBytes(bs: seq<byte>, i: nat)
    requires i < 24
    ensures ByteBit(bs, i) == ByteBit([ByteAt(bs, 0), ByteAt(bs, 1), ByteAt(bs, 2)], i)
  {
    ZeroBits(7 - i % 8);
    assert i / 8 == 0 || i / 8 == 1 || i / 8 == 2;
  }

  lemma FirstValues(bs: seq<byte>, j: nat)
    requires j < |Encode(bs)| && j < 4
    ensures SymbolValue(Encode(bs)[j]) == Some(SixBits(ByteAt(bs, 0), ByteAt(bs, 1), ByteAt(bs, 2))[j])
  {
    FirstGroup(bs, j);
    SymbolRoundTrip(SixBits(ByteAt(bs, 0), ByteAt(bs, 1), ByteAt(bs, 2))[j]);
  }

  lemma FirstValueBits(bs: seq<byte>, i: nat)
    requires i < 24
    ensures BitOf(SixBits(ByteAt(bs, 0), ByteAt(bs, 1), ByteAt(bs, 2))[i / 6], 5 - i % 6) == ByteBit(bs, i)
  {
    GroupBits(ByteAt(bs, 0), ByteAt(bs, 1), ByteAt(bs, 2), i);
    FirstBytes(bs, i);
  }

  lemma TailSymbol(bs: seq<byte>, j: nat)
    requires |bs| > 2 && 4 <= j < |Encode(bs)|
    ensures j - 4 < |Encode(bs[3..])| && Encode(bs)[j] == Encode(bs[3..])[j - 4]
  {
    assert Encode(bs) == Encode(bs)[..4] + Encode(bs[3..]);
  }

  lemma TailByte(bs: seq<byte>, i: nat)
    requires |bs| > 2 && i >= 24
    ensures ByteBit(bs, i) == ByteBit(bs[3..], i - 24)
  {
    var j := i - 24;
    assert i / 8 == j / 8 + 3 && i % 8 == j % 8;
  }

  lemma FirstBits(bs: seq<byte>, i: nat)
    requires i < 24 && i / 6 < |Encode(bs)|
    ensures HasBit(Encode(bs)[i / 6], 5 - i % 6, ByteBit(bs, i))
  {
    FirstValues(bs, i / 6);
    FirstValueBits(bs, i);
  }

  /**
   * Base64 as section 4 of RFC 4648 describes it: the symbols carry the bits of the bytes, six at a time
   * from the highest, and zero bits after the last byte.
   */
  lemma {:induction false} EncodedBits(bs: seq<byte>, i: nat)
    requires i / 6 < |Encode(bs)|
    ensures HasBit(Encode(bs)[i / 6], 5 - i % 6, ByteBit(bs, i))
    decreases |bs|
  {
    if i < 24 {
      FirstBits(bs, i);
    } else {
      var j := i - 24;
      assert i / 6 == j / 6 + 4 && i % 6 == j % 6;
      EncodedLength(bs);
      TailSymbol(bs, i / 6);
      TailByte(bs, i);
      EncodedBits(bs[3..], j);
    }
  }

  // ---- Which texts decode ----

  lemma {:induction false} LineBreakSkipped(a: string, c: char, b: string)
    requires c == '\n' || c == '\r'
    ensures WithoutLineBreaks(a + ([c] + b)) == WithoutLineBreaks(a + b)
  {
    if a == "" {
      assert a + ([c] + b) == [c] + b && a + b == b && ([c] + b)[1..] == b;
    } else {
      assert (a + ([c] + b))[1..] == a[1..] + ([c] + b) && (a + b)[1..] == a[1..] + b;
      LineBreakSkipped(a[1..], c, b);
    }
  }

  lemma EncodedConcat(a: string, b: string)
    ensures Encoded(a + b) <==> Encoded(a) && Encoded(b)
  {
    if Encoded(a + b) {
      assert forall c :: c in a ==> c in a + b;
      assert forall c :: c in b ==> c in a + b;
    }
  }

  lemma GroupDecodes(s: string)
    requires |s| >= 4
    ensures DecodeGroups(s).Some? <==>
            && SymbolValue(s[0]).Some? && SymbolValue(s[1]).Some? && SymbolValue(s[2]).Some? && SymbolValue(s[3]).Some?
            && DecodeGroups(s[4..]).Some?
  {
  }

  lemma GroupEncoded(s: string)
    requires |s| >= 4
    ensures Encoded(s) <==>
            && SymbolValue(s[0]).Some? && SymbolValue(s[1]).Some? && SymbolValue(s[2]).Some? && SymbolValue(s[3]).Some?
            && Encoded(s[4..])
  {
    EncodedConcat([s[0], s[1], s[2], s[3]], s[4..]);
    assert s == [s[0], s[1], s[2], s[3]] + s[4..];
  }

  lemma ShortDecodes(s: string)
    requires |s| < 4
    ensures DecodeGroups(s).Some? <==> Encoded(s) && |s| != 1
  {
    if |s| == 3 {
      assert s == [s[0], s[1], s[2]];
    } else if |s| == 2 {
      assert s == [s[0], s[1]];
    }
  }

  lemma {:induction false} GroupsDecodeIff(s: string)
    ensures DecodeGroups(s).Some? <==> Encoded(s) && |s| % 4 != 1
    decreases |s|
  {
    if |s| >= 4 {
      var rest := s[4..];
      GroupsDecodeIff(rest);
      GroupDecodes(s);
      GroupEncoded(s);
      assert |s| % 4 == |rest| % 4;
    } else {
      ShortDecodes(s);
    }
  }

  /** Line breaks are ignored; a text without any decodes exactly if it is over the alphabet and not cut short. */
  lemma DecodesIff(s: string)
    ensures Decode(s).Some? <==> Encoded(WithoutLineBreaks(s)) && |WithoutLineBreaks(s)| % 4 != 1
    ensures forall a, b :: s == a + ("\n" + b) || s == a + ("\r" + b) ==> Decode(s) == Decode(a + b)
    ensures Encoded(s) ==> WithoutLineBreaks(s) == s
  {
    GroupsDecodeIff(WithoutLineBreaks(s));
    forall a, b | s == a + ("\n" + b) || s == a + ("\r" + b) ensures Decode(s) == Decode(a + b) {
      if s == a + ("\n" + b) {
        LineBreakSkipped(a, '\n', b);
      } else {
        LineBreakSkipped(a, '\r', b);
      }
    }
    if Encoded(s) {
      NoLineBreaks(s);
    }
  }
}
