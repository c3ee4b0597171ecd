/** String operations of Go's `strings` and `strconv` packages that the rest of the model uses. */
module Text {

  type byte = x: int | 0 <= x < 256

  predicate HasPrefix(s: string, prefix: string) {
    prefix <= s
  }

  /** The characters `unicode.IsSpace` accepts. */
  predicate IsSpace(c: char) {
    || '\t' <= c <= '\r' || c == ' ' || c == '\U{85}' || c == '\U{A0}'
    || c == '\U{1680}' || '\U{2000}' <= c <= '\U{200A}' || c == '\U{2028}' || c == '\U{2029}'
    || c == '\U{202F}' || c == '\U{205F}' || c == '\U{3000}'
  }

  /** The 25 code points of Unicode's White_Space property. */
  lemma SpaceTable(c: char)
    ensures IsSpace(c) <==>
            c as int in {0x9, 0xA, 0xB, 0xC, 0xD, 0x20, 0x85, 0xA0, 0x1680, 0x2000, 0x2001, 0x2002, 0x2003, 0x2004,
                         0x2005, 0x2006, 0x2007, 0x2008, 0x2009, 0x200A, 0x2028, 0x2029, 0x202F, 0x205F, 0x3000}
  {
  }

  predicate Blank(s: string) {
    forall c :: c in s ==> IsSpace(c)
  }

  function TrimLeft(s: string): (r: string)
    ensures r == [] || !IsSpace(r[0])
    ensures |r| <= |s| && r == s[|s| - |r|..]
  {
    if s != [] && IsSpace(s[0]) then TrimLeft(s[1..]) else s
  }

  function TrimRight(s: string): (r: string)
    ensures r == [] || !IsSpace(r[|r| - 1])
    ensures r <= s
  {
    if s != [] && IsSpace(s[|s| - 1]) then TrimRight(s[..|s| - 1]) else s
  }

  /** `strings.TrimSpace`. */
  function TrimSpace(s: string): (r: string)
    ensures r == [] || (!IsSpace(r[0]) && !IsSpace(r[|r| - 1]))
    ensures forall c :: c in r ==> c in s
  {
    var t := TrimRight(s);
    var r := TrimLeft(t);
    assert r != [] ==> r[|r| - 1] == t[|t| - 1];
    r
  }

  /** A string without white space at either end is left alone. */
  lemma TrimSpaceId(s: string)
    requires s != [] && !IsSpace(s[0]) && !IsSpace(s[|s| - 1])
    ensures TrimSpace(s) == s
  {
  }

  lemma {:induction false} TrimRightExact(core: string, right: string)
    requires Blank(right) && core != "" && !IsSpace(core[|core| - 1])
    ensures TrimRight(core + right) == core
  {
    if right == "" {
      assert core + right == core;
    } else {
      var init := right[..|right| - 1];
      assert (core + right)[..|core + right| - 1] == core + init;
      assert right[|right| - 1] in right;
      TrimRightExact(core, init);
    }
  }

  lemma {:induction false} TrimLeftExact(left: string, core: string)
    requires Blank(left) && core != "" && !IsSpace(core[0])
    ensures TrimLeft(left + core) == core
  {
    if left == "" {
      assert left + core == core;
    } else {
      assert (left + core)[1..] == left[1..] + core;
      assert left[0] in left;
      TrimLeftExact(left[1..], core);
    }
  }

  /** Exactly the white space at both ends goes. */
  lemma TrimSpaceExact(left: string, core: string, right: string)
    requires Blank(left) && Blank(right) && core != "" && !IsSpace(core[0]) && !IsSpace(core[|core| - 1])
    ensures TrimSpace(left + core + right) == core
  {
    TrimRightExact(left + core, right);
    TrimLeftExact(left, core);
  }

  function Digit(d: nat): char
    requires d < 10
  {
    ('0' as int + d) as char
  }

  /** Decimal rendering, as `fmt.Sprintf("%d", n)` prints a non-negative number. */
  function Decimal(n: nat): (s: string)
    ensures Numeral(s)
    ensures n > 0 ==> s[0] != '0'
  {
    if n < 10 then [Digit(n)] else Decimal(n / 10) + [Digit(n % 10)]
  }

  /** Decimal digits without a leading zero. */
  predicate Numeral(s: string) {
    s != "" && (forall c :: c in s ==> '0' <= c <= '9') && (s[0] == '0' ==> s == "0")
  }

  /** The number a string of digits denotes. */
  function DecimalValue(s: string): nat {
    if s == [] then 0
    else
      var c := s[|s| - 1];
      10 * DecimalValue(s[..|s| - 1]) + (if '0' <= c <= '9' then c as int - '0' as int else 0)
  }

  lemma {:induction false} DecimalRoundTrip(n: nat)
    ensures DecimalValue(Decimal(n)) == n
  {
    var s := Decimal(n);
    if n < 10 {
      assert s[..0] == [];
      assert DecimalValue(s) == n;
    } else {
      DecimalRoundTrip(n / 10);
      assert s[..|s| - 1] == Decimal(n / 10);
    }
  }

  lemma DecimalSnoc(v: nat, x: nat)
    requires v >= 1 && x < 10
    ensures Decimal(10 * v + x) == Decimal(v) + [Digit(x)]
  {
    assert (10 * v + x) / 10 == v && (10 * v + x) % 10 == x;
  }

  lemma ValueSnoc(s: string, x: nat)
    requires x < 10
    ensures DecimalValue(s + [Digit(x)]) == 10 * DecimalValue(s) + x
  {
    assert (s + [Digit(x)])[..|s|] == s;
  }

  /** A numeral of more than one digit is a shorter positive one and a digit. */
  lemma NumeralSplits(d: string) returns (init: string, x: nat)
    requires Numeral(d) && |d| > 1
    ensures x < 10 && d == init + [Digit(x)] && Numeral(init) && init[0] == d[0] != '0'
  {
    init := d[..|d| - 1];
    assert d[|d| - 1] in d && forall c :: c in init ==> c in d;
    x := d[|d| - 1] as int - '0' as int;
  }

  /** Together with the round trip: `Decimal(n)` is the only numeral for `n`. */
  lemma {:induction false} DecimalUnique(d: string)
    requires Numeral(d)
    ensures Decimal(DecimalValue(d)) == d
    ensures d[0] != '0' ==> DecimalValue(d) >= 1
    decreases |d|
  {
    if |d| == 1 {
      assert d[0] in d;
      var x := d[0] as int - '0' as int;
      assert d == [] + [Digit(x)];
      ValueSnoc([], x);
    } else {
      var init, x := NumeralSplits(d);
      DecimalUnique(init);
      ValueSnoc(init, x);
      DecimalSnoc(DecimalValue(init), x);
    }
  }

  /** The number without its last `k` decimal places. */
  function Shifted(n: nat, k: nat): nat {
    if k == 0 then n else Shifted(n / 10, k - 1)
  }

  /** Each printed digit is the digit of the number at its decimal place. */
  lemma {:induction false} DecimalPlaces(n: nat, i: nat)
    requires i < |Decimal(n)|
    ensures Decimal(n)[i] as int - '0' as int == Shifted(n, |Decimal(n)| - 1 - i) % 10
  {
    var s := Decimal(n);
    if n >= 10 && i < |s| - 1 {
      DecimalPlaces(n / 10, i);
    }
  }
}
