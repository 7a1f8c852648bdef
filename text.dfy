/**
 * String helpers shared by the record stores: whitespace trimming as
 * `str.strip()` does it, lower-casing as `str.lower()` does it for ASCII
 * and Cyrillic letters, substring search (`in`), decimal numerals, and the
 * number parsers and formatters standing in for Python's `int()`,
 * `float()`, `str()` and `f"{x:.2f}"`.
 */
module Text {
  import opened Wrappers

  // ---------------------------------------------------------------- whitespace

  /** Whitespace as `str.strip()` and the regex class `\s` see it, restricted to ASCII. */
  predicate IsSpace(c: char) {
    c == ' ' || ('\t' <= c <= '\r') || (28 <= c as int <= 31)
  }

  predicate AllSpace(s: string) {
    forall i :: 0 <= i < |s| ==> IsSpace(s[i])
  }

  predicate NoSpace(s: string) {
    forall i :: 0 <= i < |s| ==> !IsSpace(s[i])
  }

  /** Drops leading whitespace: the result is the suffix of `s` after a run of spaces. */
  function TrimStart(s: string): (r: string)
    ensures |r| <= |s| && r == s[|s| - |r|..]
    ensures r == [] || !IsSpace(r[0])
    ensures AllSpace(s[..|s| - |r|])
  {
    if |s| > 0 && IsSpace(s[0]) then
      var t := s[1..];
      var r := TrimStart(t);
      assert s[|s| - |r|..] == t[|t| - |r|..];
      assert AllSpace(s[..|s| - |r|]) by {
        forall i | 0 <= i < |s| - |r| ensures IsSpace(s[i]) {
          if i > 0 { assert s[i] == t[..|t| - |r|][i - 1]; }
        }
      }
      r
    else s
  }

  /** Drops trailing whitespace: the result is the prefix of `s` before a run of spaces. */
  function TrimEnd(s: string): (r: string)
    ensures |r| <= |s| && r == s[..|r|]
    ensures r == [] || !IsSpace(r[|r| - 1])
    ensures AllSpace(s[|r|..])
  {
    if |s| > 0 && IsSpace(s[|s| - 1]) then
      var t := s[..|s| - 1];
      var r := TrimEnd(t);
      assert t[..|r|] == s[..|r|];
      assert AllSpace(s[|r|..]) by {
        forall i | |r| <= i < |s| ensures IsSpace(s[i]) {
          if i < |s| - 1 { assert s[i] == t[|r|..][i - |r|]; }
        }
      }
      r
    else s
  }

  /** `s.strip()` */
  function Trim(s: string): string {
    TrimEnd(TrimStart(s))
  }

  /** `not s.strip()` */
  predicate IsBlank(s: string) {
    Trim(s) == []
  }

  /** A string is blank exactly when it consists of whitespace only. */
  lemma BlankIffAllSpace(s: string)
    ensures IsBlank(s) <==> AllSpace(s)
  {
    var t := TrimStart(s);
    if IsBlank(s) {
      assert AllSpace(t[0..]);
      assert t == [];
      assert s[..|s|] == s;
    }
  }

  /** Trimming leaves a string without whitespace untouched. */
  lemma TrimOfNoSpace(s: string)
    requires NoSpace(s)
    ensures Trim(s) == s
  {
    if s != [] {
      assert !IsSpace(s[0]) && !IsSpace(s[|s| - 1]);
    }
    TrimStartKeeps(s);
    TrimEndKeeps(s);
  }

  lemma TrimStartKeeps(s: string)
    requires s == [] || !IsSpace(s[0])
    ensures TrimStart(s) == s
  {
  }

  lemma TrimEndKeeps(s: string)
    requires s == [] || !IsSpace(s[|s| - 1])
    ensures TrimEnd(s) == s
  {
  }

  // ---------------------------------------------------------------- case

  /** `str.lower()` on one character: ASCII A-Z and the Cyrillic capitals (with Ё). */
  function LowerChar(c: char): char {
    if 'A' <= c <= 'Z' then (c as int + 32) as char
    else if 0x0410 <= c as int <= 0x042F then (c as int + 32) as char
    else if c as int == 0x0401 then 0x0451 as char
    else c
  }

  /** `s.lower()` */
  function Lower(s: string): string {
    seq(|s|, i requires 0 <= i < |s| => LowerChar(s[i]))
  }

  // ---------------------------------------------------------------- substrings

  predicate StartsWith(s: string, p: string) {
    |p| <= |s| && s[..|p|] == p
  }

  /** `needle` occurs in `hay` starting at position `i`. */
  predicate OccursAt(hay: string, needle: string, i: int) {
    0 <= i && i + |needle| <= |hay| && hay[i..i + |needle|] == needle
  }

  /** Python's `needle in hay` for strings, as a left-to-right scan. */
  predicate Contains(hay: string, needle: string)
    decreases |hay|
  {
    StartsWith(hay, needle) || (hay != [] && Contains(hay[1..], needle))
  }

  /** The scan finds `needle` exactly when it occurs at some position of `hay`. */
  lemma {:induction false} ContainsIffOccurs(hay: string, needle: string)
    ensures Contains(hay, needle) <==> exists i :: OccursAt(hay, needle, i)
    decreases |hay|
  {
    if hay == [] {
      if Contains(hay, needle) {
        assert OccursAt(hay, needle, 0);
      }
    } else {
      ContainsIffOccurs(hay[1..], needle);
      if Contains(hay, needle) {
        if StartsWith(hay, needle) {
          assert OccursAt(hay, needle, 0);
        } else {
          var i :| OccursAt(hay[1..], needle, i);
          assert hay[1..][i..i + |needle|] == hay[i + 1..i + 1 + |needle|];
          assert OccursAt(hay, needle, i + 1);
        }
      }
      if exists i :: OccursAt(hay, needle, i) {
        var i :| OccursAt(hay, needle, i);
        if i == 0 {
          assert StartsWith(hay, needle);
        } else {
          assert hay[1..][i - 1..i - 1 + |needle|] == hay[i..i + |needle|];
          assert OccursAt(hay[1..], needle, i - 1);
        }
      }
    }
  }

  /** First position of `c` in `s` (`s.index(c)`), or None. */
  function IndexOf(s: string, c: char): (r: Option<nat>)
    ensures r.Some? ==> r.value < |s| && s[r.value] == c && forall j :: 0 <= j < r.value ==> s[j] != c
    ensures r.None? ==> forall j :: 0 <= j < |s| ==> s[j] != c
  {
    if s == [] then None
    else if s[0] == c then Some(0)
    else match IndexOf(s[1..], c)
      case None => None
      case Some(k) => Some(k + 1)
  }

  /** Last position of `c` in `s` (`s.rindex(c)`), or None. */
  function LastIndexOf(s: string, c: char): (r: Option<nat>)
    ensures r.Some? ==> r.value < |s| && s[r.value] == c && forall j :: r.value < j < |s| ==> s[j] != c
    ensures r.None? ==> forall j :: 0 <= j < |s| ==> s[j] != c
  {
    if s == [] then None
    else if s[|s| - 1] == c then Some(|s| - 1)
    else LastIndexOf(s[..|s| - 1], c)
  }

  /** A string is what comes before position `k`, the character there, and what comes after. */
  lemma SplitAt(s: string, k: nat)
    requires k < |s|
    ensures s == s[..k] + [s[k]] + s[k + 1..]
  {
  }

  lemma Regroup(a: string, b: string, c: string, d: string, e: string)
    ensures a + b + c + d + e == a + b + (c + d + e)
  {
  }

  /** The first `c` of `s` is where IndexOf finds it. */
  lemma IndexOfAt(s: string, c: char, k: nat)
    requires k < |s| && s[k] == c && forall j :: 0 <= j < k ==> s[j] != c
    ensures IndexOf(s, c) == Some(k)
  {
    var r := IndexOf(s, c);
    assert r.Some?;
    assert !(r.value < k) && !(k < r.value);
  }

  /** The last `c` of `s` is where LastIndexOf finds it. */
  lemma LastIndexOfAt(s: string, c: char, k: nat)
    requires k < |s| && s[k] == c && forall j :: k < j < |s| ==> s[j] != c
    ensures LastIndexOf(s, c) == Some(k)
  {
    var r := LastIndexOf(s, c);
    assert r.Some?;
    assert !(r.value < k) && !(k < r.value);
  }

  // ---------------------------------------------------------------- numerals

  predicate IsDigit(c: char) {
    '0' <= c <= '9'
  }

  predicate AllDigits(s: string) {
    forall i :: 0 <= i < |s| ==> IsDigit(s[i])
  }

  /** A non-empty run of ASCII digits. */
  predicate IsNumeral(s: string) {
    s != [] && AllDigits(s)
  }

  function DigitChar(d: nat): (c: char)
    requires d < 10
    ensures IsDigit(c) && c as int - '0' as int == d
  {
    ('0' as int + d) as char
  }

  /** The number a run of digits denotes (leading zeros allowed, as `int()` allows them). */
  function DigitsValue(s: string): nat
    requires AllDigits(s)
    decreases |s|
  {
    if s == [] then 0 else DigitsValue(s[..|s| - 1]) * 10 + (s[|s| - 1] as int - '0' as int)
  }

  /** `str(n)` for a natural number. */
  function NatToString(n: nat): (s: string)
    ensures IsNumeral(s)
    decreases n
  {
    if n < 10 then [DigitChar(n)] else NatToString(n / 10) + [DigitChar(n % 10)]
  }

  /** Reading back the decimal form of `n` gives `n`. */
  lemma {:induction false} NatToStringRoundTrip(n: nat)
    ensures DigitsValue(NatToString(n)) == n
    decreases n
  {
    if n >= 10 {
      NatToStringRoundTrip(n / 10);
      var s := NatToString(n);
      assert s[..|s| - 1] == NatToString(n / 10);
    }
  }

  /** Two numerals with different values are different strings. */
  lemma NumeralsDifferByValue(a: string, b: string)
    requires AllDigits(a) && AllDigits(b) && DigitsValue(a) != DigitsValue(b)
    ensures a != b
  {
  }

  /** `str(i)` for an integer. */
  function IntToString(i: int): string {
    if i < 0 then "-" + NatToString(-i) else NatToString(i)
  }

  /** An optional leading sign, as `int()` and `float()` accept it: (negative, rest). */
  function SplitSign(t: string): (bool, string) {
    if |t| > 0 && (t[0] == '-' || t[0] == '+') then (t[0] == '-', t[1..]) else (false, t)
  }

  /** `int(s)`: surrounding whitespace, an optional sign, then digits; None where `int()` raises ValueError. */
  function ParseInt(s: string): Option<int> {
    var (negative, body) := SplitSign(Trim(s));
    if IsNumeral(body) then Some(if negative then -(DigitsValue(body) as int) else DigitsValue(body))
    else None
  }

  /** Numerals hold no whitespace. */
  lemma DigitsHaveNoSpace(s: string)
    requires AllDigits(s)
    ensures NoSpace(s)
  {
  }

  /** A minus sign before a numeral leaves no whitespace to trim. */
  lemma SignedNumeralHasNoSpace(n: string)
    requires AllDigits(n)
    ensures NoSpace("-" + n)
  {
    var s := "-" + n;
    forall k | 0 <= k < |s|
      ensures !IsSpace(s[k])
    {
      if k > 0 {
        assert s[k] == n[k - 1];
      }
    }
  }

  /** `int()` of a numeral, with or without a minus sign. */
  lemma ParseIntOfNumeral(n: string, negative: bool)
    requires IsNumeral(n)
    ensures ParseInt(if negative then "-" + n else n) ==
      Some(if negative then -(DigitsValue(n) as int) else DigitsValue(n))
  {
    DigitsHaveNoSpace(n);
    if negative {
      var s := "-" + n;
      assert s[1..] == n;
      assert SplitSign(s) == (true, n);
      SignedNumeralHasNoSpace(n);
      TrimOfNoSpace(s);
    } else {
      assert SplitSign(n) == (false, n);
      TrimOfNoSpace(n);
    }
  }

  /** `int(str(i)) == i` */
  lemma ParseIntRoundTrip(i: int)
    ensures ParseInt(IntToString(i)) == Some(i)
  {
    var m: nat := if i < 0 then -i else i;
    NatToStringRoundTrip(m);
    ParseIntOfNumeral(NatToString(m), i < 0);
  }

  // ---------------------------------------------------------------- decimals

  function Pow10(k: nat): (r: nat)
    ensures r >= 1
  {
    if k == 0 then 1 else 10 * Pow10(k - 1)
  }

  /** A decimal number as written: sign, the digits without the point, and how many of them follow the point. */
  datatype Decimal = Decimal(negative: bool, digits: nat, scale: nat) {
    function Value(): real {
      var magnitude := digits as real / Pow10(scale) as real;
      if negative then -magnitude else magnitude
    }
  }

  /** A decimal is positive exactly when it is unsigned-or-plus and has a non-zero digit. */
  lemma PositiveDecimal(d: Decimal)
    ensures d.Value() > 0.0 <==> !d.negative && d.digits > 0
  {
    var p := Pow10(d.scale) as real;
    var m := d.digits as real / p;
    assert m * p == d.digits as real;
    if d.digits > 0 {
      assert m > 0.0;
    } else {
      assert m == 0.0;
    }
  }

  /**
   * `float(s)` for plain decimal notation: surrounding whitespace, an optional
   * sign, digits with at most one point and at least one digit. None where
   * `float()` raises ValueError.
   */
  function ParseDecimal(s: string): Option<Decimal> {
    var (negative, body) := SplitSign(Trim(s));
    ParseUnsigned(negative, body)
  }

  /** The part of `float()` after the sign: digits with at most one point. */
  function ParseUnsigned(negative: bool, body: string): Option<Decimal> {
    match IndexOf(body, '.')
    case None =>
      if IsNumeral(body) then Some(Decimal(negative, DigitsValue(body), 0)) else None
    case Some(dot) =>
      var whole, fraction := body[..dot], body[dot + 1..];
      if AllDigits(whole) && AllDigits(fraction) && |whole| + |fraction| > 0 then
        assert AllDigits(whole + fraction) by {
          forall k | 0 <= k < |whole + fraction| ensures IsDigit((whole + fraction)[k]) {
            if k >= |whole| { assert (whole + fraction)[k] == fraction[k - |whole|]; }
          }
        }
        Some(Decimal(negative, DigitsValue(whole + fraction), |fraction|))
      else None
  }

  /** `f"{x:.2f}"` for an amount held as a whole number of hundredths. */
  function FormatCents(c: int): string {
    var a := if c < 0 then -c else c;
    (if c < 0 then "-" else "") + CentsBody(a)
  }

  /** The unsigned part of a formatted amount: whole units, a point, two digits. */
  function CentsBody(a: nat): string {
    NatToString(a / 100) + "." + [DigitChar(a % 100 / 10), DigitChar(a % 10)]
  }

  /** Two more digits multiply the value read so far by 100. */
  lemma DigitsValueTwoMore(w: string, d1: char, d2: char)
    requires AllDigits(w) && IsDigit(d1) && IsDigit(d2)
    ensures DigitsValue(w + [d1, d2]) == DigitsValue(w) * 100 + (d1 as int - '0' as int) * 10 + (d2 as int - '0' as int)
  {
    var all := w + [d1, d2];
    assert all[..|all| - 1] == w + [d1];
    assert (w + [d1])[..|w|] == w;
  }

  /** Digits, a point and digits read as the digits together, scaled by the length of the fraction. */
  lemma ParsePointed(negative: bool, w: string, tail: string)
    requires AllDigits(w) && AllDigits(tail) && |w| > 0
    ensures ParseUnsigned(negative, w + "." + tail) == Some(Decimal(negative, DigitsValue(w + tail), |tail|))
  {
    var body := w + "." + tail;
    forall j | 0 <= j < |w| ensures body[j] != '.' {
      assert body[j] == w[j];
    }
    IndexOfAt(body, '.', |w|);
    assert body[..|w|] == w;
    assert body[|w| + 1..] == tail;
  }

  /** Appending a digit `d` to a number `a` is undone by dividing by ten. */
  lemma DivModTen(a: nat, d: nat)
    requires d < 10
    ensures (a * 10 + d) / 10 == a && (a * 10 + d) % 10 == d
  {
  }

  /** The two digits after the point and the whole units make up the amount again. */
  lemma HundredthsDigits(a: nat)
    ensures (a / 100) * 100 + (a % 100 / 10) * 10 + a % 10 == a
  {
    var q, r := a / 100, a % 100;
    var t, u := r / 10, r % 10;
    assert a == (q * 10 + t) * 10 + u;
    DivModTen(q * 10 + t, u);
  }

  /** The unsigned part of a formatted amount reads back as the same number of hundredths. */
  lemma CentsBodyRoundTrip(negative: bool, a: nat)
    ensures ParseUnsigned(negative, CentsBody(a)) == Some(Decimal(negative, a, 2))
  {
    var w := NatToString(a / 100);
    var d1, d2 := DigitChar(a % 100 / 10), DigitChar(a % 10);
    var tail := [d1, d2];
    assert CentsBody(a) == w + "." + tail;
    NatToStringRoundTrip(a / 100);
    ParsePointed(negative, w, tail);
    DigitsValueTwoMore(w, d1, d2);
    HundredthsDigits(a);
  }

  /** The unsigned part of a formatted amount holds no whitespace and starts with a digit. */
  lemma CentsBodyShape(a: nat)
    ensures NoSpace(CentsBody(a)) && IsDigit(CentsBody(a)[0])
  {
    var w := NatToString(a / 100);
    var body := CentsBody(a);
    DigitsHaveNoSpace(w);
    forall k | 0 <= k < |body| ensures !IsSpace(body[k]) {
      if k < |w| { assert body[k] == w[k]; }
    }
    assert body[0] == w[0];
  }

  /** A formatted amount is an optional minus sign followed by its unsigned part. */
  lemma FormatCentsSign(c: int)
    ensures FormatCents(c) == (if c < 0 then "-" else "") + CentsBody(if c < 0 then -c else c)
  {
  }

  /** A formatted amount has no surrounding whitespace and its sign splits off as written. */
  lemma FormatCentsShape(c: int)
    ensures Trim(FormatCents(c)) == FormatCents(c)
    ensures SplitSign(FormatCents(c)) == (c < 0, CentsBody(if c < 0 then -c else c))
  {
    var a: nat := if c < 0 then -c else c;
    FormatCentsSign(c);
    CentsBodyShape(a);
    SignedBodyShape(c < 0, CentsBody(a), FormatCents(c));
  }

  /** A digit-led body without whitespace, with or without a minus sign before it. */
  lemma SignedBodyShape(negative: bool, body: string, s: string)
    requires NoSpace(body) && |body| > 0 && IsDigit(body[0])
    requires s == (if negative then "-" else "") + body
    ensures Trim(s) == s && SplitSign(s) == (negative, body)
  {
    if negative {
      NegativeBodyShape(body, s);
    } else {
      assert s == body;
      TrimOfNoSpace(s);
    }
  }

  /** A minus sign before a body without whitespace adds no whitespace. */
  lemma NegativeBodyShape(body: string, s: string)
    requires NoSpace(body) && s == "-" + body
    ensures Trim(s) == s && SplitSign(s) == (true, body)
  {
    assert s[0] == '-' && s[1..] == body;
    forall k | 0 <= k < |s|
      ensures !IsSpace(s[k])
    {
      if k >= 1 { assert s[k] == body[k - 1]; }
    }
    TrimOfNoSpace(s);
  }

  /** Reading back a formatted amount gives the same number of hundredths. */
  lemma FormatCentsRoundTrip(c: int)
    ensures ParseDecimal(FormatCents(c)) == Some(Decimal(c < 0, if c < 0 then -c else c, 2))
  {
    FormatCentsShape(c);
    CentsBodyRoundTrip(c < 0, if c < 0 then -c else c);
  }

  /** The value of a formatted amount, in hundredths. */
  /** An amount of kopecks in roubles. */
  function Roubles(cents: int): real {
    cents as real / 100.0
  }

  lemma CentsValue(c: int)
    ensures Decimal(c < 0, if c < 0 then -c else c, 2).Value() == Roubles(c)
  {
  }

  /** Amounts as `:.2f` prints them. */
  lemma CentsExample()
    ensures FormatCents(50000) == "500.00" && FormatCents(20000) == "200.00" && FormatCents(30000) == "300.00" && FormatCents(10000) == "100.00"
    ensures IntToString(2) == "2" && IntToString(1) == "1"
  {
    WholeHundreds(5);
    WholeHundreds(2);
    WholeHundreds(3);
    WholeHundreds(1);
  }

  /** A whole number of hundreds of roubles, one to nine, is written as its digit, two zeros and no kopecks. */
  lemma WholeHundreds(w: nat)
    requires 1 <= w <= 9
    ensures FormatCents(w * 10000) == [DigitChar(w), '0', '0', '.', '0', '0']
  {
    var a := w * 10000;
    assert a / 100 == w * 100 && a % 100 / 10 == 0 && a % 10 == 0;
    assert NatToString(w * 10) == [DigitChar(w), '0'] by {
      assert (w * 10) / 10 == w && (w * 10) % 10 == 0;
    }
    assert NatToString(w * 100) == [DigitChar(w), '0', '0'] by {
      assert (w * 100) / 10 == w * 10 && (w * 100) % 10 == 0;
    }
  }
}
