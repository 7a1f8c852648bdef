/**
 * The keys `sort_orders` sorts by: the order date parsed with the format
 * "%Y-%m-%d %H:%M:%S", the total amount as a number, or the id as an integer.
 * Every key is a real number here, so one comparison serves all three.
 */
module Keys {
  import opened Wrappers
  import opened Text
  import opened Records

  /** `sort_by`: "date", "amount", and anything else sorts by id. */
  datatype SortKey = ByDate | ByAmount | ById

  function SortKeyOf(sortBy: string): (k: SortKey)
    ensures k == ByDate <==> sortBy == "date"
    ensures k == ByAmount <==> sortBy == "amount"
  {
    if sortBy == "date" then ByDate else if sortBy == "amount" then ByAmount else ById
  }

  // ---------------------------------------------------------------- dates

  datatype DateTime = DateTime(year: nat, month: nat, day: nat, hour: nat, minute: nat, second: nat)

  predicate IsLeapYear(y: nat) {
    y % 4 == 0 && (y % 100 != 0 || y % 400 == 0)
  }

  function DaysInMonth(y: nat, m: nat): nat {
    if m == 2 then (if IsLeapYear(y) then 29 else 28)
    else if m == 4 || m == 6 || m == 9 || m == 11 then 30
    else 31
  }

  /** The ranges `datetime` accepts for its fields. */
  predicate ValidDate(d: DateTime) {
    && 1 <= d.year <= 9999 && 1 <= d.month <= 12 && 1 <= d.day <= DaysInMonth(d.year, d.month)
    && d.hour <= 23 && d.minute <= 59 && d.second <= 59
  }

  /** `n` written with exactly `w` digits, zero-padded on the left. */
  function Pad(n: nat, w: nat): (s: string)
    ensures |s| == w && AllDigits(s)
  {
    if w == 0 then [] else Pad(n / 10, w - 1) + [DigitChar(n % 10)]
  }

  lemma {:induction false} PadValue(n: nat, w: nat)
    requires n < Pow10(w)
    ensures DigitsValue(Pad(n, w)) == n
  {
    if w > 0 {
      PadValue(n / 10, w - 1);
      var p := Pad(n, w);
      assert p[..|p| - 1] == Pad(n / 10, w - 1);
    }
  }

  lemma {:induction false} PadOfDigits(s: string)
    requires AllDigits(s)
    ensures Pad(DigitsValue(s), |s|) == s
    decreases |s|
  {
    if s != [] {
      var init := s[..|s| - 1];
      var c := s[|s| - 1];
      PadOfDigits(init);
      var d := c as int - '0' as int;
      assert DigitsValue(s) == DigitsValue(init) * 10 + d;
      DivModTen(DigitsValue(init), d);
      assert DigitChar(d) == c;
      assert Pad(DigitsValue(s), |s|) == Pad(DigitsValue(init), |init|) + [c];
      assert s == init + [c];
    }
  }

  /** `strftime("%Y-%m-%d %H:%M:%S")` */
  function FormatDate(d: DateTime): string {
    Pad(d.year, 4) + "-" + Pad(d.month, 2) + "-" + Pad(d.day, 2) + " "
    + Pad(d.hour, 2) + ":" + Pad(d.minute, 2) + ":" + Pad(d.second, 2)
  }

  /** The punctuation of the fixed-width layout sits where it should. */
  predicate DateLayout(s: string) {
    |s| == 19 && s[4] == '-' && s[7] == '-' && s[10] == ' ' && s[13] == ':' && s[16] == ':'
    && AllDigits(s[..4]) && AllDigits(s[5..7]) && AllDigits(s[8..10])
    && AllDigits(s[11..13]) && AllDigits(s[14..16]) && AllDigits(s[17..])
  }

  /** `datetime.strptime(s, "%Y-%m-%d %H:%M:%S")` on zero-padded text; None where it raises. */
  function ParseDate(s: string): Option<DateTime> {
    if !DateLayout(s) then None
    else
      var d := DateTime(DigitsValue(s[..4]), DigitsValue(s[5..7]), DigitsValue(s[8..10]),
                        DigitsValue(s[11..13]), DigitsValue(s[14..16]), DigitsValue(s[17..]));
      if ValidDate(d) then Some(d) else None
  }

  lemma FormatDateLayout(d: DateTime)
    ensures var s := FormatDate(d);
      && DateLayout(s)
      && s[..4] == Pad(d.year, 4) && s[5..7] == Pad(d.month, 2) && s[8..10] == Pad(d.day, 2)
      && s[11..13] == Pad(d.hour, 2) && s[14..16] == Pad(d.minute, 2) && s[17..] == Pad(d.second, 2)
  {
    var y, mo, da := Pad(d.year, 4), Pad(d.month, 2), Pad(d.day, 2);
    var h, mi, se := Pad(d.hour, 2), Pad(d.minute, 2), Pad(d.second, 2);
    var t1 := y + "-";
    var t2 := t1 + mo + "-";
    var t3 := t2 + da + " ";
    var t4 := t3 + h + ":";
    var t5 := t4 + mi + ":";
    var s := FormatDate(d);
    assert s == t5 + se;
    assert s[..17] == t5 && s[17..] == se;
    Peel(t4, mi, ':');
    assert s[..14] == t4 && s[14..16] == mi && s[16] == ':';
    Peel(t3, h, ':');
    assert s[..11] == t3 && s[11..13] == h && s[13] == ':';
    Peel(t2, da, ' ');
    assert s[..8] == t2 && s[8..10] == da && s[10] == ' ';
    Peel(t1, mo, '-');
    assert s[..5] == t1 && s[5..7] == mo && s[7] == '-';
    assert s[..4] == y && s[4] == '-';
  }

  /** The three parts of `pre + f + [sep]` are where they were put. */
  lemma Peel(pre: string, f: string, sep: char)
    ensures var t := pre + f + [sep];
      t[..|pre|] == pre && t[|pre|..|pre| + |f|] == f && t[|pre| + |f|] == sep
  {
  }

  /** Fields that fit their widths are read back from the formatted text. */
  lemma FormatDateFields(d: DateTime)
    requires d.year < 10000 && d.month < 100 && d.day < 100 && d.hour < 100 && d.minute < 100 && d.second < 100
    ensures var s := FormatDate(d);
      && DateLayout(s)
      && DateTime(DigitsValue(s[..4]), DigitsValue(s[5..7]), DigitsValue(s[8..10]),
                  DigitsValue(s[11..13]), DigitsValue(s[14..16]), DigitsValue(s[17..])) == d
  {
    FormatDateLayout(d);
    assert Pow10(2) == 100 && Pow10(4) == 10000;
    PadValue(d.year, 4);
    PadValue(d.month, 2);
    PadValue(d.day, 2);
    PadValue(d.hour, 2);
    PadValue(d.minute, 2);
    PadValue(d.second, 2);
  }

  /** A valid date written out by FormatDate is parsed back to itself. */
  lemma ParseFormatDate(d: DateTime)
    requires ValidDate(d)
    ensures ParseDate(FormatDate(d)) == Some(d)
  {
    FormatDateFields(d);
  }

  /** Every text ParseDate accepts is exactly the formatting of what it returns. */
  lemma FormatParseDate(s: string)
    requires ParseDate(s).Some?
    ensures ValidDate(ParseDate(s).value) && FormatDate(ParseDate(s).value) == s
  {
    var d := ParseDate(s).value;
    PadOfDigits(s[..4]);
    PadOfDigits(s[5..7]);
    PadOfDigits(s[8..10]);
    PadOfDigits(s[11..13]);
    PadOfDigits(s[14..16]);
    PadOfDigits(s[17..]);
    FormatDateLayout(d);
    var f := FormatDate(d);
    assert forall i :: 0 <= i < 19 ==> f[i] == s[i] by {
      forall i | 0 <= i < 19
        ensures f[i] == s[i]
      {
        if i < 4 { assert f[i] == f[..4][i]; assert s[i] == s[..4][i]; }
        else if 5 <= i < 7 { assert f[i] == f[5..7][i - 5]; assert s[i] == s[5..7][i - 5]; }
        else if 8 <= i < 10 { assert f[i] == f[8..10][i - 8]; assert s[i] == s[8..10][i - 8]; }
        else if 11 <= i < 13 { assert f[i] == f[11..13][i - 11]; assert s[i] == s[11..13][i - 11]; }
        else if 14 <= i < 16 { assert f[i] == f[14..16][i - 14]; assert s[i] == s[14..16][i - 14]; }
        else if 17 <= i { assert f[i] == f[17..][i - 17]; assert s[i] == s[17..][i - 17]; }
      }
    }
  }

  /** Chronological order, which is how `datetime` values compare. */
  predicate Before(a: DateTime, b: DateTime) {
    || a.year < b.year
    || (a.year == b.year && a.month < b.month)
    || (a.year == b.year && a.month == b.month && a.day < b.day)
    || (a.year == b.year && a.month == b.month && a.day == b.day && a.hour < b.hour)
    || (a.year == b.year && a.month == b.month && a.day == b.day && a.hour == b.hour && a.minute < b.minute)
    || (a.year == b.year && a.month == b.month && a.day == b.day && a.hour == b.hour && a.minute == b.minute
        && a.second < b.second)
  }

  /** A date as the number YYYYMMDDhhmmss. */
  function DateNumber(d: DateTime): nat {
    ((((d.year * 100 + d.month) * 100 + d.day) * 100 + d.hour) * 100 + d.minute) * 100 + d.second
  }

  /** Appending a two-digit field keeps the order of the prefix first, then the field. */
  lemma ShiftOrder(x: nat, u: nat, y: nat, v: nat)
    requires u < 100 && v < 100
    ensures x * 100 + u < y * 100 + v <==> x < y || (x == y && u < v)
    ensures x * 100 + u == y * 100 + v <==> x == y && u == v
  {
    if x < y {
      assert x * 100 + u < (x + 1) * 100 <= y * 100;
    } else if x > y {
      assert y * 100 + v < (y + 1) * 100 <= x * 100;
    }
  }

  /** Comparing date numbers is comparing the dates chronologically. */
  lemma DateNumberOrder(a: DateTime, b: DateTime)
    requires ValidDate(a) && ValidDate(b)
    ensures DateNumber(a) < DateNumber(b) <==> Before(a, b)
    ensures DateNumber(a) == DateNumber(b) <==> a == b
  {
    ShiftOrder(a.year, a.month, b.year, b.month);
    var a1, b1 := a.year * 100 + a.month, b.year * 100 + b.month;
    ShiftOrder(a1, a.day, b1, b.day);
    var a2, b2 := a1 * 100 + a.day, b1 * 100 + b.day;
    ShiftOrder(a2, a.hour, b2, b.hour);
    var a3, b3 := a2 * 100 + a.hour, b2 * 100 + b.hour;
    ShiftOrder(a3, a.minute, b3, b.minute);
    var a4, b4 := a3 * 100 + a.minute, b3 * 100 + b.minute;
    ShiftOrder(a4, a.second, b4, b.second);
    assert DateNumber(a) == a4 * 100 + a.second && DateNumber(b) == b4 * 100 + b.second;
  }

  // ---------------------------------------------------------------- keys

  /** `get_key(x)`, or None where computing it raises ValueError. */
  function KeyValue(on: SortKey, r: Record): Option<real> {
    match on
    case ByDate =>
      if !r.Order? then None
      else (match ParseDate(r.orderDate) case None => None case Some(d) => Some(DateNumber(d) as real))
    case ByAmount =>
      if !r.Order? then None
      else (match ParseDecimal(r.totalAmount) case None => None case Some(d) => Some(d.Value()))
    case ById =>
      match ParseInt(r.id) case None => None case Some(i) => Some(i as real)
  }

  /** Under the date key, records compare as their dates do chronologically. */
  lemma DateKeyOrder(a: Record, b: Record)
    requires KeyValue(ByDate, a).Some? && KeyValue(ByDate, b).Some?
    ensures var da, db := ParseDate(a.orderDate).value, ParseDate(b.orderDate).value;
      && (KeyValue(ByDate, a).value < KeyValue(ByDate, b).value <==> Before(da, db))
      && (KeyValue(ByDate, a).value == KeyValue(ByDate, b).value <==> da == db)
  {
    DateNumberOrder(ParseDate(a.orderDate).value, ParseDate(b.orderDate).value);
  }

  /** The amount key of an order is the value of its amount text. */
  lemma AmountKeyOf(r: Record, d: Decimal)
    requires r.Order? && ParseDecimal(r.totalAmount) == Some(d)
    ensures KeyValue(ByAmount, r) == Some(d.Value())
  {
  }

  /** The date key of an order is the number of its date. */
  lemma DateKeyOf(r: Record, d: DateTime)
    requires r.Order? && ParseDate(r.orderDate) == Some(d)
    ensures KeyValue(ByDate, r) == Some(DateNumber(d) as real)
  {
  }

  /** An order whose amount was written from a count of kopecks has that amount, in roubles, as its key. */
  lemma CentsAmountKey(r: Record, cents: int)
    requires r.Order? && r.totalAmount == FormatCents(cents)
    ensures KeyValue(ByAmount, r) == Some(Roubles(cents))
  {
    var d := Decimal(cents < 0, if cents < 0 then -cents else cents, 2);
    assert ParseDecimal(r.totalAmount) == Some(d) by {
      FormatCentsRoundTrip(cents);
    }
    AmountKeyOf(r, d);
    CentsValue(cents);
  }
}
