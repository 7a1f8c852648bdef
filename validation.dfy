/**
 * The per-kind validation rules of the stores (`validate` of CustomerModel,
 * ProductModel, OrderModel and OrderItemsModel) and the two regular
 * expressions the customer rules rely on, written as hand-made parsers with
 * a round trip to an explicit description of the accepted strings.
 */
module Validation {
  import opened Wrappers
  import opened Text
  import opened Records

  // ---------------------------------------------------------------- phone

  /** The regex class `[\s\-]`. */
  predicate IsSep(c: char) {
    IsSpace(c) || c == '-'
  }

  /** An optional single separator. */
  predicate OptSep(s: string) {
    s == [] || (|s| == 1 && IsSep(s[0]))
  }

  /** An optional single occurrence of `c`. */
  predicate OptChar(s: string, c: char) {
    s == [] || s == [c]
  }

  predicate DigitsOf(s: string, n: nat) {
    |s| == n && AllDigits(s)
  }

  /**
   * The pieces of a phone number matching
   * `^(\+7|8)[\s\-]?\(?\d{3}\)?[\s\-]?\d{3}[\s\-]?\d{2}[\s\-]?\d{2}$`.
   */
  datatype PhoneParts = PhoneParts(
    trunk: string, sep1: string, open: string, area: string, close: string,
    sep2: string, exchange: string, sep3: string, pair1: string, sep4: string, pair2: string)

  /** The text from the second pair of digits to the end. */
  function PairsText(p: PhoneParts): string {
    p.pair1 + (p.sep4 + p.pair2)
  }

  /** The text from the exchange digits to the end. */
  function ExchangeText(p: PhoneParts): string {
    p.exchange + (p.sep3 + PairsText(p))
  }

  /** The text from the area code to the end. */
  function AreaText(p: PhoneParts): string {
    p.area + (p.close + (p.sep2 + ExchangeText(p)))
  }

  /** The phone number the pieces spell. */
  function PhoneText(p: PhoneParts): string {
    p.trunk + (p.sep1 + (p.open + AreaText(p)))
  }

  predicate PairsWellFormed(p: PhoneParts) {
    DigitsOf(p.pair1, 2) && OptSep(p.sep4) && DigitsOf(p.pair2, 2)
  }

  predicate ExchangeWellFormed(p: PhoneParts) {
    DigitsOf(p.exchange, 3) && OptSep(p.sep3) && PairsWellFormed(p)
  }

  predicate AreaWellFormed(p: PhoneParts) {
    DigitsOf(p.area, 3) && OptChar(p.close, ')') && OptSep(p.sep2) && ExchangeWellFormed(p)
  }

  /** Each piece has the shape the pattern allows for it. */
  predicate PhoneWellFormed(p: PhoneParts) {
    (p.trunk == "+7" || p.trunk == "8") && OptSep(p.sep1) && OptChar(p.open, '(') && AreaWellFormed(p)
  }

  /** Takes one leading separator if there is one. */
  function TakeSep(s: string): (string, string) {
    if s != [] && IsSep(s[0]) then (s[..1], s[1..]) else ([], s)
  }

  /** Takes one leading `c` if there is one. */
  function TakeChar(s: string, c: char): (string, string) {
    if s != [] && s[0] == c then ([c], s[1..]) else ([], s)
  }

  predicate StartsWithDigits(s: string, n: nat) {
    n <= |s| && AllDigits(s[..n])
  }

  /** `\d{2}[\s\-]?\d{2}$` on `r`, filling the last three pieces of `p`. */
  function ParsePairs(p: PhoneParts, r: string): Option<PhoneParts> {
    if !StartsWithDigits(r, 2) then None else
    var (sep4, rest) := TakeSep(r[2..]);
    if |rest| == 2 && AllDigits(rest) then Some(p.(pair1 := r[..2], sep4 := sep4, pair2 := rest)) else None
  }

  /** `\d{3}[\s\-]?` then the pairs. */
  function ParseExchange(p: PhoneParts, r: string): Option<PhoneParts> {
    if !StartsWithDigits(r, 3) then None else
    var (sep3, rest) := TakeSep(r[3..]);
    ParsePairs(p.(exchange := r[..3], sep3 := sep3), rest)
  }

  /** `\d{3}\)?[\s\-]?` then the exchange. */
  function ParseArea(p: PhoneParts, r: string): Option<PhoneParts> {
    if !StartsWithDigits(r, 3) then None else
    var (close, r1) := TakeChar(r[3..], ')');
    var (sep2, rest) := TakeSep(r1);
    ParseExchange(p.(area := r[..3], close := close, sep2 := sep2), rest)
  }

  /**
   * `re.match(phone_pattern, s)` as a left-to-right parse. Every optional
   * element of the pattern is one character of a class that the element after
   * it cannot start with, so taking it whenever it is present never misses a
   * match.
   */
  function ParsePhone(s: string): Option<PhoneParts> {
    var trunk := Trunk(s);
    if trunk == "" then None else ParseOpening(trunk, s[|trunk|..])
  }

  /** `(\+7|8)`, or "" when `s` starts with neither. */
  function Trunk(s: string): (t: string)
    ensures t == "" || t == "+7" || t == "8"
    ensures t != "" ==> |t| <= |s| && s[..|t|] == t
    ensures t == "" ==> !StartsWith(s, "+7") && !StartsWith(s, "8")
  {
    if StartsWith(s, "+7") then "+7" else if StartsWith(s, "8") then "8" else ""
  }

  /** `[\s\-]?\(?` after the trunk prefix, then the area code. */
  function ParseOpening(trunk: string, r: string): Option<PhoneParts> {
    var (sep1, r1) := TakeSep(r);
    var (open, rest) := TakeChar(r1, '(');
    ParseArea(PhoneParts(trunk, sep1, open, "", "", "", "", "", "", "", ""), rest)
  }

  /** `validate_phone` */
  predicate IsPhone(s: string) {
    ParsePhone(s).Some?
  }

  lemma TakeSepOf(x: string, rest: string)
    requires OptSep(x) && (rest == [] || !IsSep(rest[0]))
    ensures TakeSep(x + rest) == (x, rest)
  {
    if x != [] {
      assert (x + rest)[1..] == rest;
    } else {
      assert x + rest == rest;
    }
  }

  lemma TakeCharOf(x: string, c: char, rest: string)
    requires OptChar(x, c) && (rest == [] || rest[0] != c)
    ensures TakeChar(x + rest, c) == (x, rest)
  {
    if x != [] {
      assert (x + rest)[1..] == rest;
    } else {
      assert x + rest == rest;
    }
  }

  lemma TakeSepSplits(s: string)
    ensures OptSep(TakeSep(s).0) && s == TakeSep(s).0 + TakeSep(s).1
  {
    if s != [] && IsSep(s[0]) {
      assert s == s[..1] + s[1..];
    }
  }

  lemma TakeCharSplits(s: string, c: char)
    ensures OptChar(TakeChar(s, c).0, c) && s == TakeChar(s, c).0 + TakeChar(s, c).1
  {
    if s != [] && s[0] == c {
      assert s == [c] + s[1..];
    }
  }

  lemma ParsePairsSound(p: PhoneParts, r: string)
    requires ParsePairs(p, r).Some?
    ensures var q := ParsePairs(p, r).value;
      PairsWellFormed(q) && PairsText(q) == r && q == p.(pair1 := q.pair1, sep4 := q.sep4, pair2 := q.pair2)
  {
    TakeSepSplits(r[2..]);
    assert r == r[..2] + r[2..];
  }

  lemma ParseExchangeSound(p: PhoneParts, r: string)
    requires ParseExchange(p, r).Some?
    ensures var q := ParseExchange(p, r).value;
      && ExchangeWellFormed(q) && ExchangeText(q) == r
      && q == p.(exchange := q.exchange, sep3 := q.sep3, pair1 := q.pair1, sep4 := q.sep4, pair2 := q.pair2)
  {
    var (sep3, rest) := TakeSep(r[3..]);
    TakeSepSplits(r[3..]);
    ParsePairsSound(p.(exchange := r[..3], sep3 := sep3), rest);
    assert r == r[..3] + r[3..];
  }

  lemma ParseAreaSound(p: PhoneParts, r: string)
    requires ParseArea(p, r).Some?
    ensures var q := ParseArea(p, r).value;
      && AreaWellFormed(q) && AreaText(q) == r
      && q.trunk == p.trunk && q.sep1 == p.sep1 && q.open == p.open
  {
    var (close, r1) := TakeChar(r[3..], ')');
    var (sep2, rest) := TakeSep(r1);
    TakeCharSplits(r[3..], ')');
    TakeSepSplits(r1);
    ParseExchangeSound(p.(area := r[..3], close := close, sep2 := sep2), rest);
    assert r == r[..3] + r[3..];
  }

  lemma ParseOpeningSound(trunk: string, r: string)
    requires ParseOpening(trunk, r).Some?
    ensures var q := ParseOpening(trunk, r).value;
      && OptSep(q.sep1) && OptChar(q.open, '(') && AreaWellFormed(q)
      && q.sep1 + (q.open + AreaText(q)) == r && q.trunk == trunk
  {
    var (sep1, r1) := TakeSep(r);
    var (open, rest) := TakeChar(r1, '(');
    TakeSepSplits(r);
    TakeCharSplits(r1, '(');
    ParseAreaSound(PhoneParts(trunk, sep1, open, "", "", "", "", "", "", "", ""), rest);
  }

  /** What the parser returns spells the input and is well formed. */
  lemma ParsePhoneSound(s: string)
    requires ParsePhone(s).Some?
    ensures PhoneWellFormed(ParsePhone(s).value) && PhoneText(ParsePhone(s).value) == s
  {
    var trunk := Trunk(s);
    var r := s[|trunk|..];
    assert s == s[..|trunk|] + r;
    assert ParsePhone(s) == ParseOpening(trunk, r);
    ParseOpeningSound(trunk, r);
    var q := ParseOpening(trunk, r).value;
    assert PhoneText(q) == trunk + (q.sep1 + (q.open + AreaText(q)));
  }

  lemma ParsePairsComplete(p: PhoneParts, q: PhoneParts)
    requires PairsWellFormed(q)
    ensures ParsePairs(p, PairsText(q)) == Some(p.(pair1 := q.pair1, sep4 := q.sep4, pair2 := q.pair2))
  {
    var r := PairsText(q);
    assert r[..2] == q.pair1 && r[2..] == q.sep4 + q.pair2;
    assert IsDigit(q.pair2[0]);
    TakeSepOf(q.sep4, q.pair2);
  }

  lemma ParseExchangeComplete(p: PhoneParts, q: PhoneParts)
    requires ExchangeWellFormed(q)
    ensures ParseExchange(p, ExchangeText(q))
      == Some(p.(exchange := q.exchange, sep3 := q.sep3, pair1 := q.pair1, sep4 := q.sep4, pair2 := q.pair2))
  {
    var r := ExchangeText(q);
    assert r[..3] == q.exchange && r[3..] == q.sep3 + PairsText(q);
    assert IsDigit(PairsText(q)[0]);
    TakeSepOf(q.sep3, PairsText(q));
    ParsePairsComplete(p.(exchange := q.exchange, sep3 := q.sep3), q);
  }

  lemma ParseAreaComplete(p: PhoneParts, q: PhoneParts)
    requires AreaWellFormed(q)
    ensures ParseArea(p, AreaText(q)) == Some(q.(trunk := p.trunk, sep1 := p.sep1, open := p.open))
  {
    var r := AreaText(q);
    var r1 := q.sep2 + ExchangeText(q);
    assert r[..3] == q.area && r[3..] == q.close + r1;
    assert IsDigit(ExchangeText(q)[0]);
    assert !IsSep(ExchangeText(q)[0]);
    assert r1[0] == ExchangeText(q)[0] || IsSep(r1[0]);
    assert r1[0] != ')';
    TakeCharOf(q.close, ')', r1);
    TakeSepOf(q.sep2, ExchangeText(q));
    ParseExchangeComplete(p.(area := q.area, close := q.close, sep2 := q.sep2), q);
  }

  /** Every well-formed phone number is accepted, and parsed back into the same pieces. */
  lemma ParsePhoneComplete(p: PhoneParts)
    requires PhoneWellFormed(p)
    ensures ParsePhone(PhoneText(p)) == Some(p)
  {
    var r2 := p.open + AreaText(p);
    var r1 := p.sep1 + r2;
    var s := PhoneText(p);
    assert s == p.trunk + r1;
    if p.trunk == "+7" {
      assert StartsWith(s, "+7");
    } else {
      assert s[0] == '8';
      assert !StartsWith(s, "+7");
      assert StartsWith(s, "8");
    }
    assert Trunk(s) == p.trunk;
    assert s[|p.trunk|..] == r1;
    assert IsDigit(AreaText(p)[0]);
    assert !IsSep(AreaText(p)[0]);
    assert r2[0] == '(' || IsDigit(r2[0]);
    assert !IsSep(r2[0]);
    TakeSepOf(p.sep1, r2);
    TakeCharOf(p.open, '(', AreaText(p));
    ParseAreaComplete(PhoneParts(p.trunk, p.sep1, p.open, "", "", "", "", "", "", "", ""), p);
  }

  // ---------------------------------------------------------------- e-mail

  predicate IsLetter(c: char) {
    'a' <= c <= 'z' || 'A' <= c <= 'Z'
  }

  /** The regex class `[a-zA-Z0-9._%+-]`. */
  predicate IsLocalChar(c: char) {
    IsLetter(c) || IsDigit(c) || c == '.' || c == '_' || c == '%' || c == '+' || c == '-'
  }

  /** The regex class `[a-zA-Z0-9.-]`. */
  predicate IsDomainChar(c: char) {
    IsLetter(c) || IsDigit(c) || c == '.' || c == '-'
  }

  /** The pieces of an address matching `^[a-zA-Z0-9._%+-]+@[a-zA-Z0-9.-]+\.[a-zA-Z]{2,}$`. */
  datatype EmailParts = EmailParts(local: string, domain: string, tld: string)

  predicate EmailWellFormed(p: EmailParts) {
    && |p.local| >= 1 && (forall i :: 0 <= i < |p.local| ==> IsLocalChar(p.local[i]))
    && |p.domain| >= 1 && (forall i :: 0 <= i < |p.domain| ==> IsDomainChar(p.domain[i]))
    && |p.tld| >= 2 && (forall i :: 0 <= i < |p.tld| ==> IsLetter(p.tld[i]))
  }

  function EmailText(p: EmailParts): string {
    p.local + "@" + p.domain + "." + p.tld
  }

  /**
   * `re.match(email_pattern, s)`. Neither character class holds `@`, so the
   * address splits at its only `@`; the top-level domain holds no `.`, so the
   * domain ends at the last `.`.
   */
  function ParseEmail(s: string): Option<EmailParts> {
    match IndexOf(s, '@')
    case None => None
    case Some(at) =>
      var rest := s[at + 1..];
      match LastIndexOf(rest, '.')
      case None => None
      case Some(dot) =>
        var p := EmailParts(s[..at], rest[..dot], rest[dot + 1..]);
        if EmailWellFormed(p) then Some(p) else None
  }

  /** `validate_email` */
  predicate IsEmail(s: string) {
    ParseEmail(s).Some?
  }

  /** What the parser returns spells the input and is well formed. */
  lemma ParseEmailSound(s: string)
    requires ParseEmail(s).Some?
    ensures EmailWellFormed(ParseEmail(s).value) && EmailText(ParseEmail(s).value) == s
  {
    var at := IndexOf(s, '@').value;
    var rest := s[at + 1..];
    var dot := LastIndexOf(rest, '.').value;
    var p := EmailParts(s[..at], rest[..dot], rest[dot + 1..]);
    assert ParseEmail(s) == Some(p);
    SplitAt(rest, dot);
    SplitAt(s, at);
    Regroup(p.local, "@", p.domain, ".", p.tld);
  }

  /** A well-formed address has its `@` right after the local part. */
  lemma EmailAt(p: EmailParts)
    requires EmailWellFormed(p)
    ensures IndexOf(EmailText(p), '@') == Some(|p.local|)
  {
    var s := EmailText(p);
    assert s == p.local + ("@" + p.domain + "." + p.tld);
    forall j | 0 <= j < |p.local|
      ensures s[j] != '@'
    {
      assert s[j] == p.local[j];
    }
    IndexOfAt(s, '@', |p.local|);
  }

  /** After the `@`, the last `.` is the one before the top-level domain. */
  lemma EmailDot(p: EmailParts)
    requires EmailWellFormed(p)
    ensures LastIndexOf(p.domain + "." + p.tld, '.') == Some(|p.domain|)
  {
    var rest := p.domain + "." + p.tld;
    forall j | |p.domain| < j < |rest|
      ensures rest[j] != '.'
    {
      assert rest[j] == p.tld[j - |p.domain| - 1];
    }
    LastIndexOfAt(rest, '.', |p.domain|);
  }

  /** Every well-formed address is accepted, and parsed back into the same pieces. */
  lemma ParseEmailComplete(p: EmailParts)
    requires EmailWellFormed(p)
    ensures ParseEmail(EmailText(p)) == Some(p)
  {
    var s := EmailText(p);
    var rest := p.domain + "." + p.tld;
    assert s == p.local + "@" + rest;
    assert s[..|p.local|] == p.local;
    assert s[|p.local| + 1..] == rest;
    assert rest[..|p.domain|] == p.domain;
    assert rest[|p.domain| + 1..] == p.tld;
    EmailAt(p);
    EmailDot(p);
  }

  // ---------------------------------------------------------------- rules

  /** One broken rule; the source shows each as one line of its error dialog. */
  datatype Violation =
    | LastNameRequired | FirstNameRequired | PhoneRequired | PhoneFormat | EmailFormat
    | NameRequired | UnitRequired | PriceNotNumber | PriceNotPositive
    | CustomerRequired | AmountNotPositive
    | ItemNotNumeric

  /**
   * What `validate` does with a record: accept it, reject it with the broken
   * rules, or let a ValueError escape (only the order rule does that).
   */
  datatype Verdict = Accepted | Rejected(errors: seq<Violation>) | RaisesValueError

  /** A required text field: reported when it is empty or only whitespace. */
  function Required(field: string, v: Violation): seq<Violation> {
    if IsBlank(field) then [v] else []
  }

  /** The phone rule on the trimmed phone: missing, or present but not a phone number. */
  function PhoneRule(phone: string): seq<Violation> {
    if phone == [] then [PhoneRequired] else if !IsPhone(phone) then [PhoneFormat] else []
  }

  /** The e-mail rule on the trimmed address: optional, but checked when present. */
  function EmailRule(email: string): seq<Violation> {
    if email != [] && !IsEmail(email) then [EmailFormat] else []
  }

  /** The price rule: `float(price)` must succeed and be positive. */
  function PriceRule(price: string): seq<Violation> {
    match ParseDecimal(price)
    case None => [PriceNotNumber]
    case Some(d) => if d.Value() <= 0.0 then [PriceNotPositive] else []
  }

  /** CustomerModel.validate: every broken rule is collected, not only the first. */
  function CustomerErrors(c: Record): seq<Violation>
    requires c.Customer?
  {
    Required(c.lastName, LastNameRequired) + Required(c.firstName, FirstNameRequired)
    + PhoneRule(Trim(c.phone)) + EmailRule(Trim(c.email))
  }

  /** ProductModel.validate: blank name, blank unit and a bad price are all reported together. */
  function ProductErrors(p: Record): seq<Violation>
    requires p.Product?
  {
    Required(p.name, NameRequired) + Required(p.unit, UnitRequired) + PriceRule(p.price)
  }

  /**
   * OrderModel.validate: fail-fast. An empty customer id is refused first;
   * then `float(total_amount)` is not guarded, so an unparsable amount raises.
   */
  function ValidateOrder(o: Record): Verdict
    requires o.Order?
  {
    if o.customerId == [] then Rejected([CustomerRequired])
    else match ParseDecimal(o.totalAmount)
      case None => RaisesValueError
      case Some(d) => if d.Value() <= 0.0 then Rejected([AmountNotPositive]) else Accepted
  }

  /** OrderItemsModel.validate: price and total must parse as numbers and quantity as an integer. */
  function ValidateOrderItem(i: Record): Verdict
    requires i.OrderItem?
  {
    if ParseDecimal(i.price).Some? && ParseDecimal(i.total).Some? && ParseInt(i.quantity).Some?
    then Accepted else Rejected([ItemNotNumeric])
  }

  /** The `validate` of the store that holds records of this kind. */
  function Validate(r: Record): Verdict {
    match r
    case Customer(_, _, _, _, _, _) =>
      var errors := CustomerErrors(r);
      if errors == [] then Accepted else Rejected(errors)
    case Product(_, _, _, _) =>
      var errors := ProductErrors(r);
      if errors == [] then Accepted else Rejected(errors)
    case Order(_, _, _, _, _) => ValidateOrder(r)
    case OrderItem(_, _, _, _, _, _) => ValidateOrderItem(r)
  }

  /** The phone rule in terms of the pattern's pieces rather than the parser. */
  ghost predicate PhoneMatches(phone: string) {
    exists p :: PhoneWellFormed(p) && PhoneText(p) == phone
  }

  /** The e-mail rule in terms of the pattern's pieces rather than the parser. */
  ghost predicate EmailMatches(email: string) {
    exists p :: EmailWellFormed(p) && EmailText(p) == email
  }

  lemma IsPhoneIffMatches(s: string)
    ensures IsPhone(s) <==> PhoneMatches(s)
  {
    if IsPhone(s) {
      ParsePhoneSound(s);
    }
    if PhoneMatches(s) {
      var p :| PhoneWellFormed(p) && PhoneText(p) == s;
      ParsePhoneComplete(p);
    }
  }

  lemma IsEmailIffMatches(s: string)
    ensures IsEmail(s) <==> EmailMatches(s)
  {
    if IsEmail(s) {
      ParseEmailSound(s);
    }
    if EmailMatches(s) {
      var p :| EmailWellFormed(p) && EmailText(p) == s;
      ParseEmailComplete(p);
    }
  }

  lemma RequiredRule(field: string, v: Violation)
    ensures Required(field, v) == [] <==> !AllSpace(field)
    ensures Required(field, v) != [] ==> Required(field, v) == [v]
  {
    BlankIffAllSpace(field);
  }

  /** The phone contributes at most one message: "required" when missing, "format" when malformed. */
  lemma PhoneRuleMeaning(phone: string)
    ensures PhoneRule(phone) == [] <==> phone != [] && PhoneMatches(phone)
    ensures PhoneRule(phone) == [PhoneRequired] <==> phone == []
    ensures PhoneRule(phone) == [PhoneFormat] <==> phone != [] && !PhoneMatches(phone)
  {
    IsPhoneIffMatches(phone);
  }

  lemma EmailRuleMeaning(email: string)
    ensures EmailRule(email) == [] <==> email == [] || EmailMatches(email)
    ensures EmailRule(email) != [] ==> EmailRule(email) == [EmailFormat]
  {
    IsEmailIffMatches(email);
  }

  /** A price is reported at most once, as not a number or as not positive. */
  lemma PriceRuleMeaning(price: string)
    ensures PriceRule(price) == [PriceNotNumber] <==> ParseDecimal(price).None?
    ensures PriceRule(price) == [] <==>
      ParseDecimal(price).Some? && !ParseDecimal(price).value.negative && ParseDecimal(price).value.digits > 0
    ensures PriceRule(price) == [PriceNotPositive] <==>
      ParseDecimal(price).Some? && (ParseDecimal(price).value.negative || ParseDecimal(price).value.digits == 0)
    ensures PriceRule(price) == [] || PriceRule(price) == [PriceNotNumber] || PriceRule(price) == [PriceNotPositive]
  {
    if ParseDecimal(price).Some? {
      PositiveDecimal(ParseDecimal(price).value);
    }
  }

  /**
   * A customer is accepted exactly when both names are non-blank, the trimmed
   * phone is present and spells a phone number, and the trimmed e-mail is
   * absent or spells an address; customer validation never raises.
   */
  lemma CustomerAccepted(c: Record)
    requires c.Customer?
    ensures var phone, email := Trim(c.phone), Trim(c.email);
      (Validate(c) == Accepted <==>
         !AllSpace(c.lastName) && !AllSpace(c.firstName) && phone != [] && PhoneMatches(phone)
         && (email == [] || EmailMatches(email)))
    ensures Validate(c) == Accepted || Validate(c) == Rejected(CustomerErrors(c))
  {
    RequiredRule(c.lastName, LastNameRequired);
    RequiredRule(c.firstName, FirstNameRequired);
    PhoneRuleMeaning(Trim(c.phone));
    EmailRuleMeaning(Trim(c.email));
  }

  /** Every broken customer rule is reported, in the order the source checks them, and nothing else. */
  lemma CustomerReports(c: Record)
    requires c.Customer?
    ensures LastNameRequired in CustomerErrors(c) <==> AllSpace(c.lastName)
    ensures FirstNameRequired in CustomerErrors(c) <==> AllSpace(c.firstName)
    ensures PhoneRequired in CustomerErrors(c) <==> Trim(c.phone) == []
    ensures PhoneFormat in CustomerErrors(c) <==> Trim(c.phone) != [] && !PhoneMatches(Trim(c.phone))
    ensures EmailFormat in CustomerErrors(c) <==> Trim(c.email) != [] && !EmailMatches(Trim(c.email))
    ensures |CustomerErrors(c)| <= 4
  {
    RequiredRule(c.lastName, LastNameRequired);
    RequiredRule(c.firstName, FirstNameRequired);
    PhoneRuleMeaning(Trim(c.phone));
    EmailRuleMeaning(Trim(c.email));
    CustomerPieces(Required(c.lastName, LastNameRequired), Required(c.firstName, FirstNameRequired),
      PhoneRule(Trim(c.phone)), EmailRule(Trim(c.email)));
  }

  /** Membership in the customer report, piece by piece; no piece can produce another piece's message. */
  lemma CustomerPieces(last: seq<Violation>, first: seq<Violation>, phone: seq<Violation>, email: seq<Violation>)
    requires last == [] || last == [LastNameRequired]
    requires first == [] || first == [FirstNameRequired]
    requires phone == [] || phone == [PhoneRequired] || phone == [PhoneFormat]
    requires email == [] || email == [EmailFormat]
    ensures var all := last + first + phone + email;
      && (LastNameRequired in all <==> last != [])
      && (FirstNameRequired in all <==> first != [])
      && (PhoneRequired in all <==> phone == [PhoneRequired])
      && (PhoneFormat in all <==> phone == [PhoneFormat])
      && (EmailFormat in all <==> email != [])
      && |all| <= 4
  {
  }

  /**
   * A product is accepted exactly when name and unit are non-blank and the
   * price parses to a positive number; product validation never raises.
   */
  lemma ProductAccepted(p: Record)
    requires p.Product?
    ensures Validate(p) == Accepted <==>
      !AllSpace(p.name) && !AllSpace(p.unit) && ParseDecimal(p.price).Some?
      && !ParseDecimal(p.price).value.negative && ParseDecimal(p.price).value.digits > 0
    ensures Validate(p) == Accepted || Validate(p) == Rejected(ProductErrors(p))
  {
    RequiredRule(p.name, NameRequired);
    RequiredRule(p.unit, UnitRequired);
    PriceRuleMeaning(p.price);
    var name, unit, price := Required(p.name, NameRequired), Required(p.unit, UnitRequired), PriceRule(p.price);
    assert ProductErrors(p) == name + unit + price;
    NothingReported(name, unit, price);
  }

  /** A report put together from three pieces is empty exactly when every piece is. */
  lemma NothingReported(a: seq<Violation>, b: seq<Violation>, c: seq<Violation>)
    ensures a + b + c == [] <==> a == [] && b == [] && c == []
  {
    assert |a + b + c| == |a| + |b| + |c|;
  }

  /** Every broken product rule is reported, and the price at most once. */
  lemma ProductReports(p: Record)
    requires p.Product?
    ensures NameRequired in ProductErrors(p) <==> AllSpace(p.name)
    ensures UnitRequired in ProductErrors(p) <==> AllSpace(p.unit)
    ensures PriceNotNumber in ProductErrors(p) <==> ParseDecimal(p.price).None?
    ensures PriceNotPositive in ProductErrors(p) <==>
      ParseDecimal(p.price).Some? && (ParseDecimal(p.price).value.negative || ParseDecimal(p.price).value.digits == 0)
    ensures !(PriceNotNumber in ProductErrors(p) && PriceNotPositive in ProductErrors(p))
    ensures |ProductErrors(p)| <= 3
  {
    RequiredRule(p.name, NameRequired);
    RequiredRule(p.unit, UnitRequired);
    PriceRuleMeaning(p.price);
    ProductPieces(Required(p.name, NameRequired), Required(p.unit, UnitRequired), PriceRule(p.price));
  }

  /** Membership in the product report, piece by piece. */
  lemma ProductPieces(name: seq<Violation>, unit: seq<Violation>, price: seq<Violation>)
    requires name == [] || name == [NameRequired]
    requires unit == [] || unit == [UnitRequired]
    requires price == [] || price == [PriceNotNumber] || price == [PriceNotPositive]
    ensures var all := name + unit + price;
      && (NameRequired in all <==> name != [])
      && (UnitRequired in all <==> unit != [])
      && (PriceNotNumber in all <==> price == [PriceNotNumber])
      && (PriceNotPositive in all <==> price == [PriceNotPositive])
      && !(PriceNotNumber in all && PriceNotPositive in all)
      && |all| <= 3
  {
  }

  /**
   * The order rule stops at the first failure: a missing customer id alone is
   * reported even when the amount is bad; otherwise the amount is checked,
   * and only an unparsable amount escapes as ValueError.
   */
  lemma OrderRules(o: Record)
    requires o.Order?
    ensures o.customerId == [] ==> Validate(o) == Rejected([CustomerRequired])
    ensures Validate(o) == RaisesValueError <==> o.customerId != [] && ParseDecimal(o.totalAmount).None?
    ensures Validate(o) == Accepted <==>
      o.customerId != [] && ParseDecimal(o.totalAmount).Some?
      && !ParseDecimal(o.totalAmount).value.negative && ParseDecimal(o.totalAmount).value.digits > 0
    ensures (o.customerId != [] && ParseDecimal(o.totalAmount).Some?
             && (ParseDecimal(o.totalAmount).value.negative || ParseDecimal(o.totalAmount).value.digits == 0))
            ==> Validate(o) == Rejected([AmountNotPositive])
  {
    if ParseDecimal(o.totalAmount).Some? {
      PositiveDecimal(ParseDecimal(o.totalAmount).value);
    }
  }

  /**
   * An order item is accepted exactly when its price and total parse as
   * numbers and its quantity as an integer; otherwise it is rejected with the
   * one message, never raising.
   */
  lemma ItemRules(i: Record)
    requires i.OrderItem?
    ensures Validate(i) == Accepted <==>
      ParseDecimal(i.price).Some? && ParseDecimal(i.total).Some? && ParseInt(i.quantity).Some?
    ensures Validate(i) != Accepted ==> Validate(i) == Rejected([ItemNotNumeric])
  {
  }

  lemma ParenthesisedParts(p: PhoneParts)
    requires p == PhoneParts("+7", [], ['('], "999", [')'], [], "123", ['-'], "45", ['-'], "67")
    ensures PhoneWellFormed(p)
  {
  }

  lemma ParenthesisedText(p: PhoneParts)
    requires p == PhoneParts("+7", [], ['('], "999", [')'], [], "123", ['-'], "45", ['-'], "67")
    ensures PhoneText(p) == "+7(999)123-45-67"
  {
    assert PairsText(p) == "45-67";
    assert ExchangeText(p) == "123-45-67";
    assert AreaText(p) == "999)123-45-67";
  }

  lemma AcceptsParenthesised(s: string)
    requires s == "+7(999)123-45-67"
    ensures IsPhone(s)
  {
    var p := PhoneParts("+7", [], ['('], "999", [')'], [], "123", ['-'], "45", ['-'], "67");
    ParenthesisedParts(p);
    ParenthesisedText(p);
    ParsePhoneComplete(p);
  }

  lemma PlainParts(p: PhoneParts)
    requires p == PhoneParts("8", [], [], "999", [], [], "123", [], "45", [], "67")
    ensures PhoneWellFormed(p)
  {
  }

  lemma PlainText(p: PhoneParts)
    requires p == PhoneParts("8", [], [], "999", [], [], "123", [], "45", [], "67")
    ensures PhoneText(p) == "89991234567"
  {
    assert PairsText(p) == "4567";
    assert ExchangeText(p) == "1234567";
    assert AreaText(p) == "9991234567";
  }

  lemma AcceptsPlain(s: string)
    requires s == "89991234567"
    ensures IsPhone(s)
  {
    var p := PhoneParts("8", [], [], "999", [], [], "123", [], "45", [], "67");
    PlainParts(p);
    PlainText(p);
    ParsePhoneComplete(p);
  }

  lemma SpacedParts(p: PhoneParts)
    requires p == PhoneParts("+7", [' '], [], "999", [], [' '], "123", [' '], "45", [' '], "67")
    ensures PhoneWellFormed(p)
  {
  }

  lemma SpacedText(p: PhoneParts)
    requires p == PhoneParts("+7", [' '], [], "999", [], [' '], "123", [' '], "45", [' '], "67")
    ensures PhoneText(p) == "+7 999 123 45 67"
  {
    assert PairsText(p) == "45 67";
    assert ExchangeText(p) == "123 45 67";
    assert AreaText(p) == "999 123 45 67";
  }

  lemma AcceptsSpaced(s: string)
    requires s == "+7 999 123 45 67"
    ensures IsPhone(s)
  {
    var p := PhoneParts("+7", [' '], [], "999", [], [' '], "123", [' '], "45", [' '], "67");
    SpacedParts(p);
    SpacedText(p);
    ParsePhoneComplete(p);
  }

  /** Without a separator or `(`, the area code follows the trunk prefix directly. */
  lemma OpeningWithout(trunk: string, r: string)
    requires r != [] && IsDigit(r[0])
    ensures ParseOpening(trunk, r) == ParseArea(PhoneParts(trunk, [], [], "", "", "", "", "", "", "", ""), r)
  {
    assert !IsSep(r[0]);
    assert TakeSep(r) == ([], r);
    assert TakeChar(r, '(') == ([], r);
  }

  lemma LongTrunk(s: string)
    requires s == "+799912345678"
    ensures Trunk(s) == "+7" && s[2..] == "99912345678"
  {
    assert s[..2] == "+7";
  }

  lemma LongOpening(s: string)
    requires s == "+799912345678"
    ensures ParsePhone(s) == ParseArea(PhoneParts("+7", [], [], "", "", "", "", "", "", "", ""), "99912345678")
  {
    LongTrunk(s);
    var r := s[2..];
    assert ParsePhone(s) == ParseOpening("+7", r);
    assert r[0] == '9';
    OpeningWithout("+7", r);
  }

  lemma LongArea(p: PhoneParts)
    ensures ParseArea(p, "99912345678") == ParseExchange(p.(area := "999", close := [], sep2 := []), "12345678")
  {
    assert "99912345678"[3..] == "12345678" && !IsSep('1');
  }

  lemma LongExchange(p: PhoneParts)
    ensures ParseExchange(p, "12345678") == ParsePairs(p.(exchange := "123", sep3 := []), "45678")
  {
    assert "12345678"[3..] == "45678" && !IsSep('4');
  }

  lemma LongPairs(p: PhoneParts)
    ensures ParsePairs(p, "45678") == None
  {
    assert "45678"[2..] == "678" && !IsSep('6');
  }

  lemma RefusesShort()
    ensures !IsPhone("123") && !IsPhone("") && !IsPhone("abc")
  {
    assert !StartsWith("abc", "8") by {
      assert "abc"[..1][0] == 'a';
    }
    assert !StartsWith("abc", "+7") by {
      assert "abc"[..2][0] == 'a';
    }
    assert !StartsWith("123", "8") by {
      assert "123"[..1][0] == '1';
    }
    assert !StartsWith("123", "+7") by {
      assert "123"[..2][0] == '1';
    }
  }

  /** Eleven digits after "+7" leave a third digit where the last pair must end the number. */
  lemma RefusesLong(s: string)
    requires s == "+799912345678"
    ensures !IsPhone(s)
  {
    var p := PhoneParts("+7", [], [], "", "", "", "", "", "", "", "");
    LongOpening(s);
    LongArea(p);
    LongExchange(p.(area := "999", close := [], sep2 := []));
    LongPairs(p.(area := "999", close := [], sep2 := []).(exchange := "123", sep3 := []));
  }

  /** An address put together from well-formed pieces is accepted. */
  lemma AcceptsAddress(s: string, local: string, domain: string, tld: string)
    requires EmailWellFormed(EmailParts(local, domain, tld)) && s == local + "@" + domain + "." + tld
    ensures IsEmail(s)
  {
    ParseEmailComplete(EmailParts(local, domain, tld));
  }

  lemma TestAddressParts(p: EmailParts)
    requires p == EmailParts("test", "example", "com")
    ensures EmailWellFormed(p)
  {
  }

  lemma AcceptsTestAddress(s: string)
    requires s == "test@example.com"
    ensures IsEmail(s)
  {
    var local, domain, tld := "test", "example", "com";
    TestAddressParts(EmailParts(local, domain, tld));
    assert local + "@" == "test@";
    assert "test@" + domain == "test@example";
    assert "test@example" + "." == "test@example.";
    assert "test@example." + tld == s;
    AcceptsAddress(s, local, domain, tld);
  }

  lemma DottedAddressParts(p: EmailParts)
    requires p == EmailParts("user.name", "domain", "ru")
    ensures EmailWellFormed(p)
  {
  }

  lemma AcceptsDottedAddress(s: string)
    requires s == "user.name@domain.ru"
    ensures IsEmail(s)
  {
    var local, domain, tld := "user.name", "domain", "ru";
    DottedAddressParts(EmailParts(local, domain, tld));
    assert local + "@" == "user.name@";
    assert "user.name@" + domain == "user.name@domain";
    assert "user.name@domain" + "." == "user.name@domain.";
    assert "user.name@domain." + tld == s;
    AcceptsAddress(s, local, domain, tld);
  }

  /** Without an `@` nothing is an address. */
  lemma RefusesWithoutAt(s: string)
    requires forall i :: 0 <= i < |s| ==> s[i] != '@'
    ensures !IsEmail(s)
  {
  }

  lemma RefusesWord(s: string)
    requires s == "invalid"
    ensures !IsEmail(s)
  {
    RefusesWithoutAt(s);
  }

  /** With its `@` last, an address has no domain. */
  lemma RefusesWithoutDomain(s: string)
    requires s == "user@"
    ensures !IsEmail(s)
  {
    IndexOfAt(s, '@', 4);
  }

  /** With its `@` first, an address has no local part. */
  lemma RefusesWithoutLocal(s: string)
    requires s == "@domain.com"
    ensures !IsEmail(s)
  {
    IndexOfAt(s, '@', 0);
  }

  /**
   * Two everyday addresses are accepted; a word without `@`, an address
   * ending at its `@` and one starting with it are refused.
   */
  lemma EmailExamples()
    ensures IsEmail("test@example.com") && IsEmail("user.name@domain.ru")
    ensures !IsEmail("invalid") && !IsEmail("user@") && !IsEmail("@domain.com")
  {
    AcceptsTestAddress("test@example.com");
    AcceptsDottedAddress("user.name@domain.ru");
    RefusesWord("invalid");
    RefusesWithoutDomain("user@");
    RefusesWithoutLocal("@domain.com");
  }

  /**
   * The three numbers the validator's documentation gives are accepted; too
   * short, not digits, empty, and one digit too many after the country code are refused.
   */
  lemma PhoneExamples()
    ensures IsPhone("+7(999)123-45-67") && IsPhone("89991234567") && IsPhone("+7 999 123 45 67")
    ensures !IsPhone("123") && !IsPhone("abc") && !IsPhone("") && !IsPhone("+799912345678")
  {
    AcceptsParenthesised("+7(999)123-45-67");
    AcceptsPlain("89991234567");
    AcceptsSpaced("+7 999 123 45 67");
    RefusesLong("+799912345678");
    RefusesShort();
  }
}
