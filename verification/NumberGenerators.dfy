/** national_id, financial_account, person_date, phone, phone_unique, geo and
    credential_unique (mask/gen_number.go, gen_phone.go, gen_credential.go, gen_text.go:176-221). */
module NumberGenerators {
  import opened Arith
  import opened Draws
  import opened Columns
  import opened Lexicon
  import opened Decisions

  /** A generator that can mask no cell has a Domain of zero. */
  lemma NoneIsHonest(mask: seq<nat> -> Outcome, c: Constraints)
    requires forall ds: seq<nat> :: mask(ds) == NoRoom
    ensures Honest(mask, 0, c)
  {
    assert Separates(mask, (k: nat) => [], 0);
  }

  /** satMul(9, pow10(n)) never exceeds the product it stands for. */
  lemma {:induction false} NinePowIsBelow(n: nat)
    ensures 0 < SatMul(9, SatPowOf(10, n)) <= 9 * Pow(10, n)
  {
    PowPositive(10, n);
  }

  // ---------- national_id ----------

  const NATIONAL_ID_DIGITS := 9

  function NationalIDLen(c: Constraints): int {
    if c.checkLength > 0 && (c.maxLen <= 0 || c.checkLength <= c.maxLen) then c.checkLength
    else DigitBudget(c, NATIONAL_ID_DIGITS)
  }

  function NationalIDDomain(c: Constraints): nat {
    if c.labels != [] then |c.labels|
    else if NationalIDLen(c) < 1 then 0
    else SatMul(9, SatPowOf(10, NationalIDLen(c) - 1))
  }

  function NationalIDMask(c: Constraints, ds: seq<nat>): Outcome {
    if c.labels != [] then LabelMask(c.labels, ds)
    else if NationalIDLen(c) < 1 then NoRoom
    else Text(Digits(NationalIDLen(c), false, ds).value)
  }

  lemma LeadingDigitsAreMany(n: nat, mask: seq<nat> -> Outcome, tail: string -> string)
    requires n > 0
    requires forall ds: seq<nat> :: mask(ds) == Text(Digits(n, false, ds).value + tail(Digits(n, false, ds).value))
    ensures EmitsAtLeast(mask, 9 * Pow(10, n - 1))
  {
    var feed := (k: nat) => FeedLeading(n, k);
    forall k: nat ensures mask(feed(k)) == Text(LeadingNumeral(n, k) + tail(LeadingNumeral(n, k))) {
      LeadingIsRead(n, k, []);
      assert FeedLeading(n, k) + [] == feed(k);
    }
    forall j: nat, k: nat | j < k < 9 * Pow(10, n - 1) ensures mask(feed(j)) != mask(feed(k)) {
      if mask(feed(j)) == mask(feed(k)) {
        var a, b := LeadingNumeral(n, j), LeadingNumeral(n, k);
        PrefixesMatch(a, tail(a), b, tail(b));
        LeadingsDiffer(n, j, k);
      }
    }
    assert Separates(mask, feed, 9 * Pow(10, n - 1));
  }

  lemma NationalIDIsHonest(c: Open)
    ensures Honest(ds => NationalIDMask(c, ds), NationalIDDomain(c), c)
  {
    var mask := (ds: seq<nat>) => NationalIDMask(c, ds);
    var n := NationalIDLen(c);
    if n < 1 {
      NoneIsHonest(mask, c);
    } else {
      forall ds: seq<nat> ensures mask(ds) == Text(Digits(n, false, ds).value + "") {
        assert Digits(n, false, ds).value + "" == Digits(n, false, ds).value;
      }
      LeadingDigitsAreMany(n, mask, s => "");
      NinePowIsBelow(n - 1);
      EmitsFewer(mask, NationalIDDomain(c), 9 * Pow(10, n - 1));
    }
  }

  // ---------- financial_account ----------

  const FINANCIAL_DIGITS := 16

  function FinancialLen(c: Constraints): int {
    if c.checkLength > 0 && (c.maxLen <= 0 || c.checkLength <= c.maxLen) then c.checkLength
    else DigitBudget(c, FINANCIAL_DIGITS)
  }

  function FinancialDomain(c: Constraints): nat {
    if c.labels != [] then |c.labels|
    else if FinancialLen(c) < 2 then 0
    else SatMul(9, SatPowOf(10, FinancialLen(c) - 2))
  }

  predicate AllDigits(s: string) {
    forall i :: 0 <= i < |s| ==> '0' <= s[i] <= '9'
  }

  type DigitString = s: string | AllDigits(s)

  function DigitOf(ch: char): nat
    requires '0' <= ch <= '9'
  {
    ch as int - '0' as int
  }

  /** The Luhn sum of s, doubling the last digit when `double` says so and every second one before it. */
  function LuhnSum(s: DigitString, double: bool): nat
    decreases |s|
  {
    if s == "" then 0 else
    var d := DigitOf(s[|s| - 1]);
    var w := if !double then d else if 2 * d > 9 then 2 * d - 9 else 2 * d;
    w + LuhnSum(s[..|s| - 1], !double)
  }

  function DigitText(d: nat): string
    requires d < 10
  {
    [Symbol(Decimal, d)]
  }

  function LuhnCheckDigit(body: string): string {
    if AllDigits(body) then DigitText((10 - LuhnSum(body, true) % 10) % 10) else "0"
  }

  /** luhnCheckDigit's loop. */
  method ComputeLuhn(body: DigitString) returns (digit: string)
    ensures digit == LuhnCheckDigit(body)
  {
    var sum, double, i := 0, true, |body|;
    assert body[..|body|] == body;
    while i > 0
      invariant 0 <= i <= |body|
      invariant sum + LuhnSum(body[..i], double) == LuhnSum(body, true)
    {
      i := i - 1;
      assert body[..i + 1][..i] == body[..i];
      var d := DigitOf(body[i]);
      if double {
        d := d * 2;
        if d > 9 {
          d := d - 9;
        }
      }
      double := !double;
      sum := sum + d;
    }
    digit := DigitText((10 - sum % 10) % 10);
  }

  /** The check a card validator makes: body and check digit together sum to a multiple of ten. */
  lemma LuhnValid(body: DigitString)
    ensures |LuhnCheckDigit(body)| == 1 && AllDigits(body + LuhnCheckDigit(body))
    ensures LuhnSum(body + LuhnCheckDigit(body), false) % 10 == 0
  {
    var whole := body + LuhnCheckDigit(body);
    assert whole[..|whole| - 1] == body;
    var sum := LuhnSum(body, true);
    assert DigitOf(whole[|whole| - 1]) == (10 - sum % 10) % 10;
  }

  lemma {:induction false} SymbolsAreDigits(n: nat, ds: seq<nat>)
    ensures AllDigits(Symbols(Decimal, n, ds).value)
  {
    if n > 0 {
      SymbolsAreDigits(n - 1, Intn(ds, 10).rest);
    }
  }

  lemma DigitsAreDigits(n: nat, leadingZero: bool, ds: seq<nat>)
    ensures AllDigits(Digits(n, leadingZero, ds).value)
  {
    if n > 0 {
      SymbolsAreDigits(n, ds);
      SymbolsAreDigits(n - 1, Intn(ds, 9).rest);
    }
  }

  function FinancialMask(c: Constraints, ds: seq<nat>): Outcome {
    if c.labels != [] then LabelMask(c.labels, ds)
    else if FinancialLen(c) < 2 then NoRoom
    else
      var body := Digits(FinancialLen(c) - 1, false, ds).value;
      Text(body + LuhnCheckDigit(body))
  }

  lemma FinancialIsValid(c: Open, ds: seq<nat>)
    requires FinancialLen(c) >= 2
    ensures var t := FinancialMask(c, ds).text;
      |t| == FinancialLen(c) && AllDigits(t) && LuhnSum(t, false) % 10 == 0
  {
    hide FinancialLen, AllDigits, LuhnSum, LuhnCheckDigit, Digits;
    var n := FinancialLen(c);
    DigitsAreDigits(n - 1, false, ds);
    LuhnValid(Digits(n - 1, false, ds).value);
  }

  lemma FinancialsAreMany(c: Open, mask: seq<nat> -> Outcome)
    requires FinancialLen(c) >= 2 && forall ds: seq<nat> :: mask(ds) == FinancialMask(c, ds)
    ensures EmitsAtLeast(mask, FinancialDomain(c)) && FinancialDomain(c) > 0
  {
    hide FinancialLen, LuhnSum, LuhnCheckDigit, Digits, Pow, EmitsAtLeast;
    var n := FinancialLen(c);
    LeadingDigitsAreMany(n - 1, mask, LuhnCheckDigit);
    NinePowIsBelow(n - 2);
    EmitsFewer(mask, FinancialDomain(c), 9 * Pow(10, n - 2));
  }

  lemma FinancialIsHonest(c: Open)
    ensures Honest(ds => FinancialMask(c, ds), FinancialDomain(c), c)
    ensures forall ds: seq<nat> :: FinancialMask(c, ds).Text? ==>
      AllDigits(FinancialMask(c, ds).text) && LuhnSum(FinancialMask(c, ds).text, false) % 10 == 0
  {
    hide AllDigits, LuhnSum, LuhnCheckDigit, Digits, EmitsAtLeast;
    var mask := (ds: seq<nat>) => FinancialMask(c, ds);
    if FinancialLen(c) < 2 {
      NoneIsHonest(mask, c);
    } else {
      hide FinancialDomain;
      FinancialsAreMany(c, mask);
      forall ds: seq<nat>
        ensures |FinancialMask(c, ds).text| == FinancialLen(c) && AllDigits(FinancialMask(c, ds).text)
        ensures LuhnSum(FinancialMask(c, ds).text, false) % 10 == 0
      {
        FinancialIsValid(c, ds);
      }
    }
  }

  // ---------- phone ----------

  datatype PhoneShape = PhoneNone | PhoneE164 | PhoneDigits | PhoneNational

  function PhoneShapeFor(c: Constraints): PhoneShape {
    if NumericFamily(c.typeTag) then
      if DigitBudget(c, 11) >= 11 then PhoneDigits
      else if DigitBudget(c, 10) >= 10 then PhoneNational
      else PhoneNone
    else if Room(c) == 0 || Room(c) >= 12 then PhoneE164
    else if Room(c) >= 11 then PhoneDigits
    else if Room(c) >= 10 then PhoneNational
    else PhoneNone
  }

  function PhoneDomain(l: Lists, c: Constraints): nat {
    if c.labels != [] then |c.labels|
    else if PhoneShapeFor(c) == PhoneNone then 0
    else |l.areaCodes| * 100
  }

  function PhonePrefix(s: PhoneShape): string {
    match s case PhoneE164 => "+1" case PhoneDigits => "1" case _ => ""
  }

  function PhoneMask(l: Lists, c: Constraints, ds: seq<nat>): Outcome {
    if c.labels != [] then LabelMask(c.labels, ds)
    else if PhoneShapeFor(c) == PhoneNone then NoRoom
    else
      var area := Intn(ds, |l.areaCodes|);
      Text(PhonePrefix(PhoneShapeFor(c)) + (l.areaCodes[area.value] + "55501") + Digits(2, true, area.rest).value)
  }

  lemma PhonesDiffer(l: Lists, prefix: string, a: nat, k: nat, b: nat, m: nat)
    requires a < |l.areaCodes| && b < |l.areaCodes| && k < 100 && m < 100
    requires prefix + (l.areaCodes[a] + "55501") + Numeral(Decimal, 2, k) == prefix + (l.areaCodes[b] + "55501") + Numeral(Decimal, 2, m)
    ensures a == b && k == m
  {
    TailsMatch(prefix + (l.areaCodes[a] + "55501"), Numeral(Decimal, 2, k), prefix + (l.areaCodes[b] + "55501"), Numeral(Decimal, 2, m));
    PrefixesMatch(prefix, l.areaCodes[a] + "55501", prefix, l.areaCodes[b] + "55501");
    TailsMatch(l.areaCodes[a], "55501", l.areaCodes[b], "55501");
    assert Pow(10, 2) == 100;
    NumeralsDiffer(Decimal, 2, k, m);
  }

  lemma PhoneIsFed(l: Lists, c: Open, a: nat, k: nat)
    requires PhoneShapeFor(c) != PhoneNone && a < |l.areaCodes|
    ensures PhoneMask(l, c, Feed(|l.areaCodes|, a) + FeedNumeral(Decimal, 2, k)) ==
      Text(PhonePrefix(PhoneShapeFor(c)) + (l.areaCodes[a] + "55501") + Numeral(Decimal, 2, k))
  {
    FeedIsRead(|l.areaCodes|, a, FeedNumeral(Decimal, 2, k));
    NumeralIsRead(Decimal, 2, k, []);
    assert FeedNumeral(Decimal, 2, k) + [] == FeedNumeral(Decimal, 2, k);
  }

  lemma PhonesAreMany(l: Lists, c: Open, mask: seq<nat> -> Outcome)
    requires PhoneShapeFor(c) != PhoneNone && forall ds: seq<nat> :: mask(ds) == PhoneMask(l, c, ds)
    ensures EmitsAtLeast(mask, |l.areaCodes| * 100)
  {
    hide PhoneShapeFor, PhonePrefix, Numeral, FeedNumeral;
    var feed := (t: Choice) => Feed(|l.areaCodes|, t.first) + FeedNumeral(Decimal, 2, t.second);
    var bounds := Choice(|l.areaCodes|, 100, 1);
    forall t: Choice | Below(t, bounds) ensures mask(feed(t)).Text? {
      PhoneIsFed(l, c, t.first, t.second);
    }
    forall t: Choice, u: Choice | Below(t, bounds) && Below(u, bounds) && mask(feed(t)) == mask(feed(u)) ensures t == u {
      PhoneIsFed(l, c, t.first, t.second);
      PhoneIsFed(l, c, u.first, u.second);
      PhonesDiffer(l, PhonePrefix(PhoneShapeFor(c)), t.first, t.second, u.first, u.second);
    }
    ChoicesAreMany(mask, feed, bounds);
  }

  lemma PhoneIsHonest(l: Lists, c: Open)
    ensures Honest(ds => PhoneMask(l, c, ds), PhoneDomain(l, c), c)
  {
    hide EmitsAtLeast, Digits;
    var mask := (ds: seq<nat>) => PhoneMask(l, c, ds);
    if PhoneShapeFor(c) == PhoneNone {
      NoneIsHonest(mask, c);
    } else {
      PhonesAreMany(l, c, mask);
    }
  }

  // ---------- phone_unique ----------

  const UNIQUE_PHONE_DIGITS := 12

  function UniquePhoneDigits(c: Constraints): int {
    if NumericFamily(c.typeTag) then
      var d := DigitBudget(c, UNIQUE_PHONE_DIGITS + 1) - 1;
      if d < 1 then 0 else Min(d, UNIQUE_PHONE_DIGITS)
    else if Room(c) == 0 then UNIQUE_PHONE_DIGITS
    else
      var d := Min(UNIQUE_PHONE_DIGITS, Room(c) - 2);
      if d < 1 then 0 else d
  }

  function PhoneUniqueDomain(c: Constraints): nat {
    if c.labels != [] then |c.labels|
    else if UniquePhoneDigits(c) <= 0 then 0
    else SatPowOf(10, UniquePhoneDigits(c))
  }

  function PhoneUniqueMask(c: Constraints, ds: seq<nat>): Outcome {
    if c.labels != [] then LabelMask(c.labels, ds)
    else if UniquePhoneDigits(c) <= 0 then NoRoom
    else Text((if NumericFamily(c.typeTag) then "1" else "+1") + Digits(UniquePhoneDigits(c), true, ds).value)
  }

  lemma PhoneUniqueIsHonest(c: Open)
    ensures Honest(ds => PhoneUniqueMask(c, ds), PhoneUniqueDomain(c), c)
  {
    var mask := (ds: seq<nat>) => PhoneUniqueMask(c, ds);
    var d := UniquePhoneDigits(c);
    if d <= 0 {
      NoneIsHonest(mask, c);
    } else {
      NumeralsAreMany(Decimal, d, mask, if NumericFamily(c.typeTag) then "1" else "+1");
      PowPositive(10, d);
      EmitsFewer(mask, PhoneUniqueDomain(c), Pow(10, d));
    }
  }

  // ---------- credential_unique ----------

  const CREDENTIAL_PREFIX := "lazyslice-invalid-"
  const CREDENTIAL_SUFFIX := 13

  function CredentialSymbols(c: Constraints): nat {
    if c.maxLen > 0 then
      if c.maxLen - |CREDENTIAL_PREFIX| < 1 then 0 else Min(CREDENTIAL_SUFFIX, c.maxLen - |CREDENTIAL_PREFIX|)
    else CREDENTIAL_SUFFIX
  }

  function CredentialDomain(c: Constraints): nat {
    if c.labels != [] then |c.labels|
    else if CredentialSymbols(c) == 0 then 0
    else SatPowOf(32, CredentialSymbols(c))
  }

  function CredentialMask(c: Constraints, ds: seq<nat>): Outcome {
    if c.labels != [] then LabelMask(c.labels, ds)
    else if CredentialSymbols(c) == 0 then NoRoom
    else
      var out := CREDENTIAL_PREFIX + Symbols(Base32, CredentialSymbols(c), ds).value;
      if FitsColumn(out, c) then Text(out) else NoRoom
  }

  lemma CredentialIsHonest(c: Open)
    ensures Honest(ds => CredentialMask(c, ds), CredentialDomain(c), c)
  {
    var mask := (ds: seq<nat>) => CredentialMask(c, ds);
    var n := CredentialSymbols(c);
    if n == 0 {
      NoneIsHonest(mask, c);
    } else {
      assert |CREDENTIAL_PREFIX| == 18;
      NumeralsAreMany(Base32, n, mask, CREDENTIAL_PREFIX);
      PowPositive(32, n);
      EmitsFewer(mask, CredentialDomain(c), Pow(32, n));
    }
  }

  // ---------- person_date ----------

  const DATE_DAYS := 25568 // 1940-01-01 to 2010-01-01
  const SECONDS_PER_DAY := 86400

  /** The calendar's rendering of a day number: ten characters, one text a day. */
  type Calendar = nat -> string

  ghost predicate RendersDays(cal: Calendar) {
    && (forall d: nat :: |cal(d)| == 10)
    && (forall d: nat, e: nat :: d < DATE_DAYS && e < DATE_DAYS && cal(d) == cal(e) ==> d == e)
  }

  function TwoDigits(v: nat): string
    requires v < 100
  {
    [Symbol(Decimal, v / 10), Symbol(Decimal, v % 10)]
  }

  /** " hh:mm:ss" for a second of the day. */
  function ClockText(s: nat): (t: string)
    requires s < SECONDS_PER_DAY
    ensures |t| == 9
  {
    " " + TwoDigits(s / 3600) + ":" + TwoDigits(s / 60 % 60) + ":" + TwoDigits(s % 60)
  }

  lemma TwoDigitsDiffer(v: nat, w: nat)
    requires v < 100 && w < 100 && TwoDigits(v) == TwoDigits(w)
    ensures v == w
  {
    assert TwoDigits(v)[0] == TwoDigits(w)[0] && TwoDigits(v)[1] == TwoDigits(w)[1];
    assert v / 10 == w / 10 && v % 10 == w % 10;
  }

  lemma SameSecond(s: nat, t: nat)
    requires s / 3600 == t / 3600 && s / 60 % 60 == t / 60 % 60 && s % 60 == t % 60
    ensures s == t
  {
    assert s / 60 / 60 == s / 3600 && t / 60 / 60 == t / 3600;
  }

  lemma ClocksDiffer(s: nat, t: nat)
    requires s < SECONDS_PER_DAY && t < SECONDS_PER_DAY && ClockText(s) == ClockText(t)
    ensures s == t
  {
    var h, m, x := TwoDigits(s / 3600), TwoDigits(s / 60 % 60), TwoDigits(s % 60);
    var h', m', x' := TwoDigits(t / 3600), TwoDigits(t / 60 % 60), TwoDigits(t % 60);
    TailsMatch(" " + h + ":" + m + ":", x, " " + h' + ":" + m' + ":", x');
    TailsMatch(" " + h + ":", m + ":", " " + h' + ":", m' + ":") by {
      assert " " + h + ":" + m + ":" == (" " + h + ":") + (m + ":");
      assert " " + h' + ":" + m' + ":" == (" " + h' + ":") + (m' + ":");
    }
    TailsMatch(m, ":", m', ":");
    TailsMatch(" ", h + ":", " ", h' + ":") by {
      assert " " + h + ":" == " " + (h + ":") && " " + h' + ":" == " " + (h' + ":");
    }
    TailsMatch(h, ":", h', ":");
    TwoDigitsDiffer(s / 3600, t / 3600);
    TwoDigitsDiffer(s / 60 % 60, t / 60 % 60);
    TwoDigitsDiffer(s % 60, t % 60);
    SameSecond(s, t);
  }

  function DateFits(c: Constraints): bool {
    c.typeTag == FamDate || c.typeTag == FamTimestamp || c.maxLen <= 0 || 10 <= c.maxLen
  }

  function PersonDateDomain(c: Constraints): nat {
    if c.labels != [] then |c.labels|
    else if !DateFits(c) then 0
    else if c.typeTag == FamTimestamp then SatMul(DATE_DAYS, SECONDS_PER_DAY)
    else DATE_DAYS
  }

  function PersonDateMask(cal: Calendar, c: Constraints, ds: seq<nat>): Outcome {
    if c.labels != [] then LabelMask(c.labels, ds)
    else if PersonDateDomain(c) == 0 then NoRoom
    else
      var day := Intn(ds, DATE_DAYS);
      if c.typeTag == FamTimestamp then Text(cal(day.value) + ClockText(Intn(day.rest, SECONDS_PER_DAY).value))
      else Text(cal(day.value))
  }

  function FeedDate(c: Constraints, d: nat, s: nat): seq<nat> {
    Feed(DATE_DAYS, d) + if c.typeTag == FamTimestamp then Feed(SECONDS_PER_DAY, s) else []
  }

  lemma DateIsFed(cal: Calendar, c: Open, d: nat, s: nat)
    requires DateFits(c) && d < DATE_DAYS && s < SECONDS_PER_DAY
    ensures PersonDateMask(cal, c, FeedDate(c, d, s)) == Text(cal(d) + if c.typeTag == FamTimestamp then ClockText(s) else "")
  {
    var more := if c.typeTag == FamTimestamp then Feed(SECONDS_PER_DAY, s) else [];
    FeedIsRead(DATE_DAYS, d, more);
    FeedIsRead(SECONDS_PER_DAY, s, []);
    assert Feed(SECONDS_PER_DAY, s) + [] == Feed(SECONDS_PER_DAY, s);
    assert cal(d) + "" == cal(d);
  }

  lemma DatesDiffer(cal: Calendar, c: Open, d: nat, s: nat, e: nat, t: nat)
    requires RendersDays(cal) && DateFits(c)
    requires d < DATE_DAYS && e < DATE_DAYS && s < SECONDS_PER_DAY && t < SECONDS_PER_DAY
    requires PersonDateMask(cal, c, FeedDate(c, d, s)) == PersonDateMask(cal, c, FeedDate(c, e, t))
    ensures d == e && (c.typeTag == FamTimestamp ==> s == t)
  {
    DateIsFed(cal, c, d, s);
    DateIsFed(cal, c, e, t);
    var x := if c.typeTag == FamTimestamp then ClockText(s) else "";
    var y := if c.typeTag == FamTimestamp then ClockText(t) else "";
    PrefixesMatch(cal(d), x, cal(e), y);
    if c.typeTag == FamTimestamp {
      ClocksDiffer(s, t);
    }
  }

  lemma PersonDateIsHonest(cal: Calendar, c: Open)
    requires RendersDays(cal) && LengthIsForText(c)
    ensures Honest(ds => PersonDateMask(cal, c, ds), PersonDateDomain(c), c)
  {
    var mask := (ds: seq<nat>) => PersonDateMask(cal, c, ds);
    if !DateFits(c) {
      NoneIsHonest(mask, c);
    } else {
      var feed := (t: Choice) => FeedDate(c, t.first, t.second);
      var bounds := Choice(DATE_DAYS, if c.typeTag == FamTimestamp then SECONDS_PER_DAY else 1, 1);
      forall t: Choice, u: Choice | Below(t, bounds) && Below(u, bounds) && mask(feed(t)) == mask(feed(u)) ensures t == u {
        DatesDiffer(cal, c, t.first, t.second, u.first, u.second);
      }
      ChoicesAreMany(mask, feed, bounds);
    }
  }

  // ---------- geo ----------

  const GEO_DECIMALS := 6

  function GeoPlaces(c: Constraints): int {
    if NumericFamily(c.typeTag) || c.maxLen <= 0 then GEO_DECIMALS
    else if c.maxLen - 4 < 0 then -1
    else Min(GEO_DECIMALS, c.maxLen - 4)
  }

  function Itoa(n: nat): (s: string)
    ensures |s| > 0 && AllDigits(s)
    decreases n
  {
    if n < 10 then [Symbol(Decimal, n)] else Itoa(n / 10) + [Symbol(Decimal, n % 10)]
  }

  lemma {:induction false} ItoaDiffers(m: nat, n: nat)
    requires Itoa(m) == Itoa(n)
    ensures m == n
    decreases m
  {
    var s, t := Itoa(m), Itoa(n);
    assert s[|s| - 1] == t[|t| - 1];
    if m >= 10 && n >= 10 {
      assert s[..|s| - 1] == Itoa(m / 10) && t[..|t| - 1] == Itoa(n / 10);
      ItoaDiffers(m / 10, n / 10);
    }
  }

  /** strings.Repeat("0", n). */
  function Zeros(n: nat): (s: string)
    ensures |s| == n && AllDigits(s)
  {
    seq(n, i => '0')
  }

  /** pad: exactly width digits, zero-filled. */
  function Pad(n: nat, width: nat): string {
    if |Itoa(n)| >= width then Itoa(n) else Zeros(width - |Itoa(n)|) + Itoa(n)
  }

  /** The number a digit text spells. */
  function ValueOf(s: DigitString): nat {
    if s == "" then 0 else ValueOf(s[..|s| - 1]) * 10 + DigitOf(s[|s| - 1])
  }

  lemma {:induction false} ItoaSpells(n: nat)
    ensures ValueOf(Itoa(n)) == n
    decreases n
  {
    if n >= 10 {
      ItoaSpells(n / 10);
      assert Itoa(n)[..|Itoa(n)| - 1] == Itoa(n / 10);
    }
  }

  lemma {:induction false} ZerosKeepValue(z: nat, s: DigitString)
    ensures AllDigits(Zeros(z) + s) && ValueOf(Zeros(z) + s) == ValueOf(s)
    decreases |s|, z
  {
    var t := Zeros(z) + s;
    if s == "" {
      if z > 0 {
        assert t[..|t| - 1] == Zeros(z - 1) + "";
        ZerosKeepValue(z - 1, "");
      }
    } else {
      assert t[..|t| - 1] == Zeros(z) + s[..|s| - 1];
      ZerosKeepValue(z, s[..|s| - 1]);
    }
  }

  lemma {:induction false} ItoaIsShort(n: nat, width: nat)
    requires n < Pow(10, width) && width > 0
    ensures |Itoa(n)| <= width
    decreases width
  {
    if n >= 10 {
      assert Pow(10, 0) == 1 && Pow(10, width) == 10 * Pow(10, width - 1);
      ItoaIsShort(n / 10, width - 1);
    }
  }

  lemma PadSpells(n: nat, width: nat)
    requires width > 0 && n < Pow(10, width)
    ensures |Pad(n, width)| == width && AllDigits(Pad(n, width)) && ValueOf(Pad(n, width)) == n
  {
    var s := Itoa(n);
    ItoaIsShort(n, width);
    ItoaSpells(n);
    if |s| < width {
      ZerosKeepValue(width - |s|, s);
    }
  }

  /** A sign, a whole part and d padded places. */
  function Signed(neg: bool, whole: nat, frac: nat, d: nat): string {
    (if neg then "-" else "") + (Itoa(whole) + (if d > 0 then "." + Pad(frac, d) else ""))
  }

  lemma SignedDiffers(neg: bool, w: nat, f: nat, neg': bool, w': nat, f': nat, d: nat)
    requires f < Pow(10, d) && f' < Pow(10, d) && Signed(neg, w, f, d) == Signed(neg', w', f', d)
    ensures neg == neg' && w == w' && f == f'
  {
    var p, p' := if d > 0 then "." + Pad(f, d) else "", if d > 0 then "." + Pad(f', d) else "";
    var s, s' := Itoa(w) + p, Itoa(w') + p';
    assert s[0] == Itoa(w)[0] && s'[0] == Itoa(w')[0];
    assert Signed(neg, w, f, d)[0] == if neg then '-' else s[0];
    assert Signed(neg', w', f', d)[0] == if neg' then '-' else s'[0];
    PrefixesMatch(if neg then "-" else "", s, if neg' then "-" else "", s');
    if d > 0 {
      PadSpells(f, d);
      PadSpells(f', d);
    }
    TailsMatch(Itoa(w), p, Itoa(w'), p');
    ItoaDiffers(w, w');
    if d > 0 {
      PrefixesMatch(".", Pad(f, d), ".", Pad(f', d));
    }
  }

  /** The whole part and the places of n over scale. */
  datatype Parts = Parts(neg: bool, whole: nat, frac: nat)

  function PartsOf(n: int, scale: nat): (p: Parts)
    requires scale > 0
    ensures p.frac < scale
  {
    var m: nat := if n < 0 then -n else n;
    QuotientIsNat(m, scale);
    Parts(n < 0, m / scale, m % scale)
  }

  lemma PartsTell(m: int, n: int, scale: nat)
    requires scale > 0 && PartsOf(m, scale) == PartsOf(n, scale)
    ensures m == n
  {
    if m < 0 {
      SameQuotients(-m, -n, scale);
    } else {
      SameQuotients(m, n, scale);
    }
  }

  lemma PartsWithin(n: int, scale: nat)
    requires scale > 0 && -(90 * scale) <= n <= 90 * scale
    ensures PartsOf(n, scale).whole < 100
  {
    DivModBound(if n < 0 then -n else n, 91, scale);
  }

  function PartsText(p: Parts, d: nat): string {
    Signed(p.neg, p.whole, p.frac, d)
  }

  /** n over 10^d as a signed decimal with d places. */
  function GeoText(n: int, d: nat): string {
    PowPositive(10, d);
    PartsText(PartsOf(n, Pow(10, d)), d)
  }

  lemma GeoTextsDiffer(m: int, n: int, d: nat)
    requires GeoText(m, d) == GeoText(n, d)
    ensures m == n
  {
    PowPositive(10, d);
    PartsDiffer(PartsOf(m, Pow(10, d)), PartsOf(n, Pow(10, d)), d);
    PartsTell(m, n, Pow(10, d));
  }

  lemma PartsDiffer(p: Parts, q: Parts, d: nat)
    requires p.frac < Pow(10, d) && q.frac < Pow(10, d) && PartsText(p, d) == PartsText(q, d)
    ensures p == q
  {
    SignedDiffers(p.neg, p.whole, p.frac, q.neg, q.whole, q.frac, d);
  }

  lemma SignedFits(neg: bool, w: nat, f: nat, d: nat)
    requires w < 100 && f < Pow(10, d)
    ensures |Signed(neg, w, f, d)| <= d + 4
  {
    assert Pow(10, 2) == 100;
    ItoaIsShort(w, 2);
    if d > 0 {
      PadSpells(f, d);
    }
  }

  lemma GeoFits(n: int, d: nat)
    requires -(90 * Pow(10, d)) <= n <= 90 * Pow(10, d)
    ensures |GeoText(n, d)| <= d + 4
  {
    PowPositive(10, d);
    PartsWithin(n, Pow(10, d));
    var p := PartsOf(n, Pow(10, d));
    SignedFits(p.neg, p.whole, p.frac, d);
  }

  function GeoDomain(c: Constraints): nat {
    if c.labels != [] then |c.labels|
    else if GeoPlaces(c) < 0 then 0
    else SatMul(180, SatPowOf(10, GeoPlaces(c))) + 1
  }

  function GeoMask(c: Constraints, ds: seq<nat>): Outcome {
    if c.labels != [] then LabelMask(c.labels, ds)
    else if GeoPlaces(c) < 0 then NoRoom
    else
      var scale := SatPowOf(10, GeoPlaces(c));
      Text(GeoText(Intn(ds, SatMul(180, scale) + 1).value - SatMul(90, scale), GeoPlaces(c)))
  }

  lemma GeoScale(d: nat)
    requires d <= GEO_DECIMALS
    ensures SatPowOf(10, d) == Pow(10, d) && 0 < Pow(10, d) <= 1_000_000
    ensures SatMul(180, Pow(10, d)) == 180 * Pow(10, d) && SatMul(90, Pow(10, d)) == 90 * Pow(10, d)
  {
    PowPositive(10, d);
    PowGrows(10, d, 6);
    assert Pow(10, 6) == 1_000_000;
  }

  /** The mask of a draw, with the saturating scale read as the power it is. */
  lemma GeoDraw(c: Open, d: nat, ds: seq<nat>)
    requires d == GeoPlaces(c)
    ensures GeoDomain(c) == 180 * Pow(10, d) + 1
    ensures GeoMask(c, ds) == Text(GeoText(Intn(ds, GeoDomain(c)).value - 90 * Pow(10, d), d))
  {
    GeoScale(d);
  }

  lemma GeoIsFed(c: Open, d: nat, k: nat)
    requires d == GeoPlaces(c) && k < GeoDomain(c)
    ensures GeoMask(c, Feed(GeoDomain(c), k)) == Text(GeoText(k - 90 * Pow(10, d), d))
  {
    hide GeoText, Pow;
    FeedIsRead(GeoDomain(c), k, []);
    assert Feed(GeoDomain(c), k) + [] == Feed(GeoDomain(c), k);
    hide Feed;
    GeoDraw(c, d, Feed(GeoDomain(c), k));
  }

  lemma GeosAreMany(c: Open, d: nat)
    requires d == GeoPlaces(c)
    ensures EmitsAtLeast(ds => GeoMask(c, ds), GeoDomain(c))
  {
    hide GeoText;
    var mask := (ds: seq<nat>) => GeoMask(c, ds);
    var spell := (k: nat) => GeoText(k - 90 * Pow(10, d), d);
    forall k: nat | k < GeoDomain(c) ensures mask(Feed(GeoDomain(c), k)) == Text(spell(k)) {
      GeoIsFed(c, d, k);
    }
    forall j: nat, k: nat | j < k < GeoDomain(c) ensures spell(j) != spell(k) {
      GeoSpellings(j, k, d);
    }
    OneDrawIsMany(mask, GeoDomain(c), spell);
  }

  lemma GeoSpellings(j: nat, k: nat, d: nat)
    requires j != k
    ensures GeoText(j - 90 * Pow(10, d), d) != GeoText(k - 90 * Pow(10, d), d)
  {
    hide GeoText;
    if GeoText(j - 90 * Pow(10, d), d) == GeoText(k - 90 * Pow(10, d), d) {
      GeoTextsDiffer(j - 90 * Pow(10, d), k - 90 * Pow(10, d), d);
    }
  }

  lemma GeoIsHonest(c: Open)
    requires LengthIsForText(c)
    ensures Honest(ds => GeoMask(c, ds), GeoDomain(c), c)
  {
    var mask := (ds: seq<nat>) => GeoMask(c, ds);
    if GeoPlaces(c) < 0 {
      NoneIsHonest(mask, c);
    } else {
      var d: nat := GeoPlaces(c);
      GeosAreMany(c, d);
      forall ds: seq<nat> ensures mask(ds).Text? && FitsColumn(mask(ds).text, c) {
        GeoDraw(c, d, ds);
        GeoFits(Intn(ds, GeoDomain(c)).value - 90 * Pow(10, d), d);
      }
    }
  }
}
