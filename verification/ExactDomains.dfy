/** A Domain reports as many outputs as there are, no fewer, up to the largest count an int64
    holds (mask/domain.go:77-107, mask/gen_credential.go:170-200 and the Domain methods). */
module ExactDomains {
  import opened Common
  import opened Arith
  import opened Words
  import opened Draws
  import opened Columns
  import opened Lexicon
  import opened Decisions
  import opened NameGenerators
  import opened NumberGenerators
  import opened TextGenerators

  ghost predicate Spells(spell: nat -> string, n: nat, t: string) {
    exists k: nat :: k < n && spell(k) == t
  }

  /** Every output is one of n texts. */
  ghost predicate EmitsAtMost(mask: seq<nat> -> Outcome, n: nat) {
    exists spell: nat -> string :: AllSpelled(mask, spell, n)
  }

  ghost predicate AllSpelled(mask: seq<nat> -> Outcome, spell: nat -> string, n: nat) {
    forall ds: seq<nat> :: mask(ds).Text? ==> Spells(spell, n, mask(ds).text)
  }

  ghost predicate HasOutputs(mask: seq<nat> -> Outcome, n: nat) {
    EmitsAtLeast(mask, n) && EmitsAtMost(mask, n)
  }

  /** The domain is the number of outputs, or the largest int64 where there are more. */
  ghost predicate Exact(mask: seq<nat> -> Outcome, domain: nat) {
    exists n: nat :: HasOutputs(mask, n) && domain == if n <= 0x7fff_ffff_ffff_ffff then n else 0x7fff_ffff_ffff_ffff
  }

  lemma ExactlySo(mask: seq<nat> -> Outcome, n: nat, domain: nat)
    requires EmitsAtLeast(mask, n) && EmitsAtMost(mask, n)
    requires domain == if n <= MAX_INT64 then n else MAX_INT64
    ensures Exact(mask, domain)
  {
    assert HasOutputs(mask, n);
  }

  lemma AtMost(mask: seq<nat> -> Outcome, n: nat, spell: nat -> string)
    requires forall ds: seq<nat> :: mask(ds).Text? ==> Spells(spell, n, mask(ds).text)
    ensures EmitsAtMost(mask, n)
  {
    assert AllSpelled(mask, spell, n);
  }

  lemma NoneAtAll(mask: seq<nat> -> Outcome)
    requires forall ds: seq<nat> :: mask(ds) == NoRoom
    ensures HasOutputs(mask, 0) && Exact(mask, 0)
  {
    AtMost(mask, 0, (k: nat) => "");
    assert Separates(mask, (k: nat) => [], 0);
    assert HasOutputs(mask, 0);
  }

  // ---------- independent choices ----------

  /** The number that splits into t. */
  lemma JoinedSplits(t: Choice, bounds: Choice) returns (k: nat)
    requires Below(t, bounds)
    ensures k < bounds.first * bounds.second * bounds.third && Split(k, bounds.first, bounds.second) == t
  {
    var q := t.third * bounds.second + t.second;
    CellRank(t.third, t.second, bounds.third, bounds.second);
    CellRank(q, t.first, bounds.third * bounds.second, bounds.first);
    k := q * bounds.first + t.first;
    assert bounds.first * bounds.second * bounds.third == (bounds.third * bounds.second) * bounds.first;
  }

  ghost predicate Chosen(spell: Choice -> string, bounds: Choice, t: string) {
    exists u: Choice :: Below(u, bounds) && spell(u) == t
  }

  lemma AtMostChoices(mask: seq<nat> -> Outcome, spell: Choice -> string, bounds: Choice)
    requires bounds.first > 0 && bounds.second > 0
    requires forall ds: seq<nat> :: mask(ds).Text? ==> Chosen(spell, bounds, mask(ds).text)
    ensures EmitsAtMost(mask, bounds.first * bounds.second * bounds.third)
  {
    var n := bounds.first * bounds.second * bounds.third;
    var flat := (k: nat) => spell(Split(k, bounds.first, bounds.second));
    forall ds: seq<nat> | mask(ds).Text? ensures Spells(flat, n, mask(ds).text) {
      var u: Choice :| Below(u, bounds) && spell(u) == mask(ds).text;
      var k := JoinedSplits(u, bounds);
      hide Split, Below;
      assert flat(k) == mask(ds).text;
    }
    AtMost(mask, n, flat);
  }

  // ---------- numerals ----------

  /** Whatever is drawn is the numeral of some number. */
  lemma {:induction false} DrawnNumeral(a: Alphabet, n: nat, ds: seq<nat>) returns (k: nat)
    ensures k < Pow(Size(a), n) && Symbols(a, n, ds).value == Numeral(a, n, k)
  {
    hide Symbol, Size;
    k := 0;
    if n > 0 {
      var head := Intn(ds, Size(a));
      var rest := DrawnNumeral(a, n - 1, head.rest);
      k := rest * Size(a) + head.value;
      assert Pow(Size(a), n) == Pow(Size(a), n - 1) * Size(a);
      hide Pow;
      CellRank(rest, head.value, Pow(Size(a), n - 1), Size(a));
    }
  }

  lemma DrawnLeading(n: pos, ds: seq<nat>) returns (k: nat)
    ensures k < 9 * Pow(10, n - 1) && Digits(n, false, ds).value == LeadingNumeral(n, k)
  {
    var head := Intn(ds, 9);
    var rest := DrawnNumeral(Decimal, n - 1, head.rest);
    k := rest * 9 + head.value;
    CellRank(rest, head.value, Pow(10, n - 1), 9);
  }

  lemma NumeralsAtMost(a: Alphabet, n: nat, mask: seq<nat> -> Outcome, prefix: string)
    requires forall ds: seq<nat> :: mask(ds).Text? ==> mask(ds).text == prefix + Symbols(a, n, ds).value
    ensures EmitsAtMost(mask, Pow(Size(a), n))
  {
    var spell := (k: nat) => prefix + Numeral(a, n, k);
    forall ds: seq<nat> | mask(ds).Text? ensures Spells(spell, Pow(Size(a), n), mask(ds).text) {
      var k := DrawnNumeral(a, n, ds);
      assert spell(k) == mask(ds).text;
    }
    AtMost(mask, Pow(Size(a), n), spell);
  }

  lemma LeadingsAtMost(n: pos, mask: seq<nat> -> Outcome, tail: string -> string)
    requires forall ds: seq<nat> :: mask(ds) == Text(Digits(n, false, ds).value + tail(Digits(n, false, ds).value))
    ensures EmitsAtMost(mask, 9 * Pow(10, n - 1))
  {
    var spell := (k: nat) => LeadingNumeral(n, k) + tail(LeadingNumeral(n, k));
    forall ds: seq<nat> ensures Spells(spell, 9 * Pow(10, n - 1), mask(ds).text) {
      var k := DrawnLeading(n, ds);
      assert spell(k) == mask(ds).text;
    }
    AtMost(mask, 9 * Pow(10, n - 1), spell);
  }

  /** satMul of a factor and a power stops where their product would. */
  lemma CappedProduct(a: nat, base: nat, exp: nat)
    requires a > 0 && base > 0
    ensures var n := a * Pow(base, exp);
      SatMul(a, SatPowOf(base, exp)) == if n <= MAX_INT64 then n else MAX_INT64
  {
    PowPositive(base, exp);
    var p := Pow(base, exp);
    if p > MAX_INT64 {
      MulOrder(1, a, MAX_INT64);
      MulOrder(1, a, p);
    }
  }

  // ---------- the generators ----------

  lemma PersonNameDomainIsExact(l: Lists, c: Open)
    ensures HasOutputs(ds => PersonNameMask(l, c, ds), PersonNameDomain(l, c))
  {
    hide FitsColumn, EmitsAtLeast, EmitsAtMost;
    var mask := (ds: seq<nat>) => PersonNameMask(l, c, ds);
    var n := PersonNameDomain(l, c);
    PersonNameIsHonest(l, c);
    var spell := (k: nat) => if mask(Feed(n, k)).Text? then mask(Feed(n, k)).text else "";
    forall ds: seq<nat> | mask(ds).Text? ensures Spells(spell, n, mask(ds).text) {
      PersonNameReadsOneDraw(l, c, ds);
      assert spell(Intn(ds, n).value) == mask(ds).text;
    }
    AtMost(mask, n, spell);
  }

  /** A name column reports nothing unless four hundred names of its role fit it, and a full
      name falls back on given names. */
  lemma PersonNameNeedsRoom(l: Lists, c: Open)
    ensures var given, family, pairs := Count(l.given, Room(c)), Count(l.surnames, Room(c)), PairCountOf(l.given, l.surnames, 1, Room(c));
      PersonNameDomain(l, c) ==
        match c.role
        case RoleGiven => (if given >= 400 then given else 0)
        case RoleFamily => (if family >= 400 then family else 0)
        case RoleFull => (if pairs >= 400 then pairs else if given >= 400 then given else 0)
  {
  }

  lemma PersonNameReadsOneDraw(l: Lists, c: Open, ds: seq<nat>)
    requires PersonNameMask(l, c, ds).Text?
    ensures var n := PersonNameDomain(l, c);
      n > 0 && PersonNameMask(l, c, ds) == PersonNameMask(l, c, Feed(n, Intn(ds, n).value))
  {
    var n := PersonNameDomain(l, c);
    FeedIsRead(n, Intn(ds, n).value, []);
    assert Feed(n, Intn(ds, n).value) + [] == Feed(n, Intn(ds, n).value);
    hide PairWords, PairCountOf;
  }

  lemma AddressDomainIsExact(l: Lists, c: Open)
    ensures Exact(ds => AddressMask(l, c, ds), AddressDomain(l, c))
  {
    hide EmitsAtLeast, EmitsAtMost;
    var mask := (ds: seq<nat>) => AddressMask(l, c, ds);
    if StreetCount(l, c) > 0 {
      StreetAddressesAreMany(l, c, mask);
      StreetsAtMost(l, c, mask);
      ExactlySo(mask, 9000 * StreetCount(l, c), AddressDomain(l, c));
    } else {
      NumeralsAreMany(PostCode, AddressCodeLen(c), mask, "");
      NumeralsAtMost(PostCode, AddressCodeLen(c), mask, "");
      ExactlySo(mask, Pow(36, AddressCodeLen(c)), AddressDomain(l, c));
    }
  }

  lemma StreetsAtMost(l: Lists, c: Open, mask: seq<nat> -> Outcome)
    requires StreetCount(l, c) > 0 && forall ds: seq<nat> :: mask(ds) == AddressMask(l, c, ds)
    ensures EmitsAtMost(mask, 9000 * StreetCount(l, c))
  {
    var spell := (t: Choice) => StreetOf(l, c, t);
    var bounds := Choice(9000, StreetCount(l, c), 1);
    forall ds: seq<nat> ensures Chosen(spell, bounds, mask(ds).text) {
      var t := StreetIsChosen(l, c, ds);
      assert Below(t, bounds) && spell(t) == mask(ds).text;
    }
    hide AddressMask;
    AtMostChoices(mask, spell, bounds);
  }

  function StreetOf(l: Lists, c: Constraints, t: Choice): string {
    if t.second < StreetCount(l, c)
    then LeadingNumeral(4, t.first) + " " + StreetText(PairWords(l.streets, l.suffixes, 1, StreetBudget(c), t.second)) else ""
  }

  lemma StreetIsChosen(l: Lists, c: Open, ds: seq<nat>) returns (t: Choice)
    requires StreetCount(l, c) > 0
    ensures AddressMask(l, c, ds) == Text(StreetOf(l, c, t)) && Below(t, Choice(9000, StreetCount(l, c), 1))
  {
    hide LeadingNumeral, StreetText, PairWords, PairCountOf, Digits;
    assert Pow(10, 3) == 1000;
    var k := DrawnLeading(4, ds);
    t := Choice(k, Intn(Digits(4, false, ds).rest, StreetCount(l, c)).value, 0);
  }

  lemma EmailDomainIsExact(l: Lists, c: Open)
    ensures Exact(ds => EmailMask(l, c, ds), EmailDomain(l, c))
  {
    hide EmitsAtLeast, EmitsAtMost;
    var mask := (ds: seq<nat>) => EmailMask(l, c, ds);
    var sh := EmailShapeFor(l, c);
    if sh.NoEmail? {
      NoneAtAll(mask);
    } else {
      NamePairsArePositive(l, c);
      EmailsAreMany(l, c);
      EmailsAtMost(l, c, sh, mask);
      EmailDomainIsCapped(l, c);
      ExactlySo(mask, EmailCount(l, sh), EmailDomain(l, c));
    }
  }

  function EmailCount(l: Lists, sh: EmailShape): nat
    requires sh.Email?
  {
    3 * NamePairs(l, sh) * Pow(32, sh.suffix)
  }

  lemma EmailsAtMost(l: Lists, c: Open, sh: EmailShape, mask: seq<nat> -> Outcome)
    requires sh == EmailShapeFor(l, c) && sh.Email? && NamePairs(l, sh) > 0
    requires forall ds: seq<nat> :: mask(ds) == EmailMask(l, c, ds)
    ensures EmitsAtMost(mask, EmailCount(l, sh))
  {
    hide EmailShapeFor, EmailMask, EmailOf, PairCountOf;
    var bounds := Choice(3, NamePairs(l, sh), Pow(32, sh.suffix));
    var spell := (t: Choice) => EmailOf(l, sh, t);
    forall ds: seq<nat> | mask(ds).Text? ensures Chosen(spell, bounds, mask(ds).text) {
      var t := EmailIsChosen(l, c, ds);
      assert Below(t, bounds) && spell(t) == mask(ds).text;
    }
    AtMostChoices(mask, spell, bounds);
  }

  function EmailOf(l: Lists, sh: EmailShape, t: Choice): string {
    if sh.Email? && t.first < 3 && t.second < NamePairs(l, sh)
    then LocalPart(NamePart(l, sh, t.second), Numeral(Base32, sh.suffix, t.third)) + "@" + Host(t.first) else ""
  }

  lemma EmailIsChosen(l: Lists, c: Open, ds: seq<nat>) returns (t: Choice)
    requires EmailShapeFor(l, c).Email? && NamePairs(l, EmailShapeFor(l, c)) > 0 && EmailMask(l, c, ds).Text?
    ensures var sh := EmailShapeFor(l, c);
      Below(t, Choice(3, NamePairs(l, sh), Pow(32, sh.suffix))) && EmailOf(l, sh, t) == EmailMask(l, c, ds).text
  {
    hide EmailShapeFor, LocalPart, NamePart, Host, Symbols, Numeral, FitsColumn;
    var sh := EmailShapeFor(l, c);
    var host := Intn(ds, 3);
    var pair := if sh.names then Intn(host.rest, NamePairs(l, sh)) else Drawn(0, host.rest);
    var k := DrawnNumeral(Base32, sh.suffix, pair.rest);
    t := Choice(host.value, pair.value, k);
  }

  lemma EmailDomainIsCapped(l: Lists, c: Open)
    requires EmailShapeFor(l, c).Email? && NamePairs(l, EmailShapeFor(l, c)) > 0
    ensures var sh := EmailShapeFor(l, c);
      var n := EmailCount(l, sh);
      EmailDomain(l, c) == if n <= MAX_INT64 then n else MAX_INT64
  {
    hide EmailShapeFor, PairCountOf;
    var sh := EmailShapeFor(l, c);
    var pairs := 3 * NamePairs(l, sh);
    assert sh.names || NamePairs(l, sh) == 1;
    CappedTwice(pairs, sh.suffix);
  }

  lemma CappedTwice(pairs: nat, suffix: nat)
    requires pairs > 0
    ensures var n := if pairs <= MAX_INT64 then pairs else MAX_INT64;
      var all := pairs * Pow(32, suffix);
      (if suffix > 0 then SatMul(n, SatPowOf(32, suffix)) else n) == if all <= MAX_INT64 then all else MAX_INT64
  {
    PowPositive(32, suffix);
    var p := Pow(32, suffix);
    if pairs > MAX_INT64 {
      MulOrder(1, p, pairs);
      MulOrder(1, SatPowOf(32, suffix), MAX_INT64);
    } else {
      CappedProduct(pairs, 32, suffix);
    }
  }

  lemma NationalIDDomainIsExact(c: Open)
    ensures Exact(ds => NationalIDMask(c, ds), NationalIDDomain(c))
  {
    hide EmitsAtLeast, EmitsAtMost;
    var mask := (ds: seq<nat>) => NationalIDMask(c, ds);
    var n := NationalIDLen(c);
    if n < 1 {
      NoneAtAll(mask);
    } else {
      forall ds: seq<nat> ensures mask(ds) == Text(Digits(n, false, ds).value + "") {
        assert Digits(n, false, ds).value + "" == Digits(n, false, ds).value;
      }
      LeadingDigitsAreMany(n, mask, s => "");
      LeadingsAtMost(n, mask, s => "");
      CappedProduct(9, 10, n - 1);
      ExactlySo(mask, 9 * Pow(10, n - 1), NationalIDDomain(c));
    }
  }

  lemma FinancialDomainIsExact(c: Open)
    ensures Exact(ds => FinancialMask(c, ds), FinancialDomain(c))
  {
    hide EmitsAtLeast, EmitsAtMost, LuhnCheckDigit, Digits, FinancialLen;
    var mask := (ds: seq<nat>) => FinancialMask(c, ds);
    var n := FinancialLen(c);
    if n < 2 {
      NoneAtAll(mask);
    } else {
      LeadingDigitsAreMany(n - 1, mask, LuhnCheckDigit);
      LeadingsAtMost(n - 1, mask, LuhnCheckDigit);
      CappedProduct(9, 10, n - 2);
      ExactlySo(mask, 9 * Pow(10, n - 2), FinancialDomain(c));
    }
  }

  lemma PhoneDomainIsExact(l: Lists, c: Open)
    ensures HasOutputs(ds => PhoneMask(l, c, ds), PhoneDomain(l, c))
  {
    hide EmitsAtLeast, EmitsAtMost, Digits;
    var mask := (ds: seq<nat>) => PhoneMask(l, c, ds);
    if PhoneShapeFor(c) == PhoneNone {
      NoneAtAll(mask);
    } else {
      PhonesAreMany(l, c, mask);
      PhonesAtMost(l, c, mask);
    }
  }

  lemma PhonesAtMost(l: Lists, c: Open, mask: seq<nat> -> Outcome)
    requires PhoneShapeFor(c) != PhoneNone && forall ds: seq<nat> :: mask(ds) == PhoneMask(l, c, ds)
    ensures EmitsAtMost(mask, |l.areaCodes| * 100)
  {
    var bounds := Choice(|l.areaCodes|, 100, 1);
    var spell := (t: Choice) =>
      if t.first < |l.areaCodes| then PhonePrefix(PhoneShapeFor(c)) + (l.areaCodes[t.first] + "55501") + Numeral(Decimal, 2, t.second) else "";
    forall ds: seq<nat> ensures Chosen(spell, bounds, mask(ds).text) {
      var area := Intn(ds, |l.areaCodes|);
      var k := DrawnNumeral(Decimal, 2, area.rest);
      assert Pow(10, 2) == 100;
      assert Below(Choice(area.value, k, 0), bounds) && spell(Choice(area.value, k, 0)) == mask(ds).text;
    }
    AtMostChoices(mask, spell, bounds);
  }

  lemma PhoneUniqueDomainIsExact(c: Open)
    ensures Exact(ds => PhoneUniqueMask(c, ds), PhoneUniqueDomain(c))
  {
    hide EmitsAtLeast, EmitsAtMost, Symbols;
    var mask := (ds: seq<nat>) => PhoneUniqueMask(c, ds);
    var d := UniquePhoneDigits(c);
    if d <= 0 {
      NoneAtAll(mask);
    } else {
      var prefix := if NumericFamily(c.typeTag) then "1" else "+1";
      NumeralsAreMany(Decimal, d, mask, prefix);
      NumeralsAtMost(Decimal, d, mask, prefix);
      ExactlySo(mask, Pow(10, d), PhoneUniqueDomain(c));
    }
  }

  lemma CredentialDomainIsExact(c: Open)
    ensures Exact(ds => CredentialMask(c, ds), CredentialDomain(c))
  {
    hide EmitsAtLeast, EmitsAtMost, Symbols;
    var mask := (ds: seq<nat>) => CredentialMask(c, ds);
    var n := CredentialSymbols(c);
    if n == 0 {
      NoneAtAll(mask);
    } else {
      assert |CREDENTIAL_PREFIX| == 18;
      NumeralsAreMany(Base32, n, mask, CREDENTIAL_PREFIX);
      NumeralsAtMost(Base32, n, mask, CREDENTIAL_PREFIX);
      ExactlySo(mask, Pow(32, n), CredentialDomain(c));
    }
  }

  lemma PersonDateDomainIsExact(cal: Calendar, c: Open)
    requires RendersDays(cal) && LengthIsForText(c)
    ensures HasOutputs(ds => PersonDateMask(cal, c, ds), PersonDateDomain(c))
  {
    hide EmitsAtLeast, EmitsAtMost;
    var mask := (ds: seq<nat>) => PersonDateMask(cal, c, ds);
    if !DateFits(c) {
      NoneAtAll(mask);
    } else {
      PersonDateIsHonest(cal, c);
      var spell := (t: Choice) => if mask(FeedDate(c, t.first, t.second)).Text? then mask(FeedDate(c, t.first, t.second)).text else "";
      var bounds := Choice(DATE_DAYS, if c.typeTag == FamTimestamp then SECONDS_PER_DAY else 1, 1);
      forall ds: seq<nat> ensures Chosen(spell, bounds, mask(ds).text) {
        var day := Intn(ds, DATE_DAYS);
        var s := if c.typeTag == FamTimestamp then Intn(day.rest, SECONDS_PER_DAY).value else 0;
        DateIsFed(cal, c, day.value, s);
        assert cal(day.value) + "" == cal(day.value);
        assert Below(Choice(day.value, s, 0), bounds) && spell(Choice(day.value, s, 0)) == mask(ds).text;
      }
      AtMostChoices(mask, spell, bounds);
    }
  }

  lemma GeoDomainIsExact(c: Open)
    ensures HasOutputs(ds => GeoMask(c, ds), GeoDomain(c))
  {
    hide EmitsAtLeast, EmitsAtMost, GeoText;
    var mask := (ds: seq<nat>) => GeoMask(c, ds);
    if GeoPlaces(c) < 0 {
      NoneAtAll(mask);
    } else {
      var d: nat := GeoPlaces(c);
      GeosAreMany(c, d);
      GeoScale(d);
      var spell := (k: nat) => GeoText(k - 90 * Pow(10, d), d);
      forall ds: seq<nat> ensures Spells(spell, GeoDomain(c), mask(ds).text) {
        GeoDraw(c, d, ds);
        assert spell(Intn(ds, GeoDomain(c)).value) == mask(ds).text;
      }
      AtMost(mask, GeoDomain(c), spell);
    }
  }

  // ---------- online_id ----------

  function HandleOf(l: Lists, n: nat, t: Choice): string {
    if t.first < |l.fillers.words| then HandleText(l, t.first, Numeral(Base32, n, t.third)) else ""
  }

  lemma HandlesAtMost(l: Lists, v: ValueShape, c: Open, mask: seq<nat> -> Outcome)
    requires OnlineShapeFor(l, v, c).OnlineHandle? && HandleWords(l, c) > 0
    requires forall ds: seq<nat> :: mask(ds) == OnlineMask(l, v, c, ds)
    ensures EmitsAtMost(mask, HandleCount(HandleWords(l, c), HandleTail(l, c)))
  {
    hide HandleTail, HandleText, HandleOf;
    var n, words := HandleTail(l, c), HandleWords(l, c);
    var bounds := Choice(words, 1, Pow(32, n));
    var spell := (t: Choice) => HandleOf(l, n, t);
    forall ds: seq<nat> | mask(ds).Text? ensures Chosen(spell, bounds, mask(ds).text) {
      var t := HandleIsChosen(l, v, c, ds);
      assert Below(t, bounds) && spell(t) == mask(ds).text;
    }
    hide OnlineMask, HandleWords;
    AtMostChoices(mask, spell, bounds);
  }

  lemma HandleIsChosen(l: Lists, v: ValueShape, c: Open, ds: seq<nat>) returns (t: Choice)
    requires OnlineShapeFor(l, v, c).OnlineHandle? && HandleWords(l, c) > 0
    ensures Below(t, Choice(HandleWords(l, c), 1, Pow(32, HandleTail(l, c))))
    ensures OnlineMask(l, v, c, ds) == Text(HandleOf(l, HandleTail(l, c), t))
  {
    hide HandleTail, Symbols, Numeral;
    var word := Intn(ds, HandleWords(l, c));
    var k := DrawnNumeral(Base32, HandleTail(l, c), word.rest);
    t := Choice(word.value, 0, k);
  }

  lemma HandlesAreExact(l: Lists, v: ValueShape, c: Open)
    requires OnlineShapeFor(l, v, c).OnlineHandle?
    ensures Exact(ds => OnlineMask(l, v, c, ds), SatMul(HandleWords(l, c), SatPowOf(32, HandleTail(l, c))))
  {
    hide EmitsAtLeast, EmitsAtMost, OnlineMask;
    var mask := (ds: seq<nat>) => OnlineMask(l, v, c, ds);
    var words, n := HandleWords(l, c), HandleTail(l, c);
    HandlesAreMany(l, v, c, mask);
    HandlesAtMost(l, v, c, mask);
    CappedProduct(words, 32, n);
    ExactlySo(mask, HandleCount(words, n), SatMul(words, SatPowOf(32, n)));
  }

  lemma LinksAreExact(l: Lists, v: ValueShape, c: Open)
    requires OnlineShapeFor(l, v, c).OnlineURL?
    ensures UrlTail(c) >= 1 && Exact(ds => OnlineMask(l, v, c, ds), SatPowOf(32, UrlTail(c)))
  {
    hide EmitsAtLeast, EmitsAtMost, Symbols;
    var mask := (ds: seq<nat>) => OnlineMask(l, v, c, ds);
    NumeralsAreMany(Base32, UrlTail(c), mask, URL_PREFIX);
    NumeralsAtMost(Base32, UrlTail(c), mask, URL_PREFIX);
    ExactlySo(mask, Pow(32, UrlTail(c)), SatPowOf(32, UrlTail(c)));
  }

  ghost predicate ExactFor(l: Lists, v: ValueShape, c: Constraints) {
    Exact(ds => OnlineMask(l, v, c, ds), OnlineDomain(l, c))
  }

  /** Outside a UUID column some shape of input has exactly as many outputs as the Domain says,
      and OnlineIsHonest gives every other shape at least as many. */
  lemma OnlineDomainIsExactForSome(l: Lists, c: Open)
    requires c.typeTag != FamUUID
    ensures exists v :: ExactFor(l, v, c)
  {
    hide Exact, SatPowOf, SatMul;
    var plain, link := ValueShape(false, false), ValueShape(false, true);
    if HandleTail(l, c) < 1 {
      NoneAtAll(ds => OnlineMask(l, plain, c, ds));
      assert ExactFor(l, plain, c);
    } else {
      UuidsAreNoFewest(l, c);
      HandlesAreExact(l, plain, c);
      var handles := SatMul(HandleWords(l, c), SatPowOf(32, HandleTail(l, c)));
      if UrlTail(c) >= 1 && SatPowOf(32, UrlTail(c)) < handles {
        LinksAreExact(l, link, c);
        assert ExactFor(l, link, c);
      } else {
        assert ExactFor(l, plain, c);
      }
    }
  }

  lemma UuidsAreNoFewest(l: Lists, c: Open)
    requires c.typeTag != FamUUID && HandleTail(l, c) >= 1
    ensures var d := SatMul(HandleWords(l, c), SatPowOf(32, HandleTail(l, c)));
      OnlineDomain(l, c) == if UrlTail(c) >= 1 then Min(d, SatPowOf(32, UrlTail(c))) else d
  {
    hide HandleTail, HandleWords, UrlTail;
    ManyUuids(122);
  }

  lemma {:induction false} PowSum(base: nat, m: nat, n: nat)
    ensures Pow(base, m + n) == Pow(base, m) * Pow(base, n)
  {
    if m > 0 {
      PowSum(base, m - 1, n);
      assert Pow(base, m + n) == base * Pow(base, m - 1 + n);
      assert base * (Pow(base, m - 1) * Pow(base, n)) == (base * Pow(base, m - 1)) * Pow(base, n);
    }
  }

  lemma {:induction false} EightAtATime(k: nat)
    ensures Pow(2, 8 * k) == Pow(256, k)
  {
    if k > 0 {
      assert Pow(2, 8) == 256;
      EightAtATime(k - 1);
      PowSum(2, 8, 8 * (k - 1));
    }
  }

  lemma ManyUuids(bits: nat)
    requires bits >= 64
    ensures SatPowOf(2, bits) == MAX_INT64
  {
    PowersOf256();
    assert Pow(256, 8) == 256 * Pow(256, 7);
    EightAtATime(8);
    PowGrows(2, 8 * 8, bits);
  }
}
