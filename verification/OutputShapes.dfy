/** What a masked value looks like, whatever the draws: where a masked address lands, which
    numbers are handed out, and what a name, a date or a position may be (mask/gen_email.go,
    gen_phone.go, gen_number.go, gen_credential.go, gen_text.go). */
module OutputShapes {
  import opened Common
  import opened Words
  import opened Arith
  import opened Draws
  import opened Columns
  import opened Lexicon
  import opened Decisions
  import opened NameGenerators
  import opened NumberGenerators

  // ---------- symbols ----------

  predicate Among(s: string, allowed: string) {
    forall i :: 0 <= i < |s| ==> s[i] in allowed
  }

  lemma {:induction false} Base32Symbols(n: nat, ds: seq<nat>)
    ensures Among(Symbols(Base32, n, ds).value, "abcdefghijklmnopqrstuvwxyz234567")
  {
    if n > 0 {
      Base32Symbols(n - 1, Intn(ds, 32).rest);
      OneBase32(Intn(ds, 32).value);
    }
  }

  lemma OneBase32(v: nat)
    requires v < 32
    ensures Symbol(Base32, v) in "abcdefghijklmnopqrstuvwxyz234567"
  {
    assert "abcdefghijklmnopqrstuvwxyz234567"[v] == Symbol(Base32, v);
  }

  lemma {:induction false} PostCodeSymbols(n: nat, ds: seq<nat>)
    ensures Among(Symbols(PostCode, n, ds).value, "0123456789ABCDEFGHIJKLMNOPQRSTUVWXYZ")
  {
    if n > 0 {
      PostCodeSymbols(n - 1, Intn(ds, 36).rest);
      OnePostCode(Intn(ds, 36).value);
    }
  }

  lemma OnePostCode(v: nat)
    requires v < 36
    ensures Symbol(PostCode, v) in "0123456789ABCDEFGHIJKLMNOPQRSTUVWXYZ"
  {
    assert "0123456789ABCDEFGHIJKLMNOPQRSTUVWXYZ"[v] == Symbol(PostCode, v);
  }

  lemma LeadingDigit(n: pos, ds: seq<nat>)
    ensures AllDigits(Digits(n, false, ds).value) && Digits(n, false, ds).value[0] != '0'
  {
    DigitsAreDigits(n, false, ds);
  }

  // ---------- names ----------

  /** The word with its first letter in upper case. */
  predicate Capitalised(t: string, word: string) {
    |t| == |word| > 0 && 'A' <= t[0] <= 'Z' && t[0] as int + 32 == word[0] as int && t[1..] == word[1..]
  }

  /** t is the capitalised form of a listed word. */
  predicate NamedIn(t: string, words: seq<string>) {
    exists w :: w in words && Capitalised(t, w)
  }

  lemma TitleCapitalises(list: WordList, w: string)
    requires Listed(list) && w in list.words
    ensures NamedIn(Title(w), list.words)
  {
    ListedWord(list, w);
    assert Capitalised(Title(w), w);
  }

  /** A name of the column's role: a given name, a surname, or, where there is room for enough
      pairs, one of each with a space between. */
  ghost predicate IsPersonName(l: Lists, role: Role, s: string) {
    match role
    case RoleGiven => NamedIn(s, l.given.words)
    case RoleFamily => NamedIn(s, l.surnames.words)
    case RoleFull =>
      || NamedIn(s, l.given.words)
      || exists g, f :: NamedIn(g, l.given.words) && NamedIn(f, l.surnames.words) && s == g + " " + f
  }

  lemma PersonNamesAreListed(l: Lists, c: Open, ds: seq<nat>)
    ensures PersonNameMask(l, c, ds).Text? ==> IsPersonName(l, c.role, PersonNameMask(l, c, ds).text)
  {
    hide NamedIn, PairCountOf, Title;
    match PersonNameForm(l, c)
    case NoForm =>
    case Single(list, n) =>
      SingleIsOfTheRole(l, c);
      TitleCapitalises(list, list.words[Intn(ds, n).value]);
    case FullName(n) =>
      var p := PairWords(l.given, l.surnames, 1, Room(c), Intn(ds, n).value);
      TitleCapitalises(l.given, p.0);
      TitleCapitalises(l.surnames, p.1);
  }

  lemma SingleIsOfTheRole(l: Lists, c: Constraints)
    requires PersonNameForm(l, c).Single?
    ensures PersonNameForm(l, c).list == if c.role == RoleFamily then l.surnames else l.given
  {
  }

  // ---------- addresses ----------

  /** A house number, a street and its suffix. */
  ghost predicate IsStreetAddress(l: Lists, s: string) {
    exists n, street, suffix ::
      && |n| == 4 && Among(n, "0123456789") && n[0] != '0' && NamedIn(street, l.streets.words)
      && NamedIn(suffix, l.suffixes.words) && s == n + " " + (street + " " + suffix)
  }

  /** Some pair of words and k characters more fit the column. */
  ghost predicate SomePairFits(a: WordList, b: WordList, k: nat, c: Constraints) {
    exists x, y :: x in a.words && y in b.words && (c.maxLen <= 0 || |x| + 1 + |y| + k <= c.maxLen)
  }

  lemma PairsWhereTheyFit(a: WordList, b: WordList, k: nat, c: Constraints)
    requires SomePairFits(a, b, k, c)
    ensures PairCountOf(a, b, 1, FitBudget(Room(c), k)) > 0
  {
    var x, y :| x in a.words && y in b.words && (c.maxLen <= 0 || |x| + 1 + |y| + k <= c.maxLen);
    var i :| 0 <= i < |a.words| && a.words[i] == x;
    var j :| 0 <= j < |b.words| && b.words[j] == y;
    PairAtIsOnto(a, b, 1, FitBudget(Room(c), k), i, j);
  }

  lemma DigitsAreAmong(s: string)
    requires AllDigits(s)
    ensures Among(s, "0123456789")
  {
    forall i | 0 <= i < |s| ensures s[i] in "0123456789" {
      assert "0123456789"[s[i] as int - '0' as int] == s[i];
    }
  }

  /** A street address wherever the column has room for one, and otherwise a code of seven
      characters or as many as there is room for. */
  lemma AddressesAreListed(l: Lists, c: Open, ds: seq<nat>)
    requires AddressMask(l, c, ds).Text?
    ensures var t := AddressMask(l, c, ds).text;
      || IsStreetAddress(l, t)
      || (!SomePairFits(l.streets, l.suffixes, 5, c) && Among(t, "0123456789ABCDEFGHIJKLMNOPQRSTUVWXYZ")
          && |t| == if 0 < c.maxLen < 7 then c.maxLen else 7)
  {
    hide NamedIn, PairCountOf, Title, Among, Digits, SomePairFits;
    if StreetCount(l, c) > 0 {
      var number := Digits(4, false, ds);
      LeadingDigit(4, ds);
      DigitsAreAmong(number.value);
      var p := PairWords(l.streets, l.suffixes, 1, StreetBudget(c), Intn(number.rest, StreetCount(l, c)).value);
      TitleCapitalises(l.streets, p.0);
      TitleCapitalises(l.suffixes, p.1);
      assert AddressMask(l, c, ds) == Text(number.value + " " + (Title(p.0) + " " + Title(p.1)));
    } else {
      if SomePairFits(l.streets, l.suffixes, 5, c) {
        PairsWhereTheyFit(l.streets, l.suffixes, 5, c);
      }
      PostCodeSymbols(AddressCodeLen(c), ds);
    }
  }

  // ---------- email ----------

  /** Two listed names and, under a unique index, thirteen base32 symbols more; or, where no
      names fit before the host, symbols alone. */
  ghost predicate IsLocalPart(l: Lists, c: Constraints, s: string) {
    || (exists g, f ::
          && g in l.given.words && f in l.surnames.words
          && if c.isUnique then NamesAndSuffix(g, f, s) else s == g + "." + f)
    || (1 <= |s| <= (if c.isUnique then 13 else 8) && Among(s, "abcdefghijklmnopqrstuvwxyz234567")
        && !SomePairFits(l.given, l.surnames, if c.isUnique then 26 else 12, c))
  }

  ghost predicate NamesAndSuffix(g: string, f: string, s: string) {
    exists x :: |x| == 13 && Among(x, "abcdefghijklmnopqrstuvwxyz234567") && s == g + "." + f + "." + x
  }

  /** A masked address lands in one of the three domains RFC 2606 reserves, whatever the draws. */
  lemma EmailsLandInReservedDomains(l: Lists, c: Open, ds: seq<nat>)
    requires EmailMask(l, c, ds).Text?
    ensures exists local, host ::
      && EmailMask(l, c, ds).text == local + "@" + host
      && host in {"example.com", "example.net", "example.org"} && IsLocalPart(l, c, local)
  {
    hide IsLocalPart, EmailShapeFor;
    var sh := EmailShapeFor(l, c);
    var host := Intn(ds, 3);
    var pair := if sh.names then Intn(host.rest, NamePairs(l, sh)) else Drawn(0, host.rest);
    var suffix := Symbols(Base32, sh.suffix, pair.rest).value;
    LocalPartIs(l, c, pair.value, pair.rest);
    assert Host(host.value) in {"example.com", "example.net", "example.org"};
    assert EmailMask(l, c, ds).text == LocalPart(NamePart(l, sh, pair.value), suffix) + "@" + Host(host.value);
  }

  lemma SuffixIs(l: Lists, c: Constraints)
    requires EmailShapeFor(l, c).Email?
    ensures var sh := EmailShapeFor(l, c);
      if sh.names then sh.suffix == (if c.isUnique then 13 else 0) else 1 <= sh.suffix <= (if c.isUnique then 13 else 8)
  {
    hide PairCountOf;
  }

  lemma LocalPartIs(l: Lists, c: Open, k: nat, ds: seq<nat>)
    requires EmailShapeFor(l, c).Email? && k < NamePairs(l, EmailShapeFor(l, c))
    ensures var sh := EmailShapeFor(l, c);
      IsLocalPart(l, c, LocalPart(NamePart(l, sh, k), Symbols(Base32, sh.suffix, ds).value))
  {
    hide EmailShapeFor, Among, PairCountOf, LocalPart, IsLocalPart, Symbols, SomePairFits;
    var sh := EmailShapeFor(l, c);
    var x := Symbols(Base32, sh.suffix, ds).value;
    SuffixIs(l, c);
    Base32Symbols(sh.suffix, ds);
    if sh.names {
      var p := PairWords(l.given, l.surnames, 1, sh.nameBudget, k);
      NamedLocalPart(l, c, p.0, p.1, x);
    } else {
      NoNamesFit(l, c);
      BareLocalPart(l, c, x);
    }
  }

  lemma BareLocalPart(l: Lists, c: Constraints, x: string)
    requires 1 <= |x| <= (if c.isUnique then 13 else 8) && Among(x, "abcdefghijklmnopqrstuvwxyz234567")
    requires !SomePairFits(l.given, l.surnames, if c.isUnique then 26 else 12, c)
    ensures IsLocalPart(l, c, LocalPart("", x))
  {
    hide Among, SomePairFits;
  }

  lemma NamedLocalPart(l: Lists, c: Constraints, g: string, f: string, x: string)
    requires g in l.given.words && f in l.surnames.words
    requires |x| == (if c.isUnique then 13 else 0) && Among(x, "abcdefghijklmnopqrstuvwxyz234567")
    ensures IsLocalPart(l, c, LocalPart(g + "." + f, x))
  {
    hide Among, SomePairFits;
    if c.isUnique {
      assert NamesAndSuffix(g, f, g + "." + f + "." + x);
    }
  }

  lemma NoNamesFit(l: Lists, c: Open)
    requires EmailShapeFor(l, c).Email? && !EmailShapeFor(l, c).names
    ensures !SomePairFits(l.given, l.surnames, if c.isUnique then 26 else 12, c)
  {
    hide PairCountOf, SomePairFits;
    var k := if c.isUnique then 26 else 12;
    if SomePairFits(l.given, l.surnames, k, c) {
      PairsWhereTheyFit(l.given, l.surnames, k, c);
    }
  }

  // ---------- phone ----------

  /** A fictional number, 555 01xx in a listed area, with the prefix the column has room for. */
  lemma PhonesAreFictional(l: Lists, c: Open, ds: seq<nat>)
    requires PhoneMask(l, c, ds).Text?
    ensures exists prefix, area, last ::
      && PhoneMask(l, c, ds).text == prefix + (area + "55501") + last
      && area in l.areaCodes && |last| == 2 && Among(last, "0123456789")
      && prefix == if NumericFamily(c.typeTag) then (if 0 < c.maxLen < 11 then "" else "1")
                   else if c.maxLen <= 0 || c.maxLen >= 12 then "+1" else if c.maxLen == 11 then "1" else ""
  {
    var area := Intn(ds, |l.areaCodes|);
    var last := Digits(2, true, area.rest).value;
    DigitsAreDigits(2, true, area.rest);
    DigitsAreAmong(last);
    assert l.areaCodes[area.value] in l.areaCodes;
    assert PhoneMask(l, c, ds).text == PhonePrefix(PhoneShapeFor(c)) + (l.areaCodes[area.value] + "55501") + last;
  }

  lemma UniquePhonesAreE164Shaped(c: Open, ds: seq<nat>)
    requires PhoneUniqueMask(c, ds).Text?
    ensures var t := PhoneUniqueMask(c, ds).text;
      exists rest ::
        && t == (if NumericFamily(c.typeTag) then "1" else "+1") + rest
        && 1 <= |rest| <= 12 && Among(rest, "0123456789") && (c.typeTag == FamInteger ==> |t| <= 9)
        && (c.typeTag != FamInteger && (c.maxLen <= 0 || c.maxLen >= 14) ==> |rest| == 12)
        && (c.typeTag == FamInteger && c.maxLen <= 0 ==> |rest| == 8)
  {
    var rest := Digits(UniquePhoneDigits(c), true, ds).value;
    DigitsAreDigits(UniquePhoneDigits(c), true, ds);
    DigitsAreAmong(rest);
    assert PhoneUniqueMask(c, ds).text == (if NumericFamily(c.typeTag) then "1" else "+1") + rest;
  }

  // ---------- numbers ----------

  /** A national ID is a number with no leading zero, as long as a CHECK asks, or else nine
      digits where the column has the room; an integer takes it either way unless a CHECK says. */
  lemma NationalIDsAreNumbers(c: Open, ds: seq<nat>)
    requires NationalIDMask(c, ds).Text?
    ensures var t := NationalIDMask(c, ds).text;
      && t != "" && Among(t, "0123456789") && t[0] != '0'
      && if c.checkLength > 0 && (c.maxLen <= 0 || c.checkLength <= c.maxLen) then |t| == c.checkLength
         else |t| <= 9 && (c.maxLen <= 0 || c.maxLen >= 9 ==> |t| == 9)
  {
    LeadingDigit(NationalIDLen(c), ds);
    DigitsAreAmong(Digits(NationalIDLen(c), false, ds).value);
  }

  /** A digit's part of the sum: the digits of its double added up, or itself. */
  function Weight(d: nat, double: bool): nat {
    if double then 2 * d / 10 + 2 * d % 10 else d
  }

  /** The card check read from the left: in a text of even length the first digit is doubled. */
  function LuhnFromLeft(s: DigitString): nat {
    if s == "" then 0 else Weight(DigitOf(s[0]), |s| % 2 == 0) + LuhnFromLeft(s[1..])
  }

  lemma LuhnTakesTheLast(s: DigitString, double: bool)
    requires s != ""
    ensures LuhnSum(s, double) == Weight(DigitOf(s[|s| - 1]), double) + LuhnSum(s[..|s| - 1], !double)
  {
  }

  lemma {:induction false} LuhnTakesTheFirst(s: DigitString, double: bool)
    requires s != ""
    ensures LuhnSum(s, double) == LuhnSum(s[1..], double) + Weight(DigitOf(s[0]), (|s| % 2 == 0) != double)
    decreases |s|
  {
    hide LuhnSum, Weight;
    var most, rest := s[..|s| - 1], s[1..];
    LuhnTakesTheLast(s, double);
    if rest == "" {
      LuhnOfNothing(double);
      LuhnOfNothing(!double);
      assert most == "" && (|s| % 2 == 0) == false;
    } else {
      LuhnTakesTheFirst(most, !double);
      LuhnTakesTheLast(rest, double);
      assert most[1..] == rest[..|rest| - 1] && rest[|rest| - 1] == s[|s| - 1] && most[0] == s[0];
      assert (|most| % 2 == 0) == !(|s| % 2 == 0);
    }
  }

  lemma LuhnOfNothing(double: bool)
    ensures LuhnSum("", double) == 0
  {
  }

  /** Both ways of reading give one sum. */
  lemma {:induction false} LuhnReadsEitherWay(s: DigitString)
    ensures LuhnSum(s, false) == LuhnFromLeft(s)
  {
    hide Weight;
    if s != "" {
      LuhnReadsEitherWay(s[1..]);
      LuhnTakesTheFirst(s, false);
    }
  }

  /** A masked account number passes the check card validators make, read from the left. */
  lemma AccountsPassTheCheck(c: Open, ds: seq<nat>)
    requires FinancialMask(c, ds).Text?
    ensures var t := FinancialMask(c, ds).text;
      && |t| >= 2 && AllDigits(t) && t[0] != '0' && LuhnFromLeft(t) % 10 == 0
      && if c.checkLength > 0 && (c.maxLen <= 0 || c.checkLength <= c.maxLen) then |t| == c.checkLength
         else |t| <= 16 && (c.typeTag == FamInteger ==> |t| <= 9)
  {
    FinancialIsValid(c, ds);
    LuhnReadsEitherWay(FinancialMask(c, ds).text);
    LeadingDigit(FinancialLen(c) - 1, ds);
    hide LuhnSum, LuhnFromLeft, LuhnCheckDigit, Digits;
  }

  /** A masked credential says that it is one, and the rest is random. */
  lemma CredentialsSayTheyAreInvalid(c: Open, ds: seq<nat>)
    requires CredentialMask(c, ds).Text?
    ensures exists rest ::
      && CredentialMask(c, ds).text == "lazyslice-invalid-" + rest
      && |rest| == (if 0 < c.maxLen < 31 then c.maxLen - 18 else 13) && |rest| > 0
      && Among(rest, "abcdefghijklmnopqrstuvwxyz234567")
  {
    var rest := Symbols(Base32, CredentialSymbols(c), ds).value;
    Base32Symbols(CredentialSymbols(c), ds);
    assert CredentialMask(c, ds).text == "lazyslice-invalid-" + rest;
  }

  // ---------- dates and positions ----------

  function Clock(h: nat, m: nat, s: nat): string
    requires h < 24 && m < 60 && s < 60
  {
    [' ', '0' + (h / 10) as char, '0' + (h % 10) as char, ':', '0' + (m / 10) as char, '0' + (m % 10) as char,
     ':', '0' + (s / 10) as char, '0' + (s % 10) as char]
  }

  /** A day from 1940 to 2009 and, for a timestamp, a time of day. */
  lemma DatesAreInTheSpan(cal: Calendar, c: Open, ds: seq<nat>)
    requires PersonDateMask(cal, c, ds).Text?
    ensures exists d: nat ::
      d < 25568 && if c.typeTag == FamTimestamp then IsDayAndTime(cal(d), PersonDateMask(cal, c, ds).text)
                   else PersonDateMask(cal, c, ds).text == cal(d)
  {
    var day := Intn(ds, DATE_DAYS);
    if c.typeTag == FamTimestamp {
      var s := Intn(day.rest, SECONDS_PER_DAY).value;
      ClockReads(s);
      assert IsDayAndTime(cal(day.value), cal(day.value) + ClockText(s));
    }
  }

  ghost predicate IsDayAndTime(day: string, t: string) {
    exists h, m, s | 0 <= h < 24 && 0 <= m < 60 && 0 <= s < 60 :: t == day + Clock(h, m, s)
  }

  lemma ClockReads(s: nat)
    requires s < SECONDS_PER_DAY
    ensures s / 3600 < 24 && s / 60 % 60 < 60 && ClockText(s) == Clock(s / 3600, s / 60 % 60, s % 60)
  {
  }

  /** The decimal text of a number between -90 and 90, with d places. */
  ghost predicate WithinNinety(t: string, d: nat) {
    exists sign, w, f ::
      && t == sign + (w + f) && sign in {"", "-"} && 1 <= |w| <= 2 && AllDigits(w)
      && (if d == 0 then f == "" else |f| == d + 1 && f[0] == '.' && AllDigits(f[1..]))
      && ValueOf(w) * Pow(10, d) + (if d == 0 then 0 else ValueOf(f[1..])) <= 90 * Pow(10, d)
  }

  lemma GeoTextIsWithinNinety(n: int, d: nat)
    requires -(90 * Pow(10, d)) <= n <= 90 * Pow(10, d)
    ensures WithinNinety(GeoText(n, d), d)
  {
    hide Pow, ValueOf;
    PowPositive(10, d);
    var scale := Pow(10, d);
    var p := PartsOf(n, scale);
    PartsWithin(n, scale);
    PartsAddUp(n, scale);
    ItoaSpells(p.whole);
    WholeIsShort(p.whole);
    var f := if d > 0 then "." + Pad(p.frac, d) else "";
    if d > 0 {
      PadSpells(p.frac, d);
      assert f[1..] == Pad(p.frac, d);
    } else {
      NoPlaces(p.frac);
    }
    assert GeoText(n, d) == (if p.neg then "-" else "") + (Itoa(p.whole) + f);
  }

  lemma NoPlaces(f: nat)
    ensures f < Pow(10, 0) ==> f == 0
  {
  }

  lemma WholeIsShort(w: nat)
    requires w < 100
    ensures |Itoa(w)| <= 2
  {
    assert Pow(10, 2) == 100;
    ItoaIsShort(w, 2);
  }

  lemma PartsAddUp(n: int, scale: nat)
    requires scale > 0
    ensures var p := PartsOf(n, scale); p.whole * scale + p.frac == if n < 0 then -n else n
  {
  }

  /** A masked position is a latitude on the globe, with up to six places, fewer in a short column. */
  lemma PositionsAreOnTheGlobe(c: Open, ds: seq<nat>)
    requires GeoMask(c, ds).Text?
    ensures WithinNinety(GeoMask(c, ds).text, if NumericFamily(c.typeTag) || c.maxLen <= 0 || c.maxLen >= 10 then 6 else c.maxLen - 4)
  {
    hide GeoText, WithinNinety, Pow;
    var d: nat := GeoPlaces(c);
    GeoDraw(c, d, ds);
    GeoTextIsWithinNinety(Intn(ds, GeoDomain(c)).value - 90 * Pow(10, d), d);
  }
}
