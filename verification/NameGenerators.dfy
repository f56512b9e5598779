/** person_name, address and email: Domain and Mask (mask/gen_text.go:56-165,
    mask/gen_email.go). */
module NameGenerators {
  import opened Arith
  import opened Words
  import opened Draws
  import opened Columns
  import opened Lexicon

  // ---------- person_name ----------

  const NAME_DOMAIN_FLOOR := 400

  datatype NameForm = NoForm | Single(list: WordList, n: nat) | FullName(n: nat)

  function SingleForm(list: WordList, budget: int): NameForm {
    var k := Count(list, budget);
    if k >= NAME_DOMAIN_FLOOR then Single(list, k) else NoForm
  }

  function PersonNameForm(l: Lists, c: Constraints): (f: NameForm)
    ensures f.Single? ==> (f.list == l.given || f.list == l.surnames) && 0 < f.n == Count(f.list, Room(c))
    ensures f.FullName? ==> 0 < f.n == PairCountOf(l.given, l.surnames, 1, Room(c))
  {
    match c.role
    case RoleGiven => SingleForm(l.given, Room(c))
    case RoleFamily => SingleForm(l.surnames, Room(c))
    case RoleFull =>
      var k := PairCountOf(l.given, l.surnames, 1, Room(c));
      if k >= NAME_DOMAIN_FLOOR then FullName(k) else SingleForm(l.given, Room(c))
  }

  function PersonNameDomain(l: Lists, c: Constraints): nat
  {
    if c.labels != [] then |c.labels| else
    match PersonNameForm(l, c) case NoForm => 0 case Single(_, n) => n case FullName(n) => n
  }

  function FullNameText(p: (string, string)): string {
    Title(p.0) + " " + Title(p.1)
  }

  function PersonNameMask(l: Lists, c: Constraints, ds: seq<nat>): Outcome
  {
    if c.labels != [] then LabelMask(c.labels, ds) else
    match PersonNameForm(l, c)
    case NoForm => NoRoom
    case Single(list, n) => Text(Title(list.words[Intn(ds, n).value]))
    case FullName(n) => Text(FullNameText(PairWords(l.given, l.surnames, 1, Room(c), Intn(ds, n).value)))
  }

  lemma FullNamesDiffer(l: Lists, budget: int, m: nat, n: nat)
    requires m < PairCountOf(l.given, l.surnames, 1, budget) && n < PairCountOf(l.given, l.surnames, 1, budget)
    ensures m != n ==>
      FullNameText(PairWords(l.given, l.surnames, 1, budget, m)) != FullNameText(PairWords(l.given, l.surnames, 1, budget, n))
  {
    var p, q := PairWords(l.given, l.surnames, 1, budget, m), PairWords(l.given, l.surnames, 1, budget, n);
    ListedWord(l.given, p.0);
    ListedWord(l.given, q.0);
    ListedWord(l.surnames, p.1);
    ListedWord(l.surnames, q.1);
    if FullNameText(p) == FullNameText(q) {
      HeadsMatch(Title(p.0), Title(p.1), Title(q.0), Title(q.1), ' ');
      TitleKeepsWords(p.0, q.0);
      TitleKeepsWords(p.1, q.1);
      PairWordsDiffer(l.given, l.surnames, 1, budget, m, n);
    }
  }

  lemma PersonNamesDiffer(l: Lists, c: Open, ds: seq<nat>, es: seq<nat>, j: nat, k: nat)
    requires j != k && j < PersonNameDomain(l, c) && k < PersonNameDomain(l, c)
    requires Intn(ds, PersonNameDomain(l, c)).value == j && Intn(es, PersonNameDomain(l, c)).value == k
    ensures PersonNameMask(l, c, ds) != PersonNameMask(l, c, es)
  {
    match PersonNameForm(l, c)
    case Single(list, _) =>
      assert list.words[j] != list.words[k];
      if Title(list.words[j]) == Title(list.words[k]) {
        TitleKeepsWords(list.words[j], list.words[k]);
      }
    case FullName(_) =>
      FullNamesDiffer(l, Room(c), j, k);
  }

  lemma PersonNameFits(l: Lists, c: Open, ds: seq<nat>)
    ensures var out := PersonNameMask(l, c, ds);
      (out.NoRoom? <==> PersonNameDomain(l, c) == 0) && (out.Text? ==> FitsColumn(out.text, c))
  {
  }

  lemma PersonNameIsHonest(l: Lists, c: Open)
    ensures Honest(ds => PersonNameMask(l, c, ds), PersonNameDomain(l, c), c)
  {
    hide PersonNameMask, PersonNameDomain, FitsColumn;
    var mask := (ds: seq<nat>) => PersonNameMask(l, c, ds);
    var n := PersonNameDomain(l, c);
    var feed := (k: nat) => Feed(n, k);
    forall k: nat | k < n ensures Intn(feed(k), n) == Drawn(k, []) {
      FeedIsRead(n, k, []);
      assert Feed(n, k) + [] == feed(k);
    }
    forall j: nat, k: nat | j < k < n ensures mask(feed(j)) != mask(feed(k)) {
      PersonNamesDiffer(l, c, feed(j), feed(k), j, k);
    }
    forall ds: seq<nat> ensures (mask(ds).NoRoom? <==> n == 0) && (mask(ds).Text? ==> FitsColumn(mask(ds).text, c)) {
      PersonNameFits(l, c, ds);
    }
    assert Separates(mask, feed, n);
  }

  // ---------- address ----------

  const ADDR_NUMBER_DIGITS := 4
  const ADDR_NUMBER_DOMAIN := 9000
  const ADDR_CODE_MAX := 7

  function StreetBudget(c: Constraints): int {
    FitBudget(Room(c), ADDR_NUMBER_DIGITS + 1)
  }

  function StreetCount(l: Lists, c: Constraints): nat {
    PairCountOf(l.streets, l.suffixes, 1, StreetBudget(c))
  }

  function AddressCodeLen(c: Constraints): nat {
    if Room(c) > 0 then Min(ADDR_CODE_MAX, Room(c)) else ADDR_CODE_MAX
  }

  function AddressDomain(l: Lists, c: Constraints): nat {
    if c.labels != [] then |c.labels|
    else if StreetCount(l, c) > 0 then SatMul(ADDR_NUMBER_DOMAIN, StreetCount(l, c))
    else if AddressCodeLen(c) > 0 then SatPowOf(36, AddressCodeLen(c)) else 0
  }

  function StreetText(p: (string, string)): string {
    Title(p.0) + " " + Title(p.1)
  }

  function AddressMask(l: Lists, c: Constraints, ds: seq<nat>): Outcome {
    if c.labels != [] then LabelMask(c.labels, ds)
    else if StreetCount(l, c) > 0 then
      var number := Digits(ADDR_NUMBER_DIGITS, false, ds);
      var street := PairWords(l.streets, l.suffixes, 1, StreetBudget(c), Intn(number.rest, StreetCount(l, c)).value);
      Text(number.value + " " + StreetText(street))
    else if AddressCodeLen(c) > 0 then Text(Symbols(PostCode, AddressCodeLen(c), ds).value)
    else NoRoom
  }

  lemma StreetsDiffer(l: Lists, budget: int, m: nat, n: nat)
    requires m < PairCountOf(l.streets, l.suffixes, 1, budget) && n < PairCountOf(l.streets, l.suffixes, 1, budget)
    ensures m != n ==>
      StreetText(PairWords(l.streets, l.suffixes, 1, budget, m)) != StreetText(PairWords(l.streets, l.suffixes, 1, budget, n))
  {
    var p, q := PairWords(l.streets, l.suffixes, 1, budget, m), PairWords(l.streets, l.suffixes, 1, budget, n);
    ListedWord(l.streets, p.0);
    ListedWord(l.streets, q.0);
    ListedWord(l.suffixes, p.1);
    ListedWord(l.suffixes, q.1);
    if StreetText(p) == StreetText(q) {
      HeadsMatch(Title(p.0), Title(p.1), Title(q.0), Title(q.1), ' ');
      TitleKeepsWords(p.0, q.0);
      TitleKeepsWords(p.1, q.1);
      PairWordsDiffer(l.streets, l.suffixes, 1, budget, m, n);
    }
  }

  function FeedStreet(l: Lists, c: Constraints, number: nat, street: nat): seq<nat> {
    FeedLeading(4, number) + Feed(StreetCount(l, c), street)
  }

  lemma StreetIsFed(l: Lists, c: Open, number: nat, street: nat)
    requires street < StreetCount(l, c)
    ensures AddressMask(l, c, FeedStreet(l, c, number, street)) ==
      Text(LeadingNumeral(4, number) + " " + StreetText(PairWords(l.streets, l.suffixes, 1, StreetBudget(c), street)))
  {
    var more := Feed(StreetCount(l, c), street);
    LeadingIsRead(4, number, more);
    FeedIsRead(StreetCount(l, c), street, []);
    assert more + [] == more;
  }

  lemma StreetAddressesDiffer(l: Lists, c: Open, n: nat, s: nat, n': nat, s': nat)
    requires s < StreetCount(l, c) && s' < StreetCount(l, c)
    requires n < ADDR_NUMBER_DOMAIN && n' < ADDR_NUMBER_DOMAIN
    ensures AddressMask(l, c, FeedStreet(l, c, n, s)) == AddressMask(l, c, FeedStreet(l, c, n', s')) ==> n == n' && s == s'
  {
    hide AddressMask, LeadingNumeral, StreetText, PairWords, PairCountOf, FeedStreet;
    StreetIsFed(l, c, n, s);
    StreetIsFed(l, c, n', s');
    var t := StreetText(PairWords(l.streets, l.suffixes, 1, StreetBudget(c), s));
    var t' := StreetText(PairWords(l.streets, l.suffixes, 1, StreetBudget(c), s'));
    if AddressMask(l, c, FeedStreet(l, c, n, s)) == AddressMask(l, c, FeedStreet(l, c, n', s')) {
      PrefixesMatch(LeadingNumeral(4, n) + " ", t, LeadingNumeral(4, n') + " ", t');
      PrefixesMatch(LeadingNumeral(4, n), " ", LeadingNumeral(4, n'), " ");
      assert Pow(10, 3) == 1000 && Pow(10, 4 - 1) == 1000;
      LeadingsDiffer(4, n, n');
      StreetsDiffer(l, StreetBudget(c), s, s');
    }
  }

  lemma StreetAddressesAreMany(l: Lists, c: Open, mask: seq<nat> -> Outcome)
    requires StreetCount(l, c) > 0 && forall ds: seq<nat> :: mask(ds) == AddressMask(l, c, ds)
    ensures EmitsAtLeast(mask, ADDR_NUMBER_DOMAIN * StreetCount(l, c))
  {
    var feed := (t: Choice) => FeedStreet(l, c, t.first, t.second);
    var bounds := Choice(ADDR_NUMBER_DOMAIN, StreetCount(l, c), 1);
    forall t: Choice, u: Choice | Below(t, bounds) && Below(u, bounds) && mask(feed(t)) == mask(feed(u)) ensures t == u {
      StreetAddressesDiffer(l, c, t.first, t.second, u.first, u.second);
    }
    ChoicesAreMany(mask, feed, bounds);
  }

  lemma AddressIsHonest(l: Lists, c: Open)
    ensures Honest(ds => AddressMask(l, c, ds), AddressDomain(l, c), c)
  {
    var mask := (ds: seq<nat>) => AddressMask(l, c, ds);
    if StreetCount(l, c) > 0 {
      hide EmitsAtLeast;
      StreetAddressesAreMany(l, c, mask);
      EmitsFewer(mask, AddressDomain(l, c), ADDR_NUMBER_DOMAIN * StreetCount(l, c));
    } else {
      NumeralsAreMany(PostCode, AddressCodeLen(c), mask, "");
      PowPositive(36, AddressCodeLen(c));
      EmitsFewer(mask, AddressDomain(l, c), Pow(36, AddressCodeLen(c)));
    }
  }

  // ---------- email ----------

  const HOST_LEN := 12
  const UNIQUE_SUFFIX := 13
  const PLAIN_SUFFIX := 8

  datatype EmailShape = NoEmail | Email(names: bool, nameBudget: int, suffix: nat)

  function EmailShapeFor(l: Lists, c: Constraints): EmailShape {
    var local := if c.maxLen > 0 then c.maxLen - HOST_LEN else 0;
    if c.maxLen > 0 && local < 1 then NoEmail
    else if c.isUnique then
      var nb := FitBudget(local, 1 + UNIQUE_SUFFIX);
      if PairCountOf(l.given, l.surnames, 1, nb) > 0 then Email(true, nb, UNIQUE_SUFFIX)
      else Email(false, 0, if local > 0 then Min(UNIQUE_SUFFIX, local) else UNIQUE_SUFFIX)
    else if PairCountOf(l.given, l.surnames, 1, local) > 0 then Email(true, local, 0)
    else Email(false, 0, if local > 0 then Min(PLAIN_SUFFIX, local) else PLAIN_SUFFIX)
  }

  function Host(v: nat): (s: string)
    requires v < 3
    ensures |s| == HOST_LEN - 1
  {
    if v == 0 then "example.com" else if v == 1 then "example.net" else "example.org"
  }

  function NamePairs(l: Lists, sh: EmailShape): nat
    requires sh.Email?
  {
    if sh.names then PairCountOf(l.given, l.surnames, 1, sh.nameBudget) else 1
  }

  function EmailDomain(l: Lists, c: Constraints): nat {
    if c.labels != [] then |c.labels| else
    var sh := EmailShapeFor(l, c);
    if sh.NoEmail? then 0 else
    var n := if sh.names then SatMul(3, NamePairs(l, sh)) else 3;
    if sh.suffix > 0 then SatMul(n, SatPowOf(32, sh.suffix)) else n
  }

  /** The local part before any suffix. */
  function NamePart(l: Lists, sh: EmailShape, k: nat): string
    requires sh.Email? && k < NamePairs(l, sh)
  {
    if !sh.names then "" else
    var p := PairWords(l.given, l.surnames, 1, sh.nameBudget, k);
    p.0 + "." + p.1
  }

  function LocalPart(names: string, suffix: string): string {
    if suffix == "" then names else if names == "" then suffix else names + "." + suffix
  }

  function EmailMask(l: Lists, c: Constraints, ds: seq<nat>): Outcome {
    if c.labels != [] then LabelMask(c.labels, ds) else
    var sh := EmailShapeFor(l, c);
    if sh.NoEmail? || NamePairs(l, sh) == 0 then NoRoom else
    var host := Intn(ds, 3);
    var pair := if sh.names then Intn(host.rest, NamePairs(l, sh)) else Drawn(0, host.rest);
    var suffix := Symbols(Base32, sh.suffix, pair.rest);
    var out := LocalPart(NamePart(l, sh, pair.value), suffix.value) + "@" + Host(host.value);
    if FitsColumn(out, c) then Text(out) else NoRoom
  }

  /** emailShapeFor left room for what Mask builds. */
  lemma EmailFits(l: Lists, c: Constraints, k: nat, suffix: string)
    requires var sh := EmailShapeFor(l, c);
      sh.Email? && k < NamePairs(l, sh) && |suffix| == sh.suffix
    ensures var out := LocalPart(NamePart(l, EmailShapeFor(l, c), k), suffix);
      c.maxLen > 0 ==> |out| + HOST_LEN <= c.maxLen
  {
  }

  lemma LocalPartsDiffer(l: Lists, sh: EmailShape, j: nat, k: nat, s: string, t: string)
    requires sh.Email? && j < NamePairs(l, sh) && k < NamePairs(l, sh) && |s| == |t|
    requires LocalPart(NamePart(l, sh, j), s) == LocalPart(NamePart(l, sh, k), t)
    ensures j == k && s == t
  {
    var x, y := NamePart(l, sh, j), NamePart(l, sh, k);
    if s != "" && sh.names {
      assert x + "." + s == (x + ".") + s && y + "." + t == (y + ".") + t;
      TailsMatch(x + ".", s, y + ".", t);
      TailsMatch(x, ".", y, ".");
    }
    if sh.names {
      var p := PairWords(l.given, l.surnames, 1, sh.nameBudget, j);
      var q := PairWords(l.given, l.surnames, 1, sh.nameBudget, k);
      ListedWord(l.given, p.0);
      ListedWord(l.given, q.0);
      HeadsMatch(p.0, p.1, q.0, q.1, '.');
      PairWordsDiffer(l.given, l.surnames, 1, sh.nameBudget, j, k);
    }
  }

  /** The draws for host h, name pair p and suffix number x. */
  function FeedEmail(l: Lists, sh: EmailShape, h: nat, p: nat, x: nat): seq<nat>
    requires sh.Email?
  {
    Feed(3, h) + (Feed(NamePairs(l, sh), p) + FeedNumeral(Base32, sh.suffix, x))
  }

  lemma EmailIsFed(l: Lists, c: Open, h: nat, p: nat, x: nat)
    requires EmailShapeFor(l, c).Email?
    requires var sh := EmailShapeFor(l, c); h < 3 && p < NamePairs(l, sh)
    ensures var sh := EmailShapeFor(l, c);
      EmailMask(l, c, FeedEmail(l, sh, h, p, x)) ==
        Text(LocalPart(NamePart(l, sh, p), Numeral(Base32, sh.suffix, x)) + "@" + Host(h))
  {
    var sh := EmailShapeFor(l, c);
    var tail := FeedNumeral(Base32, sh.suffix, x);
    FeedIsRead(3, h, Feed(NamePairs(l, sh), p) + tail);
    FeedIsRead(NamePairs(l, sh), p, tail);
    assert [] + tail == tail && tail + [] == tail;
    NumeralIsRead(Base32, sh.suffix, x, []);
    EmailFits(l, c, p, Numeral(Base32, sh.suffix, x));
  }

  lemma EmailsDiffer(l: Lists, c: Open, h: nat, p: nat, x: nat, h': nat, p': nat, x': nat)
    requires EmailShapeFor(l, c).Email?
    requires var sh := EmailShapeFor(l, c);
      && h < 3 && p < NamePairs(l, sh) && x < Pow(32, sh.suffix)
      && h' < 3 && p' < NamePairs(l, sh) && x' < Pow(32, sh.suffix)
    ensures var sh := EmailShapeFor(l, c);
      EmailMask(l, c, FeedEmail(l, sh, h, p, x)) == EmailMask(l, c, FeedEmail(l, sh, h', p', x'))
      ==> h == h' && p == p' && x == x'
  {
    var sh := EmailShapeFor(l, c);
    EmailIsFed(l, c, h, p, x);
    EmailIsFed(l, c, h', p', x');
    var s, s' := Numeral(Base32, sh.suffix, x), Numeral(Base32, sh.suffix, x');
    var t, t' := LocalPart(NamePart(l, sh, p), s), LocalPart(NamePart(l, sh, p'), s');
    if EmailMask(l, c, FeedEmail(l, sh, h, p, x)) == EmailMask(l, c, FeedEmail(l, sh, h', p', x')) {
      TailsMatch(t + "@", Host(h), t' + "@", Host(h'));
      TailsMatch(t, "@", t', "@");
      HostsDiffer(h, h');
      LocalPartsDiffer(l, sh, p, p', s, s');
      NumeralsDiffer(Base32, sh.suffix, x, x');
    }
  }

  lemma HostsDiffer(g: nat, h: nat)
    requires g < 3 && h < 3 && Host(g) == Host(h)
    ensures g == h
  {
    assert Host(0)[8] == 'c' && Host(1)[8] == 'n' && Host(2)[8] == 'o';
  }

  lemma EmailsAreMany(l: Lists, c: Open)
    requires EmailShapeFor(l, c).Email? && NamePairs(l, EmailShapeFor(l, c)) > 0
    ensures var sh := EmailShapeFor(l, c);
      EmitsAtLeast(ds => EmailMask(l, c, ds), 3 * NamePairs(l, sh) * Pow(32, sh.suffix))
  {
    var sh := EmailShapeFor(l, c);
    var pairs, all := NamePairs(l, sh), Pow(32, sh.suffix);
    var mask := (ds: seq<nat>) => EmailMask(l, c, ds);
    var feed := (t: Choice) => FeedEmail(l, sh, t.first, t.second, t.third);
    var bounds := Choice(3, pairs, all);
    forall t: Choice | Below(t, bounds) ensures mask(feed(t)).Text? {
      EmailIsFed(l, c, t.first, t.second, t.third);
    }
    forall t: Choice, u: Choice | Below(t, bounds) && Below(u, bounds) && mask(feed(t)) == mask(feed(u)) ensures t == u {
      EmailsDiffer(l, c, t.first, t.second, t.third, u.first, u.second, u.third);
    }
    ChoicesAreMany(mask, feed, bounds);
  }

  lemma EmailIsHonest(l: Lists, c: Open)
    ensures Honest(ds => EmailMask(l, c, ds), EmailDomain(l, c), c)
  {
    var mask := (ds: seq<nat>) => EmailMask(l, c, ds);
    var sh := EmailShapeFor(l, c);
    if sh.NoEmail? {
      assert Separates(mask, (k: nat) => [], 0);
    } else {
      EmailsAreMany(l, c);
      EmailDomainIsBelow(l, c);
      EmitsFewer(mask, EmailDomain(l, c), 3 * NamePairs(l, sh) * Pow(32, sh.suffix));
      forall ds: seq<nat> ensures mask(ds).Text? {
        EmailAlwaysFits(l, c, ds);
      }
    }
  }

  lemma EmailAlwaysFits(l: Lists, c: Open, ds: seq<nat>)
    requires EmailShapeFor(l, c).Email?
    ensures EmailMask(l, c, ds).Text?
  {
    var sh := EmailShapeFor(l, c);
    var host := Intn(ds, 3);
    var pair := if sh.names then Intn(host.rest, NamePairs(l, sh)) else Drawn(0, host.rest);
    EmailFits(l, c, pair.value, Symbols(Base32, sh.suffix, pair.rest).value);
  }

  lemma EmailDomainIsBelow(l: Lists, c: Open)
    requires EmailShapeFor(l, c).Email?
    ensures var sh := EmailShapeFor(l, c);
      0 < EmailDomain(l, c) <= 3 * NamePairs(l, sh) * Pow(32, sh.suffix)
  {
    hide EmailShapeFor, Pow, SatPowOf, SatMul;
    var sh := EmailShapeFor(l, c);
    NamePairsArePositive(l, c);
    ProductIsBelow(3, NamePairs(l, sh), sh.suffix, sh.names);
  }

  lemma NamePairsArePositive(l: Lists, c: Open)
    requires EmailShapeFor(l, c).Email?
    ensures NamePairs(l, EmailShapeFor(l, c)) > 0
  {
  }

  lemma SatMulIsBelow(a: nat, b: nat)
    requires a > 0 && b > 0
    ensures 0 < SatMul(a, b) <= a * b
  {
    MulOrder(1, a, b);
  }

  lemma ProductIsBelow(hosts: nat, pairs: nat, suffix: nat, names: bool)
    requires hosts > 0 && pairs > 0
    ensures var n := if names then SatMul(hosts, pairs) else hosts;
      0 < (if suffix > 0 then SatMul(n, SatPowOf(32, suffix)) else n) <= hosts * pairs * Pow(32, suffix)
  {
    var n := if names then SatMul(hosts, pairs) else hosts;
    PowPositive(32, suffix);
    var p, q := SatPowOf(32, suffix), Pow(32, suffix);
    hide Pow, SatPowOf, SatMul;
    SatMulIsBelow(hosts, pairs);
    MulOrder(1, pairs, hosts);
    BelowTheProduct(n, hosts * pairs, p, q);
    SatMulIsBelow(n, p);
  }

  lemma BelowTheProduct(n: nat, m: nat, p: nat, q: nat)
    requires 0 < n <= m && 0 < p <= q
    ensures n <= m * q && n * p <= m * q
  {
    MulOrder(n, m, q);
    MulOrder(p, q, n);
    MulOrder(1, q, n);
  }
}
