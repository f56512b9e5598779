/** The pin a committed file puts on which document keys are copied
    (internal/classify/leafdrift.go:62-223). The key's hash is a parameter. */
module LeafDrift {
  import opened Common
  import opened Decisions
  import opened SortedText

  // ---------- how a key is spelled ----------

  const LEAF_KEY_MAX_LEN := 32
  const LEAF_KEY_NAME_LIMIT := 64

  predicate Letter(c: char) {
    'a' <= c <= 'z' || 'A' <= c <= 'Z'
  }

  predicate HexLetter(c: char) {
    'a' <= c <= 'f' || 'A' <= c <= 'F'
  }

  predicate Digit(c: char) {
    '0' <= c <= '9'
  }

  /** Letters, underscores and, past the start, hyphens. */
  predicate Wordish(s: string, n: nat)
    requires n <= |s|
  {
    forall i :: 0 <= i < n ==> Letter(s[i]) || s[i] == '_' || (i > 0 && s[i] == '-')
  }

  predicate DigitsFrom(s: string, n: nat) {
    forall i :: n <= i < |s| ==> Digit(s[i])
  }

  /** Eight letters or more, and every one of them hexadecimal. */
  predicate LooksLikeHash(s: string) {
    Letters(s) >= 8 && forall i :: 0 <= i < |s| && Letter(s[i]) ==> HexLetter(s[i])
  }

  function Letters(s: string): nat {
    if s == "" then 0 else Letters(s[..|s| - 1]) + (if Letter(s[|s| - 1]) then 1 else 0)
  }

  function HexLetters(s: string): nat {
    if s == "" then 0 else HexLetters(s[..|s| - 1]) + (if HexLetter(s[|s| - 1]) then 1 else 0)
  }

  /** A name someone chose: a word, then at most two digits, and no hash. */
  ghost predicate IdentifierShaped(s: string) {
    && 0 < |s| <= LEAF_KEY_MAX_LEN
    && (exists n :: 0 < n <= |s| && |s| - n <= 2 && Wordish(s, n) && DigitsFrom(s, n))
    && !LooksLikeHash(s)
  }

  lemma {:induction false} AllHexLetters(s: string)
    ensures HexLetters(s) <= Letters(s)
    ensures HexLetters(s) == Letters(s) <==> forall i :: 0 <= i < |s| && Letter(s[i]) ==> HexLetter(s[i])
  {
    if s != "" {
      var most := s[..|s| - 1];
      AllHexLetters(most);
      assert forall i :: 0 <= i < |most| ==> most[i] == s[i];
    }
  }

  // ---------- the same, character by character ----------

  predicate Hexadecimal(c: char) {
    c in "0123456789abcdefABCDEF"
  }

  /** Where the ASCII letters of s stand. */
  function LetterPlaces(s: string): set<nat> {
    set i: nat | i < |s| && ('a' <= s[i] <= 'z' || 'A' <= s[i] <= 'Z')
  }

  /** A letter, an underscore, a hyphen, or one of at most two digits at the end. */
  predicate NameCharacter(s: string, i: nat)
    requires i < |s|
  {
    || 'a' <= s[i] <= 'z' || 'A' <= s[i] <= 'Z' || s[i] == '_' || s[i] == '-'
    || ('0' <= s[i] <= '9' && (i == |s| - 1 || (i == |s| - 2 && '0' <= s[i + 1] <= '9')))
  }

  /** What a key must be to be written out in the committed file: short, begun by a letter or
      an underscore, with digits in the last two places only, and no hash. */
  predicate ReadableName(s: string) {
    && 1 <= |s| <= 32
    && s[0] != '-' && !('0' <= s[0] <= '9')
    && (forall i :: 0 <= i < |s| ==> NameCharacter(s, i))
    && (|LetterPlaces(s)| < 8 || exists i :: i in LetterPlaces(s) && !Hexadecimal(s[i]))
  }

  lemma {:induction false} LettersAreCounted(s: string)
    ensures Letters(s) == |LetterPlaces(s)|
  {
    if s != "" {
      var n := |s| - 1;
      LettersAreCounted(s[..n]);
      assert LetterPlaces(s) == LetterPlaces(s[..n]) + if Letter(s[n]) then {n} else {};
    }
  }

  lemma HashIff(s: string)
    ensures LooksLikeHash(s) <==> |LetterPlaces(s)| >= 8 && forall i :: i in LetterPlaces(s) ==> Hexadecimal(s[i])
  {
    LettersAreCounted(s);
    forall c: char | Letter(c) ensures HexLetter(c) <==> Hexadecimal(c) {
      HexLettersAre(c);
    }
    assert forall i: nat :: i < |s| && Letter(s[i]) <==> i in LetterPlaces(s);
  }

  lemma HexLettersAre(c: char)
    requires Letter(c)
    ensures HexLetter(c) <==> Hexadecimal(c)
  {
    var hex := "0123456789abcdefABCDEF";
    if 'a' <= c <= 'f' {
      assert hex[c as int - 'a' as int + 10] == c;
    } else if 'A' <= c <= 'F' {
      assert hex[c as int - 'A' as int + 16] == c;
    }
  }

  /** The word that a readable name is, its last digits aside. */
  lemma ShapedIff(s: string)
    ensures IdentifierShaped(s) <==> ReadableName(s)
  {
    hide LooksLikeHash;
    HashIff(s);
    if ReadableName(s) {
      NameIsAWord(s);
    }
    if IdentifierShaped(s) {
      var n :| 0 < n <= |s| && |s| - n <= 2 && Wordish(s, n) && DigitsFrom(s, n);
      assert Letter(s[0]) || s[0] == '_';
      forall i | 0 <= i < |s| ensures NameCharacter(s, i) {
        assert i < n ==> Letter(s[i]) || s[i] == '_' || s[i] == '-';
      }
    }
  }

  lemma NameIsAWord(s: string)
    requires ReadableName(s)
    ensures exists n :: 0 < n <= |s| && |s| - n <= 2 && Wordish(s, n) && DigitsFrom(s, n)
  {
    var n := if !Digit(s[|s| - 1]) then |s| else if |s| < 2 || !Digit(s[|s| - 2]) then |s| - 1 else |s| - 2;
    assert n > 0 by {
      assert |s| <= 2 ==> !Digit(s[0]);
    }
    forall i | 0 <= i < n ensures Letter(s[i]) || s[i] == '_' || (i > 0 && s[i] == '-') {
      assert NameCharacter(s, i);
    }
    assert Wordish(s, n) && DigitsFrom(s, n);
  }

  method ComputeIdentifierShaped(s: string) returns (r: bool)
    ensures r <==> IdentifierShaped(s)
  {
    if s == "" || |s| > LEAF_KEY_MAX_LEN {
      return false;
    }
    var digits, letters, hexLetters := 0, 0, 0;
    for i := 0 to |s|
      invariant 0 <= digits <= i && letters == Letters(s[..i]) && hexLetters == HexLetters(s[..i])
      invariant Wordish(s, i - digits) && (i > 0 ==> digits < i)
      invariant forall k :: i - digits <= k < i ==> Digit(s[k])
    {
      assert s[..i + 1][..i] == s[..i];
      var c := s[i];
      if Letter(c) {
        if digits > 0 {
          NoWordAfterDigits(s, i - 1, i);
          return false;
        }
        letters := letters + 1;
        if HexLetter(c) {
          hexLetters := hexLetters + 1;
        }
      } else if c == '_' || (i > 0 && c == '-') {
        if digits > 0 {
          NoWordAfterDigits(s, i - 1, i);
          return false;
        }
      } else if i > 0 && Digit(c) {
        digits := digits + 1;
      } else {
        return false;
      }
    }
    assert s[..|s|] == s;
    AllHexLetters(s);
    assert digits > 0 ==> Digit(s[|s| - digits]);
    if digits > 2 {
      return false;
    }
    assert Wordish(s, |s| - digits) && DigitsFrom(s, |s| - digits);
    return letters < 8 || hexLetters != letters;
  }

  lemma NoWordAfterDigits(s: string, d: nat, i: nat)
    requires d < i < |s| && Digit(s[d]) && !Digit(s[i])
    ensures !IdentifierShaped(s)
  {
  }

  type Hash = string -> string

  function Fingerprint(hash: Hash, key: string): string {
    "sha256:" + hash(key)
  }

  ghost function Spelling(hash: Hash, key: string, many: bool): string {
    if !many && IdentifierShaped(key) then key else Fingerprint(hash, key)
  }

  method LeafKeySpelling(hash: Hash, key: string, many: bool) returns (s: string)
    ensures s == Spelling(hash, key, many)
  {
    var shaped := ComputeIdentifierShaped(key);
    return if !many && shaped then key else Fingerprint(hash, key);
  }

  /** Named in either spelling. */
  ghost predicate Listed(hash: Hash, listed: set<string>, key: string) {
    Fingerprint(hash, key) in listed || (IdentifierShaped(key) && key in listed)
  }

  method LeafKeyListed(hash: Hash, listed: set<string>, key: string) returns (r: bool)
    ensures r <==> Listed(hash, listed, key)
  {
    if Fingerprint(hash, key) in listed {
      return true;
    }
    var shaped := ComputeIdentifierShaped(key);
    return shaped && key in listed;
  }

  /** The two spellings cannot be taken for each other. */
  lemma SpellingsAreApart(hash: Hash, key: string)
    ensures !IdentifierShaped(Fingerprint(hash, key))
  {
    var s := Fingerprint(hash, key);
    assert s[3] == '2' && s[6] == ':';
    NoWordAfterDigits(s, 3, 6);
  }

  // ---------- one run ----------

  /** A document column's per-leaf half: whether its decision shows the map, the map with
      true for a key that is copied, and the list to be written. */
  datatype Document = Document(shown: bool, keys: map<string, bool>, recorded: Option<seq<string>>)

  /** What the committed file says of a column. */
  datatype Entry = Absent | Carried(leafKeys: Option<seq<string>>)

  datatype Drift = Drift(col: ColumnRef, key: string)

  function Copied(d: Document): set<string> {
    set k | k in d.keys && d.keys[k]
  }

  predicate Many(d: Document) {
    |d.keys| > LEAF_KEY_NAME_LIMIT
  }

  /** What an entry allows to be copied: nothing, when it carries no list. */
  function ListOf(e: Entry): set<string> {
    if e.Carried? && e.leafKeys.Some? then Elements(e.leafKeys.value) else {}
  }

  /** The keys a run masks and reports. */
  ghost function Drifted(hash: Hash, d: Document, e: Entry): set<string> {
    if d.shown && e.Carried? then set k | k in Copied(d) && !Listed(hash, ListOf(e), k) else {}
  }

  /** What the run writes for the column. */
  ghost predicate Records(hash: Hash, d: Document, e: Entry, recorded: seq<string>) {
    if e.Carried? && e.leafKeys.Some? then recorded == SortedUnique(e.leafKeys.value)
    else Ordered(recorded) && Elements(recorded) == set k | k in Copied(d) :: Spelling(hash, k, Many(d))
  }

  /** One run's outcome for one column. */
  ghost predicate RunOf(hash: Hash, d: Document, e: Entry, after: Document) {
    && after.shown == d.shown
    && after.keys == (map k | k in d.keys && k !in Drifted(hash, d, e) :: d.keys[k])
    && (if d.shown then after.recorded.Some? && Records(hash, d, e, after.recorded.value)
        else after.recorded == d.recorded)
  }

  /** One of the keys a run takes out, as it is spelled in a report. */
  ghost predicate Reported(hash: Hash, d: Document, e: Entry, key: string) {
    exists k :: k in Drifted(hash, d, e) && key == Spelling(hash, k, Many(d))
  }

  function EntryOf(prior: Option<map<ColumnRef, Option<seq<string>>>>, c: ColumnRef): Entry {
    if prior.Some? && c in prior.value then Carried(prior.value[c]) else Absent
  }

  method SortedKeys(d: Document) returns (keys: seq<string>)
    ensures Ordered(keys) && Elements(keys) == Copied(d)
  {
    keys := [];
    var rest := d.keys.Keys;
    while rest != {}
      invariant rest <= d.keys.Keys && Ordered(keys)
      invariant Elements(keys) == set k | k in d.keys && k !in rest && d.keys[k]
      decreases rest
    {
      var k :| k in rest;
      rest := rest - {k};
      if d.keys[k] {
        InsertedStaysOrdered(keys, k);
        keys := Inserted(keys, k);
      }
    }
  }

  class State {
    var order: seq<ColumnRef>
    var dec: map<ColumnRef, Document>
    var drift: seq<Drift>

    ghost predicate Valid()
      reads this
    {
      (forall i :: 0 <= i < |order| ==> order[i] in dec) && Distinct(order)
    }

    constructor (order: seq<ColumnRef>, dec: map<ColumnRef, Document>)
      requires forall i :: 0 <= i < |order| ==> order[i] in dec
      requires Distinct(order)
      ensures Valid() && this.order == order && this.dec == dec && drift == []
    {
      this.order := order;
      this.dec := dec;
      drift := [];
    }

    /** The leafKeys pass: every column runs against its own entry, and the drift list
        names exactly the keys taken out. */
    method LeafKeys(hash: Hash, prior: Option<map<ColumnRef, Option<seq<string>>>>)
      requires Valid() && drift == []
      modifies this`dec, this`drift
      ensures Valid() && dec.Keys == old(dec.Keys)
      ensures forall i :: 0 <= i < |order| ==>
        RunOf(hash, old(dec)[order[i]], EntryOf(prior, order[i]), dec[order[i]])
      ensures forall c :: c in dec && c !in order ==> dec[c] == old(dec)[c]
      ensures forall x :: x in drift <==>
        x.col in order && Reported(hash, old(dec)[x.col], EntryOf(prior, x.col), x.key)
    {
      for i := 0 to |order|
        invariant Valid() && dec.Keys == old(dec.Keys)
        invariant forall j :: 0 <= j < i ==> RunOf(hash, old(dec)[order[j]], EntryOf(prior, order[j]), dec[order[j]])
        invariant forall c :: c in dec && c !in order[..i] ==> dec[c] == old(dec)[c]
        invariant forall x :: x in drift <==>
          x.col in order[..i] && Reported(hash, old(dec)[x.col], EntryOf(prior, x.col), x.key)
      {
        hide RunOf, Reported, EntryOf, Distinct;
        var c := order[i];
        ghost var sofar := drift;
        NotYet(order, i);
        var after, found := OneColumn(hash, c, dec[c], EntryOf(prior, c));
        dec := dec[c := after];
        drift := drift + found;
        assert order[..i + 1] == order[..i] + [c];
        assert forall x :: x in drift <==> x in sofar || x in found;
      }
      assert order[..|order|] == order;
    }
  }

  /** The first i of the copied keys looked up, the unlisted ones taken out. */
  ghost predicate Pruned(hash: Hash, d: Document, listed: set<string>, looked: seq<string>, now: map<string, bool>) {
    now == map k | k in d.keys && !(k in looked && !Listed(hash, listed, k)) :: d.keys[k]
  }

  lemma PrunedToTheEnd(hash: Hash, d: Document, e: Entry, keys: seq<string>, now: map<string, bool>)
    requires d.shown && e.Carried? && Elements(keys) == Copied(d) && Pruned(hash, d, ListOf(e), keys, now)
    ensures now == map k | k in d.keys && k !in Drifted(hash, d, e) :: d.keys[k]
    ensures forall k :: k in Drifted(hash, d, e) <==> k in keys && !Listed(hash, ListOf(e), k)
  {
    hide Listed;
    assert forall k :: k in keys <==> k in Elements(keys);
  }

  lemma NotYet(order: seq<ColumnRef>, i: nat)
    requires Distinct(order) && i < |order|
    ensures order[i] !in order[..i] && order[..i + 1] == order[..i] + [order[i]]
    ensures forall j :: 0 <= j < i ==> order[j] != order[i]
  {
  }

  method OneColumn(hash: Hash, c: ColumnRef, d: Document, e: Entry) returns (after: Document, found: seq<Drift>)
    ensures RunOf(hash, d, e, after)
    ensures forall x :: x in found <==> x.col == c && Reported(hash, d, e, x.key)
  {
    hide Listed, Spelling, Ordered, SortedUnique, Pruned, Drifted;
    found := [];
    after := d;
    if !d.shown {
      NothingDrifts(hash, d, e);
      return;
    }
    var many := Many(d);
    var keys := SortedKeys(d);
    var recorded := Recorded(hash, keys, many, e);
    after := after.(recorded := Some(recorded));
    assert forall k :: k in keys <==> k in Elements(keys);
    assert Records(hash, d, e, recorded);
    if e.Absent? {
      NothingDrifts(hash, d, e);
      return;
    }
    var kept;
    kept, found := Prune(hash, c, d, ListOf(e), keys);
    PrunedToTheEnd(hash, d, e, keys, kept);
    after := after.(keys := kept);
  }

  lemma NothingDrifts(hash: Hash, d: Document, e: Entry)
    requires !d.shown || e.Absent?
    ensures Drifted(hash, d, e) == {} && d.keys == map k | k in d.keys && k !in Drifted(hash, d, e) :: d.keys[k]
  {
  }

  method Prune(hash: Hash, c: ColumnRef, d: Document, listed: set<string>, keys: seq<string>)
    returns (now: map<string, bool>, found: seq<Drift>)
    ensures Pruned(hash, d, listed, keys, now)
    ensures forall x :: x in found <==> x.col == c && exists k ::
      k in keys && !Listed(hash, listed, k) && x.key == Spelling(hash, k, Many(d))
  {
    hide Listed, Spelling;
    found, now := [], d.keys;
    for i := 0 to |keys|
      invariant Pruned(hash, d, listed, keys[..i], now)
      invariant forall x :: x in found <==> x.col == c && exists k ::
        k in keys[..i] && !Listed(hash, listed, k) && x.key == Spelling(hash, k, Many(d))
    {
      assert keys[..i + 1] == keys[..i] + [keys[i]];
      var has := LeafKeyListed(hash, listed, keys[i]);
      if has {
        continue;
      }
      var spelled := LeafKeySpelling(hash, keys[i], Many(d));
      now := now - {keys[i]};
      ghost var before := found;
      found := found + [Drift(c, spelled)];
      assert forall x :: x in found <==> x in before || x == Drift(c, spelled);
    }
    assert keys[..|keys|] == keys;
  }

  method Recorded(hash: Hash, keys: seq<string>, many: bool, e: Entry) returns (recorded: seq<string>)
    ensures if e.Carried? && e.leafKeys.Some? then recorded == SortedUnique(e.leafKeys.value)
      else Ordered(recorded) && Elements(recorded) == set k | k in keys :: Spelling(hash, k, many)
  {
    if e.Carried? && e.leafKeys.Some? {
      return SortedUnique(e.leafKeys.value);
    }
    recorded := [];
    for i := 0 to |keys|
      invariant Elements(recorded) == set k | k in keys[..i] :: Spelling(hash, k, many)
    {
      hide Spelling;
      assert keys[..i + 1] == keys[..i] + [keys[i]];
      var spelled := LeafKeySpelling(hash, keys[i], many);
      assert (set k | k in keys[..i + 1] :: Spelling(hash, k, many))
          == (set k | k in keys[..i] :: Spelling(hash, k, many)) + {spelled};
      assert Elements(recorded + [spelled]) == Elements(recorded) + {spelled};
      recorded := recorded + [spelled];
    }
    assert keys[..|keys|] == keys;
    SortedUniqueSorts(recorded);
    recorded := SortedUnique(recorded);
  }

  // ---------- run after run ----------

  /** What a run leaves in the file it writes. */
  function Written(after: Document): Entry {
    Carried(after.recorded)
  }

  /** A run of successive runs, each from the file the one before it wrote; `docs` are the
      columns as each run's samples show them, `afters` as each run decides them. */
  ghost predicate RunsFrom(hash: Hash, e: Entry, docs: seq<Document>, afters: seq<Document>)
    requires |docs| == |afters|
    decreases |docs|
  {
    docs == [] ||
    (docs[0].recorded.None? && RunOf(hash, docs[0], e, afters[0]) &&
     RunsFrom(hash, Written(afters[0]), docs[1..], afters[1..]))
  }

  /** A column the file carries copies what its own decision copies and the list names. */
  lemma CopiesTheListed(hash: Hash, d: Document, e: Entry, after: Document)
    requires d.shown && e.Carried? && RunOf(hash, d, e, after)
    ensures forall k :: k in Copied(after) <==> k in Copied(d) && Listed(hash, ListOf(e), k)
  {
    hide Listed;
  }

  /** One run under the pin: the sorted list, and of the copied keys those it names. */
  ghost predicate Pinned(hash: Hash, l: seq<string>, d: Document, after: Document) {
    && after.recorded == Some(SortedUnique(l))
    && forall k :: k in Copied(after) <==> k in Copied(d) && Listed(hash, Elements(l), k)
  }

  lemma SortedListPinsTheSame(hash: Hash, l: seq<string>, d: Document, after: Document)
    requires Pinned(hash, SortedUnique(l), d, after)
    ensures Pinned(hash, l, d, after)
  {
    SortedUniqueTwice(l);
    SortedUniqueSorts(l);
  }

  /** The pin over any number of runs that show the map: the same sorted list in each, and
      in each a key is copied only if the samples' own decision copies it and the list
      names it in one of its two spellings. */
  lemma {:induction false} PinLasts(hash: Hash, l: seq<string>, docs: seq<Document>, afters: seq<Document>)
    requires |docs| == |afters| && RunsFrom(hash, Carried(Some(l)), docs, afters)
    requires forall i :: 0 <= i < |docs| ==> docs[i].shown
    ensures forall i :: 0 <= i < |docs| ==> Pinned(hash, l, docs[i], afters[i])
    decreases |docs|
  {
    hide Pinned, SortedUnique, RunOf;
    if docs != [] {
      OneRunIsPinned(hash, l, docs[0], afters[0]);
      PinLasts(hash, SortedUnique(l), docs[1..], afters[1..]);
      forall i | 0 <= i < |docs| ensures Pinned(hash, l, docs[i], afters[i]) {
        if i > 0 {
          assert Pinned(hash, SortedUnique(l), docs[1..][i - 1], afters[1..][i - 1]);
          SortedListPinsTheSame(hash, l, docs[i], afters[i]);
        }
      }
    }
  }

  lemma {:induction false} OnlyAShownMapIsRecorded(hash: Hash, e: Entry, docs: seq<Document>, afters: seq<Document>, i: nat)
    requires |docs| == |afters| && RunsFrom(hash, e, docs, afters) && i < |docs|
    ensures afters[i].recorded.Some? <==> docs[i].shown
    decreases |docs|
  {
    if i > 0 {
      OnlyAShownMapIsRecorded(hash, Written(afters[0]), docs[1..], afters[1..], i - 1);
    }
  }

  /** So, whatever number of runs, the list stands in all of them, and decides in all of
      them what is copied, if and only if every run's decision shows the per-leaf map. */
  lemma PinLastsIff(hash: Hash, l: seq<string>, docs: seq<Document>, afters: seq<Document>)
    requires |docs| == |afters| && RunsFrom(hash, Carried(Some(l)), docs, afters)
    ensures (forall i :: 0 <= i < |docs| ==> docs[i].shown) <==>
      forall i :: 0 <= i < |docs| ==> afters[i].recorded == Some(SortedUnique(l))
    ensures (forall i :: 0 <= i < |docs| ==> docs[i].shown) <==>
      forall i :: 0 <= i < |docs| ==> Pinned(hash, l, docs[i], afters[i])
  {
    hide Listed, SortedUnique, RunOf;
    forall i | 0 <= i < |docs| ensures afters[i].recorded.Some? <==> docs[i].shown {
      OnlyAShownMapIsRecorded(hash, Carried(Some(l)), docs, afters, i);
    }
    if forall i :: 0 <= i < |docs| ==> docs[i].shown {
      PinLasts(hash, l, docs, afters);
    }
  }

  lemma OneRunIsPinned(hash: Hash, l: seq<string>, d: Document, after: Document)
    requires d.shown && RunOf(hash, d, Carried(Some(l)), after)
    ensures Pinned(hash, l, d, after) && Written(after) == Carried(Some(SortedUnique(l)))
  {
    CopiesTheListed(hash, d, Carried(Some(l)), after);
    assert ListOf(Carried(Some(l))) == Elements(l);
  }

  /** A list freshly written from a column's documents lists every key it copied, also
      when the column has since crossed the limit and spells its keys the other way. */
  lemma FreshListNeverDrifts(hash: Hash, first: Document, e: Entry, after: Document, second: Document)
    requires first.shown && RunOf(hash, first, e, after)
    requires !(e.Carried? && e.leafKeys.Some?)
    requires Copied(second) <= Copied(first)
    ensures Drifted(hash, second, Written(after)) == {}
  {
    var recorded := after.recorded.value;
    forall k | k in Copied(second) ensures Listed(hash, Elements(recorded), k) {
      assert Spelling(hash, k, Many(first)) in Elements(recorded);
    }
  }

  /** What a fresh list says in the file: nothing but names, where the column has at most 64
      keys, and fingerprints. */
  lemma FreshListHoldsNoValues(hash: Hash, d: Document, e: Entry, after: Document, spelled: string)
    requires d.shown && RunOf(hash, d, e, after) && !(e.Carried? && e.leafKeys.Some?)
    requires spelled in after.recorded.value
    ensures (exists k :: k in d.keys && d.keys[k] && spelled == "sha256:" + hash(k)) ||
      (|d.keys| <= 64 && ReadableName(spelled) && spelled in d.keys && d.keys[spelled])
  {
    hide IdentifierShaped;
    assert spelled in Elements(after.recorded.value);
    ShapedIff(spelled);
  }

  /** And every key the run copies is in it: a name as it is where the column has at most 64
      keys, anything else by its fingerprint. */
  lemma FreshListNamesEveryCopy(hash: Hash, d: Document, e: Entry, after: Document, k: string)
    requires d.shown && RunOf(hash, d, e, after) && !(e.Carried? && e.leafKeys.Some?)
    requires k in d.keys && d.keys[k]
    ensures (if |d.keys| <= 64 && ReadableName(k) then k else "sha256:" + hash(k)) in after.recorded.value
  {
    hide IdentifierShaped;
    ShapedIff(k);
    assert k in Copied(d) && Spelling(hash, k, Many(d)) in Elements(after.recorded.value);
  }

  /** A run against a file that carries the column copies what the samples copy and the list
      names, by the key itself if it is a name, or by its fingerprint; and with no list, nothing. */
  lemma CopiedIffListed(hash: Hash, d: Document, e: Entry, after: Document, k: string)
    requires d.shown && e.Carried? && RunOf(hash, d, e, after)
    ensures (k in after.keys && after.keys[k]) <==>
      && k in d.keys && d.keys[k] && e.leafKeys.Some?
      && ("sha256:" + hash(k) in e.leafKeys.value || (ReadableName(k) && k in e.leafKeys.value))
  {
    hide IdentifierShaped;
    ShapedIff(k);
    CopiesTheListed(hash, d, e, after);
    assert k in Copied(after) <==> k in after.keys && after.keys[k];
    assert k in Copied(d) <==> k in d.keys && d.keys[k];
    assert e.leafKeys.Some? ==> forall x :: x in Elements(e.leafKeys.value) <==> x in e.leafKeys.value;
  }

  /** The pin does not outlive a run whose decision shows no map: the run after it records
      every key the samples copy, listed before or not, and the next one copies them. */
  lemma PinIsLostWithTheMap(hash: Hash, l: seq<string>, docs: seq<Document>, afters: seq<Document>, k: string)
    requires |docs| == |afters| == 3 && RunsFrom(hash, Carried(Some(l)), docs, afters)
    requires !docs[0].shown && docs[1].shown && docs[2].shown
    requires k in Copied(docs[1]) && k in Copied(docs[2])
    ensures k !in Copied(afters[1]) && k in Copied(afters[2])
  {
    assert docs[1..][0] == docs[1] && afters[1..][0] == afters[1];
    assert docs[1..][1..][0] == docs[2] && afters[1..][1..][0] == afters[2];
    assert Written(afters[0]) == Carried(None);
    assert RunsFrom(hash, Written(afters[0]), docs[1..], afters[1..]);
    assert RunsFrom(hash, Written(afters[1]), docs[1..][1..], afters[1..][1..]);
    CopiesTheListed(hash, docs[1], Carried(None), afters[1]);
    CopiesTheListed(hash, docs[2], Written(afters[1]), afters[2]);
    assert Spelling(hash, k, Many(docs[1])) in Elements(afters[1].recorded.value);
  }
}
