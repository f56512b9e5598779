/** The vocabulary gate over masked names, and what the redraw makes of it
    (mask/vocab.go:131-182, mask/gen_text.go:56-99). */
module Vocabulary {
  import opened Common
  import opened Words
  import opened Draws
  import opened Columns
  import opened Lexicon
  import opened NameGenerators
  import opened ByteStream
  import opened Runes
  import opened Passthrough

  // ---------- the canonical fold, over ASCII ----------

  predicate Ascii(s: string) {
    forall i :: 0 <= i < |s| ==> s[i] as int < 0x80
  }

  function Lowered(s: string): (t: string)
    ensures |t| == |s| && forall i :: 0 <= i < |s| ==> t[i] == LowerChar(s[i])
  {
    seq(|s|, i requires 0 <= i < |s| => LowerChar(s[i]))
  }

  /** Each run of whitespace as one space; none at the start when `open`, none at the end. */
  function Collapsed(s: string, open: bool): string
    decreases |s|
  {
    if s == "" then ""
    else if AsciiSpace(s[0]) then Collapsed(s[1..], open)
    else (if open then [] else " ") + [s[0]] + AfterWord(s[1..])
  }

  /** The rest of the text after a character of a word. */
  function AfterWord(s: string): string
    decreases |s|
  {
    if s == "" then ""
    else if AsciiSpace(s[0]) then Collapsed(s[1..], false)
    else [s[0]] + AfterWord(s[1..])
  }

  /** fold on ASCII text: lower case, whitespace collapsed, ends trimmed. */
  function AsciiFold(s: string): string {
    Collapsed(Lowered(s), true)
  }

  lemma {:induction false} WordIsKept(x: string, more: string)
    requires (forall i :: 0 <= i < |x| ==> !AsciiSpace(x[i]))
    ensures AfterWord(x + more) == x + AfterWord(more)
  {
    if x == "" {
      assert x + more == more && x + AfterWord(more) == AfterWord(more);
    } else {
      assert (x + more)[1..] == x[1..] + more;
      WordIsKept(x[1..], more);
      assert x + AfterWord(more) == [x[0]] + (x[1..] + AfterWord(more));
    }
  }

  // ---------- the vocabulary ----------

  predicate Held(w: WordList, s: string, budget: int) {
    s in w.words && (budget > 0 ==> |s| <= budget)
  }

  /** strings.Cut(s, " ") at the first space. */
  function CutAt(s: string): (nat, bool) {
    if s == "" then (0, false)
    else if s[0] == ' ' then (0, true)
    else var (i, ok) := CutAt(s[1..]); (i + 1, ok)
  }

  /** personNameMasker.vocabulary over a value's canonical form. */
  predicate InVocabulary(l: Lists, c: Constraints, s: string) {
    s != "" &&
    match c.role
    case RoleGiven => Held(l.given, s, Room(c))
    case RoleFamily => Held(l.surnames, s, Room(c))
    case RoleFull =>
      if Held(l.given, s, Room(c)) then true
      else if Room(c) > 0 && |s| > Room(c) then false
      else
        var (i, ok) := CutAt(s);
        ok && i < |s| && Held(l.given, s[..i], 0) && Held(l.surnames, s[i + 1..], 0)
  }

  method ComputeVocabulary(l: Lists, c: Constraints, s: string) returns (r: bool)
    ensures r <==> InVocabulary(l, c, s)
  {
    if s == "" {
      return false;
    }
    var budget := Room(c);
    match c.role
    case RoleGiven =>
      r := Holds(l.given, s, budget);
    case RoleFamily =>
      r := Holds(l.surnames, s, budget);
    case RoleFull =>
      r := Holds(l.given, s, budget);
      if r {
        return true;
      }
      if budget > 0 && |s| > budget {
        return false;
      }
      var (i, ok) := CutAt(s);
      if !ok || i >= |s| {
        return false;
      }
      var first := Holds(l.given, s[..i], 0);
      var last := Holds(l.surnames, s[i + 1..], 0);
      r := first && last;
  }

  lemma {:induction false} CutAfterWord(x: string, y: string)
    requires ' ' !in x
    ensures CutAt(x + " " + y) == (|x|, true)
  {
    var s := x + " " + y;
    if x != "" {
      assert s[1..] == x[1..] + " " + y;
      CutAfterWord(x[1..], y);
    }
  }

  lemma LowerOfTitle(x: string)
    requires LowerWord(x)
    ensures Lowered(Title(x)) == x
  {
    if x != "" {
      assert Title(x)[1..] == x[1..];
      forall i | 0 <= i < |x| ensures LowerChar(Title(x)[i]) == x[i] {
        if i > 0 {
          assert Title(x)[i] == x[1..][i - 1];
        }
      }
    }
  }

  /** A titled word folds back to the word. */
  lemma TitleFolds(x: string)
    requires LowerWord(x) && x != ""
    ensures AsciiFold(Title(x)) == x
  {
    LowerOfTitle(x);
    WordIsKept(x[1..], "");
    assert x[1..] + "" == x[1..];
    assert x == [x[0]] + x[1..];
  }

  lemma LoweredJoins(s: string, t: string)
    ensures Lowered(s + t) == Lowered(s) + Lowered(t)
  {
  }

  /** A word standing after whitespace keeps one space before it. */
  lemma WordFolds(x: string, more: string, open: bool)
    requires x != "" && (forall i :: 0 <= i < |x| ==> !AsciiSpace(x[i]))
    ensures Collapsed(x + more, open) == (if open then [] else " ") + x + AfterWord(more)
  {
    assert (x + more)[1..] == x[1..] + more && (x + more)[0] == x[0];
    WordIsKept(x[1..], more);
    assert x == [x[0]] + x[1..];
  }

  lemma TwoWordsFold(x: string, y: string)
    requires LowerWord(x) && LowerWord(y) && x != "" && y != ""
    ensures Collapsed(x + (" " + y), true) == x + (" " + y)
  {
    WordFolds(x, " " + y, true);
    assert (" " + y)[0] == ' ' && (" " + y)[1..] == y;
    assert AfterWord(" " + y) == Collapsed(y, false);
    WordFolds(y, "", false);
    assert y + "" == y && y + AfterWord("") == y;
  }

  lemma FullNameFolds(x: string, y: string)
    requires LowerWord(x) && LowerWord(y) && x != "" && y != ""
    ensures AsciiFold(Title(x) + " " + Title(y)) == x + " " + y
  {
    hide Collapsed, AfterWord, Title;
    LoweredJoins(Title(x) + " ", Title(y));
    LoweredJoins(Title(x), " ");
    LowerOfTitle(x);
    LowerOfTitle(y);
    assert Lowered(" ") == " ";
    assert x + " " + y == x + (" " + y);
    TwoWordsFold(x, y);
  }

  lemma FullNameIsInVocabulary(l: Lists, c: Constraints, x: string, y: string)
    requires c.role == RoleFull && x in l.given.words && y in l.surnames.words
    requires Room(c) > 0 ==> |x| + 1 + |y| <= Room(c)
    ensures InVocabulary(l, c, x + " " + y)
  {
    ListedWord(l.given, x);
    hide Embedded, Listed;
    CutAfterWord(x, y);
    var s := x + " " + y;
    assert s[..|x|] == x && s[|x| + 1..] == y;
  }

  lemma {:induction false} CutParts(s: string)
    ensures var (i, ok) := CutAt(s); ok ==> i < |s| && s == s[..i] + " " + s[i + 1..]
  {
    if s != "" && s[0] != ' ' {
      CutParts(s[1..]);
      var (i, ok) := CutAt(s[1..]);
      if ok {
        assert s == [s[0]] + s[1..] && s[..i + 1] == [s[0]] + s[1..][..i] && s[i + 2..] == s[1..][i + 1..];
      }
    }
  }

  /** s is a given name, a space and a surname. */
  ghost predicate TwoNames(l: Lists, s: string) {
    exists x, y :: x in l.given.words && y in l.surnames.words && s == x + " " + y
  }

  /** The vocabulary is the names that fit: listed ones of the role and, of a full-name
      column, given names and pairs of a given name and a surname; and nothing else. */
  lemma VocabularyIff(l: Lists, c: Constraints, s: string)
    ensures InVocabulary(l, c, s) <==>
      && (c.maxLen > 0 ==> |s| <= c.maxLen)
      && match c.role
         case RoleGiven => s in l.given.words
         case RoleFamily => s in l.surnames.words
         case RoleFull => s in l.given.words || TwoNames(l, s)
  {
    forall x | x in l.given.words || x in l.surnames.words ensures x != "" {}
    CutParts(s);
    if c.role == RoleFull && TwoNames(l, s) && (c.maxLen > 0 ==> |s| <= c.maxLen) {
      var x, y :| x in l.given.words && y in l.surnames.words && s == x + " " + y;
      FullNameIsInVocabulary(l, c, x, y);
    }
  }

  /** Every name the masker emits is in its own vocabulary under the same constraints. */
  lemma EveryNameIsInVocabulary(l: Lists, c: Open, ds: seq<nat>)
    requires PersonNameMask(l, c, ds).Text?
    ensures InVocabulary(l, c, AsciiFold(PersonNameMask(l, c, ds).text))
  {
    hide AsciiFold, Title;
    match PersonNameForm(l, c)
    case Single(list, n) =>
      TitleFolds(list.words[Intn(ds, n).value]);
    case FullName(n) =>
      var p := PairWords(l.given, l.surnames, 1, Room(c), Intn(ds, n).value);
      ListedWord(l.given, p.0);
      ListedWord(l.surnames, p.1);
      FullNameFolds(p.0, p.1);
      FullNameIsInVocabulary(l, c, p.0, p.1);
  }

  // ---------- canonical equality against letters and digits ----------

  function AsBytes(s: string): seq<byte>
    requires Ascii(s)
  {
    seq<byte>(|s|, i requires 0 <= i < |s| => s[i] as int)
  }

  /** The category's canonical form: known on ASCII text, anything at all beyond it. */
  type Canonical = seq<byte> -> seq<byte>

  ghost predicate FoldsAscii(canon: Canonical) {
    forall s: string :: Ascii(s) && Ascii(AsciiFold(s)) ==> canon(AsBytes(s)) == AsBytes(AsciiFold(s))
  }

  predicate NameText(s: string) {
    forall i :: 0 <= i < |s| ==> 'a' <= s[i] <= 'z' || 'A' <= s[i] <= 'Z' || s[i] == ' '
  }

  /** Lowering the letters changes nothing the fold sees. */
  lemma {:induction false} LoweringIsInvisible(u: Unicode, s: string)
    requires KnowsAscii(u) && NameText(s)
    ensures Ascii(s) && Ascii(Lowered(s))
    ensures Folded(u, AsBytes(Lowered(s))) == Folded(u, AsBytes(s))
  {
    if s != "" {
      var a, b := AsBytes(s), AsBytes(Lowered(s));
      LoweringIsInvisible(u, s[1..]);
      assert a[1..] == AsBytes(s[1..]) && b[1..] == AsBytes(Lowered(s[1..]));
      assert DecodeRune(a) == Decoded(a[0], 1) && DecodeRune(b) == Decoded(b[0], 1);
    }
  }

  lemma OneNameIsNameText(x: string)
    requires LowerWord(x) && x != ""
    ensures NameText(Title(x)) && AsciiFold(Title(x)) == x == Lowered(Title(x))
  {
    TitleFolds(x);
    LowerOfTitle(x);
    TitleIsName(x);
  }

  lemma TwoNamesAreNameText(x: string, y: string)
    requires LowerWord(x) && LowerWord(y) && x != "" && y != ""
    ensures var o := Title(x) + " " + Title(y); NameText(o) && AsciiFold(o) == Lowered(o)
  {
    hide Collapsed, AfterWord, AsciiFold;
    FullNameFolds(x, y);
    OneNameIsNameText(x);
    OneNameIsNameText(y);
    LoweredJoins(Title(x) + " ", Title(y));
    LoweredJoins(Title(x), " ");
    assert Lowered(" ") == " ";
  }

  lemma EmittedNameIsNameText(l: Lists, c: Open, ds: seq<nat>)
    requires PersonNameMask(l, c, ds).Text?
    ensures var o := PersonNameMask(l, c, ds).text; NameText(o) && o != "" && AsciiFold(o) == Lowered(o)
  {
    hide Collapsed, AfterWord, AsciiFold, Lowered, NameText;
    match PersonNameForm(l, c)
    case Single(list, n) =>
      OneNameIsNameText(list.words[Intn(ds, n).value]);
    case FullName(n) =>
      var p := PairWords(l.given, l.surnames, 1, Room(c), Intn(ds, n).value);
      ListedWord(l.given, p.0);
      ListedWord(l.surnames, p.1);
      TwoNamesAreNameText(p.0, p.1);
  }

  lemma TitleIsName(x: string)
    requires LowerWord(x)
    ensures NameText(Title(x))
  {
    forall i | 0 <= i < |x| ensures 'a' <= Title(x)[i] <= 'z' || 'A' <= Title(x)[i] <= 'Z' {
      if i > 0 {
        assert Title(x)[i] == x[1..][i - 1];
      }
    }
  }

  /** The fold-faithful criterion: an emitted name canonical-equal to any input carries
      the letters and digits of the input's canonical form. */
  lemma CanonicalEqualityShowsInTheFold(u: Unicode, canon: Canonical, l: Lists, c: Open, ds: seq<nat>, input: seq<byte>)
    requires KnowsAscii(u) && FoldsAscii(canon)
    requires PersonNameMask(l, c, ds).Text?
    ensures var o := PersonNameMask(l, c, ds).text;
      Ascii(o) && (canon(AsBytes(o)) == canon(input) ==> Folded(u, AsBytes(o)) == Folded(u, canon(input)))
  {
    var o := PersonNameMask(l, c, ds).text;
    EmittedNameIsNameText(l, c, ds);
    LoweringIsInvisible(u, o);
  }

  // ---------- a masked name and its own source ----------

  /** personNameMasker as the guard calls it: each digest stands for its draws. */
  function NameCall(l: Lists, c: Constraints, draws: Digest -> seq<nat>, h: Digest): Call {
    match PersonNameMask(l, c, draws(h))
    case NoRoom => Failed
    case Text(t) => Returned(Value(false, if Ascii(t) then AsBytes(t) else [], []))
  }

  /** A masked name that still equals its own source under the canonical form means the
      first draw and all eight redraws read as the source. */
  lemma NameKeepsItsSourceOnlyAfterNineDraws(w: World, canon: Canonical, l: Lists, c: Open,
                                             draws: Digest -> seq<nat>, h: Digest, input: Value)
    requires Real(w) && FoldsAscii(canon)
    requires !input.isNull && !Empty(input) && input.bytes == [] && !NothingToMask(w, input)
    ensures var m := (g: Digest, _: Value) => NameCall(l, c, draws, g);
      var canonical := Value(false, canon(input.text), []);
      var cell := ApplyTo(w, m, true, h, input, canonical);
      cell.Masked? && cell.out.bytes == [] && canon(cell.out.text) == canon(input.text)
      ==> forall k :: 0 <= k <= REDRAWS ==> LandedOnInput(w, m, h, input, canonical, k)
  {
    var m := (g: Digest, _: Value) => NameCall(l, c, draws, g);
    var canonical := Value(false, canon(input.text), []);
    var cell := CellOf(w, m, true, h, input, canonical);
    if cell.Masked? && cell.out.bytes == [] && canon(cell.out.text) == canon(input.text) {
      var g := CellIsADraw(w, l, c, draws, h, input, canonical);
      CanonicalEqualityShowsInTheFold(w.unicode, canon, l, c, draws(g), input.text);
      EmittedNameIsNameText(l, c, draws(g));
      KeptOnlyAfterNineDraws(w, m, h, input, canonical);
    }
  }

  /** A masked cell's output is the masker's own under one of the draws' digests. */
  lemma CellIsADraw(w: World, l: Lists, c: Constraints, draws: Digest -> seq<nat>, h: Digest, input: Value, canonical: Value)
    returns (g: Digest)
    ensures var m := (d: Digest, _: Value) => NameCall(l, c, draws, d);
      CellOf(w, m, true, h, input, canonical).Masked? ==>
        NameCall(l, c, draws, g) == Returned(CellOf(w, m, true, h, input, canonical).out)
  {
    var m := (d: Digest, _: Value) => NameCall(l, c, draws, d);
    var cell := CellOf(w, m, true, h, input, canonical);
    g := h;
    if cell.Masked? && cell != Masked(m(h, input).out) {
      g := RedrawIsADraw(w, m, h, input, canonical, m(h, input).out, 1);
    }
  }

  lemma {:induction false} RedrawIsADraw(w: World, m: Masker, h: Digest, input: Value, canonical: Value, out: Value, i: nat)
    returns (g: Digest)
    requires Redrawn(w, m, h, input, canonical, out, i).Masked? && Redrawn(w, m, h, input, canonical, out, i) != Masked(out)
    ensures m(g, input) == Returned(Redrawn(w, m, h, input, canonical, out, i).out)
    decreases REDRAWS + 1 - i
  {
    var next := m(w.redrawDigest(h, i), input).out;
    if Redrawn(w, m, h, input, canonical, out, i) == Masked(next) {
      g := w.redrawDigest(h, i);
    } else {
      g := RedrawIsADraw(w, m, h, input, canonical, next, i + 1);
    }
  }
}
