/** The embedded lists a generator draws from, and how joined words come apart again. */
module Lexicon {
  import opened Common
  import opened Words

  datatype RawLists = RawLists(given: WordList, surnames: WordList, streets: WordList, suffixes: WordList,
                               fillers: WordList, fitted: WordList, areaCodes: seq<string>)

  const ONE_WORD: WordList := RawWordList(["a"], seq(MAX_FIT + 1, m => if m == 0 then 0 else 1))

  type Lists = l: RawLists | Embedded(l)
    witness RawLists(ONE_WORD, ONE_WORD, ONE_WORD, ONE_WORD, ONE_WORD, ONE_WORD, ["201"])

  predicate LowerWord(s: string) {
    forall i :: 0 <= i < |s| ==> 'a' <= s[i] <= 'z'
  }

  /** Ordered, of lower-case ASCII letters, and without repeats. */
  predicate Listed(w: WordList) {
    Distinct(w.words) && forall i :: 0 <= i < |w.words| ==> LowerWord(w.words[i])
  }

  /** What is known of the embedded lists (mask/words.go:30-97, mask/words_corpus.go). */
  predicate Embedded(l: RawLists) {
    && Listed(l.given) && Listed(l.surnames) && Listed(l.streets) && Listed(l.suffixes)
    && Listed(l.fillers) && Listed(l.fitted)
    && (forall w :: w in l.fitted.words ==> w in l.fillers.words)
    && Longest(l.fillers) <= 9 && Longest(l.fitted) <= 9
    && NoneExtendsByX(l.fillers.words)
    && |l.areaCodes| > 0 && Distinct(l.areaCodes) && forall i :: 0 <= i < |l.areaCodes| ==> AreaCode(l.areaCodes[i])
  }

  predicate AreaCode(a: string) {
    |a| == 3 && '2' <= a[0] <= '9' && '0' <= a[1] <= '9' && '0' <= a[2] <= '9'
  }

  /** No word is another with an x after it. */
  predicate NoneExtendsByX(ws: seq<string>) {
    forall i, j :: 0 <= i < |ws| && 0 <= j < |ws| ==> ws[i] != ws[j] + "x"
  }

  function Upper(c: char): char {
    if 'a' <= c <= 'z' then (c as int - 32) as char else c
  }

  /** titleASCII. */
  function Title(s: string): (t: string)
    ensures |t| == |s|
  {
    if s == "" then s else [Upper(s[0])] + s[1..]
  }

  lemma TitleKeepsWords(a: string, b: string)
    requires LowerWord(a) && LowerWord(b) && Title(a) == Title(b)
    ensures a == b
  {
    if a != "" {
      assert Title(a)[0] == Upper(a[0]) && Title(b)[0] == Upper(b[0]);
      assert Title(a)[1..] == a[1..] && Title(b)[1..] == b[1..];
      assert a == [a[0]] + a[1..] && b == [b[0]] + b[1..];
    }
  }

  /** A separator that occurs in neither head marks where both end. */
  lemma {:induction false} HeadsMatch(x: string, y: string, x': string, y': string, sep: char)
    requires sep !in x && sep !in x' && x + [sep] + y == x' + [sep] + y'
    ensures x == x' && y == y'
  {
    var whole := x + [sep] + y;
    assert whole[|x|] == sep && whole[|x'|] == sep;
    assert |x| == |x'|;
    assert whole[..|x|] == x && whole[..|x|] == x';
    assert whole[|x| + 1..] == y && whole[|x| + 1..] == y';
  }

  /** Tails of one length come off the end. */
  lemma TailsMatch(x: string, y: string, x': string, y': string)
    requires |y| == |y'| && x + y == x' + y'
    ensures x == x' && y == y'
  {
    assert (x + y)[..|x|] == x && (x' + y')[..|x'|] == x';
    assert (x + y)[|x|..] == y && (x' + y')[|x'|..] == y';
  }

  lemma PrefixesMatch(x: string, y: string, x': string, y': string)
    requires |x| == |x'| && x + y == x' + y'
    ensures x == x' && y == y'
  {
    assert (x + y)[..|x|] == x && (x' + y')[..|x'|] == x';
    assert (x + y)[|x|..] == y && (x' + y')[|x'|..] == y';
  }

  /** The words of the n-th fitting pair. */
  function PairWords(a: WordList, b: WordList, sep: nat, budget: int, n: nat): (p: (string, string))
    requires n < PairCountOf(a, b, sep, budget)
    ensures p.0 in a.words && p.1 in b.words
    ensures budget > 0 ==> |p.0| + sep + |p.1| <= budget
  {
    PairAtIsOneToOne(a, b, sep, budget, n);
    var (i, j) := PairIndex(a, b, sep, budget, n);
    (a.words[i], b.words[j])
  }

  lemma PairWordsDiffer(a: WordList, b: WordList, sep: nat, budget: int, m: nat, n: nat)
    requires Listed(a) && Listed(b)
    requires m < PairCountOf(a, b, sep, budget) && n < PairCountOf(a, b, sep, budget)
    ensures PairWords(a, b, sep, budget, m) == PairWords(a, b, sep, budget, n) ==> m == n
  {
    if PairWords(a, b, sep, budget, m) == PairWords(a, b, sep, budget, n) {
      PairAtIsOneToOne(a, b, sep, budget, m);
      PairAtIsOneToOne(a, b, sep, budget, n);
      var (i, j) := PairIndex(a, b, sep, budget, m);
      var (i', j') := PairIndex(a, b, sep, budget, n);
      assert a.words[i] == a.words[i'] && b.words[j] == b.words[j'];
    }
  }

  lemma ListedWord(w: WordList, s: string)
    requires Listed(w) && s in w.words
    ensures LowerWord(s) && 1 <= |s| <= MAX_FIT
    ensures '.' !in s && ' ' !in s && '_' !in s && '@' !in s
    ensures ' ' !in Title(s)
  {
  }
}
