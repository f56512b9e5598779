/** The fillers, free_text and online_id (mask/gen_text.go:236-571). */
module TextGenerators {
  import opened Arith
  import opened Words
  import opened Draws
  import opened Columns
  import opened Lexicon
  import opened Decisions

  // ---------- fillerFrom ----------

  /** Words one space apart after b, until there are at least n characters. */
  function FillWords(w: WordList, n: nat, b: string, ds: seq<nat>): (d: Drawn<string>)
    ensures |d.value| >= n && |d.value| >= |b| && d.value[..|b|] == b
    ensures 0 < |b| < |d.value| ==> d.value[|b|] == ' '
    decreases n - |b|
  {
    if |b| >= n then Drawn(b, ds) else
    var pick := Intn(ds, |w.words|);
    var sep := if |b| > 0 then b + " " else b;
    var next := sep + w.words[pick.value];
    assert next[..|b|] == b;
    var d := FillWords(w, n, next, pick.rest);
    assert d.value[..|b|] == d.value[..|next|][..|b|];
    assert 0 < |b| ==> d.value[|b|] == d.value[..|next|][|b|];
    d
  }

  /** The first n bytes; a cut just after a word ends in x instead of a space. */
  function Cut(s: string, n: nat): (out: string)
    requires n <= |s|
    ensures |out| == n
  {
    if n > 0 && s[n - 1] == ' ' then s[..n - 1] + "x" else s[..n]
  }

  function Filler(w: WordList, n: nat, ds: seq<nat>): (d: Drawn<string>)
    ensures |d.value| == n
  {
    var full := FillWords(w, n, "", ds);
    Drawn(Cut(full.value, n), full.rest)
  }

  /** fillerFrom's loop over the stream. */
  method FillerFrom(w: WordList, tape: Tape, n: nat) returns (out: string)
    modifies tape
    ensures |out| == n && Drawn(out, tape.left) == Filler(w, n, old(tape.left))
  {
    var b := "";
    ghost var start := tape.left;
    while |b| < n
      invariant FillWords(w, n, b, tape.left) == FillWords(w, n, "", start)
      decreases n - |b|
    {
      var v := tape.NextIntn(|w.words|);
      if |b| > 0 {
        b := b + " ";
      }
      b := b + w.words[v];
    }
    out := b[..n];
    assert n > 0 ==> out[..n - 1] == b[..n - 1];
    if n > 0 && out[n - 1] == ' ' {
      out := out[..n - 1] + "x";
    }
  }

  /** How the filler opens when its first draw is the i-th word. */
  lemma FillerOpens(w: WordList, n: nat, i: nat, more: seq<nat>)
    requires n > 0 && i < |w.words| && LowerWord(w.words[i])
    ensures var x := w.words[i];
      var out := Filler(w, n, Feed(|w.words|, i) + more).value;
      if |x| >= n then out == x[..n]
      else if |x| == n - 1 then out == x + "x"
      else out[..|x|] == x && out[|x|] == ' '
  {
    var x := w.words[i];
    FeedIsRead(|w.words|, i, more);
    assert "" + x == x;
    var full := FillWords(w, n, "", Feed(|w.words|, i) + more).value;
    assert full == FillWords(w, n, x, more).value;
    assert full[..|x|] == x;
    if |x| >= n {
      assert full == x;
    } else {
      assert full[|x|] == ' ';
      var out := Cut(full, n);
      if |x| < n - 1 {
        assert out[..n - 1] == full[..n - 1];
        assert out[..|x|] == full[..n - 1][..|x|] == full[..|x|];
        assert out[|x|] == full[..n - 1][|x|];
      } else {
        assert full[..n - 1] == x;
      }
    }
  }

  /** Two different first words that fit n open two different fillers of n bytes. */
  lemma FillersDiffer(w: WordList, n: nat, i: nat, j: nat, ds: seq<nat>, es: seq<nat>)
    requires Listed(w) && NoneExtendsByX(w.words) && i < |w.words| && j < |w.words| && i != j
    requires 1 <= |w.words[i]| <= |w.words[j]| <= n
    ensures Filler(w, n, Feed(|w.words|, i) + ds).value != Filler(w, n, Feed(|w.words|, j) + es).value
  {
    hide Filler;
    var x, y := w.words[i], w.words[j];
    assert x != y;
    var s, t := Filler(w, n, Feed(|w.words|, i) + ds).value, Filler(w, n, Feed(|w.words|, j) + es).value;
    FillerOpens(w, n, i, ds);
    FillerOpens(w, n, j, es);
    assert |x| == n ==> x[..n] == x;
    assert |y| == n ==> y[..n] == y;
    assert t[..|y|] == y;
    assert s[..|x|] == x;
    if |x| == |y| {
      assert s != t;
    } else if |x| < n - 1 {
      assert t[|x|] == t[..|y|][|x|] == y[|x|];
    } else {
      assert s == x + "x" && t == y;
    }
  }

  // ---------- fillerAbout ----------

  function Limit(w: WordList, n: nat): nat {
    Max(n, Longest(w))
  }

  /** Whole words one space apart after b, to the first boundary at or past n, within limit. */
  function AboutWords(w: WordList, n: nat, b: string, ds: seq<nat>): (d: Drawn<string>)
    requires |b| <= Limit(w, n)
    ensures |b| <= |d.value| <= Limit(w, n) && d.value[..|b|] == b
    ensures 0 < |b| < |d.value| ==> d.value[|b|] == ' '
    ensures n - Shortest(w) <= |d.value|
    decreases n - |b|
  {
    if |b| >= n then Drawn(b, ds) else
    var room := if |b| > 0 then Limit(w, n) - |b| - 1 else Limit(w, n) - |b|;
    if room < Shortest(w) then Drawn(b, ds) else
    assert Count(w, room) > 0;
    var pick := Intn(ds, Count(w, room));
    var sep := if |b| > 0 then b + " " else b;
    var next := sep + w.words[pick.value];
    assert next[..|b|] == b;
    var d := AboutWords(w, n, next, pick.rest);
    assert d.value[..|b|] == d.value[..|next|][..|b|];
    assert 0 < |b| ==> d.value[|b|] == d.value[..|next|][|b|];
    d
  }

  lemma SomeWordFits(w: WordList, room: nat)
    requires Shortest(w) <= room
    ensures 0 < Count(w, room) <= |w.words|
    ensures forall i :: 0 <= i < Count(w, room) ==> |w.words[i]| <= room
  {
    hide Count;
  }

  /** One turn of the loop: stop when nothing fits, or one more word. */
  lemma AboutTurn(w: WordList, n: nat, b: string, ds: seq<nat>)
    requires |b| <= Limit(w, n) && |b| < n
    ensures var room := if |b| > 0 then Limit(w, n) - |b| - 1 else Limit(w, n) - |b|;
      if room < Shortest(w) then AboutWords(w, n, b, ds) == Drawn(b, ds)
      else
        && 0 < Count(w, room) <= |w.words|
        && var pick := Intn(ds, Count(w, room));
          var next := (if |b| > 0 then b + " " else b) + w.words[pick.value];
          |b| < |next| <= Limit(w, n) && AboutWords(w, n, b, ds) == AboutWords(w, n, next, pick.rest)
  {
    hide Valid, Count, Intn, Limit, Shortest;
    var room := if |b| > 0 then Limit(w, n) - |b| - 1 else Limit(w, n) - |b|;
    if room >= Shortest(w) {
      SomeWordFits(w, room);
    }
  }

  /** Between n minus the shortest word and the larger of n and the longest. */
  method FillerAbout(w: WordList, tape: Tape, n: nat) returns (out: string)
    modifies tape
    ensures n - Shortest(w) <= |out| <= Max(n, Longest(w))
    ensures Drawn(out, tape.left) == AboutWords(w, n, "", old(tape.left))
  {
    hide AboutWords, Count, Intn, Valid;
    var limit := Max(n, Longest(w));
    out := "";
    ghost var start := tape.left;
    while |out| < n
      invariant |out| <= limit == Limit(w, n)
      invariant AboutWords(w, n, out, tape.left) == AboutWords(w, n, "", start)
      decreases n - |out|
    {
      AboutTurn(w, n, out, tape.left);
      var room := limit - |out|;
      if |out| > 0 {
        room := room - 1;
      }
      if room < Shortest(w) {
        break;
      }
      var v := tape.NextIntn(Count(w, room));
      if |out| > 0 {
        out := out + " ";
      }
      out := out + w.words[v];
    }
    if |out| >= n {
      AboutStops(w, n, out, tape.left);
    }
  }

  lemma AboutStops(w: WordList, n: nat, b: string, ds: seq<nat>)
    requires n <= |b| <= Limit(w, n)
    ensures AboutWords(w, n, b, ds) == Drawn(b, ds)
  {
  }

  lemma AboutOpens(w: WordList, n: nat, i: nat, more: seq<nat>)
    requires n > 0 && i < |w.words|
    ensures var x := w.words[i];
      var out := AboutWords(w, n, "", Feed(|w.words|, i) + more).value;
      |x| <= |out| && out[..|x|] == x && (|x| < |out| ==> out[|x|] == ' ')
  {
    var limit := Limit(w, n);
    assert Count(w, limit) == |w.words|;
    FeedIsRead(|w.words|, i, more);
    assert "" + w.words[i] == w.words[i];
    assert AboutWords(w, n, "", Feed(|w.words|, i) + more) == AboutWords(w, n, w.words[i], more);
  }

  lemma AboutsDiffer(w: WordList, n: nat, i: nat, j: nat, ds: seq<nat>, es: seq<nat>)
    requires Listed(w) && n > 0 && i < |w.words| && j < |w.words| && i != j
    requires |w.words[i]| <= |w.words[j]|
    ensures AboutWords(w, n, "", Feed(|w.words|, i) + ds).value != AboutWords(w, n, "", Feed(|w.words|, j) + es).value
  {
    hide AboutWords;
    var x, y := w.words[i], w.words[j];
    assert x != y;
    AboutOpens(w, n, i, ds);
    AboutOpens(w, n, j, es);
    var s, t := AboutWords(w, n, "", Feed(|w.words|, i) + ds).value, AboutWords(w, n, "", Feed(|w.words|, j) + es).value;
    assert |x| < |y| ==> t[..|y|][|x|] == t[|x|];
  }

  // ---------- free_text ----------

  const FREE_TEXT_CAP := 4096

  function FreeTextExact(c: Constraints): nat {
    if c.checkLength > 0 && (c.maxLen <= 0 || c.checkLength <= c.maxLen) then c.checkLength else 0
  }

  function FreeTextMax(c: Constraints): (n: nat)
    ensures n > 0
  {
    if c.maxLen > 0 then Min(FREE_TEXT_CAP, c.maxLen) else FREE_TEXT_CAP
  }

  /** The distinct first letters of a word list. */
  function Initials(ws: seq<string>): set<char> {
    set i | 0 <= i < |ws| && ws[i] != "" :: ws[i][0]
  }

  function FreeTextDomain(l: Lists, c: Constraints): nat {
    if c.labels != [] then |c.labels|
    else if FreeTextExact(c) > 0 then Max(1, Count(l.fillers, FreeTextExact(c)))
    else if FreeTextMax(c) < Longest(l.fitted) then |Initials(l.fitted.words)|
    else |l.fitted.words|
  }

  /** `len` is the rune count of the input's canonical form, never less than one. */
  function FreeTextMask(l: Lists, c: Constraints, len: nat, ds: seq<nat>): Outcome {
    if c.labels != [] then LabelMask(c.labels, ds)
    else if FreeTextExact(c) > 0 then Text(Filler(l.fillers, FreeTextExact(c), ds).value)
    else if len > FreeTextMax(c) then
      var length := Intn(ds, FreeTextMax(c));
      Text(Filler(l.fillers, 1 + length.value, length.rest).value)
    else if FreeTextMax(c) < Longest(l.fitted) then Text(Filler(l.fitted, len, ds).value)
    else Text(AboutWords(l.fitted, len, "", ds).value)
  }

  /** One word for each first letter. */
  function OnePerInitial(ws: seq<string>): seq<nat> {
    if ws == [] then [] else
    var most, last := ws[..|ws| - 1], ws[|ws| - 1];
    if last != "" && last[0] !in Initials(most) then OnePerInitial(most) + [|ws| - 1] else OnePerInitial(most)
  }

  lemma {:induction false} OnePerInitialPicks(ws: seq<string>)
    ensures var at := OnePerInitial(ws);
      && |at| == |Initials(ws)|
      && (forall k :: 0 <= k < |at| ==> at[k] < |ws| && ws[at[k]] != "" && ws[at[k]][0] in Initials(ws))
      && (forall j, k :: 0 <= j < k < |at| ==> ws[at[j]][0] != ws[at[k]][0])
  {
    if ws != [] {
      var most, last := ws[..|ws| - 1], ws[|ws| - 1];
      OnePerInitialPicks(most);
      InitialsSnoc(most, last);
      assert ws == most + [last];
      assert last == "" || last[0] in Initials(most) ==> Initials(ws) == Initials(most);
      var at := OnePerInitial(most);
      assert forall k :: 0 <= k < |at| ==> ws[at[k]] == most[at[k]];
    } else {
      assert Initials(ws) == {};
    }
  }

  lemma InitialsSnoc(most: seq<string>, last: string)
    ensures Initials(most + [last]) == Initials(most) + if last != "" then {last[0]} else {}
  {
    var ws := most + [last];
    forall x | x in Initials(ws) ensures x in Initials(most) + if last != "" then {last[0]} else {} {
      var i :| 0 <= i < |ws| && ws[i] != "" && ws[i][0] == x;
      assert i < |most| ==> most[i] == ws[i];
    }
    forall x | x in Initials(most) ensures x in Initials(ws) {
      var i :| 0 <= i < |most| && most[i] != "" && most[i][0] == x;
      assert ws[i] == most[i];
    }
    if last != "" {
      assert ws[|most|] == last;
    }
  }

  lemma FirstLetter(w: WordList, n: nat, i: nat, more: seq<nat>)
    requires Listed(w) && n > 0 && i < |w.words|
    ensures Filler(w, n, Feed(|w.words|, i) + more).value[0] == w.words[i][0]
  {
    hide Filler;
    FillerOpens(w, n, i, more);
    var out := Filler(w, n, Feed(|w.words|, i) + more).value;
    if |w.words[i]| < n - 1 {
      assert out[..|w.words[i]|][0] == out[0];
    }
  }

  /** A mask that opens with one of k words, told apart by feed and word. */
  lemma ManyByFeed(mask: seq<nat> -> Outcome, n: nat, feed: nat -> seq<nat>)
    requires forall k: nat :: k < n ==> mask(feed(k)).Text?
    requires forall j: nat, k: nat :: j < n && k < n && j != k ==> mask(feed(j)) != mask(feed(k))
    ensures EmitsAtLeast(mask, n)
  {
    assert Separates(mask, feed, n);
  }

  lemma ExactFillersAreMany(l: Lists, c: Open, len: nat)
    requires FreeTextExact(c) > 0
    ensures EmitsAtLeast(ds => FreeTextMask(l, c, len, ds), FreeTextDomain(l, c))
  {
    hide Filler;
    var mask := (ds: seq<nat>) => FreeTextMask(l, c, len, ds);
    var w, n := l.fillers, FreeTextExact(c);
    var feed := (k: nat) => Feed(|w.words|, k) + [];
    forall j: nat, k: nat | j < FreeTextDomain(l, c) && k < FreeTextDomain(l, c) && j != k ensures mask(feed(j)) != mask(feed(k)) {
      if |w.words[j]| <= |w.words[k]| {
        FillersDiffer(w, n, j, k, [], []);
      } else {
        FillersDiffer(w, n, k, j, [], []);
      }
    }
    ManyByFeed(mask, FreeTextDomain(l, c), feed);
  }

  lemma AboutFillersAreMany(l: Lists, c: Open, len: nat)
    requires FreeTextExact(c) == 0 && 1 <= len <= FreeTextMax(c) && FreeTextMax(c) >= Longest(l.fitted)
    ensures EmitsAtLeast(ds => FreeTextMask(l, c, len, ds), FreeTextDomain(l, c))
  {
    hide AboutWords;
    var mask := (ds: seq<nat>) => FreeTextMask(l, c, len, ds);
    var w := l.fitted;
    var feed := (k: nat) => Feed(|w.words|, k) + [];
    forall j: nat, k: nat | j < |w.words| && k < |w.words| && j != k ensures mask(feed(j)) != mask(feed(k)) {
      if |w.words[j]| <= |w.words[k]| {
        AboutsDiffer(w, len, j, k, [], []);
      } else {
        AboutsDiffer(w, len, k, j, [], []);
      }
    }
    ManyByFeed(mask, |w.words|, feed);
  }

  lemma NarrowFillersAreMany(l: Lists, c: Open, len: nat)
    requires FreeTextExact(c) == 0 && 1 <= len <= FreeTextMax(c) < Longest(l.fitted)
    ensures EmitsAtLeast(ds => FreeTextMask(l, c, len, ds), FreeTextDomain(l, c))
  {
    hide Filler, OnePerInitial;
    var mask := (ds: seq<nat>) => FreeTextMask(l, c, len, ds);
    var w := l.fitted;
    var at := OnePerInitial(w.words);
    OnePerInitialPicks(w.words);
    var feed := (k: nat) => if k < |at| then Feed(|w.words|, at[k]) + [] else [];
    forall j: nat, k: nat | j < |at| && k < |at| && j != k ensures mask(feed(j)) != mask(feed(k)) {
      FirstLetter(w, len, at[j], []);
      FirstLetter(w, len, at[k], []);
    }
    ManyByFeed(mask, |at|, feed);
  }

  /** Where each fitted word stands in the whole filler list. */
  function InFillers(l: Lists, i: nat): (k: nat)
    requires i < |l.fitted.words|
    ensures k < |l.fillers.words| && l.fillers.words[k] == l.fitted.words[i]
  {
    assert l.fitted.words[i] in l.fillers.words;
    Position(l.fillers.words, l.fitted.words[i])
  }

  function Position(ws: seq<string>, x: string): (k: nat)
    requires x in ws
    ensures k < |ws| && ws[k] == x
  {
    if ws[0] == x then 0 else 1 + Position(ws[1..], x)
  }

  /** The over-long branch fed a length and a first word of the fitted list. */
  lemma OverlongIsFed(l: Lists, c: Open, len: nat, size: nat, i: nat)
    requires FreeTextExact(c) == 0 && len > FreeTextMax(c)
    requires 1 <= size <= FreeTextMax(c) && i < |l.fitted.words|
    ensures FreeTextMask(l, c, len, Feed(FreeTextMax(c), size - 1) + (Feed(|l.fillers.words|, InFillers(l, i)) + [])) ==
      Text(Filler(l.fillers, size, Feed(|l.fillers.words|, InFillers(l, i)) + []).value)
  {
    hide Filler;
    FeedIsRead(FreeTextMax(c), size - 1, Feed(|l.fillers.words|, InFillers(l, i)) + []);
  }

  lemma OverlongNarrow(l: Lists, c: Open, len: nat)
    requires FreeTextExact(c) == 0 && len > FreeTextMax(c) && FreeTextMax(c) < Longest(l.fitted)
    ensures EmitsAtLeast(ds => FreeTextMask(l, c, len, ds), FreeTextDomain(l, c))
  {
    hide Filler, OnePerInitial;
    var mask := (ds: seq<nat>) => FreeTextMask(l, c, len, ds);
    var w, words, max := l.fillers, l.fitted.words, FreeTextMax(c);
    var at := OnePerInitial(words);
    OnePerInitialPicks(words);
    var feed := (k: nat) => if k < |at| then Feed(max, 0) + (Feed(|w.words|, InFillers(l, at[k])) + []) else [];
    forall k: nat | k < |at| ensures mask(feed(k)).Text? && |mask(feed(k)).text| == 1 && mask(feed(k)).text[0] == words[at[k]][0] {
      OverlongIsFed(l, c, len, 1, at[k]);
      FirstLetter(w, 1, InFillers(l, at[k]), []);
    }
    ManyByFeed(mask, |at|, feed);
  }

  lemma OverlongDiffer(l: Lists, c: Open, len: nat, j: nat, k: nat)
    requires FreeTextExact(c) == 0 && len > FreeTextMax(c) && FreeTextMax(c) >= Longest(l.fitted)
    requires j < |l.fitted.words| && k < |l.fitted.words| && j != k
    ensures FreeTextMask(l, c, len, Feed(FreeTextMax(c), FreeTextMax(c) - 1) + (Feed(|l.fillers.words|, InFillers(l, j)) + []))
         != FreeTextMask(l, c, len, Feed(FreeTextMax(c), FreeTextMax(c) - 1) + (Feed(|l.fillers.words|, InFillers(l, k)) + []))
  {
    hide Filler;
    var w, words, max := l.fillers, l.fitted.words, FreeTextMax(c);
    OverlongIsFed(l, c, len, max, j);
    OverlongIsFed(l, c, len, max, k);
    assert words[j] != words[k];
    if |words[j]| <= |words[k]| {
      FillersDiffer(w, max, InFillers(l, j), InFillers(l, k), [], []);
    } else {
      FillersDiffer(w, max, InFillers(l, k), InFillers(l, j), [], []);
    }
  }

  lemma OverlongWide(l: Lists, c: Open, len: nat)
    requires FreeTextExact(c) == 0 && len > FreeTextMax(c) && FreeTextMax(c) >= Longest(l.fitted)
    ensures EmitsAtLeast(ds => FreeTextMask(l, c, len, ds), FreeTextDomain(l, c))
  {
    hide Filler;
    var mask := (ds: seq<nat>) => FreeTextMask(l, c, len, ds);
    var words, max := l.fitted.words, FreeTextMax(c);
    var feed := (k: nat) => if k < |words| then Feed(max, max - 1) + (Feed(|l.fillers.words|, InFillers(l, k)) + []) else [];
    forall j: nat, k: nat | j < |words| && k < |words| && j != k ensures mask(feed(j)) != mask(feed(k)) {
      OverlongDiffer(l, c, len, j, k);
    }
    ManyByFeed(mask, |words|, feed);
  }

  /** free_text keeps its promise whatever the input's length. */
  lemma FreeTextIsHonest(l: Lists, c: Open, len: nat)
    requires len >= 1
    ensures Honest(ds => FreeTextMask(l, c, len, ds), FreeTextDomain(l, c), c)
  {
    hide Filler, AboutWords, OnePerInitial;
    var mask := (ds: seq<nat>) => FreeTextMask(l, c, len, ds);
    if FreeTextExact(c) > 0 {
      ExactFillersAreMany(l, c, len);
    } else if len > FreeTextMax(c) {
      if FreeTextMax(c) < Longest(l.fitted) {
        OverlongNarrow(l, c, len);
      } else {
        OverlongWide(l, c, len);
      }
    } else if FreeTextMax(c) < Longest(l.fitted) {
      NarrowFillersAreMany(l, c, len);
    } else {
      AboutFillersAreMany(l, c, len);
    }
    assert l.fitted.words[0][0] in Initials(l.fitted.words);
    forall ds: seq<nat> ensures mask(ds).Text? && FitsColumn(mask(ds).text, c) {
    }
  }

  // ---------- fillerRangeDomain ----------

  /** How many fillers of exactly `size` bytes the count stands for. */
  function SizeCount(w: WordList, size: nat): nat {
    Max(1, Count(w, size))
  }

  function RangeCount(w: WordList, n: nat): nat {
    if n == 0 then 0 else RangeCount(w, n - 1) + SizeCount(w, n)
  }

  /** The labels of a closed column, else the fillers of an exact length, else of any. */
  function RangeDomain(l: Lists, c: Constraints): nat {
    if c.labels != [] then |c.labels|
    else if FreeTextExact(c) > 0 then SizeCount(l.fillers, FreeTextExact(c))
    else RangeCount(l.fillers, FreeTextMax(c))
  }

  /** fillerRangeDomain, its loop's total saturating. */
  method FillerRangeDomain(l: Lists, c: Constraints) returns (total: nat)
    requires |l.fillers.words| <= MAX_INT64
    ensures total == if c.labels == [] && FreeTextExact(c) == 0 && RangeDomain(l, c) > MAX_INT64 then MAX_INT64 else RangeDomain(l, c)
  {
    hide SizeCount;
    if c.labels != [] {
      return |c.labels|;
    }
    if FreeTextExact(c) > 0 {
      return SizeCount(l.fillers, FreeTextExact(c));
    }
    total := 0;
    for size := 1 to FreeTextMax(c) + 1
      invariant total == if RangeCount(l.fillers, size - 1) <= MAX_INT64 then RangeCount(l.fillers, size - 1) else MAX_INT64
    {
      SizeCountIsSmall(l.fillers, size);
      total := SatAdd(total, SizeCount(l.fillers, size));
    }
  }

  lemma SizeCountIsSmall(w: WordList, size: nat)
    requires |w.words| <= MAX_INT64
    ensures SizeCount(w, size) <= MAX_INT64
  {
  }

  /** A filler whose length, too, is drawn: generic's text branch. */
  function RangeMask(w: WordList, n: nat, ds: seq<nat>): Outcome {
    if n < 1 then NoRoom else
    var size := Intn(ds, n);
    Text(Filler(w, 1 + size.value, size.rest).value)
  }

  /** The size and first word the k-th counted filler has. */
  function RangeChoice(w: WordList, n: nat, k: nat): (p: (nat, nat))
    requires k < RangeCount(w, n)
    ensures 1 <= p.0 <= n && p.1 < SizeCount(w, p.0) && p.1 < |w.words|
  {
    if k < RangeCount(w, n - 1) then RangeChoice(w, n - 1, k) else (n, k - RangeCount(w, n - 1))
  }

  lemma {:induction false} RangeChoicesDiffer(w: WordList, n: nat, j: nat, k: nat)
    requires j < k < RangeCount(w, n)
    ensures RangeChoice(w, n, j) != RangeChoice(w, n, k)
  {
    if k < RangeCount(w, n - 1) {
      RangeChoicesDiffer(w, n - 1, j, k);
    }
  }

  function FeedRange(w: WordList, n: nat, p: (nat, nat)): seq<nat>
    requires p.0 >= 1
  {
    Feed(n, p.0 - 1) + (Feed(|w.words|, p.1) + [])
  }

  lemma RangeIsRead(w: WordList, n: nat, p: (nat, nat))
    requires Listed(w) && 1 <= p.0 <= n && p.1 < SizeCount(w, p.0) && p.1 < |w.words|
    ensures RangeMask(w, n, FeedRange(w, n, p)) == Text(Filler(w, p.0, Feed(|w.words|, p.1) + []).value)
    ensures SizeCount(w, p.0) > 1 ==> 1 <= |w.words[p.1]| <= p.0
  {
    hide Filler;
    FeedIsRead(n, p.0 - 1, Feed(|w.words|, p.1) + []);
  }

  lemma RangeFillersDiffer(w: WordList, n: nat, p: (nat, nat), q: (nat, nat))
    requires Listed(w) && NoneExtendsByX(w.words) && p != q
    requires 1 <= p.0 <= n && p.1 < SizeCount(w, p.0) && p.1 < |w.words|
    requires 1 <= q.0 <= n && q.1 < SizeCount(w, q.0) && q.1 < |w.words|
    ensures RangeMask(w, n, FeedRange(w, n, p)) != RangeMask(w, n, FeedRange(w, n, q))
  {
    hide Filler, RangeMask, FeedRange, NoneExtendsByX, SizeCount;
    RangeIsRead(w, n, p);
    RangeIsRead(w, n, q);
    if p.0 == q.0 {
      if |w.words[p.1]| <= |w.words[q.1]| {
        FillersDiffer(w, p.0, p.1, q.1, [], []);
      } else {
        FillersDiffer(w, p.0, q.1, p.1, [], []);
      }
    }
  }

  /** The count is what a filler of drawn length emits at the least. */
  lemma RangeFillersAreMany(w: WordList, n: nat)
    requires Listed(w) && NoneExtendsByX(w.words)
    ensures EmitsAtLeast(ds => RangeMask(w, n, ds), RangeCount(w, n))
  {
    hide RangeMask, FeedRange, RangeCount;
    var mask := (ds: seq<nat>) => RangeMask(w, n, ds);
    var feed := (k: nat) => if k < RangeCount(w, n) then FeedRange(w, n, RangeChoice(w, n, k)) else [];
    forall k: nat | k < RangeCount(w, n) ensures mask(feed(k)).Text? {
      RangeMaskIsText(w, n, k, feed(k));
    }
    forall j: nat, k: nat | j < RangeCount(w, n) && k < RangeCount(w, n) && j != k ensures mask(feed(j)) != mask(feed(k)) {
      if j < k { RangeChoicesDiffer(w, n, j, k); } else { RangeChoicesDiffer(w, n, k, j); }
      RangeFillersDiffer(w, n, RangeChoice(w, n, j), RangeChoice(w, n, k));
    }
    ManyByFeed(mask, RangeCount(w, n), feed);
  }

  lemma RangeMaskIsText(w: WordList, n: nat, k: nat, ds: seq<nat>)
    requires k < RangeCount(w, n)
    ensures RangeMask(w, n, ds).Text?
  {
  }

  lemma {:induction false} RangeCountGrows(w: WordList, m: nat, n: nat)
    requires m <= n
    ensures RangeCount(w, m) <= RangeCount(w, n)
    decreases n
  {
    hide SizeCount;
    if m < n {
      RangeCountGrows(w, m, n - 1);
    }
  }

  /** generic's text branch: it never reads the CHECK that fixes a length. */
  function GenericTextMask(l: Lists, c: Constraints, ds: seq<nat>): Outcome {
    if c.labels != [] then LabelMask(c.labels, ds) else RangeMask(l.fillers, FreeTextMax(c), ds)
  }

  /** Of an open column it emits at least what fillerRangeDomain reports, within the length
      the column declares, also where that counts the fillers of one exact length. */
  lemma GenericTextIsHonest(l: Lists, c: Open)
    ensures Honest(ds => GenericTextMask(l, c, ds), RangeDomain(l, c), c)
  {
    hide Filler, SizeCount, RangeMask;
    var w, n := l.fillers, FreeTextMax(c);
    var mask := (ds: seq<nat>) => GenericTextMask(l, c, ds);
    RangeFillersAreMany(w, n);
    assert EmitsAtLeast(mask, RangeCount(w, n)) by {
      var ranged := (ds: seq<nat>) => RangeMask(w, n, ds);
      var feed :| Separates(ranged, feed, RangeCount(w, n));
      assert Separates(mask, feed, RangeCount(w, n));
    }
    RangeDomainIsCounted(l, c);
    EmitsFewer(mask, RangeDomain(l, c), RangeCount(w, n));
    forall ds: seq<nat> ensures mask(ds).Text? && FitsColumn(mask(ds).text, c) {
      RangeMaskFits(w, n, ds);
    }
  }

  lemma RangeMaskFits(w: WordList, n: nat, ds: seq<nat>)
    requires n >= 1
    ensures RangeMask(w, n, ds).Text? && |RangeMask(w, n, ds).text| <= n
  {
    hide Filler;
  }

  lemma RangeDomainIsCounted(l: Lists, c: Open)
    ensures 0 < RangeDomain(l, c) <= RangeCount(l.fillers, FreeTextMax(c))
  {
    var w, n, size := l.fillers, FreeTextMax(c), FreeTextExact(c);
    if 0 < size <= n {
      RangeCountGrows(w, size, n);
    } else if size > n {
      AllFitTheCap(w, size);
      RangeCountGrows(w, FREE_TEXT_CAP, n);
    } else {
      RangeCountGrows(w, 1, n);
    }
  }

  lemma AllFitTheCap(w: WordList, size: nat)
    requires Longest(w) <= 9
    ensures SizeCount(w, size) <= SizeCount(w, FREE_TEXT_CAP)
  {
    var last := |w.words| - 1;
    assert |w.words[last]| <= FREE_TEXT_CAP;
  }

  // ---------- online_id ----------

  const URL_PREFIX := "https://example.invalid/"
  const UUID_LEN := 36
  const UNIQUE_SYMBOLS := 13

  /** What onlineShapeFor reads of the value: whether it is a UUID, and whether it looks like a URL. */
  datatype ValueShape = ValueShape(uuid: bool, url: bool)

  function UrlTail(c: Constraints): int {
    if Room(c) > 0 then Min(UNIQUE_SYMBOLS, Room(c) - |URL_PREFIX|) else UNIQUE_SYMBOLS
  }

  function HandleTail(l: Lists, c: Constraints): nat {
    var n := if Room(c) > 0 then Min(UNIQUE_SYMBOLS, Room(c) - Shortest(l.fillers) - 1) else UNIQUE_SYMBOLS;
    if n < 1 || Count(l.fillers, FitBudget(Room(c), n + 1)) == 0 then 0 else n
  }

  datatype OnlineShape = OnlineNone | OnlineUUID | OnlineURL(n: nat) | OnlineHandle(n: nat)

  predicate UuidFits(c: Constraints) {
    c.maxLen <= 0 || UUID_LEN <= c.maxLen
  }

  function OnlineShapeFor(l: Lists, v: ValueShape, c: Constraints): OnlineShape {
    if c.typeTag == FamUUID then OnlineUUID
    else if v.uuid && UuidFits(c) then OnlineUUID
    else if v.url && UrlTail(c) >= 1 then OnlineURL(UrlTail(c))
    else if HandleTail(l, c) < 1 then OnlineNone
    else OnlineHandle(HandleTail(l, c))
  }

  function HandleWords(l: Lists, c: Constraints): nat {
    Count(l.fillers, FitBudget(Room(c), HandleTail(l, c) + 1))
  }

  function OnlineDomain(l: Lists, c: Constraints): nat {
    if c.labels != [] then |c.labels|
    else if c.typeTag == FamUUID then SatPowOf(2, 122)
    else if HandleTail(l, c) < 1 then 0
    else
      var d := SatMul(HandleWords(l, c), SatPowOf(32, HandleTail(l, c)));
      var d' := if UrlTail(c) >= 1 then Min(d, SatPowOf(32, UrlTail(c))) else d;
      if UuidFits(c) then Min(d', SatPowOf(2, 122)) else d'
  }

  /** The version and variant bits uuidFrom sets over bytes 6 and 8. */
  function Stamped(b: string, i: nat): char
    requires i < |b| == 16 && forall k :: 0 <= k < 16 ==> b[k] as int < 256
  {
    if i == 6 then (0x40 + b[i] as int % 16) as char
    else if i == 8 then (0x80 + b[i] as int % 64) as char
    else b[i]
  }

  function HexPair(x: nat): string
    requires x < 256
  {
    [Symbol(Hex, x / 16), Symbol(Hex, x % 16)]
  }

  predicate Bytes16(b: string) {
    |b| == 16 && forall k :: 0 <= k < 16 ==> b[k] as int < 256
  }

  /** The text of the first i bytes, a dash before bytes 4, 6, 8 and 10. */
  function UuidText(b: string, i: nat): string
    requires Bytes16(b) && i <= 16
  {
    if i == 0 then "" else
    var dash := if i - 1 == 4 || i - 1 == 6 || i - 1 == 8 || i - 1 == 10 then "-" else "";
    UuidText(b, i - 1) + dash + HexPair(Stamped(b, i - 1) as int)
  }

  lemma {:induction false} SymbolsAreBytes(n: nat, ds: seq<nat>)
    ensures forall k :: 0 <= k < n ==> Symbols(Byte, n, ds).value[k] as int < 256
  {
    if n > 0 {
      SymbolsAreBytes(n - 1, Intn(ds, 256).rest);
    }
  }

  function UuidFrom(ds: seq<nat>): string {
    SymbolsAreBytes(16, ds);
    UuidText(Symbols(Byte, 16, ds).value, 16)
  }

  /** uuidFrom's loop over sixteen bytes of the stream. */
  method BuildUuid(tape: Tape) returns (out: string)
    modifies tape
    ensures out == UuidFrom(old(tape.left))
  {
    SymbolsAreBytes(16, tape.left);
    var b := tape.NextSymbols(Byte, 16);
    out := "";
    for i := 0 to 16
      invariant out == UuidText(b, i)
    {
      if i == 4 || i == 6 || i == 8 || i == 10 {
        out := out + "-";
      } else {
        out := out + "";
      }
      var x := Stamped(b, i) as int;
      out := out + [Symbol(Hex, x / 16), Symbol(Hex, x % 16)];
    }
  }

  lemma HexPairTells(x: nat, y: nat)
    requires x < 256 && y < 256 && HexPair(x) == HexPair(y)
    ensures x == y
  {
    assert HexPair(x)[0] == HexPair(y)[0] && HexPair(x)[1] == HexPair(y)[1];
    SymbolTells(Hex, x / 16, y / 16);
    SymbolTells(Hex, x % 16, y % 16);
  }

  lemma {:induction false} UuidLength(b: string, i: nat)
    requires Bytes16(b) && i <= 16
    ensures |UuidText(b, i)| == 2 * i + (if i > 10 then 4 else if i > 8 then 3 else if i > 6 then 2 else if i > 4 then 1 else 0)
  {
    if i > 0 {
      UuidLength(b, i - 1);
    }
  }

  lemma {:induction false} UuidsTell(b: string, a: string, i: nat)
    requires Bytes16(b) && Bytes16(a) && i <= 16 && UuidText(b, i) == UuidText(a, i)
    ensures forall k :: 0 <= k < i && k != 6 && k != 8 ==> b[k] == a[k]
  {
    if i > 0 {
      var dash := if i - 1 == 4 || i - 1 == 6 || i - 1 == 8 || i - 1 == 10 then "-" else "";
      var x, y := HexPair(Stamped(b, i - 1) as int), HexPair(Stamped(a, i - 1) as int);
      TailsMatch(UuidText(b, i - 1) + dash, x, UuidText(a, i - 1) + dash, y);
      TailsMatch(UuidText(b, i - 1), dash, UuidText(a, i - 1), dash);
      HexPairTells(Stamped(b, i - 1) as int, Stamped(a, i - 1) as int);
      UuidsTell(b, a, i - 1);
    }
  }

  function OnlineMask(l: Lists, v: ValueShape, c: Constraints, ds: seq<nat>): Outcome {
    if c.labels != [] then LabelMask(c.labels, ds) else
    match OnlineShapeFor(l, v, c)
    case OnlineNone => NoRoom
    case OnlineUUID => Text(UuidFrom(ds))
    case OnlineURL(n) => Text(URL_PREFIX + Symbols(Base32, n, ds).value)
    case OnlineHandle(n) =>
      var word := Intn(ds, HandleWords(l, c));
      if HandleWords(l, c) == 0 then NoRoom
      else Text(l.fillers.words[word.value] + "_" + Symbols(Base32, n, word.rest).value)
  }

  lemma {:induction false} SymbolsJoin(a: Alphabet, m: nat, n: nat, ds: seq<nat>)
    ensures Symbols(a, m + n, ds).value == Symbols(a, m, ds).value + Symbols(a, n, Symbols(a, m, ds).rest).value
  {
    if m > 0 {
      SymbolsJoin(a, m - 1, n, Intn(ds, Size(a)).rest);
    } else {
      assert "" + Symbols(a, n, ds).value == Symbols(a, n, ds).value;
    }
  }

  /** Draws for a UUID whose bytes 0-5 spell i and bytes 9-15 spell j. */
  function FeedUuid(i: nat, j: nat): seq<nat> {
    FeedNumeral(Byte, 6, i) + (FeedNumeral(Byte, 3, 0) + (FeedNumeral(Byte, 7, j) + []))
  }

  lemma UuidIsFed(i: nat, j: nat)
    ensures Symbols(Byte, 16, FeedUuid(i, j)).value == Numeral(Byte, 6, i) + (Numeral(Byte, 3, 0) + Numeral(Byte, 7, j))
  {
    var tail := FeedNumeral(Byte, 7, j) + [];
    NumeralIsRead(Byte, 6, i, FeedNumeral(Byte, 3, 0) + tail);
    NumeralIsRead(Byte, 3, 0, tail);
    NumeralIsRead(Byte, 7, j, []);
    SymbolsJoin(Byte, 6, 10, FeedUuid(i, j));
    SymbolsJoin(Byte, 3, 7, FeedNumeral(Byte, 3, 0) + tail);
  }

  lemma FedUuidsDiffer(i: nat, j: nat, i': nat, j': nat)
    requires i < Pow(256, 6) && i' < Pow(256, 6) && j < Pow(256, 7) && j' < Pow(256, 7)
    requires UuidFrom(FeedUuid(i, j)) == UuidFrom(FeedUuid(i', j'))
    ensures i == i' && j == j'
  {
    hide FeedUuid, UuidText, Numeral;
    UuidIsFed(i, j);
    UuidIsFed(i', j');
    SymbolsAreBytes(16, FeedUuid(i, j));
    SymbolsAreBytes(16, FeedUuid(i', j'));
    var b, a := Symbols(Byte, 16, FeedUuid(i, j)).value, Symbols(Byte, 16, FeedUuid(i', j')).value;
    UuidsTell(b, a, 16);
    assert Numeral(Byte, 6, i) == b[..6] && Numeral(Byte, 6, i') == a[..6];
    assert Numeral(Byte, 7, j) == b[9..] && Numeral(Byte, 7, j') == a[9..];
    assert b[..6] == a[..6] && b[9..] == a[9..];
    NumeralsDiffer(Byte, 6, i, i');
    NumeralsDiffer(Byte, 7, j, j');
  }

  lemma UuidsAreMany(mask: seq<nat> -> Outcome)
    requires forall ds: seq<nat> :: mask(ds) == Text(UuidFrom(ds))
    ensures EmitsAtLeast(mask, MAX_INT64)
  {
    hide UuidFrom, FeedUuid;
    var feed := (t: Choice) => FeedUuid(t.first, t.second);
    var bounds := Choice(Pow(256, 6), Pow(256, 7), 1);
    forall t: Choice, u: Choice | Below(t, bounds) && Below(u, bounds) && mask(feed(t)) == mask(feed(u)) ensures t == u {
      FedUuidsDiffer(t.first, t.second, u.first, u.second);
    }
    PowersOf256();
    ChoicesAreMany(mask, feed, bounds);
    EmitsFewer(mask, MAX_INT64, Pow(256, 6) * Pow(256, 7) * 1);
  }

  lemma PowersOf256()
    ensures Pow(256, 6) == 0x1_0000_0000_0000 && Pow(256, 7) == 0x100_0000_0000_0000
  {
    assert Pow(256, 2) == 0x1_0000;
    assert Pow(256, 3) == 256 * Pow(256, 2);
    assert Pow(256, 4) == 256 * Pow(256, 3);
    assert Pow(256, 5) == 256 * Pow(256, 4);
    assert Pow(256, 6) == 256 * Pow(256, 5);
  }

  lemma UuidIsLong(ds: seq<nat>)
    ensures |UuidFrom(ds)| == UUID_LEN
  {
    SymbolsAreBytes(16, ds);
    UuidLength(Symbols(Byte, 16, ds).value, 16);
  }

  function HandleText(l: Lists, i: nat, tail: string): string
    requires i < |l.fillers.words|
  {
    l.fillers.words[i] + "_" + tail
  }

  lemma HandlesDiffer(l: Lists, n: nat, i: nat, x: nat, j: nat, y: nat)
    requires i < |l.fillers.words| && j < |l.fillers.words| && x < Pow(32, n) && y < Pow(32, n)
    requires HandleText(l, i, Numeral(Base32, n, x)) == HandleText(l, j, Numeral(Base32, n, y))
    ensures i == j && x == y
  {
    ListedWord(l.fillers, l.fillers.words[i]);
    ListedWord(l.fillers, l.fillers.words[j]);
    HeadsMatch(l.fillers.words[i], Numeral(Base32, n, x), l.fillers.words[j], Numeral(Base32, n, y), '_');
    NumeralsDiffer(Base32, n, x, y);
  }

  lemma HandleIsFed(l: Lists, v: ValueShape, c: Open, i: nat, x: nat)
    requires OnlineShapeFor(l, v, c).OnlineHandle? && i < HandleWords(l, c)
    ensures OnlineMask(l, v, c, Feed(HandleWords(l, c), i) + (FeedNumeral(Base32, HandleTail(l, c), x) + [])) ==
      Text(HandleText(l, i, Numeral(Base32, HandleTail(l, c), x)))
  {
    FeedIsRead(HandleWords(l, c), i, FeedNumeral(Base32, HandleTail(l, c), x) + []);
    NumeralIsRead(Base32, HandleTail(l, c), x, []);
  }

  function HandleCount(words: nat, n: nat): nat {
    MulOrder(0, words, Pow(32, n));
    words * Pow(32, n)
  }

  lemma HandlesAreMany(l: Lists, v: ValueShape, c: Open, mask: seq<nat> -> Outcome)
    requires OnlineShapeFor(l, v, c).OnlineHandle? && forall ds: seq<nat> :: mask(ds) == OnlineMask(l, v, c, ds)
    ensures EmitsAtLeast(mask, HandleCount(HandleWords(l, c), HandleTail(l, c)))
  {
    hide HandleText, FeedNumeral, OnlineMask, HandleTail;
    var n, words := HandleTail(l, c), HandleWords(l, c);
    var feed := (t: Choice) => Feed(words, t.first) + (FeedNumeral(Base32, n, t.third) + []);
    var bounds := Choice(words, 1, Pow(32, n));
    forall t: Choice | Below(t, bounds) ensures mask(feed(t)).Text? {
      HandleIsFed(l, v, c, t.first, t.third);
    }
    forall t: Choice, u: Choice | Below(t, bounds) && Below(u, bounds) && mask(feed(t)) == mask(feed(u)) ensures t == u {
      HandleIsFed(l, v, c, t.first, t.third);
      HandleIsFed(l, v, c, u.first, u.third);
      HandlesDiffer(l, n, t.first, t.third, u.first, u.third);
    }
    if words > 0 {
      ChoicesAreMany(mask, feed, bounds);
    } else {
      assert Separates(mask, (k: nat) => [], 0);
    }
  }

  /** The reported figure is below every branch's own. */
  lemma OnlineDomainIsBelow(l: Lists, c: Open)
    requires OnlineDomain(l, c) > 0
    ensures c.typeTag == FamUUID || UuidFits(c) ==> OnlineDomain(l, c) <= MAX_INT64
    ensures c.typeTag != FamUUID && UrlTail(c) >= 1 ==> OnlineDomain(l, c) <= Pow(32, UrlTail(c))
    ensures c.typeTag != FamUUID ==> OnlineDomain(l, c) <= HandleCount(HandleWords(l, c), HandleTail(l, c))
  {
    hide HandleCount, HandleTail, HandleWords, SatPowOf, UrlTail;
    ProductIsBelow(HandleWords(l, c), HandleTail(l, c));
  }

  lemma ProductIsBelow(words: nat, n: nat)
    ensures SatMul(words, SatPowOf(32, n)) <= HandleCount(words, n)
  {
    MulOrder(SatPowOf(32, n), Pow(32, n), words);
  }

  /** Whatever branch the value sends it down, the count is the narrowest the column admits. */
  lemma OnlineEmits(l: Lists, v: ValueShape, c: Open, mask: seq<nat> -> Outcome)
    requires OnlineDomain(l, c) > 0 && forall ds: seq<nat> :: mask(ds) == OnlineMask(l, v, c, ds)
    ensures EmitsAtLeast(mask, OnlineDomain(l, c))
  {
    OnlineDomainIsBelow(l, c);
    match OnlineShapeFor(l, v, c)
    case OnlineNone =>
    case OnlineUUID =>
      hide OnlineDomain, UuidFrom;
      UuidsAreMany(mask);
      EmitsFewer(mask, OnlineDomain(l, c), MAX_INT64);
    case OnlineURL(n) =>
      hide OnlineDomain;
      NumeralsAreMany(Base32, n, mask, URL_PREFIX);
      EmitsFewer(mask, OnlineDomain(l, c), Pow(32, n));
    case OnlineHandle(n) =>
      hide OnlineDomain;
      HandlesAreMany(l, v, c, mask);
      EmitsFewer(mask, OnlineDomain(l, c), HandleCount(HandleWords(l, c), HandleTail(l, c)));
  }

  lemma ProductIsPositive(words: nat, n: nat)
    requires words > 0
    ensures SatMul(words, SatPowOf(32, n)) > 0 && SatPowOf(32, n) > 0
  {
    PowPositive(32, n);
    MulOrder(1, words, SatPowOf(32, n));
  }

  lemma UuidCountIsPositive()
    ensures SatPowOf(2, 122) > 0
  {
    PowPositive(2, 122);
  }

  lemma OnlineDomainIsPositive(l: Lists, c: Open)
    ensures OnlineDomain(l, c) > 0 <==> c.typeTag == FamUUID || HandleTail(l, c) >= 1
  {
    UuidCountIsPositive();
    if HandleTail(l, c) >= 1 {
      assert HandleWords(l, c) > 0;
      hide Pow, SatMul, SatPowOf, HandleTail, HandleWords, UrlTail, UuidFits;
      ProductIsPositive(HandleWords(l, c), HandleTail(l, c));
      if UrlTail(c) >= 1 {
        ProductIsPositive(1, UrlTail(c));
      }
    }
  }

  lemma OnlineIsHonest(l: Lists, v: ValueShape, c: Open)
    requires LengthIsForText(c)
    ensures Honest(ds => OnlineMask(l, v, c, ds), OnlineDomain(l, c), c)
  {
    hide UuidFrom, OnlineDomain, EmitsAtLeast;
    var mask := (ds: seq<nat>) => OnlineMask(l, v, c, ds);
    OnlineDomainIsPositive(l, c);
    if OnlineDomain(l, c) > 0 {
      OnlineEmits(l, v, c, mask);
    } else {
      NothingEmitted(mask);
    }
    assert |URL_PREFIX| == 24;
    forall ds: seq<nat> ensures mask(ds).NoRoom? <==> OnlineDomain(l, c) == 0 {
    }
    forall ds: seq<nat> | mask(ds).Text? ensures FitsColumn(mask(ds).text, c) {
      UuidIsLong(ds);
    }
  }

  lemma NothingEmitted(mask: seq<nat> -> Outcome)
    ensures EmitsAtLeast(mask, 0)
  {
    assert Separates(mask, (k: nat) => [], 0);
  }
}
