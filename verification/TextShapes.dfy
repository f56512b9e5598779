/** What a masked text, link, handle or UUID looks like, whatever the draws
    (mask/gen_text.go:236-571). */
module TextShapes {
  import opened Common
  import opened Words
  import opened Draws
  import opened Columns
  import opened Lexicon
  import opened Decisions
  import opened TextGenerators
  import opened OutputShapes

  // ---------- fillers ----------

  /** The words with one space between them. */
  function Spaced(ws: seq<string>): string {
    if ws == [] then "" else if |ws| == 1 then ws[0] else Spaced(ws[..|ws| - 1]) + " " + ws[|ws| - 1]
  }

  ghost predicate AllFrom(words: seq<string>, ws: seq<string>) {
    forall i :: 0 <= i < |ws| ==> ws[i] in words && ws[i] != ""
  }

  lemma OneMore(words: seq<string>, ws: seq<string>, x: string)
    requires AllFrom(words, ws) && x in words && x != ""
    ensures AllFrom(words, ws + [x])
    ensures Spaced(ws + [x]) == if ws == [] then x else Spaced(ws) + " " + x
    ensures Spaced(ws + [x]) != ""
  {
    assert (ws + [x])[..|ws|] == ws;
  }

  /** s is the beginning of some listed words in a row, with an x where the cut would leave a space. */
  ghost predicate IsFilling(words: seq<string>, s: string) {
    && (s != "" ==> s[|s| - 1] != ' ')
    && exists ws :: AllFrom(words, ws) && CutFrom(Spaced(ws), s)
  }

  predicate CutFrom(full: string, s: string) {
    && |s| <= |full|
    && forall i :: 0 <= i < |s| ==> s[i] == full[i] || (i == |s| - 1 && full[i] == ' ' && s[i] == 'x')
  }

  lemma {:induction false} FillWordsAreListed(w: WordList, n: nat, ws: seq<string>, ds: seq<nat>) returns (more: seq<string>)
    requires AllFrom(w.words, ws) && (ws == [] <==> Spaced(ws) == "") && Listed(w)
    ensures AllFrom(w.words, more) && FillWords(w, n, Spaced(ws), ds).value == Spaced(more)
    decreases n - |Spaced(ws)|
  {
    hide AllFrom, Spaced;
    more := ws;
    var b := Spaced(ws);
    if |b| < n {
      var pick := Intn(ds, |w.words|);
      ListedWord(w, w.words[pick.value]);
      OneMore(w.words, ws, w.words[pick.value]);
      var next := ws + [w.words[pick.value]];
      assert |b| == 0 ==> b + w.words[pick.value] == w.words[pick.value];
      more := FillWordsAreListed(w, n, next, pick.rest);
    }
  }

  lemma NoWords(words: seq<string>)
    ensures AllFrom(words, []) && Spaced([]) == ""
  {
  }

  lemma FillersAreListed(w: WordList, n: nat, ds: seq<nat>)
    requires Listed(w)
    ensures IsFilling(w.words, Filler(w, n, ds).value)
  {
    NoWords(w.words);
    var ws := FillWordsAreListed(w, n, [], ds);
    hide FillWords;
    assert CutFrom(Spaced(ws), Filler(w, n, ds).value);
  }

  lemma {:induction false} AboutWordsAreListed(w: WordList, n: nat, ws: seq<string>, ds: seq<nat>) returns (more: seq<string>)
    requires AllFrom(w.words, ws) && (ws == [] <==> Spaced(ws) == "") && Listed(w) && |Spaced(ws)| <= Limit(w, n)
    ensures AllFrom(w.words, more) && AboutWords(w, n, Spaced(ws), ds).value == Spaced(more)
    decreases n - |Spaced(ws)|
  {
    hide AllFrom, Spaced, AboutWords, Listed;
    more := ws;
    var b := Spaced(ws);
    if |b| < n {
      AboutTurn(w, n, b, ds);
      var room := if |b| > 0 then Limit(w, n) - |b| - 1 else Limit(w, n) - |b|;
      if room >= Shortest(w) {
        var pick := Intn(ds, Count(w, room));
        ListedWord(w, w.words[pick.value]);
        OneMore(w.words, ws, w.words[pick.value]);
        assert |b| == 0 ==> b + w.words[pick.value] == w.words[pick.value];
        more := AboutWordsAreListed(w, n, ws + [w.words[pick.value]], pick.rest);
      }
    } else {
      AboutStops(w, n, b, ds);
    }
  }

  /** Masked free text is listed words in a row, of the length a CHECK asks for, or about the
      input's own length where it fits the column, and never longer than the column. */
  lemma FreeTextIsListedWords(l: Lists, c: Open, len: nat, ds: seq<nat>)
    requires len >= 1
    ensures FreeTextMask(l, c, len, ds).Text?
    ensures var t := FreeTextMask(l, c, len, ds).text;
      if c.checkLength > 0 && (c.maxLen <= 0 || c.checkLength <= c.maxLen)
      then |t| == c.checkLength && IsFilling(l.fillers.words, t)
      else
        && 1 <= |t| <= 4096 && (c.maxLen > 0 ==> |t| <= c.maxLen)
        && (IsFilling(l.fillers.words, t) || exists ws :: AllFrom(l.fitted.words, ws) && t == Spaced(ws))
        && (len <= 4096 && (c.maxLen > 0 ==> len <= c.maxLen) ==> len - Shortest(l.fitted) <= |t| <= Max(len, Longest(l.fitted)))
  {
    hide Filler, AboutWords, IsFilling, AllFrom, Spaced;
    if FreeTextExact(c) > 0 {
      FillersAreListed(l.fillers, FreeTextExact(c), ds);
    } else if len > FreeTextMax(c) {
      var length := Intn(ds, FreeTextMax(c));
      FillersAreListed(l.fillers, 1 + length.value, length.rest);
    } else if FreeTextMax(c) < Longest(l.fitted) {
      FillersAreListed(l.fitted, len, ds);
      FittedAreFillers(l, FreeTextMask(l, c, len, ds).text);
    } else {
      NoWords(l.fitted.words);
      AboutIsNotEmpty(l, len, ds);
      var ws := AboutWordsAreListed(l.fitted, len, [], ds);
    }
  }

  lemma AboutIsNotEmpty(l: Lists, len: nat, ds: seq<nat>)
    requires len >= 1
    ensures |AboutWords(l.fitted, len, "", ds).value| >= 1
  {
    var w := l.fitted;
    AboutTurn(w, len, "", ds);
    assert Limit(w, len) >= Longest(w) >= Shortest(w);
  }

  lemma FittedAreFillers(l: Lists, s: string)
    requires IsFilling(l.fitted.words, s)
    ensures IsFilling(l.fillers.words, s)
  {
    var ws :| AllFrom(l.fitted.words, ws) && CutFrom(Spaced(ws), s);
    assert AllFrom(l.fillers.words, ws);
  }

  lemma GenericTextIsListedWords(l: Lists, c: Open, ds: seq<nat>)
    ensures GenericTextMask(l, c, ds).Text? && IsFilling(l.fillers.words, GenericTextMask(l, c, ds).text)
    ensures 1 <= |GenericTextMask(l, c, ds).text| <= 4096
  {
    hide Filler, IsFilling;
    var size := Intn(ds, FreeTextMax(c));
    FillersAreListed(l.fillers, 1 + size.value, size.rest);
  }

  // ---------- UUIDs ----------

  /** Thirty-six characters, dashes after 8, 13, 18 and 23, version 4 and its variant, and
      otherwise lower-case hexadecimal digits. */
  predicate IsUuid4(t: string) {
    && |t| == 36
    && (forall i :: 0 <= i < 36 ==> if i in {8, 13, 18, 23} then t[i] == '-' else t[i] in "0123456789abcdef")
    && t[14] == '4' && t[19] in "89ab"
  }

  /** Where the first hex digit of byte i stands. */
  function At(i: nat): nat {
    2 * i + (if i >= 10 then 4 else if i >= 8 then 3 else if i >= 6 then 2 else if i >= 4 then 1 else 0)
  }

  /** What may stand at place p of a UUID. */
  predicate RightAt(p: nat, ch: char) {
    if p in {8, 13, 18, 23} then ch == '-' else ch in "0123456789abcdef" && (p == 14 ==> ch == '4') && (p == 19 ==> ch in "89ab")
  }

  lemma HexDigit(v: nat)
    requires v < 16
    ensures Symbol(Hex, v) in "0123456789abcdef"
    ensures 8 <= v < 12 ==> Symbol(Hex, v) in "89ab"
    ensures v == 4 ==> Symbol(Hex, v) == '4'
  {
    assert "0123456789abcdef"[v] == Symbol(Hex, v);
    assert 8 <= v < 12 ==> "89ab"[v - 8] == Symbol(Hex, v);
  }

  lemma ByteIsRight(b: string, i: nat)
    requires Bytes16(b) && i < 16
    ensures var v := Stamped(b, i) as int; v < 256 && |HexPair(v)| == 2
    ensures var x := HexPair(Stamped(b, i) as int); RightAt(At(i), x[0]) && RightAt(At(i) + 1, x[1])
  {
    var v := Stamped(b, i) as int;
    HexDigit(v / 16);
    HexDigit(v % 16);
    assert i == 6 ==> v / 16 == 4;
    assert i == 8 ==> 8 <= v / 16 < 12;
  }

  lemma {:induction false} UuidIsRight(b: string, i: nat)
    requires Bytes16(b) && i <= 16
    ensures forall p :: 0 <= p < |UuidText(b, i)| ==> RightAt(p, UuidText(b, i)[p])
  {
    hide RightAt, Stamped, HexPair;
    if i > 0 {
      UuidIsRight(b, i - 1);
      ByteIsRight(b, i - 1);
      ByteIsPlaced(b, i - 1);
      hide At;
      var dash := if i - 1 == 4 || i - 1 == 6 || i - 1 == 8 || i - 1 == 10 then "-" else "";
      var x := HexPair(Stamped(b, i - 1) as int);
      AppendedRight(UuidText(b, i - 1), dash, x);
    }
  }

  lemma AppendedRight(t: string, dash: string, x: string)
    requires forall p :: 0 <= p < |t| ==> RightAt(p, t[p])
    requires dash == "" || (dash == "-" && RightAt(|t|, '-'))
    requires |x| == 2 && RightAt(|t| + |dash|, x[0]) && RightAt(|t| + |dash| + 1, x[1])
    ensures forall p :: 0 <= p < |t + dash + x| ==> RightAt(p, (t + dash + x)[p])
  {
    hide RightAt;
    var whole := t + dash + x;
    forall p | 0 <= p < |whole| ensures RightAt(p, whole[p]) {
      if p < |t| {
        assert whole[p] == t[p];
      } else if p >= |t| + |dash| {
        assert whole[p] == x[p - |t| - |dash|];
      }
    }
  }

  /** After its dash, if it has one, byte i comes at its place. */
  lemma ByteIsPlaced(b: string, i: nat)
    requires Bytes16(b) && i < 16
    ensures var t, dash := UuidText(b, i), if i == 4 || i == 6 || i == 8 || i == 10 then "-" else "";
      |t| + |dash| == At(i) && (dash != "" ==> RightAt(|t|, '-'))
  {
    UuidLength(b, i);
  }

  lemma UuidsAreVersion4(ds: seq<nat>)
    ensures IsUuid4(UuidFrom(ds))
  {
    SymbolsAreBytes(16, ds);
    var b := Symbols(Byte, 16, ds).value;
    UuidLength(b, 16);
    UuidIsRight(b, 16);
    hide UuidText;
    var t := UuidText(b, 16);
    assert |t| == 36 && RightAt(14, t[14]) && RightAt(19, t[19]);
    forall i | 0 <= i < 36 ensures if i in {8, 13, 18, 23} then t[i] == '-' else t[i] in "0123456789abcdef" {
      assert RightAt(i, t[i]);
    }
  }

  // ---------- online_id ----------

  /** A filler, an underscore and base32 symbols. */
  ghost predicate IsHandle(l: Lists, t: string) {
    exists x, tail ::
      x in l.fillers.words && 1 <= |tail| <= 13 && Among(tail, "abcdefghijklmnopqrstuvwxyz234567") && t == x + "_" + tail
  }

  /** A link to the reserved host. */
  ghost predicate IsReservedLink(t: string) {
    exists tail :: 1 <= |tail| <= 13 && Among(tail, "abcdefghijklmnopqrstuvwxyz234567") && t == "https://example.invalid/" + tail
  }

  /** A UUID column, or a UUID that fits, is masked by a version-4 UUID, a link by one to the
      reserved host where there is room, and anything else by a handle. */
  lemma OnlineIdsKeepTheirKind(l: Lists, v: ValueShape, c: Open, ds: seq<nat>)
    requires OnlineMask(l, v, c, ds).Text?
    ensures var t := OnlineMask(l, v, c, ds).text;
      if c.typeTag == FamUUID || (v.uuid && (c.maxLen <= 0 || c.maxLen >= 36)) then IsUuid4(t)
      else if v.url && (c.maxLen <= 0 || c.maxLen >= 25) then IsReservedLink(t)
      else IsHandle(l, t)
  {
    hide HandleTail, UuidFrom, IsUuid4, Symbols;
    match OnlineShapeFor(l, v, c)
    case OnlineNone =>
    case OnlineUUID => UuidsAreVersion4(ds);
    case OnlineURL(n) => LinkIs(n, ds);
    case OnlineHandle(n) =>
      var word := Intn(ds, HandleWords(l, c));
      HandleIs(l, c, n, word.value, word.rest);
  }

  lemma LinkIs(n: nat, ds: seq<nat>)
    requires 1 <= n <= 13
    ensures IsReservedLink(URL_PREFIX + Symbols(Base32, n, ds).value)
  {
    Base32Symbols(n, ds);
  }

  lemma HandleIs(l: Lists, c: Constraints, n: nat, i: nat, ds: seq<nat>)
    requires n == HandleTail(l, c) && n >= 1 && i < |l.fillers.words|
    ensures IsHandle(l, l.fillers.words[i] + "_" + Symbols(Base32, n, ds).value)
  {
    Base32Symbols(n, ds);
  }

  // ---------- closed columns ----------

  /** A closed column only ever gets one of its labels. */
  lemma LabelsStayClosed(labels: seq<string>, ds: seq<nat>)
    requires labels != []
    ensures LabelMask(labels, ds).Text? && LabelMask(labels, ds).text in labels
  {
  }
}
