/** The server's text form of an array or a record, split back into the values inside it
    (internal/classify/literal.go:39-170). Text is a sequence of Unicode scalar values;
    every delimiter is ASCII. */
module Literal {
  import opened Common
  import opened Decisions

  // ---------- strings.TrimSpace ----------

  predicate IsSpace(c: char) {
    '\t' <= c <= '\r' || c == ' ' || c == '\U{0085}' || c == '\U{00A0}' || c == '\U{1680}'
    || '\U{2000}' <= c <= '\U{200A}' || c == '\U{2028}' || c == '\U{2029}' || c == '\U{202F}'
    || c == '\U{205F}' || c == '\U{3000}'
  }

  function TrimLeft(s: string): string {
    if s != "" && IsSpace(s[0]) then TrimLeft(s[1..]) else s
  }

  function TrimRight(s: string): string {
    if s != "" && IsSpace(s[|s| - 1]) then TrimRight(s[..|s| - 1]) else s
  }

  function TrimSpace(s: string): string {
    TrimRight(TrimLeft(s))
  }

  /** No space at either end. */
  predicate Trim(s: string) {
    s == "" || (!IsSpace(s[0]) && !IsSpace(s[|s| - 1]))
  }

  lemma {:induction false} TrimLeftShortens(s: string)
    ensures |TrimLeft(s)| <= |s| && (TrimLeft(s) == s <==> s == "" || !IsSpace(s[0]))
  {
    if s != "" && IsSpace(s[0]) {
      TrimLeftShortens(s[1..]);
    }
  }

  lemma {:induction false} TrimRightShortens(s: string)
    ensures |TrimRight(s)| <= |s| && (TrimRight(s) == s <==> s == "" || !IsSpace(s[|s| - 1]))
  {
    if s != "" && IsSpace(s[|s| - 1]) {
      TrimRightShortens(s[..|s| - 1]);
    }
  }

  lemma TrimSpaceShortens(s: string)
    ensures |TrimSpace(s)| <= |s| && (|TrimSpace(s)| == |s| ==> TrimSpace(s) == s)
    ensures TrimSpace(s) == s <==> Trim(s)
  {
    TrimLeftShortens(s);
    TrimRightShortens(TrimLeft(s));
    if |TrimLeft(s)| == |s| {
      assert TrimLeft(s) == s by {
        if s != "" && IsSpace(s[0]) {
          TrimLeftShortens(s[1..]);
        }
      }
    }
    if |TrimSpace(s)| == |s| {
      SameLengthRight(TrimLeft(s));
    }
  }

  lemma SameLengthRight(s: string)
    requires |TrimRight(s)| == |s|
    ensures TrimRight(s) == s
  {
    if s != "" && IsSpace(s[|s| - 1]) {
      TrimRightShortens(s[..|s| - 1]);
    }
  }

  // ---------- splitLiteral ----------

  datatype Field = Field(text: string, quoted: bool)

  function Value(f: Field): string {
    if f.quoted then f.text else TrimSpace(f.text)
  }

  datatype Reader = Reader(
    out: seq<Field>,
    cur: string,
    depth: int,
    inQuotes: bool,
    escaped: bool,
    quoted: bool,
    started: bool)

  const FRESH := Reader([], "", 0, false, false, false, false)

  function Flushed(r: Reader): Reader {
    r.(out := if r.started then r.out + [Field(r.cur, r.quoted)] else r.out,
       cur := "", quoted := false, started := false)
  }

  function OneMore(r: Reader, c: char): Reader {
    r.(cur := r.cur + [c])
  }

  /** What the rest of a literal makes of the reader's state. */
  function ReadFrom(s: string, r: Reader, open: char, closer: char): Option<seq<Field>>
    decreases |s|
  {
    if s == "" then
      if r.depth != 0 || r.inQuotes || r.escaped then None else Some(r.out)
    else
      var c, more := s[0], s[1..];
      if r.escaped then ReadFrom(more, OneMore(r, c).(started := true, escaped := false), open, closer)
      else if r.inQuotes && c == '\\' then ReadFrom(more, r.(escaped := true), open, closer)
      else if r.inQuotes && c == '"' then
        if more != "" && more[0] == '"' then ReadFrom(more[1..], OneMore(r, '"'), open, closer)
        else ReadFrom(more, r.(inQuotes := false), open, closer)
      else if r.inQuotes then ReadFrom(more, OneMore(r, c), open, closer)
      else if c == '"' then ReadFrom(more, r.(inQuotes := true, quoted := true, started := true), open, closer)
      else if c == open then ReadFrom(more, r.(depth := r.depth + 1), open, closer)
      else if c == closer then
        if r.depth - 1 < 0 then None
        else ReadFrom(more, Flushed(r).(depth := r.depth - 1), open, closer)
      else if c == ',' then ReadFrom(more, Flushed(r), open, closer)
      else ReadFrom(more, OneMore(r, c).(started := true), open, closer)
  }

  function Split(s: string, open: char, closer: char): Option<seq<Field>> {
    if |s| < 2 || s[0] != open || s[|s| - 1] != closer then None else ReadFrom(s, FRESH, open, closer)
  }

  method SplitLiteral(s: string, open: char, closer: char) returns (fields: Option<seq<Field>>)
    ensures fields == Split(s, open, closer)
  {
    if |s| < 2 || s[0] != open || s[|s| - 1] != closer {
      return None;
    }
    var out: seq<Field>, cur, depth := [], "", 0;
    var inQuotes, escaped, quoted, started := false, false, false, false;
    var i := 0;
    assert s[0..] == s;
    while i < |s|
      invariant 0 <= i <= |s|
      invariant ReadFrom(s[i..], Reader(out, cur, depth, inQuotes, escaped, quoted, started), open, closer)
             == ReadFrom(s, FRESH, open, closer)
      decreases |s| - i
    {
      var c := s[i];
      assert s[i..][1..] == s[i + 1..];
      assert i + 1 < |s| ==> s[i + 1..][1..] == s[i + 2..] && s[i + 1..][0] == s[i + 1];
      if escaped {
        cur := cur + [c];
        started, escaped := true, false;
      } else if inQuotes && c == '\\' {
        escaped := true;
      } else if inQuotes && c == '"' {
        if i + 1 < |s| && s[i + 1] == '"' {
          cur := cur + "\"";
          i := i + 2;
          continue;
        }
        inQuotes := false;
      } else if inQuotes {
        cur := cur + [c];
      } else if c == '"' {
        inQuotes, quoted, started := true, true, true;
      } else if c == open {
        depth := depth + 1;
      } else if c == closer {
        if started {
          out := out + [Field(cur, quoted)];
        }
        cur, quoted, started := "", false, false;
        depth := depth - 1;
        if depth < 0 {
          return None;
        }
      } else if c == ',' {
        if started {
          out := out + [Field(cur, quoted)];
        }
        cur, quoted, started := "", false, false;
      } else {
        cur := cur + [c];
        started := true;
      }
      i := i + 1;
    }
    if depth != 0 || inQuotes || escaped {
      return None;
    }
    return Some(out);
  }

  // ---------- what is refused ----------

  /** The brackets of s that stand outside quotes; none if a quote or an escape is left open. */
  function Brackets(s: string, inQuotes: bool, open: char, closer: char): Option<string>
    decreases |s|
  {
    if s == "" then (if inQuotes then None else Some(""))
    else if inQuotes && s[0] == '\\' then if |s| == 1 then None else Brackets(s[2..], true, open, closer)
    else if s[0] == '"' then Brackets(s[1..], !inQuotes, open, closer)
    else if !inQuotes && (s[0] == open || s[0] == closer) then
      match Brackets(s[1..], inQuotes, open, closer) case None => None case Some(rest) => Some([s[0]] + rest)
    else Brackets(s[1..], inQuotes, open, closer)
  }

  function Balance(b: string, open: char): int {
    if b == "" then 0 else Balance(b[..|b| - 1], open) + if b[|b| - 1] == open then 1 else -1
  }

  /** No prefix closes more than it opens, and all that opens is closed. */
  predicate Balanced(b: string, depth: int, open: char) {
    depth + Balance(b, open) == 0 && forall k :: 0 < k <= |b| ==> depth + Balance(b[..k], open) >= 0
  }

  lemma {:induction false} BalanceTakesTheFirst(b: string, open: char)
    requires b != ""
    ensures Balance(b, open) == Balance(b[1..], open) + if b[0] == open then 1 else -1
  {
    if |b| > 1 {
      BalanceTakesTheFirst(b[..|b| - 1], open);
      assert b[..|b| - 1][1..] == b[1..][..|b| - 2];
    } else {
      assert b[1..] == "" && b[..0] == "";
    }
  }

  lemma BalancedStep(b: string, depth: int, open: char)
    requires b != ""
    ensures var d := depth + if b[0] == open then 1 else -1;
      Balanced(b, depth, open) <==> d >= 0 && Balanced(b[1..], d, open)
  {
    var d := depth + if b[0] == open then 1 else -1;
    BalanceTakesTheFirst(b, open);
    assert b[..1][..0] == "" && Balance(b[..1], open) == d - depth;
    forall k | 1 < k <= |b| ensures depth + Balance(b[..k], open) == d + Balance(b[1..][..k - 1], open) {
      BalanceTakesTheFirst(b[..k], open);
      assert b[..k][1..] == b[1..][..k - 1];
    }
    if d >= 0 && Balanced(b[1..], d, open) {
      forall k | 0 < k <= |b| ensures depth + Balance(b[..k], open) >= 0 {
        if k > 1 {
          assert 0 < k - 1 <= |b[1..]|;
        }
      }
    }
    if Balanced(b, depth, open) {
      forall k | 0 < k <= |b[1..]| ensures d + Balance(b[1..][..k], open) >= 0 {
        assert 1 < k + 1 <= |b|;
        assert depth + Balance(b[..k + 1], open) >= 0;
      }
    }
  }

  predicate Readable(s: string, inQuotes: bool, depth: int, open: char, closer: char) {
    var b := Brackets(s, inQuotes, open, closer);
    b.Some? && Balanced(b.value, depth, open)
  }

  lemma {:induction false} ReadableIff(s: string, r: Reader, open: char, closer: char)
    requires open != closer && open !in {'"', '\\', ','} && closer !in {'"', '\\', ','}
    requires !r.escaped && r.depth >= 0
    ensures ReadFrom(s, r, open, closer).Some? <==> Readable(s, r.inQuotes, r.depth, open, closer)
    decreases |s|, 1
  {
    hide Balanced, Balance;
    if s == "" {
      BalancedInNothing(r.depth, open);
    } else {
      var c, more := s[0], s[1..];
      if r.inQuotes && c == '\\' {
        if more != "" {
          assert more[1..] == s[2..];
          ReadableIff(more[1..], OneMore(r.(escaped := true), more[0]).(started := true, escaped := false), open, closer);
        }
      } else if r.inQuotes && c == '"' {
        if more != "" && more[0] == '"' {
          assert Brackets(more, false, open, closer) == Brackets(more[1..], true, open, closer);
          ReadableIff(more[1..], OneMore(r, '"'), open, closer);
        } else {
          ReadableIff(more, r.(inQuotes := false), open, closer);
        }
      } else if r.inQuotes {
        ReadableIff(more, OneMore(r, c), open, closer);
      } else if c == '"' {
        ReadableIff(more, r.(inQuotes := true, quoted := true, started := true), open, closer);
      } else if c == open || c == closer {
        BracketRead(s, r, open, closer);
      } else if c == ',' {
        ReadableIff(more, Flushed(r), open, closer);
      } else {
        ReadableIff(more, OneMore(r, c).(started := true), open, closer);
      }
    }
  }

  lemma {:induction false} BracketRead(s: string, r: Reader, open: char, closer: char)
    requires open != closer && open !in {'"', '\\', ','} && closer !in {'"', '\\', ','}
    requires !r.escaped && !r.inQuotes && r.depth >= 0 && s != "" && (s[0] == open || s[0] == closer)
    ensures ReadFrom(s, r, open, closer).Some? <==> Readable(s, false, r.depth, open, closer)
    decreases |s|, 0
  {
    hide Balanced, Balance;
    var d := r.depth + if s[0] == open then 1 else -1;
    var rest := Brackets(s[1..], false, open, closer);
    if rest.Some? {
      BalancedStep([s[0]] + rest.value, r.depth, open);
      assert ([s[0]] + rest.value)[1..] == rest.value;
    }
    if d >= 0 {
      ReadableIff(s[1..], (if s[0] == open then r else Flushed(r)).(depth := d), open, closer);
    }
  }

  lemma BalancedInNothing(depth: int, open: char)
    ensures Balanced("", depth, open) <==> depth == 0
  {
  }

  /** A literal is refused exactly when it does not stand between its brackets, leaves a quote
      or an escape open, or its brackets outside quotes do not nest. */
  lemma SplitFailsIff(s: string, open: char, closer: char)
    requires open != closer && open !in {'"', '\\', ','} && closer !in {'"', '\\', ','}
    ensures Split(s, open, closer).None? <==>
      |s| < 2 || s[0] != open || s[|s| - 1] != closer || !Readable(s, false, 0, open, closer)
  {
    hide Readable, ReadFrom;
    ReadableIff(s, FRESH, open, closer);
  }

  // ---------- reading what is between two separators ----------

  predicate Clean(r: Reader) {
    r.cur == "" && !r.inQuotes && !r.escaped && !r.quoted && !r.started
  }

  predicate Delimits(c: char, open: char, closer: char) {
    c == '"' || c == ',' || c == open || c == closer
  }

  /** A separator or the end of the literal's list comes next, not a quote. */
  predicate EndsField(rest: string) {
    rest != "" && rest[0] != '"'
  }

  lemma {:induction false} PlainIsRead(p: string, rest: string, r: Reader, open: char, closer: char)
    requires !r.inQuotes && !r.escaped
    requires forall i :: 0 <= i < |p| ==> !Delimits(p[i], open, closer)
    ensures ReadFrom(p + rest, r, open, closer)
         == ReadFrom(rest, r.(cur := r.cur + p, started := r.started || p != ""), open, closer)
  {
    if p == "" {
      assert p + rest == rest && r.cur + p == r.cur;
    } else {
      var next := OneMore(r, p[0]).(started := true);
      assert (p + rest)[1..] == p[1..] + rest && next.cur + p[1..] == r.cur + p;
      PlainIsRead(p[1..], rest, next, open, closer);
    }
  }

  /** A special character inside quotes: escaped by a backslash, or doubled. */
  datatype Style = Backslash | Doubling

  predicate Special(c: char) {
    c == '"' || c == '\\'
  }

  function Escaped(p: string, style: Style): string {
    if p == "" then ""
    else (if Special(p[0]) then [if style.Backslash? then '\\' else p[0], p[0]] else [p[0]]) + Escaped(p[1..], style)
  }

  /** Either way of escaping is undone, up to the quote that closes the field. */
  lemma {:induction false} EscapedIsRead(p: string, style: Style, rest: string, r: Reader, open: char, closer: char)
    requires r.inQuotes && !r.escaped && r.started && EndsField(rest)
    ensures ReadFrom(Escaped(p, style) + ("\"" + rest), r, open, closer)
         == ReadFrom(rest, r.(cur := r.cur + p, inQuotes := false), open, closer)
  {
    hide ReadFrom;
    var s := Escaped(p, style) + ("\"" + rest);
    if p == "" {
      assert s == "\"" + rest && r.cur + p == r.cur;
      ClosingQuote(rest, r, open, closer);
    } else {
      var next := OneMore(r, p[0]);
      var more := Escaped(p[1..], style) + ("\"" + rest);
      assert next.cur + p[1..] == r.cur + p;
      OneSpecial(p[0], style, more, r, open, closer);
      EscapedIsRead(p[1..], style, rest, next, open, closer);
      assert s == (if Special(p[0]) then [if style.Backslash? then '\\' else p[0], p[0]] else [p[0]]) + more;
    }
  }

  lemma ClosingQuote(rest: string, r: Reader, open: char, closer: char)
    requires r.inQuotes && !r.escaped && EndsField(rest)
    ensures ReadFrom("\"" + rest, r, open, closer) == ReadFrom(rest, r.(inQuotes := false), open, closer)
  {
    assert ("\"" + rest)[1..] == rest;
  }

  lemma OneSpecial(c: char, style: Style, more: string, r: Reader, open: char, closer: char)
    requires r.inQuotes && !r.escaped && r.started
    ensures var s := (if Special(c) then [if style.Backslash? then '\\' else c, c] else [c]) + more;
      ReadFrom(s, r, open, closer) == ReadFrom(more, OneMore(r, c), open, closer)
  {
    var s := (if Special(c) then [if style.Backslash? then '\\' else c, c] else [c]) + more;
    if Special(c) {
      assert s[1..][0] == c && s[1..][1..] == more;
      assert s[1..] != "";
    } else {
      assert s[1..] == more;
    }
  }

  lemma QuotedIsRead(p: string, style: Style, rest: string, r: Reader, open: char, closer: char)
    requires Clean(r) && EndsField(rest)
    ensures ReadFrom("\"" + Escaped(p, style) + "\"" + rest, r, open, closer)
         == ReadFrom(rest, r.(cur := p, quoted := true, started := true), open, closer)
  {
    hide Escaped;
    var inside := r.(inQuotes := true, quoted := true, started := true);
    OpeningQuote(Escaped(p, style) + ("\"" + rest), r, open, closer);
    EscapedIsRead(p, style, rest, inside, open, closer);
    Regrouped("\"", Escaped(p, style), "\"", rest);
    assert "" + p == p;
  }

  lemma OpeningQuote(body: string, r: Reader, open: char, closer: char)
    requires Clean(r)
    ensures ReadFrom("\"" + body, r, open, closer)
         == ReadFrom(body, r.(inQuotes := true, quoted := true, started := true), open, closer)
  {
    assert ("\"" + body)[1..] == body;
  }

  // ---------- arrays ----------

  /** A nested array as the server holds it; a leaf is one element, None for NULL. */
  datatype Nested = Leaf(text: Option<string>) | Array(items: seq<Nested>)

  /** Spells NULL in any case. */
  predicate SpellsNull(s: string) {
    |s| == 4 && LowerChar(s[0]) == 'n' && LowerChar(s[1]) == 'u' && LowerChar(s[2]) == 'l' && LowerChar(s[3]) == 'l'
  }

  /** When the server quotes an array element (PostgreSQL manual, section 8.15.6). */
  predicate ElementIsQuoted(s: string) {
    s == "" || SpellsNull(s) ||
    exists i :: 0 <= i < |s| && (Special(s[i]) || s[i] == '{' || s[i] == '}' || s[i] == ',' || AsciiSpace(s[i]))
  }

  function PrintElement(s: string): string {
    if ElementIsQuoted(s) then "\"" + Escaped(s, Backslash) + "\"" else s
  }

  function PrintArray(a: Nested): string {
    match a
    case Leaf(None) => "NULL"
    case Leaf(Some(s)) => PrintElement(s)
    case Array(items) => "{" + PrintItems(items) + "}"
  }

  function PrintItems(items: seq<Nested>): string {
    if items == [] then ""
    else if |items| == 1 then PrintArray(items[0])
    else PrintArray(items[0]) + "," + PrintItems(items[1..])
  }

  /** The non-NULL leaves, in order. */
  function Leaves(a: Nested): seq<string> {
    match a
    case Leaf(None) => []
    case Leaf(Some(s)) => [s]
    case Array(items) => LeavesOf(items)
  }

  function LeavesOf(items: seq<Nested>): seq<string> {
    if items == [] then [] else Leaves(items[0]) + LeavesOf(items[1..])
  }

  function Fields(a: Nested): seq<Field> {
    match a
    case Leaf(None) => [Field("NULL", false)]
    case Leaf(Some(s)) => [Field(s, ElementIsQuoted(s))]
    case Array(items) => FieldsOf(items)
  }

  function FieldsOf(items: seq<Nested>): seq<Field> {
    if items == [] then [] else Fields(items[0]) + FieldsOf(items[1..])
  }

  /** The reader after a printed element, with no separator seen yet. */
  function Pending(r: Reader, a: Nested): Reader {
    match a
    case Leaf(None) => r.(cur := "NULL", started := true)
    case Leaf(Some(s)) => r.(cur := s, quoted := ElementIsQuoted(s), started := true)
    case Array(items) => r.(out := r.out + FieldsOf(items))
  }

  function PendingItems(r: Reader, items: seq<Nested>): Reader
    decreases |items|
  {
    if items == [] then r
    else if |items| == 1 then Pending(r, items[0])
    else PendingItems(r.(out := r.out + Fields(items[0])), items[1..])
  }

  lemma FlushTakesItem(r: Reader, a: Nested)
    requires Clean(r)
    ensures Flushed(Pending(r, a)) == r.(out := r.out + Fields(a))
    ensures Pending(r, a).depth == r.depth && !Pending(r, a).inQuotes && !Pending(r, a).escaped
  {
    hide ElementIsQuoted, FieldsOf;
  }

  lemma {:induction false} FlushTakesItems(r: Reader, items: seq<Nested>)
    requires Clean(r)
    ensures Flushed(PendingItems(r, items)) == r.(out := r.out + FieldsOf(items))
    ensures PendingItems(r, items).depth == r.depth
    ensures !PendingItems(r, items).inQuotes && !PendingItems(r, items).escaped
    decreases |items|
  {
    hide ElementIsQuoted, Fields;
    if items == [] {
      assert r.out + [] == r.out;
    } else if |items| == 1 {
      hide Pending;
      assert FieldsOf(items[1..]) == [] && FieldsOf(items) == Fields(items[0]);
      FlushTakesItem(r, items[0]);
    } else {
      hide Pending, Flushed;
      var next := r.(out := r.out + Fields(items[0]));
      FlushTakesItems(next, items[1..]);
      assert r.out + FieldsOf(items) == next.out + FieldsOf(items[1..]);
    }
  }

  lemma {:induction false} ArrayIsRead(a: Nested, rest: string, r: Reader)
    requires Clean(r) && r.depth >= 0 && EndsField(rest)
    ensures ReadFrom(PrintArray(a) + rest, r, '{', '}') == ReadFrom(rest, Pending(r, a), '{', '}')
    decreases a
  {
    match a
    case Leaf(None) =>
      assert "" + "NULL" == "NULL";
      PlainIsRead("NULL", rest, r, '{', '}');
    case Leaf(Some(s)) =>
      if ElementIsQuoted(s) {
        QuotedIsRead(s, Backslash, rest, r, '{', '}');
      } else {
        assert "" + s == s;
        PlainIsRead(s, rest, r, '{', '}');
      }
    case Array(items) =>
      BracesAreRead(items, rest, r);
  }

  lemma {:induction false} BracesAreRead(items: seq<Nested>, rest: string, r: Reader)
    requires Clean(r) && r.depth >= 0 && EndsField(rest)
    ensures ReadFrom("{" + PrintItems(items) + "}" + rest, r, '{', '}')
         == ReadFrom(rest, r.(out := r.out + FieldsOf(items)), '{', '}')
    decreases items, 1
  {
    hide PrintItems, FieldsOf, PendingItems;
    var inner := r.(depth := r.depth + 1);
    OpeningBrace(PrintItems(items) + ("}" + rest), r);
    ItemsAreRead(items, "}" + rest, inner);
    FlushTakesItems(inner, items);
    ClosingBrace(rest, PendingItems(inner, items));
    Regrouped("{", PrintItems(items), "}", rest);
  }

  lemma OpeningBrace(body: string, r: Reader)
    requires Clean(r)
    ensures ReadFrom("{" + body, r, '{', '}') == ReadFrom(body, r.(depth := r.depth + 1), '{', '}')
  {
    assert ("{" + body)[1..] == body;
  }

  lemma ClosingBrace(rest: string, r: Reader)
    requires !r.inQuotes && !r.escaped && r.depth >= 1
    ensures ReadFrom("}" + rest, r, '{', '}') == ReadFrom(rest, Flushed(r).(depth := r.depth - 1), '{', '}')
  {
    assert ("}" + rest)[1..] == rest;
  }

  lemma Comma(rest: string, r: Reader, open: char, closer: char)
    requires !r.inQuotes && !r.escaped && open != ',' && closer != ','
    ensures ReadFrom("," + rest, r, open, closer) == ReadFrom(rest, Flushed(r), open, closer)
  {
    assert ("," + rest)[1..] == rest;
  }

  lemma FieldsOfOne(a: Nested)
    ensures FieldsOf([a]) == Fields(a)
  {
    assert FieldsOf([a][1..]) == [];
  }

  lemma {:induction false} ItemsAreRead(items: seq<Nested>, rest: string, r: Reader)
    requires Clean(r) && r.depth >= 0 && EndsField(rest)
    ensures ReadFrom(PrintItems(items) + rest, r, '{', '}') == ReadFrom(rest, PendingItems(r, items), '{', '}')
    decreases items, 0
  {
    hide ReadFrom, PrintArray, FieldsOf;
    if items == [] {
      assert "" + rest == rest;
    } else if |items| == 1 {
      ArrayIsRead(items[0], rest, r);
    } else {
      var more := PrintItems(items[1..]) + rest;
      assert PrintItems(items) + rest == PrintArray(items[0]) + ("," + more);
      ArrayIsRead(items[0], "," + more, r);
      Comma(more, Pending(r, items[0]), '{', '}');
      FlushTakesItems(r, [items[0]]);
      FieldsOfOne(items[0]);
      ItemsAreRead(items[1..], rest, r.(out := r.out + Fields(items[0])));
    }
  }

  // ---------- records ----------

  /** When the server quotes a field of a record (PostgreSQL manual, section 8.16.6). */
  predicate FieldIsQuoted(s: string) {
    s == "" ||
    exists i :: 0 <= i < |s| && (Special(s[i]) || s[i] == '(' || s[i] == ')' || s[i] == ',' || AsciiSpace(s[i]))
  }

  /** A NULL field is written as nothing at all. */
  function PrintField(f: Option<string>): string {
    match f
    case None => ""
    case Some(s) => if FieldIsQuoted(s) then "\"" + Escaped(s, Doubling) + "\"" else s
  }

  function PrintFields(fields: seq<Option<string>>): string {
    if fields == [] then ""
    else if |fields| == 1 then PrintField(fields[0])
    else PrintField(fields[0]) + "," + PrintFields(fields[1..])
  }

  function PrintRecord(fields: seq<Option<string>>): string {
    "(" + PrintFields(fields) + ")"
  }

  /** The non-NULL fields, in order. */
  function Present(fields: seq<Option<string>>): seq<string> {
    if fields == [] then []
    else (if fields[0].Some? then [fields[0].value] else []) + Present(fields[1..])
  }

  function RecordFields(texts: seq<string>): (fs: seq<Field>)
    ensures |fs| == |texts|
  {
    seq(|texts|, i requires 0 <= i < |texts| => Field(texts[i], FieldIsQuoted(texts[i])))
  }

  function PendingField(r: Reader, f: Option<string>): Reader {
    match f
    case None => r
    case Some(s) => r.(cur := s, quoted := FieldIsQuoted(s), started := true)
  }

  function PendingFields(r: Reader, fields: seq<Option<string>>): Reader
    decreases |fields|
  {
    if fields == [] then r
    else if |fields| == 1 then PendingField(r, fields[0])
    else PendingFields(Flushed(PendingField(r, fields[0])), fields[1..])
  }

  lemma FlushTakesOne(r: Reader, f: Option<string>)
    requires Clean(r)
    ensures Flushed(PendingField(r, f)) == r.(out := r.out + RecordFields(Present([f])))
    ensures var p := PendingField(r, f); p.depth == r.depth && !p.inQuotes && !p.escaped
  {
    hide FieldIsQuoted;
    assert [f][1..] == [] && Present([]) == [];
    assert r.out + [] == r.out;
  }

  lemma {:induction false} FlushTakesFields(r: Reader, fields: seq<Option<string>>)
    requires Clean(r)
    ensures Flushed(PendingFields(r, fields)) == r.(out := r.out + RecordFields(Present(fields)))
    ensures var p := PendingFields(r, fields); p.depth == r.depth && !p.inQuotes && !p.escaped
    decreases |fields|
  {
    hide FieldIsQuoted, PendingField;
    if fields == [] {
      assert r.out + RecordFields([]) == r.out;
    } else if |fields| == 1 {
      assert fields == [fields[0]];
      FlushTakesOne(r, fields[0]);
    } else {
      hide Flushed;
      var next := Flushed(PendingField(r, fields[0]));
      FlushTakesOne(r, fields[0]);
      FlushTakesFields(next, fields[1..]);
      PresentStep(r.out, fields);
    }
  }

  lemma PresentStep(out: seq<Field>, fields: seq<Option<string>>)
    requires fields != []
    ensures out + RecordFields(Present(fields)) ==
      out + RecordFields(Present([fields[0]])) + RecordFields(Present(fields[1..]))
  {
    var one, more := Present([fields[0]]), Present(fields[1..]);
    assert Present(fields) == one + more by {
      assert [fields[0]][1..] == [] && Present([]) == [];
    }
    hide Present;
    RecordFieldsJoin(one, more);
    hide RecordFields;
    assert out + (RecordFields(one) + RecordFields(more)) == out + RecordFields(one) + RecordFields(more);
  }

  lemma RecordFieldsJoin(a: seq<string>, b: seq<string>)
    ensures RecordFields(a + b) == RecordFields(a) + RecordFields(b)
  {
    hide FieldIsQuoted;
  }

  lemma FieldIsRead(f: Option<string>, rest: string, r: Reader)
    requires Clean(r) && EndsField(rest)
    ensures ReadFrom(PrintField(f) + rest, r, '(', ')') == ReadFrom(rest, PendingField(r, f), '(', ')')
  {
    match f
    case None =>
      assert "" + rest == rest;
    case Some(s) =>
      if FieldIsQuoted(s) {
        QuotedIsRead(s, Doubling, rest, r, '(', ')');
      } else {
        assert "" + s == s;
        PlainIsRead(s, rest, r, '(', ')');
      }
  }

  lemma {:induction false} FieldsAreRead(fields: seq<Option<string>>, rest: string, r: Reader)
    requires Clean(r) && EndsField(rest)
    ensures ReadFrom(PrintFields(fields) + rest, r, '(', ')') == ReadFrom(rest, PendingFields(r, fields), '(', ')')
    decreases |fields|
  {
    hide ReadFrom, PrintField;
    if fields == [] {
      assert "" + rest == rest;
    } else if |fields| == 1 {
      FieldIsRead(fields[0], rest, r);
    } else {
      var more := PrintFields(fields[1..]) + rest;
      assert PrintFields(fields) + rest == PrintField(fields[0]) + ("," + more);
      FieldIsRead(fields[0], "," + more, r);
      Comma(more, PendingField(r, fields[0]), '(', ')');
      FieldsAreRead(fields[1..], rest, Flushed(PendingField(r, fields[0])));
    }
  }

  // ---------- the two splitters ----------

  datatype Form = ArrayForm | RecordForm

  /** An unquoted field that stands for NULL. */
  predicate StandsForNull(form: Form, text: string) {
    match form
    case ArrayForm => SpellsNull(text)
    case RecordForm => text == ""
  }

  function KeptOne(form: Form, f: Field): seq<string> {
    if !f.quoted && StandsForNull(form, TrimSpace(f.text)) then [] else [Value(f)]
  }

  function Kept(form: Form, fields: seq<Field>): seq<string> {
    if fields == [] then [] else Kept(form, fields[..|fields| - 1]) + KeptOne(form, fields[|fields| - 1])
  }

  /** strings.Index(s, "]="). */
  function AfterBounds(s: string): Option<string> {
    if |s| < 2 then None else if s[..2] == "]=" then Some(s[2..]) else AfterBounds(s[1..])
  }

  /** The text of an array with its dimension prefix taken off. */
  function Braces(s: string): Option<string> {
    var t := TrimSpace(s);
    if t == "" || t[0] != '[' then Some(t) else
    match AfterBounds(t)
    case None => None
    case Some(rest) => Some(TrimSpace(rest))
  }

  function SplitArray(s: string): Option<seq<string>> {
    match Braces(s)
    case None => None
    case Some(t) =>
      match Split(t, '{', '}')
      case None => None
      case Some(fields) => Some(Kept(ArrayForm, fields))
  }

  function SplitRecord(s: string): Option<seq<string>> {
    match Split(TrimSpace(s), '(', ')')
    case None => None
    case Some(fields) => Some(Kept(RecordForm, fields))
  }

  method SplitArrayLiteral(s: string) returns (r: Option<seq<string>>)
    ensures r == SplitArray(s)
  {
    var t := TrimSpace(s);
    if t != "" && t[0] == '[' {
      var rest := AfterBounds(t);
      if rest.None? {
        return None;
      }
      t := TrimSpace(rest.value);
    }
    var fields := SplitLiteral(t, '{', '}');
    if fields.None? {
      return None;
    }
    var out: seq<string> := [];
    for i := 0 to |fields.value|
      invariant out == Kept(ArrayForm, fields.value[..i])
    {
      var f := fields.value[i];
      assert fields.value[..i + 1][..i] == fields.value[..i];
      if !f.quoted && SpellsNull(TrimSpace(f.text)) {
        continue;
      }
      out := out + [Value(f)];
    }
    assert fields.value[..|fields.value|] == fields.value;
    return Some(out);
  }

  method SplitCompositeLiteral(s: string) returns (r: Option<seq<string>>)
    ensures r == SplitRecord(s)
  {
    var fields := SplitLiteral(TrimSpace(s), '(', ')');
    if fields.None? {
      return None;
    }
    var out: seq<string> := [];
    for i := 0 to |fields.value|
      invariant out == Kept(RecordForm, fields.value[..i])
    {
      var f := fields.value[i];
      assert fields.value[..i + 1][..i] == fields.value[..i];
      if !f.quoted && TrimSpace(f.text) == "" {
        continue;
      }
      out := out + [Value(f)];
    }
    assert fields.value[..|fields.value|] == fields.value;
    return Some(out);
  }

  // ---------- the reader undoes the printer ----------

  predicate IsQuoted(form: Form, s: string) {
    match form
    case ArrayForm => ElementIsQuoted(s)
    case RecordForm => FieldIsQuoted(s)
  }

  /** What the reader makes of one printed value that is not NULL. */
  function ReadBack(form: Form, s: string): seq<string> {
    if IsQuoted(form, s) then [s] else if StandsForNull(form, TrimSpace(s)) then [] else [TrimSpace(s)]
  }

  function ReadBackAll(form: Form, texts: seq<string>): seq<string> {
    if texts == [] then [] else ReadBack(form, texts[0]) + ReadBackAll(form, texts[1..])
  }

  /** The server quotes it, or no space stands at either end. */
  predicate ReadsBack(form: Form, s: string) {
    IsQuoted(form, s) || Trim(s)
  }

  lemma {:induction false} KeptJoins(form: Form, a: seq<Field>, b: seq<Field>)
    ensures Kept(form, a + b) == Kept(form, a) + Kept(form, b)
  {
    hide KeptOne;
    if b == [] {
      assert a + b == a && Kept(form, a) + [] == Kept(form, a);
    } else {
      var n := |b| - 1;
      var all := a + b;
      assert all[..|all| - 1] == a + b[..n] && all[|all| - 1] == b[n];
      KeptJoins(form, a, b[..n]);
    }
  }

  lemma {:induction false} ReadBackJoins(form: Form, a: seq<string>, b: seq<string>)
    ensures ReadBackAll(form, a + b) == ReadBackAll(form, a) + ReadBackAll(form, b)
  {
    if a == [] {
      assert a + b == b;
    } else {
      assert (a + b)[1..] == a[1..] + b;
      ReadBackJoins(form, a[1..], b);
    }
  }

  lemma KeptOfOne(form: Form, f: Field)
    ensures Kept(form, [f]) == KeptOne(form, f)
  {
    assert [f][..0] == [];
  }

  lemma NullTextIsDropped()
    ensures Kept(ArrayForm, [Field("NULL", false)]) == []
  {
    KeptOfOne(ArrayForm, Field("NULL", false));
    assert TrimSpace("NULL") == "NULL";
  }

  lemma {:induction false} ArrayKeepsLeaves(a: Nested)
    ensures Kept(ArrayForm, Fields(a)) == ReadBackAll(ArrayForm, Leaves(a))
    decreases a
  {
    match a
    case Leaf(None) =>
      NullTextIsDropped();
    case Leaf(Some(s)) =>
      KeptOfOne(ArrayForm, Field(s, ElementIsQuoted(s)));
    case Array(items) =>
      ItemsKeepLeaves(items);
  }

  lemma {:induction false} ItemsKeepLeaves(items: seq<Nested>)
    ensures Kept(ArrayForm, FieldsOf(items)) == ReadBackAll(ArrayForm, LeavesOf(items))
    decreases items
  {
    if items != [] {
      ArrayKeepsLeaves(items[0]);
      ItemsKeepLeaves(items[1..]);
      KeptJoins(ArrayForm, Fields(items[0]), FieldsOf(items[1..]));
      ReadBackJoins(ArrayForm, Leaves(items[0]), LeavesOf(items[1..]));
    }
  }

  lemma {:induction false} RecordKeepsFields(texts: seq<string>)
    ensures Kept(RecordForm, RecordFields(texts)) == ReadBackAll(RecordForm, texts)
  {
    if texts != [] {
      var first := Field(texts[0], FieldIsQuoted(texts[0]));
      assert RecordFields(texts) == [first] + RecordFields(texts[1..]);
      KeptJoins(RecordForm, [first], RecordFields(texts[1..]));
      KeptOfOne(RecordForm, first);
      RecordKeepsFields(texts[1..]);
    }
  }

  function Total(texts: seq<string>): nat {
    if texts == [] then 0 else |texts[0]| + 1 + Total(texts[1..])
  }

  lemma {:induction false} TotalJoins(a: seq<string>, b: seq<string>)
    ensures Total(a + b) == Total(a) + Total(b)
  {
    if a == [] {
      assert a + b == b;
    } else {
      assert (a + b)[1..] == a[1..] + b;
      TotalJoins(a[1..], b);
    }
  }

  lemma ReadBackOne(form: Form, s: string)
    ensures ReadsBack(form, s) ==> ReadBack(form, s) == [s]
    ensures !ReadsBack(form, s) ==> Total(ReadBack(form, s)) < |s| + 1
  {
    TrimSpaceShortens(s);
  }

  lemma {:induction false} ReadBackShrinks(form: Form, texts: seq<string>)
    ensures (forall i :: 0 <= i < |texts| ==> ReadsBack(form, texts[i])) ==> ReadBackAll(form, texts) == texts
    ensures (exists i :: 0 <= i < |texts| && !ReadsBack(form, texts[i])) ==> Total(ReadBackAll(form, texts)) < Total(texts)
    ensures Total(ReadBackAll(form, texts)) <= Total(texts)
  {
    hide ReadsBack, ReadBack;
    if texts != [] {
      ReadBackOne(form, texts[0]);
      ReadBackShrinks(form, texts[1..]);
      TotalJoins(ReadBack(form, texts[0]), ReadBackAll(form, texts[1..]));
      assert [texts[0]] + texts[1..] == texts;
      assert Total([texts[0]]) == |texts[0]| + 1;
      assert forall i :: 0 < i < |texts| ==> texts[i] == texts[1..][i - 1];
    }
  }

  /** A dimension prefix, "[1:2][0:1]=", or none. */
  predicate Bounds(p: string) {
    p == "" || (|p| >= 3 && p[0] == '[' && p[|p| - 2..] == "]=" && '=' !in p[..|p| - 1])
  }

  lemma {:induction false} BoundsAreSkipped(p: string, rest: string)
    requires |p| >= 2 && p[|p| - 2..] == "]=" && '=' !in p[..|p| - 1]
    ensures AfterBounds(p + rest) == Some(rest)
  {
    if |p| == 2 {
      assert (p + rest)[..2] == "]=" && (p + rest)[2..] == rest;
    } else {
      assert p[1] == p[..|p| - 1][1];
      assert (p + rest)[..2][1] == p[1];
      assert (p + rest)[1..] == p[1..] + rest;
      assert forall i :: 0 <= i < |p| - 2 ==> p[1..][i] == p[..|p| - 1][i + 1];
      BoundsAreSkipped(p[1..], rest);
    }
  }

  lemma PrintedIsTrimmed(prefix: string, items: seq<Nested>)
    requires Bounds(prefix)
    ensures Braces(prefix + PrintArray(Array(items))) == Some(PrintArray(Array(items)))
  {
    hide PrintItems;
    var t := PrintArray(Array(items));
    TrimSpaceShortens(t);
    TrimSpaceShortens(prefix + t);
    assert t[0] == '{' && t[|t| - 1] == '}';
    if prefix != "" {
      BoundsAreSkipped(prefix, t);
    } else {
      assert prefix + t == t;
    }
  }

  /** The non-NULL leaves of any nested array, each as ReadBack gives it. */
  lemma ArrayIsReadBack(prefix: string, items: seq<Nested>)
    requires Bounds(prefix)
    ensures SplitArray(prefix + PrintArray(Array(items))) == Some(ReadBackAll(ArrayForm, LeavesOf(items)))
  {
    hide PrintItems, FieldsOf, LeavesOf, Kept, ReadBackAll, ReadFrom;
    PrintedIsTrimmed(prefix, items);
    var t := PrintArray(Array(items));
    assert t[0] == '{' && t[|t| - 1] == '}';
    TopBraces(items);
    ItemsKeepLeaves(items);
  }

  lemma TopBraces(items: seq<Nested>)
    ensures ReadFrom("{" + PrintItems(items) + "}", FRESH, '{', '}') == Some(FieldsOf(items))
  {
    hide PrintItems, FieldsOf, PendingItems;
    var inner := FRESH.(depth := 1);
    OpeningBrace(PrintItems(items) + "}", FRESH);
    ItemsAreRead(items, "}", inner);
    FlushTakesItems(inner, items);
    ClosingBrace("", PendingItems(inner, items));
    assert "}" + "" == "}" && [] + FieldsOf(items) == FieldsOf(items);
    assert "{" + PrintItems(items) + "}" == "{" + (PrintItems(items) + "}");
  }

  /** The array splitter gives back exactly the non-NULL leaves if and only if the server
      quotes every leaf that has a Unicode space at an end. */
  lemma ArrayRoundTripsIff(prefix: string, items: seq<Nested>)
    requires Bounds(prefix)
    ensures SplitArray(prefix + PrintArray(Array(items))) == Some(LeavesOf(items))
       <==> forall i :: 0 <= i < |LeavesOf(items)| ==> ReadsBack(ArrayForm, LeavesOf(items)[i])
  {
    ArrayIsReadBack(prefix, items);
    ReadBackShrinks(ArrayForm, LeavesOf(items));
  }

  lemma TopParentheses(fields: seq<Option<string>>)
    ensures ReadFrom(PrintRecord(fields), FRESH, '(', ')') == Some(RecordFields(Present(fields)))
  {
    hide PrintFields, Present, PendingFields, RecordFields;
    var inner := FRESH.(depth := 1);
    var body := PrintFields(fields) + ")";
    assert PrintRecord(fields) == "(" + body && ("(" + body)[1..] == body;
    assert ReadFrom("(" + body, FRESH, '(', ')') == ReadFrom(body, inner, '(', ')');
    FieldsAreRead(fields, ")", inner);
    FlushTakesFields(inner, fields);
    assert ")"[1..] == "" && [] + RecordFields(Present(fields)) == RecordFields(Present(fields));
  }

  lemma RecordIsReadBack(fields: seq<Option<string>>)
    ensures SplitRecord(PrintRecord(fields)) == Some(ReadBackAll(RecordForm, Present(fields)))
  {
    hide PrintFields, Present, Kept, ReadBackAll, ReadFrom, RecordFields;
    var t := PrintRecord(fields);
    assert t[0] == '(' && t[|t| - 1] == ')';
    TrimSpaceShortens(t);
    TopParentheses(fields);
    RecordKeepsFields(Present(fields));
  }

  /** The record splitter gives back exactly the non-NULL fields under the same condition. */
  lemma RecordRoundTripsIff(fields: seq<Option<string>>)
    ensures SplitRecord(PrintRecord(fields)) == Some(Present(fields))
       <==> forall i :: 0 <= i < |Present(fields)| ==> ReadsBack(RecordForm, Present(fields)[i])
  {
    RecordIsReadBack(fields);
    ReadBackShrinks(RecordForm, Present(fields));
  }

  /** ASCII text reads back, quotes, backslashes, separators and the word NULL included. */
  lemma AsciiReadsBack(form: Form, s: string)
    requires forall i :: 0 <= i < |s| ==> s[i] < '\U{0080}'
    ensures ReadsBack(form, s)
  {
  }

  /** So both splitters undo the server's printer on all ASCII contents. */
  lemma AsciiArraysRoundTrip(prefix: string, items: seq<Nested>)
    requires Bounds(prefix)
    requires forall s :: s in LeavesOf(items) ==> forall i :: 0 <= i < |s| ==> s[i] < '\U{0080}'
    ensures SplitArray(prefix + PrintArray(Array(items))) == Some(LeavesOf(items))
  {
    hide SplitArray, PrintArray, ReadsBack;
    ArrayRoundTripsIff(prefix, items);
    var leaves := LeavesOf(items);
    forall i | 0 <= i < |leaves| ensures ReadsBack(ArrayForm, leaves[i]) {
      AsciiReadsBack(ArrayForm, leaves[i]);
    }
  }

  lemma AsciiRecordsRoundTrip(fields: seq<Option<string>>)
    requires forall s :: s in Present(fields) ==> forall i :: 0 <= i < |s| ==> s[i] < '\U{0080}'
    ensures SplitRecord(PrintRecord(fields)) == Some(Present(fields))
  {
    hide SplitRecord, PrintRecord, ReadsBack;
    RecordRoundTripsIff(fields);
    var texts := Present(fields);
    forall i | 0 <= i < |texts| ensures ReadsBack(RecordForm, texts[i]) {
      AsciiReadsBack(RecordForm, texts[i]);
    }
  }

  /** A name that ends in a no-break space comes back without it, and one that is a
      no-break space before the word null does not come back at all. */
  lemma NoBreakSpaceIsLost()
    ensures SplitArray(PrintArray(Array([Leaf(Some("a\U{00A0}"))]))) == Some(["a"])
    ensures SplitArray(PrintArray(Array([Leaf(Some("\U{00A0}null"))]))) == Some([])
  {
    hide SplitArray, PrintArray;
    var kept, lost := "a\U{00A0}", "\U{00A0}null";
    OneLeaf(kept);
    OneLeaf(lost);
    assert kept[..1] == "a" && TrimRight(kept) == "a";
    assert lost[1..] == "null" && TrimLeft(lost) == "null";
  }

  lemma OneLeaf(s: string)
    ensures SplitArray(PrintArray(Array([Leaf(Some(s))]))) == Some(ReadBack(ArrayForm, s))
  {
    hide SplitArray, PrintArray, ReadBack;
    var items := [Leaf(Some(s))];
    ArrayIsReadBack("", items);
    assert "" + PrintArray(Array(items)) == PrintArray(Array(items));
    LeavesOfOne(s);
  }

  lemma LeavesOfOne(s: string)
    ensures LeavesOf([Leaf(Some(s))]) == [s] && ReadBackAll(ArrayForm, [s]) == ReadBack(ArrayForm, s)
  {
    hide ReadBack;
    var items := [Leaf(Some(s))];
    assert LeavesOf(items[1..]) == [];
    assert ReadBackAll(ArrayForm, [s][1..]) == [];
  }
}
