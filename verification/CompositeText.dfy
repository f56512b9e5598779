/** The field list of a composite type, read back from the catalog's rendering of it
    (internal/classify/types.go:308-389, internal/introspect/sql.go:178-181). */
module CompositeText {
  import opened Common
  import opened Decisions
  import opened Names
  import opened Literal

  datatype Attribute = Attribute(name: string, typ: string)

  // ---------- splitTopLevelCommas ----------

  /** The parts of the rest of a list, `cur` being the part read so far. */
  function PartsFrom(s: string, cur: string, depth: int, inQuote: bool): seq<string> {
    if s == "" then [cur]
    else
      var c, more := s[0], s[1..];
      if c == '"' then PartsFrom(more, cur + [c], depth, !inQuote)
      else if c == '(' && !inQuote then PartsFrom(more, cur + [c], depth + 1, inQuote)
      else if c == ')' && !inQuote then PartsFrom(more, cur + [c], depth - 1, inQuote)
      else if c == ',' && !inQuote && depth == 0 then [cur] + PartsFrom(more, "", depth, inQuote)
      else PartsFrom(more, cur + [c], depth, inQuote)
  }

  method SplitTopLevelCommas(s: string) returns (parts: seq<string>)
    ensures parts == PartsFrom(s, "", 0, false)
  {
    parts := [];
    var depth, inQuote, start := 0, false, 0;
    assert s[0..] == s && s[0..0] == "" && [] + PartsFrom(s, "", 0, false) == PartsFrom(s, "", 0, false);
    for i := 0 to |s|
      invariant start <= i
      invariant parts + PartsFrom(s[i..], s[start..i], depth, inQuote) == PartsFrom(s, "", 0, false)
    {
      assert s[i..][1..] == s[i + 1..] && s[start..i] + [s[i]] == s[start..i + 1];
      match s[i]
      case '"' =>
        inQuote := !inQuote;
      case '(' =>
        if !inQuote {
          depth := depth + 1;
        }
      case ')' =>
        if !inQuote {
          depth := depth - 1;
        }
      case ',' =>
        if !inQuote && depth == 0 {
          ghost var more := PartsFrom(s[i + 1..], "", depth, inQuote);
          assert parts + ([s[start..i]] + more) == (parts + [s[start..i]]) + more;
          parts := parts + [s[start..i]];
          start := i + 1;
          assert s[start..i + 1] == "";
        }
      case _ =>
    }
    assert s[|s|..] == "" && s[start..|s|] == s[start..];
    parts := parts + [s[start..]];
  }

  // ---------- splitFieldNameType ----------

  /** Where the closing quote of a quoted name stands, the length if there is none. */
  function QuoteEnd(s: string): (n: nat)
    ensures n <= |s| && (n < |s| ==> s[n] == '"')
  {
    if s == "" then 0
    else if s[0] != '"' then 1 + QuoteEnd(s[1..])
    else if |s| > 1 && s[1] == '"' then 2 + QuoteEnd(s[2..])
    else 0
  }

  /** strings.ReplaceAll of two quotes by one. */
  function Undoubled(s: string): string {
    if |s| < 2 then s
    else if s[0] == '"' && s[1] == '"' then "\"" + Undoubled(s[2..])
    else [s[0]] + Undoubled(s[1..])
  }

  function FirstSpace(s: string): (n: nat)
    ensures n <= |s| && (n < |s| ==> s[n] == ' ')
  {
    if s == "" || s[0] == ' ' then 0 else 1 + FirstSpace(s[1..])
  }

  function NameAndType(part: string): Option<Attribute> {
    if part == "" || part[0] != '"' then
      var i := FirstSpace(part);
      if i == |part| then None else Some(Attribute(part[..i], TrimSpace(part[i + 1..])))
    else
      var i := 1 + QuoteEnd(part[1..]);
      if i >= |part| then None else
      var rest := TrimSpace(part[i + 1..]);
      if rest == "" then None else Some(Attribute(Undoubled(part[1..i]), rest))
  }

  /** The loop over a quoted name, past the doubled quotes in it. */
  method FindQuoteEnd(part: string) returns (i: nat)
    requires part != ""
    ensures i == 1 + QuoteEnd(part[1..])
  {
    i := 1;
    while i < |part|
      invariant 1 <= i <= |part| && i + QuoteEnd(part[i..]) == 1 + QuoteEnd(part[1..])
      decreases |part| - i
    {
      assert part[i..][1..] == part[i + 1..];
      if part[i] == '"' {
        if i + 1 < |part| && part[i + 1] == '"' {
          assert part[i..][2..] == part[i + 2..];
          i := i + 2;
          continue;
        }
        break;
      }
      i := i + 1;
    }
  }

  method SplitFieldNameType(part: string) returns (a: Option<Attribute>)
    ensures a == NameAndType(part)
  {
    hide QuoteEnd, FirstSpace, TrimSpace, Undoubled;
    if part == "" || part[0] != '"' {
      var i := FirstSpace(part);
      if i == |part| {
        return None;
      }
      return Some(Attribute(part[..i], TrimSpace(part[i + 1..])));
    }
    var i := FindQuoteEnd(part);
    if i >= |part| {
      return None;
    }
    var rest := TrimSpace(part[i + 1..]);
    if rest == "" {
      return None;
    }
    return Some(Attribute(Undoubled(part[1..i]), rest));
  }

  // ---------- compositeFields ----------

  function FirstParen(s: string): (n: nat)
    ensures n <= |s| && (n < |s| ==> s[n] == '(')
  {
    if s == "" || s[0] == '(' then 0 else 1 + FirstParen(s[1..])
  }

  function Attributes(parts: seq<string>): seq<Attribute> {
    if parts == [] then []
    else
      Attributes(parts[..|parts| - 1]) +
      (var part := TrimSpace(parts[|parts| - 1]);
       match (if part == "" then None else NameAndType(part))
       case None => []
       case Some(a) => [a])
  }

  function FieldsOfDef(def: string): seq<Attribute> {
    var open := FirstParen(def);
    if open == |def| || def[|def| - 1] != ')' then []
    else Attributes(PartsFrom(def[open + 1..|def| - 1], "", 0, false))
  }

  method CompositeFields(def: string) returns (fields: seq<Attribute>)
    ensures fields == FieldsOfDef(def)
  {
    hide NameAndType, TrimSpace, PartsFrom, FirstParen;
    var open := FirstParen(def);
    if open == |def| || def[|def| - 1] != ')' {
      return [];
    }
    var parts := SplitTopLevelCommas(def[open + 1..|def| - 1]);
    fields := [];
    for i := 0 to |parts|
      invariant fields == Attributes(parts[..i])
    {
      assert parts[..i + 1][..i] == parts[..i];
      var part := TrimSpace(parts[i]);
      if part == "" {
        continue;
      }
      var a := SplitFieldNameType(part);
      if a.Some? {
        fields := fields + [a.value];
      }
    }
    assert parts[..|parts|] == parts;
  }

  // ---------- the catalog's rendering ----------

  /** A field as the catalog holds it; the server decides whether its name is quoted. */
  datatype RawColumn = RawColumn(name: string, quoted: bool, typ: string)

  type Column = c: RawColumn | Rendered(c)
    witness RawColumn("a", false, "t")

  function PrintName(c: Column): string {
    if c.quoted then "\"" + Doubled(c.name) + "\"" else c.name
  }

  function PrintColumn(c: Column): string {
    PrintName(c) + " " + c.typ
  }

  function PrintColumns(cs: seq<Column>): string {
    if cs == [] then ""
    else if |cs| == 1 then PrintColumn(cs[0])
    else PrintColumn(cs[0]) + ", " + PrintColumns(cs[1..])
  }

  /** CREATE TYPE with the quoted, qualified name of the type. */
  function PrintDef(name: string, cs: seq<Column>): string {
    "CREATE TYPE " + name + " AS (" + PrintColumns(cs) + ")"
  }

  /** Quotes and parentheses pair up, and no comma stands outside both. */
  predicate Protected(s: string, depth: int, inQuote: bool) {
    if s == "" then depth == 0 && !inQuote
    else
      match s[0]
      case '"' => Protected(s[1..], depth, !inQuote)
      case '(' => Protected(s[1..], if inQuote then depth else depth + 1, inQuote)
      case ')' => Protected(s[1..], if inQuote then depth else depth - 1, inQuote)
      case ',' => (inQuote || depth != 0) && Protected(s[1..], depth, inQuote)
      case _ => Protected(s[1..], depth, inQuote)
  }

  /** What format_type and quote_ident write. */
  predicate Rendered(c: RawColumn) {
    c.typ != "" && Trim(c.typ) && Protected(c.typ, 0, false) && (!c.quoted ==> Bare(c.name))
  }

  lemma {:induction false} ProtectedIsOnePart(p: string, rest: string, cur: string, depth: int, inQuote: bool)
    requires Protected(p, depth, inQuote)
    ensures PartsFrom(p + rest, cur, depth, inQuote) == PartsFrom(rest, cur + p, 0, false)
  {
    if p == "" {
      assert p + rest == rest && cur + p == cur;
    } else {
      var q := if p[0] == '"' then !inQuote else inQuote;
      var d := if inQuote then depth else if p[0] == '(' then depth + 1 else if p[0] == ')' then depth - 1 else depth;
      assert (p + rest)[1..] == p[1..] + rest && cur + [p[0]] + p[1..] == cur + p;
      ProtectedIsOnePart(p[1..], rest, cur + [p[0]], d, q);
    }
  }

  lemma {:induction false} BareIsProtected(name: string, more: string)
    requires forall i :: 0 <= i < |name| ==> BareChar(name[i], false)
    requires Protected(more, 0, false)
    ensures Protected(name + more, 0, false)
  {
    if name == "" {
      assert name + more == more;
    } else {
      assert (name + more)[1..] == name[1..] + more;
      BareIsProtected(name[1..], more);
    }
  }

  lemma {:induction false} DoubledIsProtected(name: string, more: string)
    requires Protected(more, 0, true)
    ensures Protected(Doubled(name) + more, 0, true)
  {
    if name == "" {
      assert Doubled(name) + more == more;
    } else {
      var rest := Doubled(name[1..]) + more;
      DoubledIsProtected(name[1..], more);
      OneInQuotes(name[0], rest);
      hide Protected;
      assert Doubled(name) + more == (if name[0] == '"' then "\"\"" else [name[0]]) + rest;
    }
  }

  lemma OneInQuotes(c: char, rest: string)
    requires Protected(rest, 0, true)
    ensures Protected((if c == '"' then "\"\"" else [c]) + rest, 0, true)
  {
    if c == '"' {
      QuoteFlips(rest, false);
      QuoteFlips("\"" + rest, true);
      assert "\"\"" + rest == "\"" + ("\"" + rest);
    } else {
      assert ([c] + rest)[1..] == rest;
    }
  }

  lemma QuoteFlips(s: string, inQuote: bool)
    ensures Protected("\"" + s, 0, inQuote) == Protected(s, 0, !inQuote)
  {
    assert ("\"" + s)[1..] == s;
  }

  lemma ColumnIsProtected(c: Column)
    ensures Protected(PrintColumn(c), 0, false)
  {
    assert Protected(c.typ, 0, false);
    hide Doubled, Protected, Trim;
    var tail := " " + c.typ;
    SpaceIsProtected(c.typ);
    if c.quoted {
      QuoteFlips(tail, true);
      DoubledIsProtected(c.name, "\"" + tail);
      QuoteFlips(Doubled(c.name) + ("\"" + tail), false);
      QuotesRegroup(Doubled(c.name), c.typ);
    } else {
      BareIsProtected(c.name, tail);
      assert PrintColumn(c) == c.name + tail;
    }
  }

  lemma QuotesRegroup(d: string, typ: string)
    ensures "\"" + d + "\"" + " " + typ == "\"" + (d + ("\"" + (" " + typ)))
  {
  }

  lemma {:induction false} QuoteEndOfDoubled(name: string, rest: string)
    requires rest == "" || rest[0] != '"'
    ensures QuoteEnd(Doubled(name) + ("\"" + rest)) == |Doubled(name)|
  {
    var s := Doubled(name) + ("\"" + rest);
    if name == "" {
      assert s == "\"" + rest;
      assert |s| > 1 ==> s[1] == rest[0];
    } else {
      var more := Doubled(name[1..]) + ("\"" + rest);
      QuoteEndOfDoubled(name[1..], rest);
      if name[0] == '"' {
        assert s == "\"\"" + more && s[2..] == more;
      } else {
        assert s == [name[0]] + more && s[1..] == more;
      }
    }
  }

  lemma {:induction false} UndoubledOfDoubled(name: string)
    ensures Undoubled(Doubled(name)) == name
  {
    if name != "" {
      var d, more := Doubled(name), Doubled(name[1..]);
      UndoubledOfDoubled(name[1..]);
      assert name == [name[0]] + name[1..];
      if name[0] == '"' {
        assert d[2..] == more;
      } else if |d| >= 2 {
        assert d[1..] == more;
      } else {
        assert more == "";
      }
    }
  }

  lemma {:induction false} FirstSpaceAfter(name: string, rest: string)
    requires ' ' !in name
    ensures FirstSpace(name + (" " + rest)) == |name|
  {
    var s := name + (" " + rest);
    if name == "" {
      assert s == " " + rest;
    } else {
      assert s[0] == name[0] && s[1..] == name[1..] + (" " + rest);
      FirstSpaceAfter(name[1..], rest);
    }
  }

  lemma SpaceIsTrimmed(p: string)
    requires p != "" && Trim(p)
    ensures TrimSpace(" " + p) == p && TrimSpace(p) == p
  {
    assert (" " + p)[1..] == p;
    assert TrimLeft(" " + p) == TrimLeft(p);
    TrimSpaceShortens(p);
  }

  lemma QuotedColumnIsRead(name: string, typ: string)
    requires typ != "" && Trim(typ)
    ensures NameAndType("\"" + Doubled(name) + "\"" + (" " + typ)) == Some(Attribute(name, typ))
  {
    hide Doubled, QuoteEnd, Undoubled, TrimSpace, Trim;
    var d, tail := Doubled(name), " " + typ;
    var part := "\"" + d + "\"" + tail;
    QuoteEndOfDoubled(name, tail);
    assert part[0] == '"' && part[1..] == d + ("\"" + tail);
    assert part[1..1 + |d|] == d && part[1 + |d| + 1..] == tail;
    UndoubledOfDoubled(name);
    SpaceIsTrimmed(typ);
  }

  lemma BareColumnIsRead(name: string, typ: string)
    requires Bare(name) && typ != "" && Trim(typ)
    ensures NameAndType(name + (" " + typ)) == Some(Attribute(name, typ))
  {
    hide FirstSpace, TrimSpace, Trim, QuoteEnd, Undoubled;
    var part := name + (" " + typ);
    FirstSpaceAfter(name, typ);
    assert part[0] == name[0] && part[..|name|] == name && part[|name| + 1..] == typ;
    SpaceIsTrimmed(typ);
  }

  /** One printed field reads back as its name and its type. */
  lemma ColumnIsRead(c: Column)
    ensures NameAndType(PrintColumn(c)) == Some(Attribute(c.name, c.typ))
  {
    hide NameAndType, Doubled, Trim, Protected, Bare;
    assert PrintColumn(c) == PrintName(c) + (" " + c.typ);
    if c.quoted {
      QuotedColumnIsRead(c.name, c.typ);
    } else {
      BareColumnIsRead(c.name, c.typ);
    }
  }

  lemma PrintedIsTrim(c: Column)
    ensures PrintColumn(c) != "" && Trim(PrintColumn(c))
  {
    hide Doubled, Protected;
    var part := PrintColumn(c);
    assert part[|part| - 1] == c.typ[|c.typ| - 1];
    assert part[0] == if c.quoted then '"' else c.name[0];
  }

  /** The parts of a printed list, the ones after the first with the space before them. */
  function PrintedParts(cs: seq<Column>, first: bool): (parts: seq<string>)
    ensures |parts| == |cs|
  {
    if cs == [] then []
    else [Lead(first) + PrintColumn(cs[0])] + PrintedParts(cs[1..], false)
  }

  function Lead(first: bool): string {
    if first then "" else " "
  }

  lemma LeadIsProtected(c: Column, first: bool)
    ensures Protected(Lead(first) + PrintColumn(c), 0, false)
  {
    hide Rendered, PrintColumn;
    ColumnIsProtected(c);
    if first {
      assert Lead(first) + PrintColumn(c) == PrintColumn(c);
    } else {
      SpaceIsProtected(PrintColumn(c));
    }
  }

  lemma CommaSplits(cur: string, more: string)
    ensures PartsFrom("," + more, cur, 0, false) == [cur] + PartsFrom(more, "", 0, false)
  {
    assert ("," + more)[1..] == more;
  }

  lemma {:induction false} ListIsSplit(cs: seq<Column>, first: bool)
    requires cs != []
    ensures PartsFrom(Lead(first) + PrintColumns(cs), "", 0, false) == PrintedParts(cs, first)
    decreases |cs|
  {
    hide Protected, Rendered, PrintColumn, PartsFrom, Lead;
    var p := Lead(first) + PrintColumn(cs[0]);
    LeadIsProtected(cs[0], first);
    assert "" + p == p;
    if |cs| == 1 {
      assert Lead(first) + PrintColumns(cs) == p + "";
      ProtectedIsOnePart(p, "", "", 0, false);
      assert PartsFrom("", p, 0, false) == [p] by {
        NothingLeft(p);
      }
      assert PrintedParts(cs[1..], false) == [];
    } else {
      var more := Lead(false) + PrintColumns(cs[1..]);
      ListJoins(cs, first);
      ProtectedIsOnePart(p, "," + more, "", 0, false);
      CommaSplits(p, more);
      ListIsSplit(cs[1..], false);
    }
  }

  lemma NothingLeft(cur: string)
    ensures PartsFrom("", cur, 0, false) == [cur]
  {
  }

  lemma ListJoins(cs: seq<Column>, first: bool)
    requires |cs| > 1
    ensures Lead(first) + PrintColumns(cs)
         == Lead(first) + PrintColumn(cs[0]) + ("," + (Lead(false) + PrintColumns(cs[1..])))
  {
    hide PrintColumn;
    var rest := PrintColumns(cs[1..]);
    assert PrintColumns(cs) == PrintColumn(cs[0]) + ", " + rest;
    hide PrintColumns, Rendered;
    CommaRegroups(Lead(first), PrintColumn(cs[0]), rest);
  }

  lemma CommaRegroups(lead: string, one: string, rest: string)
    ensures lead + (one + ", " + rest) == lead + one + ("," + (" " + rest))
  {
    assert ", " == "," + " ";
  }

  lemma SpaceIsProtected(p: string)
    requires Protected(p, 0, false)
    ensures Protected(" " + p, 0, false)
  {
    assert (" " + p)[1..] == p;
  }

  function Meant(cs: seq<Column>): (a: seq<Attribute>)
    ensures |a| == |cs|
  {
    seq(|cs|, i requires 0 <= i < |cs| => Attribute(cs[i].name, cs[i].typ))
  }

  lemma {:induction false} AttributesJoin(a: seq<string>, b: seq<string>)
    ensures Attributes(a + b) == Attributes(a) + Attributes(b)
  {
    hide NameAndType, TrimSpace;
    if b == [] {
      assert a + b == a && Attributes(a) + [] == Attributes(a);
    } else {
      var n := |b| - 1;
      var all := a + b;
      assert all[..|all| - 1] == a + b[..n] && all[|all| - 1] == b[n];
      AttributesJoin(a, b[..n]);
    }
  }

  lemma OnePartIsRead(c: Column, first: bool)
    ensures Attributes([Lead(first) + PrintColumn(c)]) == [Attribute(c.name, c.typ)]
  {
    hide NameAndType, TrimSpace, Rendered, PrintColumn;
    PrintedIsTrim(c);
    SpaceIsTrimmed(PrintColumn(c));
    ColumnIsRead(c);
    var part := Lead(first) + PrintColumn(c);
    assert "" + PrintColumn(c) == PrintColumn(c);
    assert [part][..0] == [];
  }

  lemma {:induction false} PartsAreRead(cs: seq<Column>, first: bool)
    ensures Attributes(PrintedParts(cs, first)) == Meant(cs)
  {
    hide Attributes, Rendered;
    if cs == [] {
      NoParts();
    } else {
      var lead := [Lead(first) + PrintColumn(cs[0])];
      AttributesJoin(lead, PrintedParts(cs[1..], false));
      OnePartIsRead(cs[0], first);
      PartsAreRead(cs[1..], false);
      assert Meant(cs) == [Attribute(cs[0].name, cs[0].typ)] + Meant(cs[1..]);
    }
  }

  lemma NoParts()
    ensures Attributes([]) == [] && Attributes([""]) == []
  {
    assert [""][..0] == [];
    assert Attributes([""][..0]) == [];
    assert TrimSpace("") == "";
  }

  lemma {:induction false} FirstParenAfter(p: string, rest: string)
    requires '(' !in p
    ensures FirstParen(p + ("(" + rest)) == |p|
  {
    var s := p + ("(" + rest);
    if p == "" {
      assert s == "(" + rest;
    } else {
      assert s[0] == p[0] && s[1..] == p[1..] + ("(" + rest);
      FirstParenAfter(p[1..], rest);
    }
  }

  /** The reader gives back every field of every composite type whose own name holds no
      parenthesis, in order, whatever the field names and types hold. */
  lemma FieldsAreReadBack(name: string, cs: seq<Column>)
    requires '(' !in name
    ensures FieldsOfDef(PrintDef(name, cs)) == Meant(cs)
  {
    hide PartsFrom, Attributes, PrintColumns, FirstParen, Rendered, PrintedParts;
    var head, body := "CREATE TYPE " + name + " AS ", PrintColumns(cs);
    var def := PrintDef(name, cs);
    assert def == head + ("(" + (body + ")"));
    FirstParenAfter(head, body + ")");
    assert def[|head| + 1..|def| - 1] == body;
    if cs == [] {
      EmptyList();
      NoParts();
    } else {
      assert "" + body == body;
      ListIsSplit(cs, true);
      PartsAreRead(cs, true);
    }
  }

  lemma EmptyList()
    ensures PrintColumns([]) == "" && PartsFrom("", "", 0, false) == [""]
  {
  }

  /** A parenthesis in the type's own name is taken for the one that opens the list: of a
      type whose quoted name ends in one, no unquoted field is read at all. */
  lemma ParenthesisInTheNameMisleads(name: string, cs: seq<Column>)
    requires '(' !in name && '"' !in PrintColumns(cs)
    ensures FieldsOfDef(PrintDef(name + "(\"", cs)) == []
  {
    hide PartsFrom, Attributes, PrintColumns, FirstParen, TrimSpace, NameAndType;
    var def := PrintDef(name + "(\"", cs);
    var head, tail := "CREATE TYPE " + name, " AS (" + PrintColumns(cs);
    var body := "\"" + tail;
    assert def == head + ("(" + (body + ")"));
    FirstParenAfter(head, body + ")");
    assert def[|head| + 1..|def| - 1] == body;
    OpenQuoteIsOnePart(tail);
    OpenQuoteIsNoField(tail);
  }

  /** Or the name happens to spell the field list itself: of a type s."a(x int, """ with the
      one field x int, say, the field is read from the name and the real list is skipped. */
  lemma ParenthesisInTheNameMayNotMislead(name: string, c: Column)
    requires '(' !in name && '"' !in PrintColumn(c)
    ensures FieldsOfDef(PrintDef(name + "(" + PrintColumn(c) + ", \"\"\"", [c])) == Meant([c])
  {
    hide PartsFrom, Attributes, PrintColumn, FirstParen, TrimSpace, NameAndType, Protected, Rendered, ThreeQuotes;
    var p := PrintColumn(c);
    var head, skipped := "CREATE TYPE " + name, " " + ThreeQuotes(" AS (" + p);
    var body := p + ("," + skipped);
    var def := PrintDef(name + "(" + p + ", \"\"\"", [c]);
    assert PrintColumns([c]) == p;
    NameSpellsTheField(name, p);
    assert def == head + ("(" + (body + ")"));
    FirstParenAfter(head, body + ")");
    assert def[|head| + 1..|def| - 1] == body;
    ColumnIsProtected(c);
    ProtectedIsOnePart(p, "," + skipped, "", 0, false);
    assert "" + p == p;
    CommaSplits(p, skipped);
    ThreeQuotesAreOnePart(" AS (" + p);
    PrintedIsTrim(c);
    assert (" AS (" + p)[|" AS (" + p| - 1] == p[|p| - 1];
    ThreeQuotesAreNoField(" AS (" + p);
    AttributesJoin([p], [skipped]);
    assert Lead(true) + p == p;
    OnePartIsRead(c, true);
    assert Meant([c]) == [Attribute(c.name, c.typ)];
  }

  function ThreeQuotes(tail: string): string {
    "\"\"\"" + tail
  }

  lemma NameSpellsTheField(name: string, p: string)
    ensures "CREATE TYPE " + (name + "(" + p + ", \"\"\"") + " AS (" + p + ")"
      == "CREATE TYPE " + name + ("(" + ((p + ("," + (" " + ThreeQuotes(" AS (" + p)))) + ")"))
  {
    assert ", \"\"\"" == "," + (" " + "\"\"\"");
  }

  lemma ThreeQuotesAreOnePart(tail: string)
    requires '"' !in tail
    ensures PartsFrom(" " + ThreeQuotes(tail), "", 0, false) == [" " + ThreeQuotes(tail)]
  {
    hide PartsFrom;
    SpaceJoins(ThreeQuotes(tail));
    QuoteJoins("\"\"" + tail, " ", false);
    assert ThreeQuotes(tail) == "\"" + ("\"\"" + tail) && "\"\"" + tail == "\"" + ("\"" + tail);
    QuoteJoins("\"" + tail, " \"", true);
    QuoteJoins(tail, " \"\"", false);
    QuotedToTheEnd(tail, " \"\"\"", 0);
    assert " \"" + "\"" == " \"\"" && " \"\"" + "\"" == " \"\"\"" && " " + "\"" == " \"";
    assert " \"\"\"" + tail == " " + ThreeQuotes(tail);
  }

  lemma QuoteJoins(s: string, cur: string, inQuote: bool)
    ensures PartsFrom("\"" + s, cur, 0, inQuote) == PartsFrom(s, cur + "\"", 0, !inQuote)
  {
    assert ("\"" + s)[1..] == s;
  }

  lemma SpaceJoins(s: string)
    ensures PartsFrom(" " + s, "", 0, false) == PartsFrom(s, " ", 0, false)
  {
    assert (" " + s)[1..] == s && "" + " " == " ";
  }

  lemma ThreeQuotesAreNoField(tail: string)
    requires '"' !in tail && tail != "" && !IsSpace(tail[|tail| - 1])
    ensures Attributes([" " + ThreeQuotes(tail)]) == []
  {
    hide TrimSpace;
    var p := ThreeQuotes(tail);
    assert p[|p| - 1] == tail[|tail| - 1] && p[1..][2..] == tail;
    SpaceIsTrimmed(p);
    NoQuoteEnd(tail);
    var part := " " + p;
    assert [part][..0] == [] && Attributes([part][..0]) == [];
  }

  lemma OpenQuoteIsOnePart(tail: string)
    requires '"' !in tail
    ensures PartsFrom("\"" + tail, "", 0, false) == ["\"" + tail]
  {
    QuoteJoins(tail, "", false);
    assert "" + "\"" == "\"";
    QuotedToTheEnd(tail, "\"", 0);
  }

  lemma OpenQuoteIsNoField(tail: string)
    requires '"' !in tail
    ensures Attributes(["\"" + tail]) == []
  {
    hide TrimRight, QuoteEnd, TrimSpace;
    var part := "\"" + tail;
    assert [part][..0] == [] && Attributes([part][..0]) == [];
    OpenQuoteStays(tail);
    var t := TrimSpace(part);
    assert '"' !in t[1..] by {
      assert forall i :: 1 <= i < |t| ==> t[i] == tail[i - 1];
    }
    NoQuoteEnd(t[1..]);
  }

  lemma OpenQuoteStays(tail: string)
    ensures var t := TrimSpace("\"" + tail); t != "" && t <= "\"" + tail
  {
    TrimRightIsPrefix("\"" + tail);
  }

  lemma {:induction false} TrimRightIsPrefix(s: string)
    ensures TrimRight(s) <= s && (s != "" && !IsSpace(s[0]) ==> TrimRight(s) != "")
  {
    if s != "" && IsSpace(s[|s| - 1]) {
      TrimRightIsPrefix(s[..|s| - 1]);
    }
  }

  lemma {:induction false} QuotedToTheEnd(s: string, cur: string, depth: int)
    requires '"' !in s
    ensures PartsFrom(s, cur, depth, true) == [cur + s]
  {
    if s == "" {
      assert cur + s == cur;
    } else {
      assert cur + [s[0]] + s[1..] == cur + s;
      QuotedToTheEnd(s[1..], cur + [s[0]], depth);
    }
  }

  lemma {:induction false} NoQuoteEnd(s: string)
    requires '"' !in s
    ensures QuoteEnd(s) == |s|
  {
    if s != "" {
      NoQuoteEnd(s[1..]);
    }
  }
}
