/** The names an operator types: quoting an identifier, splitting a dotted name and
    resolving it against the catalog (internal/core/names.go:424-653). */
module Names {
  import opened Common
  import opened Decisions

  // ---------- quoting ----------

  predicate BareChar(c: char, first: bool) {
    'a' <= c <= 'z' || c == '_' || (!first && '0' <= c <= '9')
  }

  predicate Bare(s: string) {
    s != "" && forall i :: 0 <= i < |s| ==> BareChar(s[i], i == 0)
  }

  /** Every quote doubled. */
  function Doubled(s: string): string {
    if s == "" then "" else (if s[0] == '"' then "\"\"" else [s[0]]) + Doubled(s[1..])
  }

  function Quoted(s: string): string {
    if Bare(s) then s else "\"" + Doubled(s) + "\""
  }

  method QuoteIdent(s: string) returns (q: string)
    ensures q == Quoted(s)
  {
    var bare := s != "";
    for i := 0 to |s|
      invariant bare <==> s != "" && forall j :: 0 <= j < i ==> BareChar(s[j], j == 0)
    {
      if 'a' <= s[i] <= 'z' || s[i] == '_' {
      } else if '0' <= s[i] <= '9' && i > 0 {
      } else {
        bare := false;
      }
      if !bare {
        break;
      }
    }
    if bare {
      return s;
    }
    return "\"" + Doubled(s) + "\"";
  }

  function QuotedEach(parts: seq<string>): (q: seq<string>)
    ensures |q| == |parts|
  {
    seq(|parts|, i requires 0 <= i < |parts| => Quoted(parts[i]))
  }

  method QuoteEach(parts: seq<string>) returns (q: seq<string>)
    ensures q == QuotedEach(parts)
  {
    q := [];
    for i := 0 to |parts|
      invariant |q| == i && forall j :: 0 <= j < i ==> q[j] == Quoted(parts[j])
    {
      var one := QuoteIdent(parts[i]);
      q := q + [one];
    }
  }

  /** strings.Join(parts, "."). */
  function Dotted(parts: seq<string>): string {
    if parts == [] then ""
    else if |parts| == 1 then parts[0]
    else parts[0] + "." + Dotted(parts[1..])
  }

  // ---------- splitting ----------

  function OnPart(cur: string, more: Option<seq<string>>): Option<seq<string>> {
    match more
    case None => None
    case Some(parts) => Some([cur] + parts)
  }

  /** The parts of the rest of a name, `cur` being the part read so far. */
  function SplitFrom(s: string, cur: string, quoted: bool): Option<seq<string>>
    decreases |s|
  {
    if s == "" then (if quoted then None else Some([cur]))
    else if s[0] == '"' && quoted && |s| > 1 && s[1] == '"' then SplitFrom(s[2..], cur + "\"", true)
    else if s[0] == '"' then SplitFrom(s[1..], cur, !quoted)
    else if s[0] == '.' && !quoted then OnPart(cur, SplitFrom(s[1..], "", false))
    else SplitFrom(s[1..], cur + [s[0]], quoted)
  }

  function Split(s: string): Option<seq<string>> {
    SplitFrom(s, "", false)
  }

  function AfterParts(parts: seq<string>, more: Option<seq<string>>): Option<seq<string>> {
    match more
    case None => None
    case Some(rest) => Some(parts + rest)
  }

  method SplitQualified(s: string) returns (r: Option<seq<string>>)
    ensures r == Split(s)
  {
    var parts: seq<string> := [];
    var cur, quoted, i := "", false, 0;
    assert s[0..] == s && (Split(s).Some? ==> [] + Split(s).value == Split(s).value);
    while i < |s|
      invariant 0 <= i <= |s|
      invariant Split(s) == AfterParts(parts, SplitFrom(s[i..], cur, quoted))
      decreases |s| - i
    {
      var c := s[i];
      assert i + 1 < |s| ==> s[i..][1] == s[i + 1];
      if c == '"' && quoted && i + 1 < |s| && s[i + 1] == '"' {
        assert s[i..][2..] == s[i + 2..];
        cur := cur + "\"";
        i := i + 1;
      } else {
        assert s[i..][1..] == s[i + 1..];
        if c == '"' {
          quoted := !quoted;
        } else if c == '.' && !quoted {
          ghost var more := SplitFrom(s[i + 1..], "", false);
          assert more.Some? ==> parts + ([cur] + more.value) == (parts + [cur]) + more.value;
          parts := parts + [cur];
          cur := "";
        } else {
          cur := cur + [c];
        }
      }
      i := i + 1;
    }
    if quoted {
      return None;
    }
    return Some(parts + [cur]);
  }

  /** The text between the quotes is read back, up to the quote that closes it. */
  lemma {:induction false} DoubledIsRead(p: string, rest: string, cur: string)
    requires rest == "" || rest[0] != '"'
    ensures SplitFrom(Doubled(p) + "\"" + rest, cur, true) == SplitFrom(rest, cur + p, false)
  {
    var s := Doubled(p) + "\"" + rest;
    if p == "" {
      assert s == "\"" + rest && s[1..] == rest && cur + p == cur;
    } else {
      var more := Doubled(p[1..]) + "\"" + rest;
      assert cur + [p[0]] + p[1..] == cur + p;
      DoubledIsRead(p[1..], rest, cur + [p[0]]);
      if p[0] == '"' {
        assert s == "\"\"" + more && s[2..] == more;
      } else {
        assert s == [p[0]] + more && s[1..] == more;
      }
    }
  }

  lemma {:induction false} BareIsRead(p: string, rest: string, cur: string)
    requires forall i :: 0 <= i < |p| ==> p[i] != '"' && p[i] != '.'
    ensures SplitFrom(p + rest, cur, false) == SplitFrom(rest, cur + p, false)
  {
    if p == "" {
      assert p + rest == rest && cur + p == cur;
    } else {
      assert (p + rest)[1..] == p[1..] + rest && cur + [p[0]] + p[1..] == cur + p;
      BareIsRead(p[1..], rest, cur + [p[0]]);
    }
  }

  lemma QuotedIsRead(p: string, rest: string)
    requires rest == "" || rest[0] != '"'
    ensures SplitFrom(Quoted(p) + rest, "", false) == SplitFrom(rest, p, false)
  {
    hide Doubled, SplitFrom;
    assert "" + p == p;
    if Bare(p) {
      BareIsRead(p, rest, "");
    } else {
      OpeningQuote(Doubled(p) + "\"" + rest);
      DoubledIsRead(p, rest, "");
      Regrouped("\"", Doubled(p), "\"", rest);
    }
  }

  lemma OpeningQuote(body: string)
    ensures SplitFrom("\"" + body, "", false) == SplitFrom(body, "", true)
  {
    assert ("\"" + body)[1..] == body;
  }

  /** Splitting undoes quoting, for every non-empty list of strings whatever is in them. */
  lemma {:induction false} SplitUndoesQuoting(parts: seq<string>)
    requires parts != []
    ensures Split(Dotted(QuotedEach(parts))) == Some(parts)
    decreases |parts|
  {
    hide Quoted;
    var q := QuotedEach(parts);
    if |parts| == 1 {
      assert Quoted(parts[0]) + "" == Quoted(parts[0]);
      QuotedIsRead(parts[0], "");
      assert Dotted(q) == Quoted(parts[0]) && [parts[0]] == parts;
    } else {
      assert q[1..] == QuotedEach(parts[1..]);
      var rest := "." + Dotted(q[1..]);
      assert Dotted(q) == Quoted(parts[0]) + rest && rest[1..] == Dotted(q[1..]);
      QuotedIsRead(parts[0], rest);
      SplitUndoesQuoting(parts[1..]);
      assert [parts[0]] + parts[1..] == parts;
    }
  }

  function Quotes(s: string): nat {
    if s == "" then 0 else (if s[0] == '"' then 1 else 0) + Quotes(s[1..])
  }

  /** A name is refused exactly when its quotes do not pair up. */
  lemma {:induction false} SplitFailsIffQuotesAreOdd(s: string, cur: string, quoted: bool)
    ensures SplitFrom(s, cur, quoted).None? <==> (Quotes(s) % 2 == 1) != quoted
    decreases |s|
  {
    if s != "" {
      if s[0] == '"' && quoted && |s| > 1 && s[1] == '"' {
        assert s[1..][1..] == s[2..];
        SplitFailsIffQuotesAreOdd(s[2..], cur + "\"", true);
      } else if s[0] == '"' {
        SplitFailsIffQuotesAreOdd(s[1..], cur, !quoted);
      } else if s[0] == '.' && !quoted {
        SplitFailsIffQuotesAreOdd(s[1..], "", false);
      } else {
        SplitFailsIffQuotesAreOdd(s[1..], cur + [s[0]], quoted);
      }
    }
  }

  // ---------- resolving ----------

  datatype Refusal = UnbalancedQuote | NotAName | NoSuchTable | Ambiguous | NoSuchColumn
  datatype Resolved<+T> = Found(value: T) | Refused(why: Refusal)

  /** The tables of one bare name, in the catalog's order. */
  function TablesNamed(catalog: seq<Table>, bare: string): seq<TableRef> {
    if catalog == [] then []
    else
      TablesNamed(catalog[..|catalog| - 1], bare) +
      (var t := catalog[|catalog| - 1].ref; if t.name == bare then [t] else [])
  }

  predicate Has(catalog: seq<Table>, t: TableRef, column: string) {
    exists i :: 0 <= i < |catalog| && catalog[i].ref == t && column in catalog[i].columns
  }

  /** What the parts of a name mean, with no quoting in between. */
  function TableOf(parts: seq<string>, catalog: seq<Table>): Resolved<TableRef> {
    if |parts| == 2 then
      if parts[0] == "" || parts[1] == "" then Refused(NotAName) else Found(TableRef(parts[0], parts[1]))
    else if |parts| != 1 || parts[0] == "" then Refused(NotAName)
    else
      var found := TablesNamed(catalog, parts[0]);
      if |found| == 1 then Found(found[0]) else if |found| == 0 then Refused(NoSuchTable) else Refused(Ambiguous)
  }

  function ColumnOf(parts: seq<string>, catalog: seq<Table>): Resolved<ColumnRef> {
    if |parts| < 2 || |parts| > 3 then Refused(NotAName) else
    match TableOf(parts[..|parts| - 1], catalog)
    case Refused(why) => Refused(why)
    case Found(t) =>
      var column := parts[|parts| - 1];
      if Has(catalog, t, column) then Found(ColumnRef(t, column)) else Refused(NoSuchColumn)
  }

  method ResolveTable(name: string, catalog: seq<Table>) returns (r: Resolved<TableRef>)
    ensures r == match Split(name) case None => Refused(UnbalancedQuote) case Some(parts) => TableOf(parts, catalog)
  {
    var split := SplitQualified(name);
    if split.None? {
      return Refused(UnbalancedQuote);
    }
    var parts := split.value;
    if |parts| == 2 {
      if parts[0] == "" || parts[1] == "" {
        return Refused(NotAName);
      }
      return Found(TableRef(parts[0], parts[1]));
    } else if |parts| == 1 {
      r := ResolveBareTable(parts[0], catalog);
    } else {
      return Refused(NotAName);
    }
  }

  method ResolveBareTable(bare: string, catalog: seq<Table>) returns (r: Resolved<TableRef>)
    ensures r == TableOf([bare], catalog)
  {
    if bare == "" {
      return Refused(NotAName);
    }
    var found: seq<TableRef> := [];
    for i := 0 to |catalog|
      invariant found == TablesNamed(catalog[..i], bare)
    {
      assert catalog[..i + 1][..i] == catalog[..i];
      if catalog[i].ref.name == bare {
        found := found + [catalog[i].ref];
      }
    }
    assert catalog[..|catalog|] == catalog;
    return if |found| == 1 then Found(found[0]) else if |found| == 0 then Refused(NoSuchTable) else Refused(Ambiguous);
  }

  method HasColumn(catalog: seq<Table>, t: TableRef, column: string) returns (r: bool)
    ensures r == Has(catalog, t, column)
  {
    for i := 0 to |catalog|
      invariant forall k :: 0 <= k < i && catalog[k].ref == t ==> column !in catalog[k].columns
    {
      if catalog[i].ref != t {
        continue;
      }
      for j := 0 to |catalog[i].columns|
        invariant forall k :: 0 <= k < j ==> catalog[i].columns[k] != column
      {
        if catalog[i].columns[j] == column {
          return true;
        }
      }
    }
    return false;
  }

  /** The table part is quoted, joined and split again on the way, and means the same. */
  method ResolveColumn(name: string, catalog: seq<Table>) returns (r: Resolved<ColumnRef>)
    ensures r == match Split(name) case None => Refused(UnbalancedQuote) case Some(parts) => ColumnOf(parts, catalog)
  {
    var split := SplitQualified(name);
    if split.None? {
      return Refused(UnbalancedQuote);
    }
    var parts := split.value;
    if |parts| < 2 || |parts| > 3 {
      return Refused(NotAName);
    }
    var column := parts[|parts| - 1];
    var quoted := QuoteEach(parts[..|parts| - 1]);
    SplitUndoesQuoting(parts[..|parts| - 1]);
    var table := ResolveTable(Dotted(quoted), catalog);
    if table.Refused? {
      return Refused(table.why);
    }
    var has := HasColumn(catalog, table.value, column);
    if !has {
      return Refused(NoSuchColumn);
    }
    return Found(ColumnRef(table.value, column));
  }

  /** Every column of the catalog has a name that resolves to it, and that name, quoted
      part by part, resolves to nothing else. */
  lemma EveryColumnCanBeNamed(catalog: seq<Table>, c: ColumnRef)
    requires c.table.schema != "" && c.table.name != ""
    ensures var parts := [c.table.schema, c.table.name, c.column];
      Split(Dotted(QuotedEach(parts))) == Some(parts) &&
      ColumnOf(parts, catalog) == if Has(catalog, c.table, c.column) then Found(c) else Refused(NoSuchColumn)
  {
    var parts := [c.table.schema, c.table.name, c.column];
    SplitUndoesQuoting(parts);
    assert parts[..2] == [c.table.schema, c.table.name];
  }

  lemma {:induction false} NamedTwice(catalog: seq<Table>, bare: string, i: nat)
    requires i < |catalog| && catalog[i].ref.name == bare
    ensures catalog[i].ref in TablesNamed(catalog, bare)
  {
    var n := |catalog| - 1;
    if i < n {
      NamedTwice(catalog[..n], bare, i);
    }
  }

  lemma {:induction false} NamedAreNamed(catalog: seq<Table>, bare: string)
    ensures forall t :: t in TablesNamed(catalog, bare) ==> t.name == bare && exists i :: 0 <= i < |catalog| && catalog[i].ref == t
  {
    if catalog != [] {
      var most := catalog[..|catalog| - 1];
      NamedAreNamed(most, bare);
      forall t | t in TablesNamed(catalog, bare) ensures t.name == bare && exists i :: 0 <= i < |catalog| && catalog[i].ref == t {
        if t in TablesNamed(most, bare) {
          var i :| 0 <= i < |most| && most[i].ref == t;
          assert catalog[i].ref == t;
        }
      }
    }
  }

  /** A bare name is taken for a table of the catalog only when no other table has it. */
  lemma BareNamesAreNeverGuessed(catalog: seq<Table>, bare: string, t: TableRef)
    requires TableOf([bare], catalog) == Found(t)
    ensures t.name == bare && exists i :: 0 <= i < |catalog| && catalog[i].ref == t
    ensures forall i :: 0 <= i < |catalog| && catalog[i].ref.name == bare ==> catalog[i].ref == t
  {
    NamedAreNamed(catalog, bare);
    assert t in TablesNamed(catalog, bare);
    forall i | 0 <= i < |catalog| && catalog[i].ref.name == bare ensures catalog[i].ref == t {
      NamedTwice(catalog, bare, i);
    }
  }

  /** How many tables of the catalog have this bare name. */
  function CountNamed(catalog: seq<Table>, bare: string): nat {
    if catalog == [] then 0 else CountNamed(catalog[1..], bare) + if catalog[0].ref.name == bare then 1 else 0
  }

  lemma {:induction false} NamedAreCounted(catalog: seq<Table>, bare: string)
    ensures |TablesNamed(catalog, bare)| == CountNamed(catalog, bare)
  {
    if catalog != [] {
      var n := |catalog| - 1;
      NamedAreCounted(catalog[..n], bare);
      CountTakesTheLast(catalog, bare);
    }
  }

  lemma {:induction false} CountTakesTheLast(catalog: seq<Table>, bare: string)
    requires catalog != []
    ensures var n := |catalog| - 1;
      CountNamed(catalog, bare) == CountNamed(catalog[..n], bare) + if catalog[n].ref.name == bare then 1 else 0
  {
    if |catalog| > 1 {
      CountTakesTheLast(catalog[1..], bare);
      assert catalog[1..][..|catalog| - 2] == catalog[..|catalog| - 1][1..];
    }
  }

  /** Every answer about a table's name, and exactly when it is given. */
  lemma TableMeaningIff(parts: seq<string>, catalog: seq<Table>)
    ensures var r := TableOf(parts, catalog);
      && (r == Refused(NotAName) <==> |parts| !in {1, 2} || "" in parts)
      && (r == Refused(NoSuchTable) <==> |parts| == 1 && parts[0] != "" && CountNamed(catalog, parts[0]) == 0)
      && (r == Refused(Ambiguous) <==> |parts| == 1 && parts[0] != "" && CountNamed(catalog, parts[0]) > 1)
      && (r.Found? && |parts| == 2 ==> r.value == TableRef(parts[0], parts[1]))
      && (r.Found? && |parts| == 1 ==> r.value.name == parts[0] && exists i :: 0 <= i < |catalog| && catalog[i].ref == r.value)
      && r != Refused(UnbalancedQuote) && r != Refused(NoSuchColumn)
  {
    if |parts| == 1 {
      NamedAreCounted(catalog, parts[0]);
      if TableOf(parts, catalog).Found? {
        assert parts == [parts[0]];
        BareNamesAreNeverGuessed(catalog, parts[0], TableOf(parts, catalog).value);
      }
    }
  }

  /** And about a column's: it is found exactly when its table is and some entry of the
      catalog for that table lists it. */
  lemma ColumnMeaningIff(parts: seq<string>, catalog: seq<Table>, c: ColumnRef)
    ensures ColumnOf(parts, catalog) == Found(c) <==>
      && |parts| in {2, 3} && parts[|parts| - 1] == c.column
      && TableOf(parts[..|parts| - 1], catalog) == Found(c.table)
      && exists i :: 0 <= i < |catalog| && catalog[i].ref == c.table && c.column in catalog[i].columns
    ensures ColumnOf(parts, catalog) == Refused(NotAName) <==> |parts| !in {2, 3} || "" in parts[..|parts| - 1]
  {
    if |parts| > 0 {
      TableMeaningIff(parts[..|parts| - 1], catalog);
    }
  }
}
