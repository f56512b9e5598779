/** How a type name is spelled, and which definition a spelling finds
    (mask/typetag.go:131-175, internal/classify/types.go:191-206). */
module CompositeNames {
  import opened Common
  import opened CompositeText
  import L = Literal
  import N = Names

  // ---------- type names ----------

  function Unquoted(s: string): string {
    if s == "" then "" else (if s[0] == '"' then "" else [s[0]]) + Unquoted(s[1..])
  }

  /** What follows the last dot outside quotes. */
  function AfterDot(s: string, inQuote: bool): Option<string> {
    if s == "" then None else
    match AfterDot(s[1..], if s[0] == '"' then !inQuote else inQuote)
    case Some(t) => Some(t)
    case None => if s[0] == '.' && !inQuote then Some(s[1..]) else None
  }

  function BareTypeName(s: string): string {
    match AfterDot(s, false)
    case Some(t) => Unquoted(t)
    case None => Unquoted(s)
  }

  /** What precedes the first parenthesis outside quotes. */
  function BeforeParen(s: string, inQuote: bool): Option<string> {
    if s == "" then None
    else if s[0] == '(' && !inQuote then Some("")
    else
      match BeforeParen(s[1..], if s[0] == '"' then !inQuote else inQuote)
      case Some(t) => Some([s[0]] + t)
      case None => None
  }

  function StripTypmod(s: string): string {
    match BeforeParen(s, false)
    case Some(t) => L.TrimSpace(t)
    case None => s
  }

  function StripArrays(s: string): string {
    if |s| >= 2 && s[|s| - 2..] == "[]" then StripArrays(s[..|s| - 2]) else s
  }

  function Lower(s: string): string {
    seq(|s|, i requires 0 <= i < |s| => LowerChar(s[i]))
  }

  predicate DocumentFamily(bare: string) {
    Lower(bare) == "json" || Lower(bare) == "jsonb" || Lower(bare) == "hstore"
  }

  // ---------- the composite a name finds ----------

  /** `own` is a composite's own name, schema and type joined by a dot, unquoted. */
  predicate Spells(own: string, name: string) {
    Unquoted(own) == Unquoted(name) || BareTypeName(own) == BareTypeName(name)
  }

  function FindFrom(names: seq<string>, name: string, i: nat): (r: Option<nat>)
    requires i <= |names|
    ensures r.Some? ==> i <= r.value < |names|
    decreases |names| - i
  {
    if i == |names| then None
    else if Spells(names[i], name) then Some(i)
    else FindFrom(names, name, i + 1)
  }

  /** The first composite of that name, by either spelling. */
  function FindIn(names: seq<string>, name: string): (r: Option<nat>)
    ensures r.Some? ==> r.value < |names|
  {
    FindFrom(names, name, 0)
  }

  lemma {:induction false} FindsTheFirst(names: seq<string>, name: string, i: nat, start: nat)
    requires start <= i < |names|
    ensures FindFrom(names, name, start) == Some(i) <==>
      Spells(names[i], name) && forall m: nat :: start <= m < i ==> !Spells(names[m], name)
    decreases i - start
  {
    hide Spells;
    if start < i && !Spells(names[start], name) {
      FindsTheFirst(names, name, i, start + 1);
    }
  }

  // ---------- how the catalog spells a name ----------

  /** An identifier; the server decides whether it is shown in quotes. */
  datatype RawIdent = RawIdent(name: string, quoted: bool)

  type Ident = d: RawIdent | d.quoted || N.Bare(d.name)
    witness RawIdent("a", true)

  function Shown(d: Ident): string {
    if d.quoted then "\"" + (N.Doubled(d.name) + "\"") else d.name
  }

  /** A type of some schema; `visible` says that the search path finds it by its name alone. */
  datatype QualifiedName = QualifiedName(space: Ident, name: Ident, visible: bool)

  /** format_type's text. */
  function TextOf(q: QualifiedName): string {
    if q.visible then Shown(q.name) else Shown(q.space) + ("." + Shown(q.name))
  }

  /** A type text the catalog can show. */
  type TypeText = t: string | Rendered(RawColumn("f", false, t))
    witness "t"

  /** The name the definitions are listed under: schema, dot and name as they are. */
  function OwnName(q: QualifiedName): string {
    q.space.name + "." + q.name.name
  }

  /** What reading a prefix of a name must leave alone. */
  ghost predicate ReadsPast(head: string, rest: string, inQuote: bool, after: bool) {
    && AfterDot(head + rest, inQuote) == AfterDot(rest, after)
    && (BeforeParen(rest, after).None? ==> BeforeParen(head + rest, inQuote).None?)
    && Protected(head + rest, 0, inQuote) == Protected(rest, 0, after)
  }

  lemma {:induction false} UnquotedJoins(s: string, t: string)
    ensures Unquoted(s + t) == Unquoted(s) + Unquoted(t)
  {
    if s == "" {
      assert s + t == t;
    } else {
      assert (s + t)[1..] == s[1..] + t;
      UnquotedJoins(s[1..], t);
    }
  }

  lemma {:induction false} UnquotedHoldsNone(s: string)
    ensures '"' !in Unquoted(s)
  {
    if s != "" {
      UnquotedHoldsNone(s[1..]);
    }
  }

  lemma {:induction false} NoQuoteToDrop(s: string)
    requires '"' !in s
    ensures Unquoted(s) == s
  {
    if s != "" {
      NoQuoteToDrop(s[1..]);
    }
  }

  lemma {:induction false} UnquotedDoubled(s: string)
    ensures Unquoted(N.Doubled(s)) == Unquoted(s)
  {
    if s != "" {
      var head := if s[0] == '"' then "\"\"" else [s[0]];
      UnquotedDoubled(s[1..]);
      UnquotedJoins(head, N.Doubled(s[1..]));
      assert Unquoted(head) == if s[0] == '"' then "" else [s[0]] by {
        OneUnquoted(s[0]);
      }
    }
  }

  lemma OneUnquoted(c: char)
    ensures Unquoted([c]) == (if c == '"' then "" else [c]) && Unquoted("\"\"") == ""
  {
    assert [c][1..] == "" && "\"\""[1..] == "\"" && "\""[1..] == "";
  }

  lemma QuoteReadsPast(rest: string, inQuote: bool)
    ensures ReadsPast("\"", rest, inQuote, !inQuote)
  {
    assert ("\"" + rest)[1..] == rest;
  }

  lemma LetterReadsPast(c: char, rest: string, inQuote: bool)
    requires c != '"' && (inQuote || (c != '.' && c != '(' && c != ')' && c != ','))
    ensures ReadsPast([c], rest, inQuote, inQuote)
  {
    assert ([c] + rest)[1..] == rest;
  }

  lemma ReadsPastBoth(head: string, next: string, rest: string, inQuote: bool, mid: bool, after: bool)
    requires ReadsPast(head, next + rest, inQuote, mid) && ReadsPast(next, rest, mid, after)
    ensures ReadsPast(head + next, rest, inQuote, after)
  {
    hide AfterDot, BeforeParen, Protected;
    assert head + next + rest == head + (next + rest);
  }

  lemma NothingReadsPast(rest: string, inQuote: bool)
    ensures ReadsPast("", rest, inQuote, inQuote)
  {
    assert "" + rest == rest;
  }

  lemma {:induction false} DoubledReadsPast(p: string, rest: string)
    ensures ReadsPast(N.Doubled(p), rest, true, true)
  {
    hide ReadsPast;
    if p == "" {
      NothingReadsPast(rest, true);
    } else {
      var more := N.Doubled(p[1..]);
      DoubledReadsPast(p[1..], rest);
      if p[0] == '"' {
        QuoteReadsPast("\"" + (more + rest), true);
        QuoteReadsPast(more + rest, false);
        ReadsPastBoth("\"", "\"", more + rest, true, false, true);
        assert "\"" + "\"" == "\"\"";
        ReadsPastBoth("\"\"", more, rest, true, true, true);
      } else {
        LetterReadsPast(p[0], more + rest, true);
        ReadsPastBoth([p[0]], more, rest, true, true, true);
      }
    }
  }

  lemma {:induction false} BareReadsPast(name: string, rest: string)
    requires forall i :: 0 <= i < |name| ==> N.BareChar(name[i], false)
    ensures ReadsPast(name, rest, false, false)
  {
    hide ReadsPast;
    if name == "" {
      NothingReadsPast(rest, false);
    } else {
      BareReadsPast(name[1..], rest);
      LetterReadsPast(name[0], name[1..] + rest, false);
      ReadsPastBoth([name[0]], name[1..], rest, false, false, false);
      assert [name[0]] + name[1..] == name;
    }
  }

  lemma IdentReadsPast(d: Ident, rest: string)
    ensures ReadsPast(Shown(d), rest, false, false)
  {
    hide ReadsPast, N.Doubled;
    if d.quoted {
      var inner := N.Doubled(d.name);
      QuoteReadsPast(rest, true);
      DoubledReadsPast(d.name, "\"" + rest);
      ReadsPastBoth(inner, "\"", rest, true, true, false);
      QuoteReadsPast(inner + "\"" + rest, false);
      ReadsPastBoth("\"", inner + "\"", rest, false, true, false);
    } else {
      BareReadsPast(d.name, rest);
    }
  }

  lemma IdentUnquoted(d: Ident)
    ensures Unquoted(Shown(d)) == Unquoted(d.name)
  {
    if d.quoted {
      var inner := N.Doubled(d.name);
      OneUnquoted('"');
      UnquotedJoins("\"", inner + "\"");
      UnquotedJoins(inner, "\"");
      UnquotedDoubled(d.name);
      assert [] + Unquoted(inner) + [] == Unquoted(inner);
    }
  }

  lemma NothingIsRead()
    ensures AfterDot("", false) == None && BeforeParen("", false) == None && Protected("", 0, false) && Unquoted("") == ""
  {
  }

  lemma DotIsRead(rest: string)
    requires AfterDot(rest, false) == None && BeforeParen(rest, false) == None && Protected(rest, 0, false)
    ensures AfterDot("." + rest, false) == Some(rest)
    ensures BeforeParen("." + rest, false) == None && Protected("." + rest, 0, false)
    ensures Unquoted("." + rest) == "." + Unquoted(rest)
  {
    assert ("." + rest)[1..] == rest;
  }

  /** A shown name is read as meant, and nothing is stripped from it. */
  lemma TextIsRead(q: QualifiedName)
    ensures Unquoted(TextOf(q)) == if q.visible then Unquoted(q.name.name) else Unquoted(q.space.name) + "." + Unquoted(q.name.name)
    ensures BareTypeName(TextOf(q)) == Unquoted(q.name.name)
    ensures BeforeParen(TextOf(q), false) == None && Protected(TextOf(q), 0, false)
  {
    hide ReadsPast, Shown;
    var n := Shown(q.name);
    NothingIsRead();
    IdentReadsPast(q.name, "");
    IdentUnquoted(q.name);
    assert n + "" == n;
    assert AfterDot(n, false) == None && BeforeParen(n, false) == None && Protected(n, 0, false) by {
      ReadPast(n, "");
    }
    if !q.visible {
      DotIsRead(n);
      IdentReadsPast(q.space, "." + n);
      ReadPast(Shown(q.space), "." + n);
      IdentUnquoted(q.space);
      UnquotedJoins(Shown(q.space), "." + n);
    }
  }

  lemma ReadPast(head: string, rest: string)
    requires ReadsPast(head, rest, false, false)
    ensures AfterDot(head + rest, false) == AfterDot(rest, false)
    ensures BeforeParen(rest, false).None? ==> BeforeParen(head + rest, false).None?
    ensures Protected(head + rest, 0, false) == Protected(rest, 0, false)
  {
  }

  /** The last character is a quote, a letter, a digit or an underscore. */
  lemma TextEnds(q: QualifiedName)
    ensures var s := TextOf(q); s != "" && s[|s| - 1] != ']' && L.Trim(s)
  {
    var s, n := TextOf(q), Shown(q.name);
    assert n != "" && s[|s| - 1] == n[|n| - 1];
    assert s[0] == if q.visible then n[0] else Shown(q.space)[0];
  }

  /** So it is a type text the catalog can show, and nothing is stripped from it. */
  lemma TextIsPlain(q: QualifiedName)
    ensures StripTypmod(StripArrays(TextOf(q))) == TextOf(q) && Rendered(RawColumn("f", false, TextOf(q)))
  {
    hide TextOf, BeforeParen, Protected;
    TextIsRead(q);
    TextEnds(q);
    var s := TextOf(q);
    assert StripArrays(s) == s by {
      assert |s| >= 2 ==> s[|s| - 2..][1] == s[|s| - 1];
    }
  }

  // ---------- every spelling has a fully quoted form ----------

  /** Where a bare name may begin in an unquoted one: at its start or after a dot. */
  predicate BareFrom(key: string, n: nat) {
    n <= |key| && (n > 0 ==> key[n - 1] == '.')
  }

  lemma {:induction false} AfterDotIsTail(s: string, inQuote: bool)
    ensures var t := AfterDot(s, inQuote);
      t.Some? ==> |t.value| < |s| && s == s[..|s| - |t.value| - 1] + "." + t.value
  {
    if s != "" {
      AfterDotIsTail(s[1..], if s[0] == '"' then !inQuote else inQuote);
    }
  }

  /** A bare name is what is left of the unquoted one from some cut on. */
  lemma BareIsACut(s: string) returns (n: nat)
    ensures BareFrom(Unquoted(s), n) && BareTypeName(s) == Unquoted(s)[n..]
  {
    n := 0;
    var t := AfterDot(s, false);
    if t.Some? {
      AfterDotIsTail(s, false);
      var p := s[..|s| - |t.value| - 1];
      UnquotedJoins(p + ".", t.value);
      UnquotedJoins(p, ".");
      assert Unquoted(".") == ".";
      n := |Unquoted(p)| + 1;
    }
  }

  /** The name that spells `key`, with what follows the cut as its bare name. */
  function Canonical(key: string, n: nat): (q: QualifiedName)
    requires BareFrom(key, n)
  {
    if n == 0 then QualifiedName(RawIdent("", true), RawIdent(key, true), true)
    else QualifiedName(RawIdent(key[..n - 1], true), RawIdent(key[n..], true), false)
  }

  lemma CanonicalIsRead(key: string, n: nat)
    requires BareFrom(key, n) && '"' !in key
    ensures Unquoted(TextOf(Canonical(key, n))) == key && BareTypeName(TextOf(Canonical(key, n))) == key[n..]
  {
    hide TextOf, Unquoted, BareTypeName;
    TextIsRead(Canonical(key, n));
    NoQuoteToDrop(key[n..]);
    if n == 0 {
      assert key[n..] == key;
    } else {
      NoQuoteToDrop(key[..n - 1]);
      assert key == key[..n - 1] + "." + key[n..];
    }
  }

  // ---------- which composites a name can find ----------

  predicate FirstOfItsBareName(names: seq<string>, i: nat)
    requires i < |names|
  {
    forall m :: 0 <= m < i ==> BareTypeName(names[m]) != BareTypeName(names[i])
  }

  predicate FirstOfItsKey(names: seq<string>, i: nat)
    requires i < |names|
  {
    forall m :: 0 <= m < i ==> Unquoted(names[m]) != Unquoted(names[i])
  }

  predicate NoneBefore(names: seq<string>, i: nat, bare: string)
    requires i <= |names|
  {
    forall m :: 0 <= m < i ==> BareTypeName(names[m]) != bare
  }

  /** A field's own type is looked up only if it is no document itself. */
  predicate Allowed(nested: bool, bare: string) {
    nested ==> !DocumentFamily(bare)
  }

  /** Some name finds composite i, a nested field's type if `nested`: the first of its bare
      name is found by that, and the first of its key by a cut of it no one before has. */
  predicate Findable(names: seq<string>, i: nat, nested: bool)
    requires i < |names|
  {
    || (Allowed(nested, BareTypeName(names[i])) && FirstOfItsBareName(names, i))
    || (FirstOfItsKey(names, i) && exists n :: 0 <= n <= |Unquoted(names[i])| && FoundByCut(names, i, n, nested))
  }

  predicate FoundByCut(names: seq<string>, i: nat, n: nat, nested: bool)
    requires i < |names| && n <= |Unquoted(names[i])|
  {
    var key := Unquoted(names[i]);
    BareFrom(key, n) && Allowed(nested, key[n..]) && NoneBefore(names, i, key[n..])
  }

  lemma FoundIsFindable(names: seq<string>, name: string, i: nat, nested: bool)
    requires FindIn(names, name) == Some(i) && Allowed(nested, BareTypeName(name))
    ensures Findable(names, i, nested)
  {
    hide Unquoted, BareTypeName, DocumentFamily;
    FindsTheFirst(names, name, i, 0);
    if BareTypeName(names[i]) != BareTypeName(name) {
      var n := BareIsACut(name);
      assert FoundByCut(names, i, n, nested);
    }
  }

  lemma LongerThanAll(names: seq<string>) returns (n: nat)
    ensures forall m :: 0 <= m < |names| ==> |Unquoted(names[m])| < n
  {
    n := 0;
    for k := 0 to |names|
      invariant forall m :: 0 <= m < k ==> |Unquoted(names[m])| < n
    {
      n := if |Unquoted(names[k])| < n then n else |Unquoted(names[k])| + 1;
    }
  }

  /** And found by a fully quoted name at that. */
  lemma FindableHasAName(names: seq<string>, i: nat, nested: bool) returns (key: string, n: nat)
    requires i < |names| && Findable(names, i, nested)
    ensures '"' !in key && BareFrom(key, n) && Allowed(nested, key[n..])
    ensures FindIn(names, TextOf(Canonical(key, n))) == Some(i)
  {
    hide Unquoted, BareTypeName, DocumentFamily, Canonical;
    if Allowed(nested, BareTypeName(names[i])) && FirstOfItsBareName(names, i) {
      var bare := BareTypeName(names[i]);
      var long := LongerThanAll(names);
      var pad := seq(long, j => 'x');
      key, n := pad + ("." + bare), long + 1;
      assert key[n..] == bare;
      var cut := BareIsACut(names[i]);
      UnquotedHoldsNone(names[i]);
    } else {
      key := Unquoted(names[i]);
      n :| 0 <= n <= |key| && FoundByCut(names, i, n, nested);
      UnquotedHoldsNone(names[i]);
    }
    CanonicalIsRead(key, n);
    FindsTheFirst(names, TextOf(Canonical(key, n)), i, 0);
  }

  /** Findable says exactly that some name, of a nested field's type if so asked, finds it. */
  lemma FindableIff(names: seq<string>, i: nat, nested: bool)
    requires i < |names|
    ensures Findable(names, i, nested) <==>
      exists name :: FindIn(names, name) == Some(i) && Allowed(nested, BareTypeName(name))
  {
    hide Unquoted, BareTypeName, DocumentFamily, Findable, Canonical;
    if Findable(names, i, nested) {
      var key, n := FindableHasAName(names, i, nested);
      CanonicalIsRead(key, n);
      assert FindIn(names, TextOf(Canonical(key, n))) == Some(i);
    }
    forall name | FindIn(names, name) == Some(i) && Allowed(nested, BareTypeName(name))
      ensures Findable(names, i, nested)
    {
      FoundIsFindable(names, name, i, nested);
    }
  }

  /** No composite a walk can come to through a field shares its key with another one a
      walk can come to or start from. */
  predicate KeysTellApart(names: seq<string>) {
    forall i, j ::
      0 <= i < |names| && 0 <= j < |names| && i != j && Unquoted(names[i]) == Unquoted(names[j])
      ==> !Findable(names, i, false) || !Findable(names, j, true)
  }

  /** It takes a double quote in a composite's own name to confuse two keys. */
  lemma PlainNamesTellApart(names: seq<string>)
    requires forall i :: 0 <= i < |names| ==> '"' !in names[i]
    ensures KeysTellApart(names)
  {
    hide BareTypeName, AfterDot, DocumentFamily;
    forall i: nat, j: nat | i < |names| && j < |names| && i != j && Unquoted(names[i]) == Unquoted(names[j])
      ensures !Findable(names, i, false) || !Findable(names, j, true)
    {
      NoQuoteToDrop(names[i]);
      NoQuoteToDrop(names[j]);
      if i < j {
        OnlyTheFirstTwin(names, i, j, true);
      } else {
        OnlyTheFirstTwin(names, j, i, false);
      }
    }
  }

  lemma OnlyTheFirstTwin(names: seq<string>, i: nat, j: nat, nested: bool)
    requires i < j < |names| && names[i] == names[j]
    ensures !Findable(names, j, nested)
  {
    hide Unquoted, BareTypeName;
    assert !FirstOfItsBareName(names, j) && !FirstOfItsKey(names, j);
  }
}
