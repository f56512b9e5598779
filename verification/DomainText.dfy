/** The base type of a domain, read back from the catalog's rendering of it
    (internal/classify/types.go:409-437, internal/introspect/sql.go:159-172). */
module DomainText {
  import opened Common
  import opened Literal

  // ---------- strings.Index ----------

  predicate OccursAt(s: string, p: string, i: nat) {
    i + |p| <= |s| && s[i..i + |p|] == p
  }

  /** Where p first occurs in s, the length of s if nowhere. */
  function Index(s: string, p: string): (n: nat)
    requires p != ""
    ensures n <= |s| && (n < |s| ==> n + |p| <= |s|)
  {
    if |s| < |p| then |s|
    else if s[..|p|] == p then 0
    else 1 + Index(s[1..], p)
  }

  lemma {:induction false} IndexIsFirst(s: string, p: string)
    requires p != ""
    ensures Index(s, p) < |s| ==> OccursAt(s, p, Index(s, p))
    ensures forall i: nat :: OccursAt(s, p, i) ==> Index(s, p) <= i
  {
    if |p| <= |s| && s[..|p|] != p {
      IndexIsFirst(s[1..], p);
      forall i: nat | OccursAt(s, p, i) ensures Index(s, p) <= i {
        if i > 0 {
          assert s[1..][i - 1..i - 1 + |p|] == s[i..i + |p|];
          assert OccursAt(s[1..], p, i - 1);
        }
      }
      if Index(s, p) < |s| {
        var n := Index(s[1..], p);
        assert s[1..][n..n + |p|] == s[n + 1..n + 1 + |p|];
      }
    }
  }

  /** An occurrence in a part of s is one in s, and one in s that fits the part is one there. */
  lemma OccursInAPart(s: string, a: nat, part: string, p: string, i: nat)
    requires a + |part| <= |s| && s[a..a + |part|] == part && i + |p| <= |part|
    ensures OccursAt(part, p, i) <==> OccursAt(s, p, a + i)
  {
    var here, there := part[i..i + |p|], s[a + i..a + i + |p|];
    forall k | 0 <= k < |p| ensures here[k] == there[k] {
      assert here[k] == s[a..a + |part|][i + k];
    }
    assert here == there;
  }

  // ---------- domainBase's reader ----------

  const AS := " AS "
  const CLAUSES := [" COLLATE ", " DEFAULT ", " NOT NULL", " CONSTRAINT "]

  function Clip(s: string, clause: string): string
    requires clause != ""
  {
    s[..Index(s, clause)]
  }

  /** The clauses that may follow the base type, cut off one after another. */
  function Clipped(s: string, clauses: seq<string>): string
    requires "" !in clauses
    decreases |clauses|
  {
    if clauses == [] then s else Clipped(Clip(s, clauses[0]), clauses[1..])
  }

  function BaseOfDef(def: string): Option<string> {
    var i := Index(def, AS);
    if i == |def| then None else Some(TrimSpace(Clipped(def[i + |AS|..], CLAUSES)))
  }

  method ReadBase(def: string) returns (base: Option<string>)
    ensures base == BaseOfDef(def)
  {
    hide Index, TrimSpace;
    var i := Index(def, AS);
    if i == |def| {
      return None;
    }
    IndexIsFirst(def, AS);
    var rest := def[i + |AS|..];
    ghost var whole := rest;
    for k := 0 to |CLAUSES|
      invariant Clipped(whole, CLAUSES) == Clipped(rest, CLAUSES[k..])
    {
      assert CLAUSES[k..][1..] == CLAUSES[k + 1..];
      var j := Index(rest, CLAUSES[k]);
      if j < |rest| {
        rest := rest[..j];
      } else {
        assert rest[..j] == rest;
      }
    }
    return Some(TrimSpace(rest));
  }

  // ---------- what it reads back ----------

  /** CREATE DOMAIN, the quoted and qualified name, the base type and the clauses after it. */
  function PrintDomain(name: string, base: string, tail: string): string {
    "CREATE DOMAIN " + name + AS + (base + tail)
  }

  predicate Occurs(s: string, p: string) {
    exists i :: 0 <= i <= |s| && OccursAt(s, p, i)
  }

  predicate Clauseless(s: string) {
    forall k :: 0 <= k < |CLAUSES| ==> !Occurs(s, CLAUSES[k])
  }

  /** Nothing, or a clause into which none that is looked for before it reaches. */
  predicate IsTail(tail: string) {
    tail == "" || exists k :: 0 <= k < |CLAUSES| && TailOf(tail, k)
  }

  predicate TailOf(tail: string, k: nat)
    requires k < |CLAUSES|
  {
    OccursAt(tail, CLAUSES[k], 0) &&
    forall j, i :: 0 <= j < k && 0 < i < |CLAUSES[k]| ==> !OccursAt(tail, CLAUSES[j], i)
  }

  /** What format_type writes: no space at an end, and no capital at the last place but in quotes. */
  predicate IsBase(base: string) {
    base != "" && Trim(base) && !('A' <= base[|base| - 1] <= 'Z')
  }

  lemma {:induction false} ClippedHoldsNone(s: string, clauses: seq<string>)
    requires "" !in clauses
    ensures Clipped(s, clauses) <= s
    ensures forall c :: c in clauses ==> !Occurs(Clipped(s, clauses), c)
    decreases |clauses|
  {
    if clauses != [] {
      var c := clauses[0];
      var t := Clip(s, c);
      var out := Clipped(t, clauses[1..]);
      ClippedHoldsNone(t, clauses[1..]);
      forall i | 0 <= i <= |out| && OccursAt(out, c, i) ensures false {
        assert s[0..|out|] == out;
        OccursInAPart(s, 0, out, c, i);
        IndexIsFirst(s, c);
      }
    }
  }

  /** Trimming leaves a part of the text. */
  lemma {:induction false} TrimIsAPart(s: string) returns (a: nat)
    ensures a + |TrimSpace(s)| <= |s| && s[a..a + |TrimSpace(s)|] == TrimSpace(s)
  {
    a := TrimLeftIsAPart(s);
    TrimRightIsAPart(TrimLeft(s));
  }

  lemma {:induction false} TrimLeftIsAPart(s: string) returns (a: nat)
    ensures a <= |s| && s[a..] == TrimLeft(s)
  {
    a := 0;
    if s != "" && IsSpace(s[0]) {
      a := TrimLeftIsAPart(s[1..]);
      a := a + 1;
    }
  }

  lemma {:induction false} TrimRightIsAPart(s: string)
    ensures TrimRight(s) <= s
  {
    if s != "" && IsSpace(s[|s| - 1]) {
      TrimRightIsAPart(s[..|s| - 1]);
    }
  }

  lemma PartOccurs(s: string, a: nat, part: string, p: string)
    requires a + |part| <= |s| && s[a..a + |part|] == part && Occurs(part, p)
    ensures Occurs(s, p)
  {
    var i :| 0 <= i <= |part| && OccursAt(part, p, i);
    OccursInAPart(s, a, part, p, i);
  }

  lemma OccursFits(s: string, p: string, i: nat)
    requires OccursAt(s, p, i)
    ensures i + |p| <= |s|
  {
  }

  lemma CharAt(s: string, p: string, i: nat, k: nat)
    requires OccursAt(s, p, i) && k < |p|
    ensures s[i + k] == p[k]
  {
    assert s[i..i + |p|][k] == s[i + k];
  }

  /** In a clause a capital stands before every space but the first. */
  predicate SpacesFollowCapitals(c: string) {
    forall k :: 0 < k < |c| && c[k] == ' ' ==> 'A' <= c[k - 1] <= 'Z'
  }

  lemma CapitalBefore(c: string, k: nat)
    requires SpacesFollowCapitals(c) && 0 < k < |c| && c[k] == ' '
    ensures 'A' <= c[k - 1] <= 'Z'
  {
  }

  lemma ClausesAreWords(k: nat)
    requires k < |CLAUSES|
    ensures SpacesFollowCapitals(CLAUSES[k]) && |CLAUSES[k]| > 1
    ensures CLAUSES[k][0] == ' ' && 'A' <= CLAUSES[k][1] <= 'Z'
  {
    var c := CLAUSES[k];
    var spaces := if k == 0 || k == 1 then {8} else if k == 2 then {4} else {11};
    SpacesAt(c, spaces) by {
      forall j | 0 < j < |c| && j !in spaces ensures c[j] != ' ' {
        assert k == 0 ==> c[j] == " COLLATE "[j];
      }
    }
  }

  lemma SpacesAt(c: string, spaces: set<nat>)
    requires forall j :: 0 < j < |c| && j !in spaces ==> c[j] != ' '
    requires forall j :: j in spaces ==> 0 < j < |c| && 'A' <= c[j - 1] <= 'Z'
    ensures SpacesFollowCapitals(c)
  {
  }

  lemma TailStartsWithASpace(tail: string)
    requires IsTail(tail) && tail != ""
    ensures tail[0] == ' '
  {
    var k :| 0 <= k < |CLAUSES| && TailOf(tail, k);
    CharAt(tail, CLAUSES[k], 0, 0);
  }

  /** A clause that starts in the base type and ends past it would need a capital at its end. */
  lemma NoneReachesIn(base: string, tail: string, c: string, i: nat)
    requires SpacesFollowCapitals(c) && IsBase(base) && (tail != "" ==> tail[0] == ' ')
    requires i < |base| && OccursAt(base + tail, c, i)
    ensures OccursAt(base, c, i)
  {
    hide SpacesFollowCapitals, OccursAt;
    var s, n := base + tail, |base| - i;
    if n < |c| {
      OccursFits(s, c, i);
      CharAt(s, c, i, n);
      CharAt(s, c, i, n - 1);
      CapitalBefore(c, n);
    } else {
      assert s[0..|base|] == base;
      OccursInAPart(s, 0, base, c, i);
    }
  }

  /** No clause is found before the base type ends, and its own one just there. */
  lemma ClipPastTheBase(base: string, tail: string, c: string)
    requires c != "" && SpacesFollowCapitals(c) && !Occurs(base, c)
    requires IsBase(base) && (tail != "" ==> tail[0] == ' ')
    ensures var n := Index(base + tail, c);
      && |base| <= n
      && (OccursAt(tail, c, 0) ==> n == |base|)
      && (n < |base + tail| ==> OccursAt(tail, c, n - |base|))
  {
    hide Index, OccursAt, SpacesFollowCapitals, IsBase;
    var s := base + tail;
    var n := Index(s, c);
    IndexIsFirst(s, c);
    assert s[|base|..|base| + |tail|] == tail;
    if n < |base| {
      NoneReachesIn(base, tail, c, n);
    } else if n < |s| {
      OccursInPart(s, base, tail, c, n - |base|);
    }
    if OccursAt(tail, c, 0) {
      OccursInPart(s, base, tail, c, 0);
    }
  }

  lemma OccursInPart(s: string, base: string, tail: string, c: string, i: nat)
    requires s == base + tail
    ensures OccursAt(s, c, |base| + i) <==> OccursAt(tail, c, i)
  {
    if i + |c| <= |tail| {
      assert s[|base|..|base| + |tail|] == tail;
      OccursInAPart(s, |base|, tail, c, i);
    }
  }

  lemma ClausesDiffer(k: nat, m: nat) returns (i: nat)
    requires k < m < |CLAUSES|
    ensures i < |CLAUSES[k]| && i < |CLAUSES[m]| && CLAUSES[k][i] != CLAUSES[m][i]
  {
    i := if k == 0 && m == 3 then 3 else 1;
  }

  lemma OneClauseAtATime(tail: string, k: nat, m: nat)
    requires k < m < |CLAUSES| && OccursAt(tail, CLAUSES[m], 0)
    ensures !OccursAt(tail, CLAUSES[k], 0)
  {
    var i := ClausesDiffer(k, m);
    OneAtATime(tail, CLAUSES[m], CLAUSES[k], i);
  }

  lemma OneAtATime(s: string, p: string, q: string, i: nat)
    requires OccursAt(s, p, 0) && i < |p| && i < |q| && p[i] != q[i]
    ensures !OccursAt(s, q, 0)
  {
    hide OccursAt;
    CharAt(s, p, 0, i);
    if OccursAt(s, q, 0) {
      CharAt(s, q, 0, i);
    }
  }

  /** Cutting at a clause looked for earlier keeps the one the tail starts with. */
  lemma TailIsKept(tail: string, k: nat, m: nat, d: nat)
    requires k < m < |CLAUSES| && TailOf(tail, m) && d <= |tail|
    requires d < |tail| ==> OccursAt(tail, CLAUSES[k], d)
    ensures TailOf(tail[..d], m)
  {
    var c := CLAUSES[m];
    if d == 0 && tail != "" {
      OneClauseAtATime(tail, k, m);
    }
    var t := tail[..d];
    assert t[..|c|] == tail[..|c|];
    forall j, i | 0 <= j < m && 0 < i < |c| ensures !OccursAt(t, CLAUSES[j], i) {
      if OccursAt(t, CLAUSES[j], i) {
        assert tail[0..d] == t;
        OccursInAPart(tail, 0, t, CLAUSES[j], i);
      }
    }
  }

  lemma {:induction false} ClipsToTheBase(base: string, tail: string, k: nat)
    requires k <= |CLAUSES| && IsBase(base) && Clauseless(base)
    requires tail == "" || exists m :: k <= m < |CLAUSES| && TailOf(tail, m)
    ensures Clipped(base + tail, CLAUSES[k..]) == base
    decreases |CLAUSES| - k
  {
    hide Index, TailOf, Clauseless, IsBase;
    if k == |CLAUSES| {
      assert base + tail == base;
    } else {
      assert CLAUSES[k..][1..] == CLAUSES[k + 1..];
      ClausesAreWords(k);
      if tail != "" {
        TailStartsWithASpace(tail);
      }
      assert !Occurs(base, CLAUSES[k]) by { NoClauseOccurs(base, k); }
      ClipPastTheBase(base, tail, CLAUSES[k]);
      var n := Index(base + tail, CLAUSES[k]);
      var rest := tail[..n - |base|];
      assert Clip(base + tail, CLAUSES[k]) == base + rest;
      if rest != "" {
        var m :| k <= m < |CLAUSES| && TailOf(tail, m);
        assert m != k by { TailStarts(tail, k); }
        TailIsKept(tail, k, m, n - |base|);
      }
      ClipsToTheBase(base, rest, k + 1);
    }
  }

  lemma NoClauseOccurs(base: string, k: nat)
    requires Clauseless(base) && k < |CLAUSES|
    ensures !Occurs(base, CLAUSES[k])
  {
  }

  lemma TailStarts(tail: string, k: nat)
    requires k < |CLAUSES|
    ensures TailOf(tail, k) ==> OccursAt(tail, CLAUSES[k], 0)
  {
  }

  /** domainBase gives the base type back, whatever follows it, if and only if the base
      type's own text holds none of the words it cuts at. */
  lemma BaseIsReadIff(name: string, base: string, tail: string)
    requires !Occurs("CREATE DOMAIN " + name + " ", AS) && IsBase(base) && IsTail(tail)
    ensures BaseOfDef(PrintDomain(name, base, tail)) == Some(base) <==> Clauseless(base)
  {
    hide Index, Clauseless, IsTail, Clipped, TrimSpace;
    var def := PrintDomain(name, base, tail);
    FirstAs(name, base + tail);
    assert def[Index(def, AS) + |AS|..] == base + tail;
    assert CLAUSES[0..] == CLAUSES;
    if Clauseless(base) {
      TailHasAClause(tail);
      ClipsToTheBase(base, tail, 0);
      TrimSpaceShortens(base);
    } else if BaseOfDef(def) == Some(base) {
      var out := Clipped(base + tail, CLAUSES);
      ClippedHoldsNone(base + tail, CLAUSES);
      var a := TrimIsAPart(out);
      ClauseIsKept(out, a, base);
    }
  }

  lemma ClauseIsKept(out: string, a: nat, base: string)
    requires a + |base| <= |out| && out[a..a + |base|] == base && !Clauseless(base)
    ensures exists c :: c in CLAUSES && Occurs(out, c)
  {
    var k :| 0 <= k < |CLAUSES| && Occurs(base, CLAUSES[k]);
    PartOccurs(out, a, base, CLAUSES[k]);
    assert CLAUSES[k] in CLAUSES;
  }

  lemma TailHasAClause(tail: string)
    requires IsTail(tail)
    ensures tail == "" || exists m :: 0 <= m < |CLAUSES| && TailOf(tail, m)
  {
  }

  lemma FirstAs(name: string, rest: string)
    requires !Occurs("CREATE DOMAIN " + name + " ", AS)
    ensures Index("CREATE DOMAIN " + name + AS + rest, AS) == |"CREATE DOMAIN " + name|
    ensures ("CREATE DOMAIN " + name + AS + rest)[|"CREATE DOMAIN " + name| + |AS|..] == rest
  {
    var head := "CREATE DOMAIN " + name;
    var s := head + AS + rest;
    assert s[|head|..|head| + |AS|] == AS;
    assert OccursAt(s, AS, |head|);
    hide OccursAt, Index;
    var n := Index(s, AS);
    IndexIsFirst(s, AS);
    if n < |head| {
      if n + |AS| <= |head| + 1 {
        assert s[0..|head| + 1] == head + " ";
        OccursInAPart(s, 0, head + " ", AS, n);
      } else {
        CharAt(s, AS, |head|, 0);
        CharAt(s, AS, n, |head| - n);
      }
    }
  }
}
