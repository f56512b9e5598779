/** The fail-closed check behind a mask request: which children of a masked column
    a run would still copy (internal/core/mask.go:330-352). */
module MaskRequests {
  import opened Common
  import opened Decisions
  import KP = KeyPropagation
  import CR = ClassifyRun
  import RP = RaisingPasses

  /** One pair's child is about to be copied in clear. */
  predicate Copied(decisions: map<ColumnRef, Decision>, generated: set<ColumnRef>, p: Pair) {
    && p.child != p.parent && p.child !in generated && p.child in decisions
    && !decisions[p.child].masked && !CR.OptOutSource(decisions[p.child].source)
  }

  predicate CopiedChild(fks: seq<ForeignKey>, decisions: map<ColumnRef, Decision>, generated: set<ColumnRef>,
                        parent: ColumnRef, c: ColumnRef) {
    exists p :: p in AllPairs(fks) && p.parent == parent && p.child == c && Copied(decisions, generated, p)
  }

  method UnmaskedChildren(fks: seq<ForeignKey>, decisions: map<ColumnRef, Decision>, generated: set<ColumnRef>, parent: ColumnRef)
    returns (left: set<ColumnRef>)
    ensures forall c :: c in left <==> CopiedChild(fks, decisions, generated, parent, c)
  {
    left := {};
    for k := 0 to |fks|
      invariant forall c :: c in left <==> CopiedChild(fks[..k], decisions, generated, parent, c)
    {
      var fk := fks[k];
      ghost var before := left;
      if fk.parent == parent.table {
        for i := 0 to |fk.parentCols|
          invariant forall c :: c in left <==> c in before || CopiedHere(fk, i, decisions, generated, parent, c)
        {
          assert i < Width(fk) <==> i < |fk.childCols|;
          assert forall c :: CopiedHere(fk, i + 1, decisions, generated, parent, c) <==>
            CopiedHere(fk, i, decisions, generated, parent, c) || CopiedHereAt(fk, i, decisions, generated, parent, c);
          if fk.parentCols[i] == parent.column && i < |fk.childCols| {
            var child := ColumnRef(fk.child, fk.childCols[i]);
            if child != parent && child !in generated && child in decisions
               && !decisions[child].masked && !CR.OptOutSource(decisions[child].source) {
              left := left + {child};
            }
          }
        }
      }
      forall c ensures c in left <==> CopiedChild(fks[..k + 1], decisions, generated, parent, c) {
        CopiedChildSnoc(fks, k, decisions, generated, parent, c);
      }
    }
    assert fks[..|fks|] == fks;
  }

  /** Some pair of one key, among its first n positions. */
  predicate CopiedHere(fk: ForeignKey, n: nat, decisions: map<ColumnRef, Decision>, generated: set<ColumnRef>,
                       parent: ColumnRef, c: ColumnRef) {
    exists i :: 0 <= i < n && CopiedHereAt(fk, i, decisions, generated, parent, c)
  }

  predicate CopiedHereAt(fk: ForeignKey, i: nat, decisions: map<ColumnRef, Decision>, generated: set<ColumnRef>,
                         parent: ColumnRef, c: ColumnRef) {
    i < Width(fk) && PairAt(fk, i).parent == parent && PairAt(fk, i).child == c
    && Copied(decisions, generated, PairAt(fk, i))
  }

  lemma CopiedChildSnoc(fks: seq<ForeignKey>, k: nat, decisions: map<ColumnRef, Decision>, generated: set<ColumnRef>,
                        parent: ColumnRef, c: ColumnRef)
    requires k < |fks|
    ensures CopiedChild(fks[..k + 1], decisions, generated, parent, c) <==>
            CopiedChild(fks[..k], decisions, generated, parent, c)
            || CopiedHere(fks[k], |fks[k].parentCols|, decisions, generated, parent, c)
  {
    var last := PairsTo(fks[k], Width(fks[k]));
    assert fks[..k + 1][..k] == fks[..k];
    assert AllPairs(fks[..k + 1]) == AllPairs(fks[..k]) + last;
    if CopiedChild(fks[..k + 1], decisions, generated, parent, c) {
      var p :| p in AllPairs(fks[..k + 1]) && p.parent == parent && p.child == c && Copied(decisions, generated, p);
      if p !in AllPairs(fks[..k]) {
        var i :| 0 <= i < |last| && last[i] == p;
        assert CopiedHereAt(fks[k], i, decisions, generated, parent, c);
      }
    }
    if CopiedHere(fks[k], |fks[k].parentCols|, decisions, generated, parent, c) {
      var i :| 0 <= i < |fks[k].parentCols| && CopiedHereAt(fks[k], i, decisions, generated, parent, c);
      assert last[i] == PairAt(fks[k], i);
    }
  }

  /** finalise's decisions for the passes' last state. */
  predicate Decided(d: Dec, decisions: map<ColumnRef, Decision>) {
    decisions.Keys == d.Keys && forall c :: c in d ==>
      decisions[c].masked == d[c].Masked() && decisions[c].source == d[c].source && decisions[c].category == d[c].category
  }

  /** After a quiet post-prior sweep, every child the check still names is one
      propagation could not reach: its type refuses the category, or the masked
      column is neither key nor unique. */
  lemma OnlyUnreachableChildrenAreNamed(e: CR.Env, prior: Option<RP.Prior>, d: Dec, decisions: map<ColumnRef, Decision>,
                                        generated: set<ColumnRef>, parent: ColumnRef, c: ColumnRef)
    requires AllHaveCategory(d) && CR.NoneOptedOut(d) && CR.SettledAfterPrior(e, prior, d)
    requires forall x :: x in d && d[x].col.generated ==> x in generated
    requires Decided(CR.Concluded(e, prior, d), decisions)
    requires parent in decisions && decisions[parent].masked
    requires CopiedChild(e.fks, decisions, generated, parent, c)
    ensures parent !in e.rules.keyColumns
         || !Accepted(e.rules.pack, decisions[parent].category, CR.Concluded(e, prior, d)[c].col.family)
  {
    CR.PassesOnlyMaskMore(e, prior, d);
    var p :| p in AllPairs(e.fks) && p.parent == parent && p.child == c && Copied(decisions, generated, p);
    var end := CR.Concluded(e, prior, d);
    if parent in e.rules.keyColumns {
      CR.MaskedKeyReachesItsChildren(e, prior, d, p);
      assert CR.Held(prior, AllPairs(e.fks), d, end, c);
    }
  }
}
