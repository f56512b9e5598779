/** From keyChildren to finalise: what must come out masked, and why a column that was not
    masked comes out so (classify.go:2662-2790, 2844-2900, 2925-3080). */
module FinalReasons {
  import opened Common
  import opened Decisions
  import opened RaisedColumns
  import opened KeyReasons
  import opened ClassifyRun
  import KP = KeyPropagation
  import RP = RaisingPasses

  // ---------- what the committed file may do to one column ----------

  /** An entry of the file names c and stands at that confidence. */
  predicate FileAsks(prior: RP.Prior, c: ColumnRef, level: int) {
    || (c in prior.columns && prior.columns[c].confidence == level)
    || exists p :: p in prior.patterns && c in p.names && p.confidence == level
  }

  /** The file left a decision where it stood, opted the column out, or raised it as asked. */
  predicate FileTouched(prior: RP.Prior, c: ColumnRef, w: Work, w': Work) {
    || w'.unmasked
    || w' == w.(category := w'.category, typeConflict := w'.typeConflict)
    || (w'.source == ByYmlRaise && FileAsks(prior, c, w'.confidence))
  }

  lemma RaiseTouches(pack: Accepts, w: Work, cat: Option<Category>, conf: int)
    ensures var v := RP.RaiseFromConfig(pack, w, cat, conf);
      if v.applied then v.work.source == ByYmlRaise && v.work.confidence == conf
      else v.work == w.(category := v.work.category, typeConflict := v.work.typeConflict)
  {
    hide Accepted, RP.Recategorised;
    RP.RecategorisedIs(pack, w, cat);
  }

  lemma PatternTouches(pack: Accepts, prior: RP.Prior, pat: RP.Pattern, c: ColumnRef, w: Work, b: Work)
    requires pat in prior.patterns && FileTouched(prior, c, w, b)
    ensures FileTouched(prior, c, w, RP.PatternVisit(pack, pat, c, b).work)
  {
    hide RP.RaiseFromConfig;
    RaiseTouches(pack, b, pat.category, pat.confidence);
    RP.RaiseKeepsOptOut(pack, b, pat.category, pat.confidence);
  }

  lemma EntryTouches(pack: Accepts, prior: RP.Prior, c: ColumnRef, w: Work, b: Work)
    requires c in prior.columns && FileTouched(prior, c, w, b)
    ensures FileTouched(prior, c, w, RP.ColumnVisit(pack, prior.columns[c], b).work)
  {
    hide RP.RaiseFromConfig, RP.HonourOptOut;
    var cc := prior.columns[c];
    RaiseTouches(pack, b, cc.category, cc.confidence);
    RP.RaiseKeepsOptOut(pack, b, cc.category, cc.confidence);
  }

  lemma {:induction false} OnePatternTouches(pack: Accepts, prior: RP.Prior, pat: RP.Pattern, order: seq<ColumnRef>, f: RP.Folded, c: ColumnRef, w: Work)
    requires pat in prior.patterns && c in f.dec && FileTouched(prior, c, w, f.dec[c])
    ensures var g := RP.ApplyPattern(pack, pat, order, f).dec; c in g && FileTouched(prior, c, w, g[c])
  {
    hide RP.PatternVisit, FileTouched;
    if order != [] {
      OnePatternTouches(pack, prior, pat, order[..|order| - 1], f, c, w);
      PatternTouches(pack, prior, pat, c, w, RP.ApplyPattern(pack, pat, order[..|order| - 1], f).dec[c]);
    }
  }

  lemma {:induction false} PatternsTouch(pack: Accepts, prior: RP.Prior, pats: seq<RP.Pattern>, order: seq<ColumnRef>, f: RP.Folded, c: ColumnRef)
    requires (forall p :: p in pats ==> p in prior.patterns) && c in f.dec
    ensures var g := RP.ApplyPatterns(pack, pats, order, f).dec; c in g && FileTouched(prior, c, f.dec[c], g[c])
  {
    hide RP.ApplyPattern;
    if pats != [] {
      var most, last := pats[..|pats| - 1], pats[|pats| - 1];
      assert last in pats && forall p :: p in most ==> p in pats;
      PatternsTouch(pack, prior, most, order, f, c);
      OnePatternTouches(pack, prior, last, order, RP.ApplyPatterns(pack, most, order, f), c, f.dec[c]);
    }
  }

  lemma {:induction false} EntriesTouch(pack: Accepts, prior: RP.Prior, order: seq<ColumnRef>, f: RP.Folded, c: ColumnRef, w: Work)
    requires c in f.dec && FileTouched(prior, c, w, f.dec[c])
    ensures var g := RP.ApplyColumns(pack, prior, order, f).dec; c in g && FileTouched(prior, c, w, g[c])
  {
    hide RP.ColumnVisit, FileTouched;
    if order != [] {
      EntriesTouch(pack, prior, order[..|order| - 1], f, c, w);
      if c in prior.columns {
        EntryTouches(pack, prior, c, w, RP.ApplyColumns(pack, prior, order[..|order| - 1], f).dec[c]);
      }
    }
  }

  /** applyPrior moves a decision only to where an entry naming its column asks, or opts it out. */
  lemma FileRaisesOnlyAsAsked(pack: Accepts, prior: RP.Prior, order: seq<ColumnRef>, dec: Dec, c: ColumnRef)
    requires c in dec
    ensures var f := RP.ApplyPrior(pack, prior, order, dec).dec; c in f && FileTouched(prior, c, dec[c], f[c])
  {
    hide RP.ApplyPatterns, RP.ApplyColumns, FileTouched;
    var start := RP.Folded(dec, false);
    PatternsTouch(pack, prior, prior.patterns, order, start, c);
    EntriesTouch(pack, prior, order, RP.ApplyPatterns(pack, prior.patterns, order, start), c, dec[c]);
  }

  // ---------- whether it raised anything ----------

  predicate SomeRaised(d: Dec, d': Dec) {
    exists c :: c in d && c in d' && d'[c].confidence > d[c].confidence
  }

  /** The flag says whether some decision has been raised so far. */
  predicate Noted(d: Dec, f: RP.Folded) {
    && d.Keys == f.dec.Keys
    && (forall c :: c in d ==> d[c].confidence <= f.dec[c].confidence)
    && (f.raised <==> SomeRaised(d, f.dec))
  }

  lemma OneVisitNoted(d: Dec, f: RP.Folded, c: ColumnRef, v: RP.RaiseResult)
    requires Noted(d, f) && c in f.dec
    requires if v.applied then v.work.confidence > f.dec[c].confidence else v.work.confidence == f.dec[c].confidence
    ensures Noted(d, RP.FoldVisit(f, c, v))
  {
    var e := RP.FoldVisit(f, c, v).dec;
    forall x | x in d && x != c ensures e[x] == f.dec[x] {}
    if SomeRaised(d, f.dec) {
      var x :| x in d && f.dec[x].confidence > d[x].confidence;
      assert e[x].confidence > d[x].confidence;
    }
    if v.applied {
      assert e[c].confidence > d[c].confidence;
    } else if SomeRaised(d, e) {
      var x :| x in d && e[x].confidence > d[x].confidence;
      assert f.dec[x].confidence > d[x].confidence;
    }
  }

  lemma {:induction false} PatternNoted(d: Dec, pack: Accepts, pat: RP.Pattern, order: seq<ColumnRef>, f: RP.Folded)
    requires Noted(d, f)
    ensures Noted(d, RP.ApplyPattern(pack, pat, order, f))
  {
    hide Noted, RP.FoldVisit, RP.RaiseFromConfig;
    if order != [] {
      var c := order[|order| - 1];
      var g := RP.ApplyPattern(pack, pat, order[..|order| - 1], f);
      PatternNoted(d, pack, pat, order[..|order| - 1], f);
      if c in g.dec {
        RaiseTouches(pack, g.dec[c], pat.category, pat.confidence);
        OneVisitNoted(d, g, c, RP.PatternVisit(pack, pat, c, g.dec[c]));
      }
    }
  }

  lemma {:induction false} PatternsNoted(d: Dec, pack: Accepts, pats: seq<RP.Pattern>, order: seq<ColumnRef>, f: RP.Folded)
    requires Noted(d, f)
    ensures Noted(d, RP.ApplyPatterns(pack, pats, order, f))
  {
    hide Noted;
    if pats != [] {
      PatternsNoted(d, pack, pats[..|pats| - 1], order, f);
      PatternNoted(d, pack, pats[|pats| - 1], order, RP.ApplyPatterns(pack, pats[..|pats| - 1], order, f));
    }
  }

  lemma {:induction false} EntriesNoted(d: Dec, pack: Accepts, prior: RP.Prior, order: seq<ColumnRef>, f: RP.Folded)
    requires Noted(d, f)
    ensures Noted(d, RP.ApplyColumns(pack, prior, order, f))
  {
    hide Noted, RP.FoldVisit, RP.RaiseFromConfig, RP.HonourOptOut;
    if order != [] {
      var c := order[|order| - 1];
      var g := RP.ApplyColumns(pack, prior, order[..|order| - 1], f);
      EntriesNoted(d, pack, prior, order[..|order| - 1], f);
      if c in g.dec && c in prior.columns {
        RaiseTouches(pack, g.dec[c], prior.columns[c].category, prior.columns[c].confidence);
        OneVisitNoted(d, g, c, RP.ColumnVisit(pack, prior.columns[c], g.dec[c]));
      }
    }
  }

  /** applyPrior reports a raise, and so calls for the second propagation, exactly if it left
      some decision more certain than it found it. */
  lemma FileRaisedIff(pack: Accepts, prior: RP.Prior, order: seq<ColumnRef>, dec: Dec)
    ensures var f := RP.ApplyPrior(pack, prior, order, dec);
      f.raised <==> exists c :: c in dec && c in f.dec && f.dec[c].confidence > dec[c].confidence
  {
    hide RP.ApplyPatterns, RP.ApplyColumns;
    var start := RP.Folded(dec, false);
    assert Noted(dec, start);
    PatternsNoted(dec, pack, prior.patterns, order, start);
    EntriesNoted(dec, pack, prior, order, RP.ApplyPatterns(pack, prior.patterns, order, start));
  }

  /** No entry asks for more than the decision has, and no opt-out stands. */
  predicate FileAsksNoMore(prior: RP.Prior, c: ColumnRef, w: Work) {
    && (forall p :: p in prior.patterns && c in p.names ==> p.confidence <= w.confidence)
    && (c in prior.columns ==>
          prior.columns[c].confidence <= w.confidence
          && (prior.columns[c].unmask.None? || !RP.Stands(prior.columns[c].unmask.value, w.col.fingerprint)))
  }

  lemma {:induction false} PatternLeaves(pack: Accepts, pat: RP.Pattern, order: seq<ColumnRef>, f: RP.Folded, c: ColumnRef)
    requires c in f.dec && (c in pat.names ==> pat.confidence <= f.dec[c].confidence)
    ensures var g := RP.ApplyPattern(pack, pat, order, f).dec; c in g && g[c] == f.dec[c]
  {
    hide RP.RaiseFromConfig;
    if order != [] {
      PatternLeaves(pack, pat, order[..|order| - 1], f, c);
    }
  }

  lemma {:induction false} PatternsLeave(pack: Accepts, pats: seq<RP.Pattern>, order: seq<ColumnRef>, f: RP.Folded, c: ColumnRef)
    requires c in f.dec && forall p :: p in pats && c in p.names ==> p.confidence <= f.dec[c].confidence
    ensures var g := RP.ApplyPatterns(pack, pats, order, f).dec; c in g && g[c] == f.dec[c]
  {
    hide RP.ApplyPattern;
    if pats != [] {
      assert pats[|pats| - 1] in pats && forall p :: p in pats[..|pats| - 1] ==> p in pats;
      PatternsLeave(pack, pats[..|pats| - 1], order, f, c);
      PatternLeaves(pack, pats[|pats| - 1], order, RP.ApplyPatterns(pack, pats[..|pats| - 1], order, f), c);
    }
  }

  lemma {:induction false} EntriesLeave(pack: Accepts, prior: RP.Prior, order: seq<ColumnRef>, f: RP.Folded, c: ColumnRef)
    requires c in f.dec && FileAsksNoMore(prior, c, f.dec[c])
    ensures var g := RP.ApplyColumns(pack, prior, order, f).dec; c in g && g[c] == f.dec[c]
  {
    hide RP.RaiseFromConfig, RP.HonourOptOut, RP.Stands;
    if order != [] {
      EntriesLeave(pack, prior, order[..|order| - 1], f, c);
      if c in prior.columns && prior.columns[c].unmask.Some? {
        RP.HonouredIffItStands(prior.columns[c].unmask.value, f.dec[c].col.fingerprint);
      }
    }
  }

  /** And a decision the file asks no more of it leaves alone, category and all. */
  lemma FileLeavesTheRest(pack: Accepts, prior: RP.Prior, order: seq<ColumnRef>, dec: Dec, c: ColumnRef)
    requires c in dec && FileAsksNoMore(prior, c, dec[c])
    ensures var f := RP.ApplyPrior(pack, prior, order, dec).dec; c in f && f[c] == dec[c]
  {
    hide RP.ApplyPatterns, RP.ApplyColumns;
    var start := RP.Folded(dec, false);
    PatternsLeave(pack, prior.patterns, order, start, c);
    EntriesLeave(pack, prior, order, RP.ApplyPatterns(pack, prior.patterns, order, start), c);
  }

  // ---------- what must come out masked ----------

  function AfterKeys(e: Env, d: Dec): Dec {
    Propagated(e, Exempted(e, d))
  }

  /** Once the names are shared, only an opt-out that stands unmasks. */
  lemma MaskedSinceSharing(e: Env, prior: Option<RP.Prior>, d: Dec, c: ColumnRef)
    requires c in d
    ensures var s, end := Shared(e, AfterKeys(e, d)), Concluded(e, prior, d);
      && c in s && c in end && s[c].col == end[c].col == d[c].col
      && (s[c].Masked() ==> end[c].Masked() || OptOutHonoured(prior, c, d[c].col.fingerprint))
  {
    var a := Exempted(e, d);
    KP.ReconcileRoundsExemptOnly(AllPairs(e.fks), d, |e.fks| + 1);
    AfterExemption(e, prior, a);
    var s := Shared(e, AfterKeys(e, d));
    var f := Prioritised(e, prior, s).dec;
    var end := Concluded(e, prior, d);
    assert Unlowered(d[c], a[c]) && Raises(a[c], s[c]) && Raises(s[c], f[c]);
    assert Raises(f[c], end[c]) && StillMasked(f[c], end[c]);
    if s[c].Masked() && !OptOutHonoured(prior, c, d[c].col.fingerprint) {
      assert StillMasked(s[c], f[c]);
    }
  }

  /** c may take the category of the first evidenced column of its name, in another table. */
  predicate MayShare(e: Env, b: Dec, c: ColumnRef, i: nat) {
    && c in b && c in e.order && FirstOfItsName(e.norm, e.order, b, i)
    && e.norm(e.order[i]) == e.norm(c) && e.order[i].table != c.table
    && TakesAName(e.rules.pack, b[c], b[e.order[i]].category)
  }

  /** A namesake of a masked column ends masked, or opted out. */
  lemma NamesakesEndMasked(e: Env, prior: Option<RP.Prior>, d: Dec, c: ColumnRef, i: nat)
    requires NoneOptedOut(d) && c in d && MayShare(e, AfterKeys(e, d), c, i)
    ensures var end := Concluded(e, prior, d);
      c in end && (end[c].Masked() || OptOutHonoured(prior, c, d[c].col.fingerprint))
  {
    hide Concluded;
    var b := AfterKeys(e, d);
    NamesAreSharedIff(e.norm, e.rules.pack, e.order, b, c, i);
    MaskedSinceSharing(e, prior, d, c);
    NotOptedOutYet(e, d, c);
  }

  lemma NotOptedOutYet(e: Env, d: Dec, c: ColumnRef)
    requires NoneOptedOut(d) && c in d
    ensures var b, s := AfterKeys(e, d), Shared(e, AfterKeys(e, d));
      c in Exempted(e, d) && c in b && c in s && !Exempted(e, d)[c].unmasked && !b[c].unmasked && !s[c].unmasked
  {
    var a := Exempted(e, d);
    KP.ReconcileRoundsExemptOnly(AllPairs(e.fks), d, |e.fks| + 1);
    KP.PropagateRoundsMaskMore(e.rules, AllPairs(e.fks), a, |e.fks| + 1);
    SharedMasksMore(e, AfterKeys(e, d));
    assert a[c].unmasked == d[c].unmasked;
    assert StillMasked(AfterKeys(e, d)[c], Shared(e, AfterKeys(e, d))[c]);
  }

  /** The first propagation stopped because nothing moved. */
  predicate FirstSweepSettled(e: Env, d: Dec) {
    !KP.PropagateRounds(e.rules, AllPairs(e.fks), Exempted(e, d), |e.fks| + 1).changed
  }

  /** Whether or not the file raised anything, a child of a key that is masked once the
      exemptions are shared ends masked, unless it is generated, its opt-out stands, or its
      type refuses the key's category. */
  lemma ChildrenOfMaskedKeysEndMasked(e: Env, prior: Option<RP.Prior>, d: Dec, p: Pair)
    requires NoneOptedOut(d) && FirstSweepSettled(e, d)
    requires p in AllPairs(e.fks) && p.child in d && MaskedKey(e.rules.keyColumns, Exempted(e, d), p.parent)
    ensures var b, end := AfterKeys(e, d), Concluded(e, prior, d);
      && p.parent in b && p.child in end
      && (|| end[p.child].Masked()
          || d[p.child].col.generated
          || OptOutHonoured(prior, p.child, d[p.child].col.fingerprint)
          || !Accepted(e.rules.pack, b[p.parent].category, d[p.child].col.family))
  {
    hide Accepted, Concluded, OptOutHonoured;
    var a := Exempted(e, d);
    var b := AfterKeys(e, d);
    var n := |e.fks| + 1;
    KP.ReconcileRoundsExemptOnly(AllPairs(e.fks), d, n);
    KP.PropagateRoundsMaskMore(e.rules, AllPairs(e.fks), a, n);
    KeyStays(e.rules.keyColumns, a, b, p.parent);
    KP.QuietExitAgrees(e.rules, AllPairs(e.fks), a, n);
    assert KP.Agrees(e.rules, p, b);
    MaskedSinceSharing(e, prior, d, p.child);
    NotOptedOutYet(e, d, p.child);
    SharedMasksMore(e, b);
    assert StillMasked(b[p.child], Shared(e, b)[p.child]);
  }

  // ---------- why a column came to be masked ----------

  /** The first evidenced column of c's name stands in another table. */
  predicate HasNamesake(e: Env, b: Dec, c: ColumnRef) {
    exists i :: 0 <= i < |e.order| && FirstOfItsName(e.norm, e.order, b, i) && e.norm(e.order[i]) == e.norm(c) && e.order[i].table != c.table
  }

  /** A key it refers to, a namesake, or the file. */
  predicate HasReason(e: Env, prior: Option<RP.Prior>, b: Dec, end: Dec, c: ColumnRef) {
    && c in end
    && (|| (end[c].source == ByFKPropagation && (ChildOfMaskedKey(e.rules.keyColumns, AllPairs(e.fks), end, c) || HasNamesake(e, b, c)))
        || (end[c].source == ByYmlRaise && prior.Some? && FileAsks(prior.value, c, end[c].confidence)))
  }

  predicate MaskedForAReason(e: Env, prior: Option<RP.Prior>, b: Dec, d: Dec, c: ColumnRef) {
    c in d && (d[c].Masked() ==> HasReason(e, prior, b, d, c))
  }

  lemma ReasonSurvives(e: Env, prior: Option<RP.Prior>, b: Dec, d: Dec, d': Dec, c: ColumnRef)
    requires MasksMore(d, d') && MaskedForAReason(e, prior, b, d, c)
    requires d'[c] == d[c] || d'[c] == d[c].(propagationRefused := true)
    ensures MaskedForAReason(e, prior, b, d', c)
  {
    hide FileAsks, HasNamesake;
    if ChildOfMaskedKey(e.rules.keyColumns, AllPairs(e.fks), d, c) {
      ChildStays(e.rules.keyColumns, AllPairs(e.fks), d, d', c);
    }
  }

  lemma ReasonOfAKey(e: Env, prior: Option<RP.Prior>, b: Dec, d: Dec, c: ColumnRef)
    requires MaskedForAReason(e, prior, b, d, c)
    ensures MaskedForAReason(e, prior, b, Propagated(e, d), c)
  {
    hide KP.PropagateRounds, FileAsks, HasNamesake, Accepted, SomeKeyHad, SomeoneStoodAt, ChildOfMaskedKey;
    var n := |e.fks| + 1;
    PropagationIsExplained(e.rules, AllPairs(e.fks), d, n);
    assert Explained(e.rules, AllPairs(e.fks), d, Propagated(e, d), c);
    if Propagated(e, d)[c] == d[c] || Propagated(e, d)[c] == d[c].(propagationRefused := true) {
      KP.PropagateRoundsMaskMore(e.rules, AllPairs(e.fks), d, n);
      ReasonSurvives(e, prior, b, d, Propagated(e, d), c);
    }
  }

  lemma ReasonOfAName(e: Env, prior: Option<RP.Prior>, b: Dec, c: ColumnRef)
    requires MaskedForAReason(e, prior, b, b, c)
    ensures MaskedForAReason(e, prior, b, Shared(e, b), c)
  {
    hide RP.ShareNames, RP.Namesakes, FileAsks, FirstOfItsName, TakesAName, HasReason;
    var s := Shared(e, b);
    SharedMasksMore(e, b);
    SharedFrom(e, b, c);
    if s[c] == b[c] {
      ReasonSurvives(e, prior, b, b, s, c);
    } else {
      assert HasReason(e, prior, b, s, c) by { NamesakeIsAReason(e, prior, b, s, c); }
    }
  }

  lemma NamesakeIsAReason(e: Env, prior: Option<RP.Prior>, b: Dec, s: Dec, c: ColumnRef)
    requires c in s && s[c].source == ByFKPropagation && HasNamesake(e, b, c)
    ensures HasReason(e, prior, b, s, c)
  {
  }

  lemma SharedFrom(e: Env, b: Dec, c: ColumnRef)
    requires c in b
    ensures var s := Shared(e, b); c in s && (s[c] == b[c] || (s[c].source == ByFKPropagation && HasNamesake(e, b, c)))
  {
    hide TakesAName;
    var sources := RP.Namesakes(e.norm, e.order, b);
    NamesakeIsTheFirst(e.norm, e.order, b);
    SharedOnce(e.norm, e.rules.pack, sources, e.order, b, c);
    hide FirstOfItsName, Accepted;
    if Shared(e, b)[c] != b[c] {
      var i: nat :| FirstOfItsName(e.norm, e.order, b, i) && e.norm(e.order[i]) == e.norm(c);
      FirstIsInOrder(e, b, i);
      assert sources[e.norm(c)] == RP.Namesake(b[e.order[i]].category, e.order[i].table);
    }
  }

  lemma FirstIsInOrder(e: Env, b: Dec, i: nat)
    requires FirstOfItsName(e.norm, e.order, b, i)
    ensures i < |e.order| && e.order[i] in b
  {
  }

  lemma ReasonOfTheFile(e: Env, prior: Option<RP.Prior>, b: Dec, s: Dec, c: ColumnRef)
    requires MaskedForAReason(e, prior, b, s, c)
    ensures MaskedForAReason(e, prior, b, Prioritised(e, prior, s).dec, c)
  {
    hide RP.ApplyPrior, FileAsks, HasNamesake, MaskedKey;
    if prior.Some? {
      FileRaisesOnlyAsAsked(e.rules.pack, prior.value, e.order, s, c);
      RP.ApplyPriorTightens(e.rules.pack, prior.value, e.order, s);
      if ChildOfMaskedKey(e.rules.keyColumns, AllPairs(e.fks), s, c) {
        ChildStaysThroughTheFile(e, prior.value, s, c);
      }
    }
  }

  lemma ChildStaysThroughTheFile(e: Env, prior: RP.Prior, s: Dec, c: ColumnRef)
    requires ChildOfMaskedKey(e.rules.keyColumns, AllPairs(e.fks), s, c)
    ensures ChildOfMaskedKey(e.rules.keyColumns, AllPairs(e.fks), RP.ApplyPrior(e.rules.pack, prior, e.order, s).dec, c)
  {
    hide RP.ApplyPrior;
    RP.ApplyPriorTightens(e.rules.pack, prior, e.order, s);
    var f := RP.ApplyPrior(e.rules.pack, prior, e.order, s).dec;
    var p :| p in AllPairs(e.fks) && p.child == c && MaskedKey(e.rules.keyColumns, s, p.parent);
    assert Raises(s[p.parent], f[p.parent]);
    assert MaskedKey(e.rules.keyColumns, f, p.parent);
  }

  /** A column that is not masked once the exemptions are shared, and comes out masked, refers to
      a masked key, shares its name with an evidenced column of another table, or was raised by
      an entry of the file to the confidence it has; its source says which. */
  lemma EveryLaterMaskHasAReason(e: Env, prior: Option<RP.Prior>, d: Dec, c: ColumnRef)
    requires c in d && c in Exempted(e, d) && !Exempted(e, d)[c].Masked()
    ensures MaskedForAReason(e, prior, AfterKeys(e, d), Concluded(e, prior, d), c)
  {
    hide Exempted, Propagated, Shared, Prioritised, HasReason;
    var b := AfterKeys(e, d);
    ReasonOfAKey(e, prior, b, Exempted(e, d), c);
    ReasonOfAName(e, prior, b, c);
    ReasonOfTheFile(e, prior, b, Shared(e, b), c);
    ReasonOfAKey(e, prior, b, Prioritised(e, prior, Shared(e, b)).dec, c);
  }

  /** keyChildren stopped because nothing moved. */
  predicate ExemptionsSettled(e: Env, d: Dec) {
    !KP.ReconcileRounds(AllPairs(e.fks), d, |e.fks| + 1).changed
  }

  /** A whole-number or uuid child of an exempt key keeps the key's values, unless a masked key
      it refers to, a namesake or the file says otherwise. */
  lemma ChildOfAnExemptKeyIsCopied(e: Env, prior: Option<RP.Prior>, d: Dec, p: Pair)
    requires ExemptionsSettled(e, d) && p in AllPairs(e.fks) && p.checked
    requires p.parent in d && d[p.parent].neverMask && d[p.parent].keyExempt
    requires p.child in d && d[p.child].col.family in {FamInteger, FamBigint, FamUUID} && !d[p.child].col.isArray
    ensures MaskedForAReason(e, prior, AfterKeys(e, d), Concluded(e, prior, d), p.child)
  {
    hide Concluded, AfterKeys, MaskedForAReason;
    var n := |e.fks| + 1;
    var a := Exempted(e, d);
    KP.QuietExitSharesExemption(AllPairs(e.fks), d, n);
    KP.ReconcileRoundsExemptOnly(AllPairs(e.fks), d, n);
    assert a[p.parent] == d[p.parent] && KP.ExemptionShared(p, a);
    EveryLaterMaskHasAReason(e, prior, d, p.child);
  }
}
