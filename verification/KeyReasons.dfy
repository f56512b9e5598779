/** Why foreignKeys changed a decision: whatever it changed, it changed for a key column that
    is masked, and what it gave was some key's already (classify.go, pass 4). */
module KeyReasons {
  import opened Common
  import opened Decisions
  import opened KeyPropagation

  /** y is a key column above the threshold, with a category and without an exemption. */
  predicate MaskedKey(keys: set<ColumnRef>, d: Dec, y: ColumnRef) {
    y in keys && y in d && d[y].confidence >= CONF_POSSIBLE && !d[y].neverMask && d[y].category != CatNone
  }

  /** c refers to such a column. */
  predicate ChildOfMaskedKey(keys: set<ColumnRef>, ps: seq<Pair>, d: Dec, c: ColumnRef) {
    exists p :: p in ps && p.child == c && MaskedKey(keys, d, p.parent)
  }

  /** Some masked key had this category before the pass. */
  predicate SomeKeyHad(keys: set<ColumnRef>, d: Dec, cat: Category) {
    exists y :: y in d && MaskedKey(keys, d, y) && d[y].category == cat
  }

  predicate SomeoneStoodAt(d: Dec, level: int) {
    exists y :: y in d && d[y].confidence == level
  }

  /** w' is w with a masked key's category in place of its own, every exemption gone. */
  predicate TookAKey(r: Rules, d: Dec, w: Work, w': Work) {
    && !w.col.generated && !w.unmasked
    && w'.category != CatNone && Accepted(r.pack, w'.category, w.col.family) && SomeKeyHad(r.keyColumns, d, w'.category)
    && w'.confidence >= CONF_POSSIBLE && w'.confidence >= w.confidence && SomeoneStoodAt(d, w'.confidence)
    && w' == w.(category := w'.category, confidence := w'.confidence, source := ByFKPropagation,
                neverMask := false, typeConflict := false, frameworkMetadata := false, keyExempt := false,
                sweptNoSignal := false, propagationRefused := w'.propagationRefused)
  }

  /** All that may have become of one column. */
  predicate Explained(r: Rules, ps: seq<Pair>, d: Dec, d': Dec, c: ColumnRef) {
    && c in d && c in d'
    && (d'[c] == d[c]
        || (ChildOfMaskedKey(r.keyColumns, ps, d', c)
            && (d'[c] == d[c].(propagationRefused := true) || TookAKey(r, d, d[c], d'[c]))))
  }

  predicate AllExplained(r: Rules, ps: seq<Pair>, d: Dec, d': Dec) {
    d.Keys == d'.Keys && forall c :: c in d ==> Explained(r, ps, d, d', c)
  }

  lemma KeyStays(keys: set<ColumnRef>, d: Dec, d': Dec, y: ColumnRef)
    requires MasksMore(d, d') && MaskedKey(keys, d, y)
    ensures MaskedKey(keys, d', y)
  {
    assert Raises(d[y], d'[y]);
  }

  lemma ChildStays(keys: set<ColumnRef>, ps: seq<Pair>, d: Dec, d': Dec, c: ColumnRef)
    requires MasksMore(d, d') && ChildOfMaskedKey(keys, ps, d, c)
    ensures ChildOfMaskedKey(keys, ps, d', c)
  {
    var p :| p in ps && p.child == c && MaskedKey(keys, d, p.parent);
    KeyStays(keys, d, d', p.parent);
  }

  /** What a masked key carries now, a masked key carried at the start. */
  lemma KeyHadIt(r: Rules, ps: seq<Pair>, d: Dec, b: Dec, y: ColumnRef)
    requires AllExplained(r, ps, d, b) && MaskedKey(r.keyColumns, b, y)
    ensures SomeKeyHad(r.keyColumns, d, b[y].category) && SomeoneStoodAt(d, b[y].confidence)
  {
    hide ChildOfMaskedKey, Accepted;
    assert Explained(r, ps, d, b, y);
    if !TookAKey(r, d, d[y], b[y]) {
      assert MaskedKey(r.keyColumns, d, y);
    }
  }

  /** The step, of the child alone. */
  lemma StepIsExplained(r: Rules, ps: seq<Pair>, p: Pair, d: Dec, b: Dec)
    requires AllExplained(r, ps, d, b) && p in ps && p.child in b
    ensures var e := PropagatePair(r, p, b).dec;
      p.child in e && Explained(r, ps, d, e, p.child)
  {
    hide Accepted, SomeKeyHad, SomeoneStoodAt, MasksMore;
    var e := PropagatePair(r, p, b).dec;
    PropagateStepMasksMore(r, p, b);
    StepKeys(r, p, b);
    if e[p.child] == b[p.child] {
      assert Explained(r, ps, d, b, p.child);
      if d[p.child] != b[p.child] {
        ChildStays(r.keyColumns, ps, b, e, p.child);
      }
    } else {
      assert Overrides(r, b, p.parent) && MaskedKey(r.keyColumns, b, p.parent);
      KeyHadIt(r, ps, d, b, p.parent);
      StepGives(r, ps, p, d, b);
      KeyStays(r.keyColumns, b, e, p.parent);
      assert ChildOfMaskedKey(r.keyColumns, ps, e, p.child);
    }
  }

  lemma StepKeys(r: Rules, p: Pair, b: Dec)
    ensures PropagatePair(r, p, b).dec.Keys == b.Keys
    ensures forall c :: c in b && c != p.child ==> PropagatePair(r, p, b).dec[c] == b[c]
  {
    hide Accepted;
  }

  predicate OneExplained(r: Rules, d: Dec, w: Work, b: Work) {
    b == w || b == w.(propagationRefused := true) || TookAKey(r, d, w, b)
  }

  lemma RefusalAdds(r: Rules, d: Dec, w: Work, b: Work)
    requires OneExplained(r, d, w, b)
    ensures var e := b.(propagationRefused := true); e == w.(propagationRefused := true) || TookAKey(r, d, w, e)
  {
    hide Accepted, SomeKeyHad, SomeoneStoodAt;
  }

  lemma OverrideTakes(r: Rules, d: Dec, w: Work, b: Work, key: Work)
    requires OneExplained(r, d, w, b) && SomeoneStoodAt(d, w.confidence)
    requires key.category != CatNone && key.confidence >= CONF_POSSIBLE
    requires SomeKeyHad(r.keyColumns, d, key.category) && SomeoneStoodAt(d, key.confidence)
    requires !b.col.generated && !b.unmasked && Accepted(r.pack, key.category, b.col.family)
    ensures TookAKey(r, d, w, Overridden(b, key))
  {
    hide Accepted, SomeKeyHad, SomeoneStoodAt;
  }

  lemma StepGives(r: Rules, ps: seq<Pair>, p: Pair, d: Dec, b: Dec)
    requires AllExplained(r, ps, d, b) && p in ps && p.child in b && Overrides(r, b, p.parent)
    requires SomeKeyHad(r.keyColumns, d, b[p.parent].category) && SomeoneStoodAt(d, b[p.parent].confidence)
    requires PropagatePair(r, p, b).dec[p.child] != b[p.child]
    ensures var w, w' := d[p.child], PropagatePair(r, p, b).dec[p.child];
      w' == w.(propagationRefused := true) || TookAKey(r, d, w, w')
  {
    hide Accepted, SomeKeyHad, ChildOfMaskedKey, TookAKey, Overridden;
    var w, cw, pw := d[p.child], b[p.child], b[p.parent];
    assert Explained(r, ps, d, b, p.child);
    assert SomeoneStoodAt(d, w.confidence);
    hide SomeoneStoodAt;
    if Accepted(r.pack, pw.category, cw.col.family) {
      OverrideTakes(r, d, w, cw, pw);
    } else {
      RefusalAdds(r, d, w, cw);
    }
  }

  lemma {:induction false} SweepIsExplained(r: Rules, all: seq<Pair>, ps: seq<Pair>, d: Dec, b: Dec)
    requires AllExplained(r, all, d, b) && forall p :: p in ps ==> p in all
    ensures AllExplained(r, all, d, PropagateSweep(r, ps, b).dec)
  {
    hide PropagatePair, Explained, MasksMore;
    if ps == [] {
      assert PropagateSweep(r, ps, b).dec == b;
    } else {
      var most, p := ps[..|ps| - 1], ps[|ps| - 1];
      SweepIsExplained(r, all, most, d, b);
      var mid := PropagateSweep(r, most, b).dec;
      var end := PropagateSweep(r, ps, b).dec;
      StepKeys(r, p, mid);
      PropagateStepMasksMore(r, p, mid);
      forall c | c in d ensures Explained(r, all, d, end, c) {
        if c == p.child {
          StepIsExplained(r, all, p, d, mid);
        } else {
          StaysExplained(r, all, d, mid, end, c);
        }
      }
    }
  }

  lemma StaysExplained(r: Rules, ps: seq<Pair>, d: Dec, b: Dec, e: Dec, c: ColumnRef)
    requires Explained(r, ps, d, b, c) && MasksMore(b, e) && e[c] == b[c]
    ensures Explained(r, ps, d, e, c)
  {
    hide TookAKey;
    if b[c] != d[c] {
      ChildStays(r.keyColumns, ps, b, e, c);
    }
  }

  /** However often the sweep ran: a column it changed refers to a masked key; and it was only
      noted as refusing, or it took the category of a column that was a masked key at the start,
      one its type accepts, and was neither generated nor opted out. */
  lemma {:induction false} PropagationIsExplained(r: Rules, ps: seq<Pair>, d: Dec, n: nat)
    ensures AllExplained(r, ps, d, PropagateRounds(r, ps, d, n).dec)
  {
    RoundsAreExplained(r, ps, d, d, n);
  }

  lemma {:induction false} RoundsAreExplained(r: Rules, ps: seq<Pair>, d: Dec, b: Dec, n: nat)
    requires AllExplained(r, ps, d, b)
    ensures AllExplained(r, ps, d, PropagateRounds(r, ps, b, n).dec)
    decreases n
  {
    hide Explained;
    if n > 0 {
      SweepIsExplained(r, ps, ps, d, b);
      RoundsAreExplained(r, ps, d, PropagateSweep(r, ps, b).dec, n - 1);
    }
  }

  // ---------- keyChildren ----------

  /** A masked column of one of the key types, no array: the only kind an exemption is granted to. */
  predicate MaskedScalarKey(w: Work) {
    w.col.family in {FamInteger, FamBigint, FamUUID} && !w.col.isArray && w.confidence >= CONF_POSSIBLE && !w.neverMask
  }

  predicate OnlyScalarKeys(d: Dec, d': Dec) {
    d.Keys == d'.Keys && forall c :: c in d ==>
      d'[c] == d[c] || (MaskedScalarKey(d[c]) && d'[c] == d[c].(neverMask := true, keyExempt := true))
  }

  lemma {:induction false} SweepExemptsScalarKeys(ps: seq<Pair>, d: Dec)
    ensures OnlyScalarKeys(d, ReconcileSweep(ps, d).dec)
  {
    if ps != [] {
      SweepExemptsScalarKeys(ps[..|ps| - 1], d);
    }
  }

  /** The exemption loop changes nothing but masked whole-number and uuid columns, which it exempts. */
  lemma {:induction false} OnlyScalarKeysAreExempted(ps: seq<Pair>, d: Dec, n: nat)
    ensures OnlyScalarKeys(d, ReconcileRounds(ps, d, n).dec)
    decreases n
  {
    if n > 0 {
      var s := ReconcileSweep(ps, d);
      SweepExemptsScalarKeys(ps, d);
      if s.changed {
        OnlyScalarKeysAreExempted(ps, s.dec, n - 1);
        ScalarKeysTwice(d, s.dec, ReconcileRounds(ps, d, n).dec);
      }
    }
  }

  lemma ScalarKeysTwice(a: Dec, b: Dec, c: Dec)
    requires OnlyScalarKeys(a, b) && OnlyScalarKeys(b, c)
    ensures OnlyScalarKeys(a, c)
  {
  }
}
