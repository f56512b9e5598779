/** Which columns each raising pass raises, and to what, with the passes' loops gone: the
    columns' own decisions and their neighbours' say it all (classify.go:1887-1981, 2540-2571
    and 2845-2900). */
module RaisedColumns {
  import opened Common
  import opened Decisions
  import opened RaisingPasses

  /** A loop that applies one rule to a list of columns applies it once to each. */
  lemma {:induction false} RaisedOnce(rule: Raise, cols: seq<ColumnRef>, dec: Dec, c: ColumnRef)
    requires c in dec
    ensures var d := RaiseEach(rule, cols, dec);
      d.Keys == dec.Keys && d[c] == if c in cols then Raised(rule, dec[c]) else dec[c]
  {
    hide Raised;
    if cols != [] {
      var most := cols[..|cols| - 1];
      RaisedOnce(rule, most, dec, c);
      RaisedTwice(rule, dec[c]);
      assert c in cols <==> c in most || c == cols[|cols| - 1];
    }
  }

  lemma RaisedTwice(rule: Raise, w: Work)
    ensures Raised(rule, Raised(rule, w)) == Raised(rule, w)
  {
  }

  /** Of these columns one stands at that level or above. */
  predicate SomeAtLeast(level: int, cols: seq<ColumnRef>, dec: Dec) {
    exists x :: x in cols && x in dec && dec[x].confidence >= level
  }

  predicate SomeCertain(cols: seq<ColumnRef>, dec: Dec) {
    exists x :: x in cols && x in dec && dec[x].confidence == CONF_CERTAIN
  }

  lemma {:induction false} CountedIffThere(level: int, cols: seq<ColumnRef>, dec: Dec)
    ensures CountAtLeast(level, cols, dec) > 0 <==> SomeAtLeast(level, cols, dec)
    ensures CountCertain(cols, dec) > 0 <==> SomeCertain(cols, dec)
  {
    if cols != [] {
      var most := cols[..|cols| - 1];
      CountedIffThere(level, most, dec);
      assert forall x :: x in cols <==> x in most || x == cols[|cols| - 1];
    }
  }

  // ---------- byteaInPersonShapedTable ----------

  /** A bytea column below the threshold, not exempt, in a table with a certain column. */
  predicate ByteaBesideCertain(ts: seq<Table>, dec: Dec, c: ColumnRef) {
    && c in dec && dec[c].col.family == FamBytea && !dec[c].neverMask && dec[c].confidence < CONF_POSSIBLE
    && exists t :: t in ts && c in Columns(t) && SomeCertain(Columns(t), dec)
  }

  /** The bytea pass raises exactly those, to binary_personal at the threshold. */
  lemma {:induction false} ByteaPassIff(ts: seq<Table>, dec: Dec, c: ColumnRef)
    requires c in dec
    ensures var d := ByteaPass(ts, dec);
      && d.Keys == dec.Keys
      && d[c] == if ByteaBesideCertain(ts, dec, c) then dec[c].(category := Binary, confidence := CONF_POSSIBLE) else dec[c]
  {
    if ts != [] {
      var most, t := ts[..|ts| - 1], ts[|ts| - 1];
      var before := ByteaPass(most, dec);
      ByteaPassIff(most, dec, c);
      ByteaPassMasksMore(most, dec);
      CountedIffThere(0, Columns(t), before);
      CertainStay(most, dec, Columns(t));
      RaisedOnce(RaiseBytea, Columns(t), before, c);
      assert forall x :: x in ts <==> x in most || x == t;
    }
  }

  lemma CertainStay(ts: seq<Table>, dec: Dec, cols: seq<ColumnRef>)
    ensures SomeCertain(cols, ByteaPass(ts, dec)) <==> SomeCertain(cols, dec)
  {
    ByteaPassMasksMore(ts, dec);
    forall x | x in dec ensures (ByteaPass(ts, dec)[x].confidence == CONF_CERTAIN) == (dec[x].confidence == CONF_CERTAIN) {
      ByteaLevels(ts, dec, x);
    }
  }

  lemma {:induction false} ByteaLevels(ts: seq<Table>, dec: Dec, x: ColumnRef)
    requires x in dec
    ensures var d := ByteaPass(ts, dec);
      x in d && (d[x].confidence == dec[x].confidence || (dec[x].confidence < CONF_POSSIBLE && d[x].confidence == CONF_POSSIBLE))
  {
    if ts != [] {
      ByteaLevels(ts[..|ts| - 1], dec, x);
      RaisedOnce(RaiseBytea, Columns(ts[|ts| - 1]), ByteaPass(ts[..|ts| - 1], dec), x);
    }
  }

  // ---------- neighbouringColumns ----------

  /** At low, with a category its type does not contradict, in a table with a likely column. */
  predicate LowBesideLikely(ts: seq<Table>, dec: Dec, c: ColumnRef) {
    && c in dec && LowWithCategory(dec[c])
    && exists t :: t in ts && c in Columns(t) && SomeAtLeast(CONF_LIKELY, Columns(t), dec)
  }

  predicate LowWithCategory(w: Work) {
    w.confidence == CONF_LOW && w.category != CatNone && !w.typeConflict && !w.neverMask
  }

  /** What one table's turn does to one of its columns, the flag included. */
  lemma NeighbourTableAt(t: Table, dec: Dec, c: ColumnRef)
    requires c in dec
    ensures var d, cols := NeighbourTable(t, dec), Columns(t);
      && d.Keys == dec.Keys
      && (c !in cols ==> d[c] == dec[c])
      && (c in cols ==>
            var raised := SomeAtLeast(CONF_LIKELY, cols, dec) && LowWithCategory(dec[c]);
            d[c] == (if raised then dec[c].(confidence := CONF_POSSIBLE, source := ByNeighbour) else dec[c])
                      .(tableHasLikely := CountAtLeast(CONF_LIKELY, cols, dec) > if dec[c].confidence >= CONF_LIKELY then 1 else 0))
  {
    hide RaiseEach, CountAtLeast, SomeAtLeast, Columns;
    var cols := Columns(t);
    var likely := CountAtLeast(CONF_LIKELY, cols, dec);
    CountedIffThere(CONF_LIKELY, cols, dec);
    RaisedOnce(NoteLikely(likely), cols, dec, c);
    RaisedOnce(RaiseLow, cols, RaiseEach(NoteLikely(likely), cols, dec), c);
  }

  /** The neighbour pass raises exactly those, in their own category, and changes nothing
      else but the flag. */
  lemma {:induction false} NeighbourPassIff(ts: seq<Table>, dec: Dec, c: ColumnRef)
    requires c in dec
    ensures var d := NeighbourPass(ts, dec);
      && d.Keys == dec.Keys
      && d[c].(tableHasLikely := false) ==
         (if LowBesideLikely(ts, dec, c) then dec[c].(confidence := CONF_POSSIBLE, source := ByNeighbour) else dec[c]).(tableHasLikely := false)
  {
    hide NeighbourTable, SomeAtLeast, Columns, LowBesideLikely;
    if ts == [] {
      NoneBesideNoTable(dec, c);
    } else {
      var most, t := ts[..|ts| - 1], ts[|ts| - 1];
      NeighbourPassIff(most, dec, c);
      LikelyStay(most, dec, Columns(t));
      NeighbourTableAt(t, NeighbourPass(most, dec), c);
      BesideOneTableMore(ts, dec, c);
    }
  }

  lemma NoneBesideNoTable(dec: Dec, c: ColumnRef)
    ensures !LowBesideLikely([], dec, c)
  {
  }

  lemma BesideOneTableMore(ts: seq<Table>, dec: Dec, c: ColumnRef)
    requires ts != [] && c in dec
    ensures var t := ts[|ts| - 1];
      LowBesideLikely(ts, dec, c) <==>
        || LowBesideLikely(ts[..|ts| - 1], dec, c)
        || (LowWithCategory(dec[c]) && c in Columns(t) && SomeAtLeast(CONF_LIKELY, Columns(t), dec))
    ensures LowBesideLikely(ts[..|ts| - 1], dec, c) ==> LowWithCategory(dec[c])
  {
    hide SomeAtLeast, Columns;
    assert forall x :: x in ts <==> x in ts[..|ts| - 1] || x == ts[|ts| - 1];
  }

  lemma {:induction false} NeighbourLevels(ts: seq<Table>, dec: Dec, x: ColumnRef)
    requires x in dec
    ensures var d := NeighbourPass(ts, dec);
      x in d && (d[x].confidence == dec[x].confidence || (dec[x].confidence == CONF_LOW && d[x].confidence == CONF_POSSIBLE))
  {
    hide NeighbourTable, SomeAtLeast, Columns;
    if ts != [] {
      NeighbourLevels(ts[..|ts| - 1], dec, x);
      NeighbourTableAt(ts[|ts| - 1], NeighbourPass(ts[..|ts| - 1], dec), x);
    }
  }

  lemma LikelyStay(ts: seq<Table>, dec: Dec, cols: seq<ColumnRef>)
    ensures SomeAtLeast(CONF_LIKELY, cols, NeighbourPass(ts, dec)) <==> SomeAtLeast(CONF_LIKELY, cols, dec)
  {
    NeighbourPassMasksMore(ts, dec);
    forall x | x in dec ensures (NeighbourPass(ts, dec)[x].confidence >= CONF_LIKELY) == (dec[x].confidence >= CONF_LIKELY) {
      NeighbourLevels(ts, dec, x);
    }
  }

  // ---------- the flag it leaves ----------

  /** Tables with their own columns, each named once. */
  predicate OwnColumns(ts: seq<Table>) {
    && (forall i, j :: 0 <= i < j < |ts| ==> ts[i].ref != ts[j].ref)
    && (forall i :: 0 <= i < |ts| ==> Distinct(ts[i].columns))
  }

  /** Another column of the table is likely to hold personal data. */
  predicate AnotherLikely(t: Table, dec: Dec, c: ColumnRef) {
    exists x :: x in Columns(t) && x != c && x in dec && dec[x].confidence >= CONF_LIKELY
  }

  lemma {:induction false} CountWithout(cols: seq<ColumnRef>, dec: Dec, c: ColumnRef)
    requires Distinct(cols)
    ensures var self := if c in cols && c in dec && dec[c].confidence >= CONF_LIKELY then 1 else 0;
      && CountAtLeast(CONF_LIKELY, cols, dec) >= self
      && (CountAtLeast(CONF_LIKELY, cols, dec) > self <==>
            exists x :: x in cols && x != c && x in dec && dec[x].confidence >= CONF_LIKELY)
  {
    if cols != [] {
      var most, last := cols[..|cols| - 1], cols[|cols| - 1];
      CountWithout(most, dec, c);
      assert forall x :: x in cols <==> x in most || x == last;
      assert last !in most;
    }
  }

  lemma ColumnsAreDistinct(t: Table)
    requires Distinct(t.columns)
    ensures Distinct(Columns(t))
  {
  }

  /** Every column of a table knows whether another one of it is likely. */
  lemma {:induction false} NeighbourPassNotes(ts: seq<Table>, dec: Dec, k: nat, c: ColumnRef)
    requires k < |ts| && OwnColumns(ts) && c in Columns(ts[k]) && c in dec
    ensures c in NeighbourPass(ts, dec) && (NeighbourPass(ts, dec)[c].tableHasLikely <==> AnotherLikely(ts[k], dec, c))
  {
    hide NeighbourTable, CountAtLeast, AnotherLikely, MasksMore, SameSwept;
    var n := |ts| - 1;
    var most, t := ts[..n], ts[n];
    var before := NeighbourPass(most, dec);
    NeighbourLevels(most, dec, c);
    NeighbourTableAt(t, before, c);
    if k == n {
      LastTableNotes(most, t, dec, c);
    } else {
      assert c.table == ts[k].ref && most[k] == ts[k];
      assert c !in Columns(t);
      NeighbourPassNotes(most, dec, k, c);
    }
  }

  lemma LastTableNotes(most: seq<Table>, t: Table, dec: Dec, c: ColumnRef)
    requires Distinct(t.columns) && c in Columns(t) && c in dec
    ensures var before := NeighbourPass(most, dec);
      c in before && (AnotherLikely(t, dec, c) <==>
        CountAtLeast(CONF_LIKELY, Columns(t), before) > if before[c].confidence >= CONF_LIKELY then 1 else 0)
  {
    var before := NeighbourPass(most, dec);
    NeighbourPassMasksMore(most, dec);
    ColumnsAreDistinct(t);
    CountWithout(Columns(t), before, c);
    forall x | x in dec ensures (before[x].confidence >= CONF_LIKELY) == (dec[x].confidence >= CONF_LIKELY) {
      NeighbourLevels(most, dec, x);
    }
  }

  // ---------- guessedPhoneColumns ----------

  predicate GuessedPhone(w: Work) {
    w.col.guessedPhone && !w.neverMask && !w.typeConflict && w.confidence < CONF_POSSIBLE
  }

  /** The guessed phone columns of the run in a table with another likely column come out as phones. */
  lemma GuessedPhonesIff(ts: seq<Table>, order: seq<ColumnRef>, dec: Dec, k: nat, c: ColumnRef)
    requires k < |ts| && OwnColumns(ts) && c in Columns(ts[k]) && c in dec && c in order
    ensures var noted := NeighbourPass(ts, dec);
      var d := RaiseEach(RaiseGuessedPhone, order, noted);
      && c in d && c in noted
      && d[c] == if GuessedPhone(noted[c]) && AnotherLikely(ts[k], dec, c)
                 then noted[c].(category := Phone, confidence := CONF_POSSIBLE) else noted[c]
  {
    NeighbourPassNotes(ts, dec, k, c);
    RaisedOnce(RaiseGuessedPhone, order, NeighbourPass(ts, dec), c);
  }

  // ---------- sameColumnName ----------

  /** Masked on evidence of its own, with a category. */
  predicate Evidenced(dec: Dec, c: ColumnRef) {
    c in dec && dec[c].confidence >= CONF_POSSIBLE && !dec[c].neverMask && dec[c].category != CatNone && !dec[c].sweptNoSignal
  }

  /** The i-th column of the run is the first evidenced one of its name. */
  predicate FirstOfItsName(norm: Normalised, order: seq<ColumnRef>, dec: Dec, i: nat) {
    && i < |order| && Evidenced(dec, order[i])
    && forall j :: 0 <= j < i && norm(order[j]) == norm(order[i]) ==> !Evidenced(dec, order[j])
  }

  /** The recorded namesakes are the first ones, the first i-th columns' and no more. */
  lemma {:induction false} NamesakeIsTheFirst(norm: Normalised, order: seq<ColumnRef>, dec: Dec)
    ensures forall i: nat :: FirstOfItsName(norm, order, dec, i) ==>
      norm(order[i]) in Namesakes(norm, order, dec)
      && Namesakes(norm, order, dec)[norm(order[i])] == Namesake(dec[order[i]].category, order[i].table)
    ensures forall name :: name in Namesakes(norm, order, dec) ==>
      exists i: nat :: FirstOfItsName(norm, order, dec, i) && norm(order[i]) == name
    decreases |order|, 1
  {
    if order != [] {
      hide FirstOfItsName, Evidenced;
      var n := |order| - 1;
      var most := order[..n];
      NamesakeIsTheFirst(norm, most, dec);
      LastIsFirstIff(norm, order, dec);
      forall i: nat | FirstOfItsName(norm, order, dec, i)
        ensures norm(order[i]) in Namesakes(norm, order, dec)
        ensures Namesakes(norm, order, dec)[norm(order[i])] == Namesake(dec[order[i]].category, order[i].table)
      {
        FirstOfAPrefix(norm, order, dec, i);
      }
      forall name | name in Namesakes(norm, order, dec)
        ensures exists i: nat :: FirstOfItsName(norm, order, dec, i) && norm(order[i]) == name
      {
        if name in Namesakes(norm, most, dec) {
          var i: nat :| FirstOfItsName(norm, most, dec, i) && norm(most[i]) == name;
          FirstOfAPrefix(norm, order, dec, i);
        }
      }
    }
  }

  /** The last column of the run is recorded exactly if it is the first of its name. */
  lemma {:induction false} LastIsFirstIff(norm: Normalised, order: seq<ColumnRef>, dec: Dec)
    requires order != []
    ensures var n := |order| - 1;
      && (FirstOfItsName(norm, order, dec, n) <==> Evidenced(dec, order[n]) && norm(order[n]) !in Namesakes(norm, order[..n], dec))
      && (Evidenced(dec, order[n]) <==> order[n] in dec && SpeaksForItsName(dec[order[n]]))
    decreases |order|, 0
  {
    var n := |order| - 1;
    var most := order[..n];
    NamesakeIsTheFirst(norm, most, dec);
    if norm(order[n]) in Namesakes(norm, most, dec) {
      var i: nat :| FirstOfItsName(norm, most, dec, i) && norm(most[i]) == norm(order[n]);
      assert order[i] == most[i];
    } else if Evidenced(dec, order[n]) {
      forall j | 0 <= j < n && norm(order[j]) == norm(order[n]) ensures !Evidenced(dec, order[j]) {
        if Evidenced(dec, most[j]) {
          HasAFirst(norm, most, dec, j);
        }
      }
    }
  }

  lemma FirstOfAPrefix(norm: Normalised, order: seq<ColumnRef>, dec: Dec, i: nat)
    requires order != []
    ensures var most := order[..|order| - 1];
      i < |most| && i < |order| ==> order[i] == most[i] && (FirstOfItsName(norm, order, dec, i) <==> FirstOfItsName(norm, most, dec, i))
    ensures FirstOfItsName(norm, order, dec, i) ==> i < |order| && order[i] in dec
  {
    var most := order[..|order| - 1];
    assert forall j :: 0 <= j < |most| ==> order[j] == most[j];
  }

  lemma {:induction false} HasAFirst(norm: Normalised, order: seq<ColumnRef>, dec: Dec, j: nat)
    requires j < |order| && Evidenced(dec, order[j])
    ensures exists i: nat :: FirstOfItsName(norm, order, dec, i) && norm(order[i]) == norm(order[j])
  {
    if !FirstOfItsName(norm, order, dec, j) {
      var k :| 0 <= k < j && norm(order[k]) == norm(order[j]) && Evidenced(dec, order[k]);
      HasAFirst(norm, order, dec, k);
    }
  }

  /** Below the threshold and free to take a namesake's category. */
  predicate TakesAName(pack: Accepts, w: Work, cat: Category) {
    && !w.neverMask && !w.typeConflict && w.confidence < CONF_POSSIBLE && !w.col.nameUncorroborated
    && (w.category == CatNone || w.category == cat) && Accepted(pack, cat, w.col.family)
  }

  lemma {:induction false} SharedOnce(norm: Normalised, pack: Accepts, sources: map<string, Namesake>, order: seq<ColumnRef>, dec: Dec, c: ColumnRef)
    requires c in dec
    ensures var d := ShareNames(norm, pack, sources, order, dec);
      d.Keys == dec.Keys && d[c] == if c in order then NameShared(pack, c, dec[c], norm(c), sources) else dec[c]
  {
    hide Accepted;
    if order != [] {
      var most := order[..|order| - 1];
      SharedOnce(norm, pack, sources, most, dec, c);
      assert c in order <==> c in most || c == order[|order| - 1];
    }
  }

  /** Exactly the columns of the run that may take the category of the first evidenced column
      of their name, in another table, take it, at the threshold. */
  lemma NamesAreSharedIff(norm: Normalised, pack: Accepts, order: seq<ColumnRef>, dec: Dec, c: ColumnRef, i: nat)
    requires c in dec && c in order && FirstOfItsName(norm, order, dec, i) && norm(order[i]) == norm(c)
    ensures var d := ShareNames(norm, pack, Namesakes(norm, order, dec), order, dec);
      c in d && d[c] ==
        if order[i].table != c.table && TakesAName(pack, dec[c], dec[order[i]].category)
        then dec[c].(category := dec[order[i]].category, confidence := CONF_POSSIBLE, source := ByFKPropagation)
        else dec[c]
  {
    hide Accepted;
    NamesakeIsTheFirst(norm, order, dec);
    SharedOnce(norm, pack, Namesakes(norm, order, dec), order, dec, c);
  }

  /** And a column none of whose namesakes is evidenced stays as it is. */
  lemma UnsharedStays(norm: Normalised, pack: Accepts, order: seq<ColumnRef>, dec: Dec, c: ColumnRef)
    requires c in dec && forall i: nat :: i < |order| && norm(order[i]) == norm(c) ==> !Evidenced(dec, order[i])
    ensures var d := ShareNames(norm, pack, Namesakes(norm, order, dec), order, dec); c in d && d[c] == dec[c]
  {
    hide Accepted;
    NamesakeIsTheFirst(norm, order, dec);
    SharedOnce(norm, pack, Namesakes(norm, order, dec), order, dec, c);
  }
}
