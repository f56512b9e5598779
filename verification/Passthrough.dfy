/** The guard that refuses a masker whose output follows its input, and the redraw
    of a vocabulary masker (mask/mask.go:382-619, mask/vocab.go:109-126). */
module Passthrough {
  import opened ByteStream
  import opened Runes
  import opened Json

  /** A column value: NULL, text or bytea. */
  datatype Value = Value(isNull: bool, text: seq<byte>, bytes: seq<byte>)

  predicate Empty(v: Value) {
    !v.isNull && v.text == [] && v.bytes == []
  }

  function BytesOf(v: Value): seq<byte> {
    if v.bytes != [] then v.bytes else v.text
  }

  /** probeValue. */
  function ProbeValue(v: Value): Value {
    if v.bytes != [] then Value(false, [], Probe(v.bytes)) else Value(false, Probe(v.text), [])
  }

  type Digest = seq<byte>

  /** One call of a generator's Mask: a value, an error, or a panic. */
  datatype Call = Returned(out: Value) | Failed | Panicked

  type Masker = (Digest, Value) -> Call

  /** What maskCell and Apply report. */
  datatype Cell = Masked(out: Value) | PassedThrough(same: Value) | ErrPassthrough | ErrMasker | ErrPanic

  /** What the guard reads beside the masker: Unicode, the JSON decoder and the redraw digest. */
  datatype World = World(unicode: Unicode, decode: seq<byte> -> JsonDoc, redrawDigest: (Digest, nat) -> Digest)

  /** A value's text as JSON, when it is valid and decodes. */
  datatype JsonDoc = NotJson | Doc(doc: Json)

  ghost predicate Real(w: World) {
    KnowsAscii(w.unicode)
  }

  predicate SameLetters(w: World, a: seq<byte>, b: seq<byte>) {
    Folded(w.unicode, a) == Folded(w.unicode, b)
  }

  predicate LooksLikeItsInput(w: World, out: Value, input: Value, canon: Value) {
    && !out.isNull && !Empty(out)
    && (BytesOf(out) == BytesOf(input) || BytesOf(out) == BytesOf(canon)
        || SameLetters(w, BytesOf(out), BytesOf(input)) || SameLetters(w, BytesOf(out), BytesOf(canon)))
  }

  /** A JSON object or array with no scalar leaf. */
  predicate NothingToMask(w: World, input: Value) {
    var d := w.decode(BytesOf(input));
    d.Doc? && (d.doc.JObject? || d.doc.JArray?) && !HasScalarLeaf(d.doc)
  }

  /** The exemption is for documents in which no path ends at a string, a number or a boolean. */
  lemma NothingToMaskIff(w: World, input: Value)
    ensures NothingToMask(w, input) <==>
      && w.decode(BytesOf(input)).Doc?
      && var doc := w.decode(BytesOf(input)).doc;
         (doc.JObject? || doc.JArray?) && forall path :: !LeadsToAScalar(doc, path)
  {
    var d := w.decode(BytesOf(input));
    if d.Doc? {
      ScalarLeafIff(d.doc);
    }
  }

  const REDRAWS: nat := 8

  /** The draw after i redraws: the first is the cell's own digest. */
  function DrawDigest(w: World, h: Digest, i: nat): Digest {
    if i == 0 then h else w.redrawDigest(h, i)
  }

  /** redraw from the i-th redraw on, given the output standing before it. */
  function Redrawn(w: World, m: Masker, h: Digest, input: Value, canon: Value, out: Value, i: nat): Cell
    decreases REDRAWS + 1 - i
  {
    if i > REDRAWS then Masked(out) else
    match m(w.redrawDigest(h, i), input)
    case Failed => ErrMasker
    case Panicked => ErrPanic
    case Returned(next) =>
      if !LooksLikeItsInput(w, next, input, canon) then Masked(next)
      else Redrawn(w, m, h, input, canon, next, i + 1)
  }

  function CellOf(w: World, m: Masker, vocabulary: bool, h: Digest, input: Value, canon: Value): Cell {
    match m(h, input)
    case Failed => ErrMasker
    case Panicked => ErrPanic
    case Returned(out) =>
      if !LooksLikeItsInput(w, out, input, canon) then Masked(out)
      else if NothingToMask(w, input) then Masked(out)
      else
        match m(h, ProbeValue(input))
        case Panicked => ErrPanic
        case Failed => if vocabulary then Redrawn(w, m, h, input, canon, out, 1) else Masked(out)
        case Returned(probed) =>
          if LooksLikeItsInput(w, probed, ProbeValue(input), ProbeValue(input)) then ErrPassthrough
          else if vocabulary then Redrawn(w, m, h, input, canon, out, 1) else Masked(out)
  }

  /** redraw's loop. */
  method Redraw(w: World, m: Masker, h: Digest, input: Value, canon: Value, first: Value) returns (cell: Cell)
    ensures cell == Redrawn(w, m, h, input, canon, first, 1)
  {
    var out, i := first, 1;
    while i <= REDRAWS
      invariant 1 <= i <= REDRAWS + 1
      invariant Redrawn(w, m, h, input, canon, out, i) == Redrawn(w, m, h, input, canon, first, 1)
    {
      var call := m(w.redrawDigest(h, i), input);
      match call {
        case Failed => return ErrMasker;
        case Panicked => return ErrPanic;
        case Returned(next) =>
          out := next;
          if !LooksLikeItsInput(w, out, input, canon) {
            return Masked(out);
          }
      }
      i := i + 1;
    }
    return Masked(out);
  }

  method MaskCell(w: World, m: Masker, vocabulary: bool, h: Digest, input: Value, canon: Value) returns (cell: Cell)
    ensures cell == CellOf(w, m, vocabulary, h, input, canon)
  {
    var call := m(h, input);
    if call.Panicked? {
      return ErrPanic;
    }
    if call.Failed? {
      return ErrMasker;
    }
    if !LooksLikeItsInput(w, call.out, input, canon) || NothingToMask(w, input) {
      return Masked(call.out);
    }
    var probe := ProbeValue(input);
    var probed := m(h, probe);
    if probed.Panicked? {
      return ErrPanic;
    }
    if probed.Returned? && LooksLikeItsInput(w, probed.out, probe, probe) {
      return ErrPassthrough;
    }
    if vocabulary {
      cell := Redraw(w, m, h, input, canon, call.out);
    } else {
      cell := Masked(call.out);
    }
  }

  /** Apply, past the key schedule: NULL and empty pass through unmasked. */
  function ApplyTo(w: World, m: Masker, vocabulary: bool, h: Digest, input: Value, canon: Value): Cell {
    if input.isNull || Empty(input) then PassedThrough(input) else CellOf(w, m, vocabulary, h, input, canon)
  }

  // ---------- both sides of the guard ----------

  lemma {:induction false} RedrawNeverRefuses(w: World, m: Masker, h: Digest, input: Value, canon: Value, out: Value, i: nat)
    ensures Redrawn(w, m, h, input, canon, out, i) != ErrPassthrough
    decreases REDRAWS + 1 - i
  {
    if i <= REDRAWS && m(w.redrawDigest(h, i), input).Returned? {
      RedrawNeverRefuses(w, m, h, input, canon, m(w.redrawDigest(h, i), input).out, i + 1);
    }
  }

  lemma ProbeLooksDifferent(w: World, v: Value)
    requires Real(w)
    ensures !SameLetters(w, BytesOf(v), BytesOf(ProbeValue(v)))
    ensures !ProbeValue(v).isNull && !Empty(ProbeValue(v)) && (ProbeValue(v).bytes != [] <==> v.bytes != [])
  {
    ProbeIsDifferent(w.unicode, BytesOf(v));
  }

  /** A masker that reads the digest alone is refused for a cell only when the cell's
      canonical form carries the letters and digits of the probe; then some such masker
      is, unless the cell is a document with nothing in it to mask. */
  lemma DigestMaskerRefusedIff(w: World, h: Digest, input: Value, canon: Value)
    requires Real(w)
    ensures (exists v: Value :: CellOf(w, (_, _) => Returned(v), false, h, input, canon) == ErrPassthrough)
      <==> !NothingToMask(w, input) && SameLetters(w, BytesOf(canon), BytesOf(ProbeValue(input)))
  {
    ProbeLooksDifferent(w, input);
    var probe := ProbeValue(input);
    if !NothingToMask(w, input) && SameLetters(w, BytesOf(canon), BytesOf(probe)) {
      assert CellOf(w, (_, _) => Returned(probe), false, h, input, canon) == ErrPassthrough;
    }
  }

  /** So a canonical form with the input's letters and digits never gets a masker that
      ignores its input refused, redraws included. */
  lemma DigestMaskerIsNeverRefused(w: World, m: Masker, vocabulary: bool, h: Digest, input: Value, canon: Value)
    requires Real(w)
    requires forall v: Value :: m(h, v) == m(h, input)
    requires SameLetters(w, BytesOf(canon), BytesOf(input))
    ensures ApplyTo(w, m, vocabulary, h, input, canon) != ErrPassthrough
  {
    hide SameLetters, BytesOf, Empty, ProbeValue, Redrawn, NothingToMask;
    ProbeLooksDifferent(w, input);
    if m(h, input).Returned? {
      var out := m(h, input).out;
      RedrawNeverRefuses(w, m, h, input, canon, out, 1);
      assert m(h, ProbeValue(input)) == Returned(out);
      NotLikeBoth(w, out, input, canon);
    }
  }

  /** No output looks both like the input, through a canonical form with its letters and
      digits, and like the probe. */
  lemma NotLikeBoth(w: World, out: Value, input: Value, canon: Value)
    requires Real(w) && SameLetters(w, BytesOf(canon), BytesOf(input))
    ensures !LooksLikeItsInput(w, out, input, canon) || !LooksLikeItsInput(w, out, ProbeValue(input), ProbeValue(input))
  {
    ProbeLooksDifferent(w, input);
    hide BytesOf, ProbeValue, Empty;
  }

  /** A masker that hands every value back, letters and digits intact. */
  ghost predicate Echoes(w: World, m: Masker, h: Digest) {
    forall v: Value :: !v.isNull && !Empty(v) ==>
      m(h, v).Returned? && !m(h, v).out.isNull && !Empty(m(h, v).out) && SameLetters(w, BytesOf(m(h, v).out), BytesOf(v))
  }

  /** An echo, however it re-cases or re-punctuates, is refused on every cell but NULL,
      the empty value and a document with no scalar leaf. */
  lemma EchoRefusedIff(w: World, m: Masker, vocabulary: bool, h: Digest, input: Value, canon: Value)
    requires Real(w) && Echoes(w, m, h)
    ensures ApplyTo(w, m, vocabulary, h, input, canon) == ErrPassthrough
      <==> !input.isNull && !Empty(input) && !NothingToMask(w, input)
  {
    ProbeLooksDifferent(w, input);
  }

  // ---------- what a masked cell carries ----------

  /** out is the input or its canonical form, byte for byte or over letters and digits. */
  predicate Repeats(w: World, out: Value, input: Value, canon: Value) {
    && !out.isNull && (out.text != [] || out.bytes != [])
    && (BytesOf(out) in {BytesOf(input), BytesOf(canon)}
        || Folded(w.unicode, BytesOf(out)) in {Folded(w.unicode, BytesOf(input)), Folded(w.unicode, BytesOf(canon))})
  }

  /** The digest of the i-th draw: the cell's own, and after it the redraw digests. */
  predicate DrawnAt(w: World, m: Masker, h: Digest, input: Value, i: nat, out: Value) {
    m(if i == 0 then h else w.redrawDigest(h, i), input) == Returned(out)
  }

  /** The cell carries what the masker returned for the i-th draw, every draw before it
      having repeated the input, and the draw itself only where there was no better one. */
  predicate Carries(w: World, m: Masker, vocabulary: bool, h: Digest, input: Value, canon: Value, i: nat, out: Value) {
    && DrawnAt(w, m, h, input, i, out)
    && (forall k :: 0 <= k < i ==> LandedOnInput(w, m, h, input, canon, k))
    && (!vocabulary ==> i == 0)
    && (Repeats(w, out, input, canon) ==> !vocabulary || i == 8 || NothingToMask(w, input))
  }

  lemma {:induction false} RedrawCarriesADraw(w: World, m: Masker, h: Digest, input: Value, canon: Value, out: Value, i: nat)
    requires 1 <= i <= 9 && DrawnAt(w, m, h, input, i - 1, out)
    requires forall k :: 0 <= k < i ==> LandedOnInput(w, m, h, input, canon, k)
    ensures var cell := Redrawn(w, m, h, input, canon, out, i);
      cell.Masked? ==> exists k: nat :: k <= 8 && Carries(w, m, true, h, input, canon, k, cell.out)
    decreases 9 - i
  {
    hide Empty, BytesOf;
    if i > REDRAWS {
      assert Carries(w, m, true, h, input, canon, 8, out);
    } else {
      var call := m(w.redrawDigest(h, i), input);
      if call.Returned? {
        if LooksLikeItsInput(w, call.out, input, canon) {
          RedrawCarriesADraw(w, m, h, input, canon, call.out, i + 1);
        } else {
          RepeatsIsTheTrigger(w, call.out, input, canon);
          assert Carries(w, m, true, h, input, canon, i, call.out);
        }
      }
    }
  }

  lemma RepeatsIsTheTrigger(w: World, out: Value, input: Value, canon: Value)
    ensures Repeats(w, out, input, canon) <==> LooksLikeItsInput(w, out, input, canon)
  {
  }

  /** A masked cell carries a value the masker returned, never one of the caller's own: the
      first draw's or, of a vocabulary masker, that of one of eight redraws. */
  lemma MaskedCellCarriesADraw(w: World, m: Masker, vocabulary: bool, h: Digest, input: Value, canon: Value)
    ensures var cell := CellOf(w, m, vocabulary, h, input, canon);
      cell.Masked? ==> exists i: nat :: i <= 8 && Carries(w, m, vocabulary, h, input, canon, i, cell.out)
  {
    hide Empty, BytesOf, Redrawn, NothingToMask;
    var call := m(h, input);
    if call.Returned? {
      RepeatsIsTheTrigger(w, call.out, input, canon);
      if vocabulary && LooksLikeItsInput(w, call.out, input, canon) && !NothingToMask(w, input) {
        RedrawCarriesADraw(w, m, h, input, canon, call.out, 1);
      } else {
        assert Carries(w, m, vocabulary, h, input, canon, 0, call.out);
      }
    }
  }

  /** What each answer of the first two calls comes to, the redraws aside. */
  lemma FirstDrawDecides(w: World, m: Masker, vocabulary: bool, h: Digest, input: Value, canon: Value)
    ensures var first, probed := m(h, input), m(h, ProbeValue(input));
      var cell := CellOf(w, m, vocabulary, h, input, canon);
      && (first.Failed? ==> cell == ErrMasker)
      && (first.Panicked? ==> cell == ErrPanic)
      && (first.Returned? && (!Repeats(w, first.out, input, canon) || NothingToMask(w, input)) ==> cell == Masked(first.out))
      && (first.Returned? && Repeats(w, first.out, input, canon) && !NothingToMask(w, input) ==>
            && (probed.Panicked? ==> cell == ErrPanic)
            && (probed.Returned? && Repeats(w, probed.out, ProbeValue(input), ProbeValue(input)) ==> cell == ErrPassthrough)
            && (!vocabulary && probed.Failed? ==> cell == Masked(first.out))
            && (!vocabulary && probed.Returned? && !Repeats(w, probed.out, ProbeValue(input), ProbeValue(input)) ==> cell == Masked(first.out)))
  {
    hide Empty, BytesOf, Redrawn, NothingToMask, ProbeValue;
    if m(h, input).Returned? {
      RepeatsIsTheTrigger(w, m(h, input).out, input, canon);
    }
    if m(h, ProbeValue(input)).Returned? {
      RepeatsIsTheTrigger(w, m(h, ProbeValue(input)).out, ProbeValue(input), ProbeValue(input));
    }
  }

  /** Only a NULL or an empty value goes through as it is, and it always does. */
  lemma PassedThroughIff(w: World, m: Masker, vocabulary: bool, h: Digest, input: Value, canon: Value)
    ensures var cell := ApplyTo(w, m, vocabulary, h, input, canon);
      && (cell.PassedThrough? <==> input.isNull || (input.text == [] && input.bytes == []))
      && (cell.PassedThrough? ==> cell.same == input)
  {
    hide Redrawn, LooksLikeItsInput, NothingToMask;
    if m(h, input).Returned? {
      RedrawIsNoPassage(w, m, h, input, canon, m(h, input).out, 1);
    }
  }

  lemma {:induction false} RedrawIsNoPassage(w: World, m: Masker, h: Digest, input: Value, canon: Value, out: Value, i: nat)
    ensures !Redrawn(w, m, h, input, canon, out, i).PassedThrough?
    decreases REDRAWS + 1 - i
  {
    if i <= REDRAWS && m(w.redrawDigest(h, i), input).Returned? {
      RedrawIsNoPassage(w, m, h, input, canon, m(w.redrawDigest(h, i), input).out, i + 1);
    }
  }

  // ---------- what a redraw guarantees ----------

  /** The i-th draw was made, and read as the input. */
  predicate LandedOnInput(w: World, m: Masker, h: Digest, input: Value, canon: Value, i: nat) {
    var call := m(DrawDigest(w, h, i), input);
    call.Returned? && LooksLikeItsInput(w, call.out, input, canon)
  }

  lemma {:induction false} RedrawExhausted(w: World, m: Masker, h: Digest, input: Value, canon: Value, out: Value, i: nat)
    requires 1 <= i <= REDRAWS + 1
    requires Redrawn(w, m, h, input, canon, out, i).Masked?
    requires LooksLikeItsInput(w, Redrawn(w, m, h, input, canon, out, i).out, input, canon)
    ensures forall k :: i <= k <= REDRAWS ==> LandedOnInput(w, m, h, input, canon, k)
    decreases REDRAWS + 1 - i
  {
    if i <= REDRAWS {
      var next := m(w.redrawDigest(h, i), input).out;
      RedrawExhausted(w, m, h, input, canon, next, i + 1);
      assert LandedOnInput(w, m, h, input, canon, i);
    }
  }

  /** A vocabulary masker's cell still reads as its source only after the first draw
      and all eight redraws landed on it. */
  lemma KeptOnlyAfterNineDraws(w: World, m: Masker, h: Digest, input: Value, canon: Value)
    requires !NothingToMask(w, input)
    requires CellOf(w, m, true, h, input, canon).Masked?
    requires LooksLikeItsInput(w, CellOf(w, m, true, h, input, canon).out, input, canon)
    ensures forall k :: 0 <= k <= REDRAWS ==> LandedOnInput(w, m, h, input, canon, k)
  {
    RedrawExhausted(w, m, h, input, canon, m(h, input).out, 1);
    assert LandedOnInput(w, m, h, input, canon, 0);
  }
}
