/** The column as a generator sees it, and the contract every generator owes the
    planner (mask/mask.go:151-199, mask/domain.go:77-107 and 186-223). */
module Columns {
  import opened Common
  import opened Arith
  import opened Draws
  import opened Decisions

  datatype Role = RoleFull | RoleGiven | RoleFamily

  /** `labels` is the closed label set an enum or a CHECK list gives, `checkLength`
      the exact length a CHECK requires, 0 for none. */
  datatype Constraints = Constraints(typeTag: Family, maxLen: int, labels: seq<string>, checkLength: nat, isUnique: bool, role: Role)

  /** A column with no closed label set, which is where a generator draws for itself. */
  type Open = c: Constraints | c.labels == []
    witness Constraints(FamText, 0, [], 0, false, RoleFull)

  predicate NumericFamily(f: Family) {
    f == FamInteger || f == FamBigint || f == FamNumeric || f == FamFloat
  }

  /** Only character types carry a length (mask/typetag.go). */
  predicate LengthIsForText(c: Constraints) {
    c.maxLen > 0 ==> !NumericFamily(c.typeTag) && c.typeTag != FamDate && c.typeTag != FamTimestamp && c.typeTag != FamUUID
  }

  function Room(c: Constraints): nat {
    if c.maxLen < 0 then 0 else c.maxLen
  }

  predicate FitsColumn(s: string, c: Constraints) {
    c.maxLen <= 0 || |s| <= c.maxLen
  }

  function Min(a: int, b: int): int {
    if a <= b then a else b
  }

  function Max(a: int, b: int): int {
    if a >= b then a else b
  }

  /** A budget of 0 stays unbounded; less than one byte left is -1. */
  function FitBudget(b: int, k: nat): int {
    if b <= 0 then 0 else if b - k < 1 then -1 else b - k
  }

  function DigitBudget(c: Constraints, want: int): int {
    var n :=
      if c.typeTag == FamInteger then Min(want, 9)
      else if c.typeTag == FamBigint || c.typeTag == FamNumeric || c.typeTag == FamFloat then Min(want, 18)
      else if c.maxLen > 0 then Min(want, c.maxLen) else want;
    if c.maxLen > 0 then Min(n, c.maxLen) else n
  }

  /** What a planner may rely on in a generator's Domain: it never over-reports, it is
      zero exactly when no cell can be masked, and every output fits the column. */
  ghost predicate Honest(mask: seq<nat> -> Outcome, domain: nat, c: Constraints) {
    && EmitsAtLeast(mask, domain)
    && (forall ds: seq<nat> :: mask(ds).NoRoom? <==> domain == 0)
    && (forall ds: seq<nat> :: mask(ds).Text? ==> FitsColumn(mask(ds).text, c))
  }

  // ---------- closed columns ----------

  /** labelValue: one of the labels, whatever the category. */
  function LabelMask(labels: seq<string>, ds: seq<nat>): Outcome
    requires labels != []
  {
    Text(labels[Intn(ds, |labels|).value])
  }

  lemma {:induction false} FewerThanPositions(xs: seq<string>)
    ensures |set x | x in xs| <= |xs|
    ensures !Distinct(xs) ==> |set x | x in xs| < |xs|
  {
    if xs != [] {
      var most, last := xs[..|xs| - 1], xs[|xs| - 1];
      FewerThanPositions(most);
      assert xs == most + [last];
      assert (set x | x in xs) == (set x | x in most) + {last};
      if !Distinct(xs) && Distinct(most) {
        assert last in most;
        assert (set x | x in xs) == (set x | x in most);
      }
    }
  }

  lemma {:induction false} ManyOutputsNeedManyLabels(labels: seq<string>, feed: nat -> seq<nat>, n: nat)
    requires labels != []
    requires forall j: nat, k: nat :: j < k < n ==> LabelMask(labels, feed(j)) != LabelMask(labels, feed(k))
    ensures n <= |set x | x in labels|
  {
    var all := set x | x in labels;
    var hit: set<string> := {};
    for k := 0 to n
      invariant |hit| == k && hit <= all
      invariant forall x :: x in hit ==> exists j: nat :: j < k && LabelMask(labels, feed(j)).text == x
    {
      var x := LabelMask(labels, feed(k)).text;
      assert x !in hit;
      hit := hit + {x};
    }
    SubsetIsSmaller(hit, all);
  }

  /** A closed column reports its label count, and that count is honest exactly when
      no label is repeated; the first output stands for both of a repeated pair. */
  lemma LabelCountIsHonestIffDistinct(labels: seq<string>)
    requires labels != []
    ensures EmitsAtLeast(ds => LabelMask(labels, ds), |labels|) <==> Distinct(labels)
  {
    var mask := (ds: seq<nat>) => LabelMask(labels, ds);
    if Distinct(labels) {
      var feed := (k: nat) => Feed(|labels|, k);
      forall k: nat | k < |labels| ensures mask(feed(k)) == Text(labels[k]) {
        FeedIsRead(|labels|, k, []);
        assert Feed(|labels|, k) + [] == feed(k);
      }
      assert Separates(mask, feed, |labels|);
    }
    if EmitsAtLeast(mask, |labels|) {
      var feed: nat -> seq<nat> :| Separates(mask, feed, |labels|);
      ManyOutputsNeedManyLabels(labels, feed, |labels|);
      FewerThanPositions(labels);
    }
  }
}
