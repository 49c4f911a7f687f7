/**
 * A ledger of identifiers: ranges that are still free, held by different owners, and the
 * identifiers already handed out. Taking identifiers from the low end of a range, splitting a
 * range in two and handing a range over keep every identifier in at most one place; only an
 * owner that takes over a range in place of its own loses identifiers.
 */
module RangeLedger {

  /** The identifiers from low to high; a low end of zero means that there are none. */
  datatype Range = Range(low: int, high: int)

  const NOTHING := Range(0, 0)

  ghost predicate In(r: Range, x: int) {
    r.low != 0 && r.low <= x <= r.high
  }

  function Size(r: Range): int {
    if r.low == 0 then 0 else r.high - r.low + 1
  }

  datatype Ledger = Ledger(free: seq<Range>, taken: seq<int>)

  ghost predicate SomeoneHas(free: seq<Range>, x: int) {
    exists i :: 0 <= i < |free| && In(free[i], x)
  }

  /** The identifier is free or handed out. */
  ghost predicate Has(l: Ledger, x: int) {
    x in l.taken || SomeoneHas(l.free, x)
  }

  /** No identifier is free twice, handed out twice, or both. */
  ghost predicate Safe(l: Ledger) {
    && (forall i, j, x :: 0 <= i < j < |l.free| && In(l.free[i], x) ==> !In(l.free[j], x))
    && (forall i, j :: 0 <= i < j < |l.taken| ==> l.taken[i] != l.taken[j])
    && (forall x :: x in l.taken ==> !SomeoneHas(l.free, x))
  }

  /** All identifiers are among `all`. */
  ghost predicate Among(l: Ledger, all: Range) {
    forall x :: Has(l, x) ==> In(all, x)
  }

  /** None of `all` has been lost. */
  ghost predicate Complete(l: Ledger, all: Range) {
    forall x :: In(all, x) ==> Has(l, x)
  }

  /** Every identifier of `all` is in exactly one place, and there are no others. */
  ghost predicate Exact(l: Ledger, all: Range) {
    Safe(l) && Among(l, all) && Complete(l, all)
  }

  ghost predicate SameIds(l: Ledger, l': Ledger) {
    forall x :: Has(l', x) <==> Has(l, x)
  }

  /** Owner i hands out the n lowest identifiers of its range. */
  function Take(l: Ledger, i: nat, n: nat): Ledger
    requires i < |l.free|
  {
    var r := l.free[i];
    Ledger(l.free[i := Range(r.low + n, r.high)], l.taken + seq(n, k => r.low + k))
  }

  /** Owner i keeps the part below `middle`; the part from `middle` up goes to a new owner. */
  function Split(l: Ledger, i: nat, middle: int): Ledger
    requires i < |l.free|
  {
    var r := l.free[i];
    Ledger(l.free[i := Range(r.low, middle - 1)] + [Range(middle, r.high)], l.taken)
  }

  /** A new owner of an empty range. */
  function Join(l: Ledger, empty: Range): Ledger {
    Ledger(l.free + [empty], l.taken)
  }

  /** Owner `to` gets the range of owner `from` in place of its own. */
  function Move(l: Ledger, from: nat, to: nat): Ledger
    requires from < |l.free| && to < |l.free|
  {
    Ledger(l.free[to := l.free[from]][from := NOTHING], l.taken)
  }

  /** Owner i goes away with its range. */
  function Drop(l: Ledger, i: nat): Ledger
    requires i < |l.free|
  {
    Ledger(l.free[i := NOTHING], l.taken)
  }

  // ---------- what keeps the ledger safe ----------

  lemma TakeKeeps(l: Ledger, i: nat, n: nat)
    requires Safe(l) && i < |l.free| && (n == 0 || n <= Size(l.free[i])) && l.free[i].low >= 0
    ensures Safe(Take(l, i, n)) && SameIds(l, Take(l, i, n))
  {
    var r := l.free[i];
    var l' := Take(l, i, n);
    assert forall x :: In(l'.free[i], x) ==> In(r, x);
    forall j, k | 0 <= j < k < |l'.taken|
      ensures l'.taken[j] != l'.taken[k]
    {
      if j < |l.taken| <= k {
        assert In(r, l'.taken[k]);
        assert l.taken[j] in l.taken;
      }
    }
    forall x
      ensures SomeoneHas(l'.free, x) <==> SomeoneHas(l.free, x) && !(n > 0 && r.low <= x < r.low + n)
      ensures x in l'.taken <==> x in l.taken || (n > 0 && r.low <= x < r.low + n)
      ensures Has(l', x) <==> Has(l, x)
    {
      TakeMoves(l, i, n, x);
      if n > 0 && r.low <= x < r.low + n {
        assert In(r, x);
        assert l'.taken[|l.taken| + (x - r.low)] == x;
      }
    }
  }

  lemma TakeMoves(l: Ledger, i: nat, n: nat, x: int)
    requires i < |l.free| && (n == 0 || n <= Size(l.free[i])) && l.free[i].low >= 0
    requires forall i, j, x :: 0 <= i < j < |l.free| && In(l.free[i], x) ==> !In(l.free[j], x)
    ensures SomeoneHas(Take(l, i, n).free, x) <==>
            SomeoneHas(l.free, x) && !(n > 0 && l.free[i].low <= x < l.free[i].low + n)
  {
    var r, f' := l.free[i], Take(l, i, n).free;
    assert In(f'[i], x) <==> In(r, x) && !(n > 0 && r.low <= x < r.low + n);
    if SomeoneHas(l.free, x) {
      var j :| 0 <= j < |l.free| && In(l.free[j], x);
      if j != i {
        assert In(f'[j], x);
        assert !In(r, x);
      }
    }
    if SomeoneHas(f', x) {
      var j :| 0 <= j < |f'| && In(f'[j], x);
      assert In(l.free[j], x);
    }
  }

  lemma SplitKeeps(l: Ledger, i: nat, middle: int)
    requires Safe(l) && i < |l.free|
    requires 0 < l.free[i].low <= middle <= l.free[i].high
    ensures Safe(Split(l, i, middle)) && SameIds(l, Split(l, i, middle))
  {
    var r := l.free[i];
    var l' := Split(l, i, middle);
    var n := |l.free|;
    assert forall x :: In(r, x) <==> In(l'.free[i], x) || In(l'.free[n], x);
    forall x
      ensures SomeoneHas(l'.free, x) <==> SomeoneHas(l.free, x)
      ensures Has(l', x) <==> Has(l, x)
    {
      if SomeoneHas(l.free, x) {
        var j :| 0 <= j < n && In(l.free[j], x);
        assert j != i ==> In(l'.free[j], x);
      }
      if SomeoneHas(l'.free, x) {
        var j :| 0 <= j <= n && In(l'.free[j], x);
        assert j < n && j != i ==> In(l.free[j], x);
      }
    }
  }

  lemma JoinKeeps(l: Ledger, empty: Range)
    requires Safe(l) && Size(empty) <= 0
    ensures Safe(Join(l, empty)) && SameIds(l, Join(l, empty))
  {
    var l' := Join(l, empty);
    forall x
      ensures SomeoneHas(l'.free, x) <==> SomeoneHas(l.free, x)
      ensures Has(l', x) <==> Has(l, x)
    {
      if SomeoneHas(l.free, x) {
        var j :| 0 <= j < |l.free| && In(l.free[j], x);
        assert In(l'.free[j], x);
      }
    }
  }

  /** A hand-over is always safe; it loses exactly what its receiver had. */
  lemma MoveKeeps(l: Ledger, from: nat, to: nat)
    requires Safe(l) && from < |l.free| && to < |l.free| && from != to
    ensures Safe(Move(l, from, to))
    ensures forall x :: Has(Move(l, from, to), x) <==> Has(l, x) && !In(l.free[to], x)
  {
    var l' := Move(l, from, to);
    forall x
      ensures SomeoneHas(l'.free, x) <==> SomeoneHas(l.free, x) && !In(l.free[to], x)
      ensures Has(l', x) <==> Has(l, x) && !In(l.free[to], x)
    {
      MoveMoves(l, from, to, x);
    }
    assert forall x :: !In(l'.free[from], x);
    forall i, j, x | 0 <= i < j < |l'.free| && j != from && In(l'.free[i], x)
      ensures !In(l'.free[j], x)
    {
      var i', j' := if i == to then from else i, if j == to then from else j;
      assert l'.free[i] == l.free[i'] && l'.free[j] == l.free[j'] && i' != j';
    }
  }

  lemma MoveMoves(l: Ledger, from: nat, to: nat, x: int)
    requires Safe(l) && from < |l.free| && to < |l.free| && from != to
    ensures SomeoneHas(Move(l, from, to).free, x) <==> SomeoneHas(l.free, x) && !In(l.free[to], x)
  {
    var l' := Move(l, from, to);
    if SomeoneHas(l.free, x) && !In(l.free[to], x) {
      var j :| 0 <= j < |l.free| && In(l.free[j], x);
      assert In(l'.free[if j == from then to else j], x);
    }
    if SomeoneHas(l'.free, x) {
      var j :| 0 <= j < |l'.free| && In(l'.free[j], x);
      assert In(l.free[if j == to then from else j], x);
    }
  }

  lemma DropKeeps(l: Ledger, i: nat)
    requires Safe(l) && i < |l.free|
    ensures Safe(Drop(l, i))
    ensures forall x :: Has(Drop(l, i), x) <==> Has(l, x) && !In(l.free[i], x)
  {
    var l' := Drop(l, i);
    forall x
      ensures SomeoneHas(l'.free, x) <==> SomeoneHas(l.free, x) && !In(l.free[i], x)
      ensures Has(l', x) <==> Has(l, x) && !In(l.free[i], x)
    {
      if SomeoneHas(l.free, x) && !In(l.free[i], x) {
        var j :| 0 <= j < |l.free| && In(l.free[j], x);
        assert In(l'.free[j], x);
      }
      if SomeoneHas(l'.free, x) {
        var j :| 0 <= j < |l'.free| && In(l'.free[j], x);
        assert In(l.free[j], x);
      }
    }
  }

  // ---------- what breaks it ----------

  /** An exact ledger is not exact any more when its owner i hands out an identifier that it does not have. */
  lemma OvertakingBreaks(l: Ledger, l': Ledger, all: Range, i: nat, x: int)
    requires Exact(l, all) && i < |l.free| <= |l'.free| && l.taken <= l'.taken
    requires forall j :: 0 <= j < |l.free| && j != i ==> l'.free[j] == l.free[j]
    requires !In(l.free[i], x) && x in l'.taken[|l.taken|..]
    ensures !Exact(l', all)
  {
    var k :| |l.taken| <= k < |l'.taken| && l'.taken[k] == x;
    if x in l.taken {
      var j :| 0 <= j < |l.taken| && l.taken[j] == x;
      assert l'.taken[j] == x && j < k;
    } else if SomeoneHas(l.free, x) {
      var j :| 0 <= j < |l.free| && In(l.free[j], x);
      assert In(l'.free[j], x);
      assert x in l'.taken && SomeoneHas(l'.free, x);
    } else {
      assert !Has(l, x) && Has(l', x);
    }
  }

  /** Nor is it when owner i comes to have, or to have given away, an identifier that it did not have. */
  lemma GainingBreaks(l: Ledger, l': Ledger, all: Range, i: nat, owner: nat, x: int)
    requires Exact(l, all) && i < |l.free| <= |l'.free| && l.taken <= l'.taken
    requires forall j :: 0 <= j < |l.free| && j != i ==> l'.free[j] == l.free[j]
    requires owner == i || |l.free| <= owner < |l'.free|
    requires !In(l.free[i], x) && In(l'.free[owner], x)
    ensures !Exact(l', all)
  {
    if x in l.taken {
      assert x in l'.taken && SomeoneHas(l'.free, x);
    } else if SomeoneHas(l.free, x) {
      var j :| 0 <= j < |l.free| && In(l.free[j], x);
      assert In(l'.free[j], x) && j != owner;
    } else {
      assert !Has(l, x) && SomeoneHas(l'.free, x) && Has(l', x);
    }
  }

  /** Nor is it when an identifier is both handed out and given away. */
  lemma BothBreaks(l': Ledger, all: Range, owner: nat, x: int)
    requires owner < |l'.free| && In(l'.free[owner], x) && x in l'.taken
    ensures !Exact(l', all)
  {
    assert SomeoneHas(l'.free, x);
  }
}
