/** Row selection and the demand estimate of app.py: the per-row checkboxes
    keep part of each period's filtered rows, and the estimate blends the
    grown Earlier mean with the Later mean. */
module Estimator {
  import opened Wrappers
  import opened PeriodFilter

  // ---------------------------------------------------------------------
  // Checkbox selection

  /** The rows whose checkbox stays ticked. A checkbox starts ticked and is
      keyed by the row's index label, so the user's choice is the set of
      labels whose box was cleared. */
  function Kept(rows: seq<Row>, cleared: set<nat>): seq<Row> {
    if rows == [] then []
    else (if rows[0].id in cleared then [] else [rows[0]]) + Kept(rows[1..], cleared)
  }

  lemma {:induction false} KeptAppend(a: seq<Row>, b: seq<Row>, cleared: set<nat>)
    ensures Kept(a + b, cleared) == Kept(a, cleared) + Kept(b, cleared)
  {
    if a == [] {
      assert a + b == b;
    } else {
      assert (a + b)[1..] == a[1..] + b;
      KeptAppend(a[1..], b, cleared);
    }
  }

  /** The selection loop: walk the filtered rows in order and append each row
      whose checkbox is ticked. */
  method SelectRows(rows: seq<Row>, cleared: set<nat>) returns (selected: seq<Row>)
    ensures selected == Kept(rows, cleared)
  {
    selected := [];
    var i := 0;
    while i < |rows|
      invariant 0 <= i <= |rows|
      invariant selected == Kept(rows[..i], cleared)
    {
      var row := rows[i];
      KeptAppend(rows[..i], [row], cleared);
      assert rows[..i + 1] == rows[..i] + [row];
      assert [row][1..] == [];
      if row.id !in cleared {
        selected := selected + [row];
      }
      i := i + 1;
    }
    assert rows[..i] == rows;
  }

  /** The kept rows are the input rows with the cleared ones left out, in the
      same order: exactly those rows whose label is not cleared, each as often
      as it occurs in the input. */
  lemma {:induction false} KeptIsSelection(rows: seq<Row>, cleared: set<nat>)
    ensures IsSubsequence(Kept(rows, cleared), rows)
    ensures forall x :: x in Kept(rows, cleared) <==> x in rows && x.id !in cleared
    ensures forall x :: multiset(Kept(rows, cleared))[x] == if x.id in cleared then 0 else multiset(rows)[x]
  {
    KeptCounts(rows, cleared);
    if rows != [] {
      KeptIsSelection(rows[1..], cleared);
      var rest := Kept(rows[1..], cleared);
      if rows[0].id in cleared {
        assert Kept(rows, cleared) == rest;
        SubsequenceOfTail(rest, rows);
      } else {
        assert Kept(rows, cleared) == [rows[0]] + rest;
        assert ([rows[0]] + rest)[1..] == rest;
      }
    }
  }

  /** Each row that is not cleared is kept as often as it occurs. */
  lemma {:induction false} KeptCounts(rows: seq<Row>, cleared: set<nat>)
    ensures forall x :: multiset(Kept(rows, cleared))[x] == if x.id in cleared then 0 else multiset(rows)[x]
  {
    if rows != [] {
      KeptCounts(rows[1..], cleared);
      assert rows == [rows[0]] + rows[1..];
      assert multiset(rows) == multiset([rows[0]]) + multiset(rows[1..]);
    }
  }

  /** With every checkbox left ticked (the default), all rows are kept. */
  lemma {:induction false} DefaultKeepsAll(rows: seq<Row>, cleared: set<nat>)
    requires forall x :: x in rows ==> x.id !in cleared
    ensures Kept(rows, cleared) == rows
  {
    if rows != [] {
      assert forall x :: x in rows[1..] ==> x in rows;
      DefaultKeepsAll(rows[1..], cleared);
    }
  }

  /** The rows kept from a filtered period still pass that period's filter. */
  lemma SelectionStaysInPeriod(rows: seq<Row>, country: string, keyword: string, start: int, end: int, cleared: set<nat>, x: Row)
    requires LiteralKeyword(keyword)
    requires x in Kept(FilterData(rows, country, keyword, start, end), cleared)
    ensures Matches(x, country, keyword, start, end) && x in rows
  {
    KeptIsSelection(FilterData(rows, country, keyword, start, end), cleared);
  }

  // ---------------------------------------------------------------------
  // Mean demand, skipping missing values as pandas does

  /** Sum of the present demands. */
  function Sum(rows: seq<Row>): real {
    if rows == [] then 0.0
    else (if rows[0].demand.Some? then rows[0].demand.value else 0.0) + Sum(rows[1..])
  }

  /** Number of rows with a present demand. */
  function Present(rows: seq<Row>): nat {
    if rows == [] then 0 else (if rows[0].demand.Some? then 1 else 0) + Present(rows[1..])
  }

  /** `df['Demand'].mean()`: the average of the present demands; None (NaN in
      pandas) when no row has one. */
  function Mean(rows: seq<Row>): (m: Option<real>)
    ensures m.Some? <==> Present(rows) > 0
    ensures m.Some? ==> m.value * Present(rows) as real == Sum(rows)
  {
    if Present(rows) == 0 then None else Some(Sum(rows) / Present(rows) as real)
  }

  lemma {:induction false} SumAppend(a: seq<Row>, b: seq<Row>)
    ensures Sum(a + b) == Sum(a) + Sum(b)
    ensures Present(a + b) == Present(a) + Present(b)
  {
    if a == [] {
      assert a + b == b;
    } else {
      assert (a + b)[1..] == a[1..] + b;
      SumAppend(a[1..], b);
    }
  }

  /** Taking out the row at position j takes out its share of the sum and count. */
  lemma SumWithout(b: seq<Row>, j: int)
    requires 0 <= j < |b|
    ensures Sum(b) == Sum([b[j]]) + Sum(b[..j] + b[j + 1..])
    ensures Present(b) == Present([b[j]]) + Present(b[..j] + b[j + 1..])
  {
    assert b[..j] + b[j..] == b;
    assert [b[j]] + b[j + 1..] == b[j..];
    SumAppend(b[..j], b[j..]);
    SumAppend([b[j]], b[j + 1..]);
    SumAppend(b[..j], b[j + 1..]);
  }

  /** Matching the first row of a with a row of b leaves two rearrangements. */
  lemma MultisetWithout(a: seq<Row>, b: seq<Row>, j: int)
    requires multiset(a) == multiset(b) && a != [] && 0 <= j < |b| && b[j] == a[0]
    ensures multiset(a[1..]) == multiset(b[..j] + b[j + 1..])
  {
    assert a == [a[0]] + a[1..];
    assert b == b[..j] + [b[j]] + b[j + 1..];
    assert multiset(a[1..]) == multiset(a) - multiset{a[0]};
    assert multiset(b[..j] + b[j + 1..]) == multiset(b) - multiset{b[j]};
  }

  /** Sum and count depend only on which rows there are, not on their order. */
  lemma {:induction false} SumPermutation(a: seq<Row>, b: seq<Row>)
    requires multiset(a) == multiset(b)
    ensures Sum(a) == Sum(b) && Present(a) == Present(b)
    decreases |a|
  {
    if a == [] {
      assert b == [] by {
        assert |multiset(b)| == |b|;
      }
    } else {
      assert a[0] in multiset(b);
      var j :| 0 <= j < |b| && b[j] == a[0];
      MultisetWithout(a, b, j);
      SumPermutation(a[1..], b[..j] + b[j + 1..]);
      SumWithout(b, j);
      SumWithout(a, 0);
      assert a[..0] + a[1..] == a[1..];
    }
  }

  /** The mean does not depend on the order of the selected rows. */
  lemma MeanOrderIndependent(a: seq<Row>, b: seq<Row>)
    requires multiset(a) == multiset(b)
    ensures Mean(a) == Mean(b)
  {
    SumPermutation(a, b);
  }

  /** The bound `x` counted once for every row with a present demand. */
  function Scaled(rows: seq<Row>, x: real): real {
    if rows == [] then 0.0
    else (if rows[0].demand.Some? then x else 0.0) + Scaled(rows[1..], x)
  }

  lemma {:induction false} ScaledIsProduct(rows: seq<Row>, x: real)
    ensures Scaled(rows, x) == (Present(rows) as real) * x
  {
    if rows != [] {
      ScaledIsProduct(rows[1..], x);
      var p := Present(rows[1..]) as real;
      assert (1.0 + p) * x == x + p * x;
    }
  }

  lemma {:induction false} SumAtLeast(rows: seq<Row>, lo: real)
    requires forall x :: x in rows && x.demand.Some? ==> lo <= x.demand.value
    ensures Scaled(rows, lo) <= Sum(rows)
  {
    if rows != [] {
      var tail := rows[1..];
      assert forall x :: x in tail ==> x in rows;
      SumAtLeast(tail, lo);
      assert rows[0] in rows;
    }
  }

  lemma {:induction false} SumAtMost(rows: seq<Row>, hi: real)
    requires forall x :: x in rows && x.demand.Some? ==> x.demand.value <= hi
    ensures Sum(rows) <= Scaled(rows, hi)
  {
    if rows != [] {
      var tail := rows[1..];
      assert forall x :: x in tail ==> x in rows;
      SumAtMost(tail, hi);
      assert rows[0] in rows;
    }
  }

  /** The mean lies between the smallest and the largest present demand. */
  lemma MeanBounds(rows: seq<Row>, lo: real, hi: real)
    requires forall x :: x in rows && x.demand.Some? ==> lo <= x.demand.value <= hi
    requires Mean(rows).Some?
    ensures lo <= Mean(rows).value <= hi
  {
    SumAtLeast(rows, lo);
    SumAtMost(rows, hi);
    ScaledIsProduct(rows, lo);
    ScaledIsProduct(rows, hi);
    QuotientBounds(Sum(rows), Present(rows) as real, Scaled(rows, lo), Scaled(rows, hi), lo, hi);
  }

  /** A total between a positive count times each bound, divided by that
      count, lies between the bounds. */
  lemma QuotientBounds(total: real, n: real, nlo: real, nhi: real, lo: real, hi: real)
    requires n > 0.0 && nlo == n * lo && nhi == n * hi && nlo <= total <= nhi
    ensures lo <= total / n <= hi
  {
  }

  // ---------------------------------------------------------------------
  // The estimate

  /** What the estimation step shows: a warning when no Later row is
      selected; NaN when a mean is NaN; otherwise the estimate. */
  datatype Estimate = NoLaterSelection | NotANumber | Value(amount: real)

  /** The growth adjustment of the Earlier mean. */
  function Adjusted(meanEarlier: real, growth: real): real {
    meanEarlier * (1.0 + growth / 100.0)
  }

  /** The estimate of app.py: no estimate without Later rows; an empty Earlier
      selection counts as mean 0; otherwise the average of the grown Earlier
      mean and the Later mean. pandas' NaN mean of rows that all lack a demand
      propagates to the result. */
  function EstimateDemand(earlier: seq<Row>, later: seq<Row>, growth: real): (e: Estimate)
    ensures e == NoLaterSelection <==> later == []
    ensures e == NotANumber <==> later != [] && (Mean(later).None? || (earlier != [] && Mean(earlier).None?))
    ensures earlier == [] && Mean(later).Some? ==> e == Value(Mean(later).value / 2.0)
    ensures earlier != [] && Mean(earlier).Some? && Mean(later).Some? ==>
      e == Value((Adjusted(Mean(earlier).value, growth) + Mean(later).value) / 2.0)
  {
    if later == [] then NoLaterSelection
    else
      var meanEarlier := if earlier == [] then Some(0.0) else Mean(earlier);
      var meanLater := Mean(later);
      if meanEarlier.None? || meanLater.None? then NotANumber
      else Value((Adjusted(meanEarlier.value, growth) + meanLater.value) / 2.0)
  }

  /** A growth of 0 leaves the Earlier mean as it is: the estimate is the
      plain average of the two means. */
  lemma ZeroGrowthAverages(earlier: seq<Row>, later: seq<Row>)
    requires earlier != [] && Mean(earlier).Some? && Mean(later).Some?
    ensures EstimateDemand(earlier, later, 0.0) == Value((Mean(earlier).value + Mean(later).value) / 2.0)
  {
  }

  /** With no growth, the estimate is never below the smallest and never above
      the largest selected demand of either period. */
  lemma EstimateWithinDemands(earlier: seq<Row>, later: seq<Row>, lo: real, hi: real)
    requires forall x :: x in earlier + later && x.demand.Some? ==> lo <= x.demand.value <= hi
    requires earlier != [] && Mean(earlier).Some? && Mean(later).Some?
    ensures EstimateDemand(earlier, later, 0.0).Value?
    ensures lo <= EstimateDemand(earlier, later, 0.0).amount <= hi
  {
    MeanBounds(earlier, lo, hi);
    MeanBounds(later, lo, hi);
  }

  /** More growth never lowers the estimate when the Earlier mean is not negative. */
  lemma GrowthMonotone(earlier: seq<Row>, later: seq<Row>, g1: real, g2: real)
    requires g1 <= g2
    requires earlier != [] && Mean(earlier).Some? && Mean(earlier).value >= 0.0 && Mean(later).Some?
    ensures EstimateDemand(earlier, later, g1).amount <= EstimateDemand(earlier, later, g2).amount
  {
    var m := Mean(earlier).value;
    assert m * (g2 / 100.0) - m * (g1 / 100.0) == m * ((g2 - g1) / 100.0);
  }

  /** The estimate depends on which rows were selected, not on their order. */
  lemma EstimateOrderIndependent(earlier: seq<Row>, earlier': seq<Row>, later: seq<Row>, later': seq<Row>, growth: real)
    requires multiset(earlier) == multiset(earlier') && multiset(later) == multiset(later')
    ensures EstimateDemand(earlier, later, growth) == EstimateDemand(earlier', later', growth)
  {
    MeanOrderIndependent(earlier, earlier');
    MeanOrderIndependent(later, later');
    assert earlier == [] <==> earlier' == [] by {
      assert |multiset(earlier)| == |earlier| && |multiset(earlier')| == |earlier'|;
    }
    assert later == [] <==> later' == [] by {
      assert |multiset(later)| == |later| && |multiset(later')| == |later'|;
    }
  }

  /** One row with the given demand. */
  function Campaign(id: nat, demand: real): Row {
    Row(id, "DE", Some("campaign"), Some(0), Some(0), Some(demand))
  }

  /** Earlier mean 100 grown by 10% and Later mean 200 give (110 + 200) / 2 = 155. */
  lemma ExampleBlend()
    ensures EstimateDemand([Campaign(0, 100.0)], [Campaign(1, 200.0)], 10.0) == Value(155.0)
  {
  }

  /** A growth of -50% halves the Earlier mean: (50 + 100) / 2 = 75. */
  lemma ExampleNegativeGrowth()
    ensures EstimateDemand([Campaign(0, 100.0)], [Campaign(1, 100.0)], -50.0) == Value(75.0)
  {
  }

  /** No Earlier rows: the Earlier mean counts as 0, so Later 200 gives 100. */
  lemma ExampleNoEarlier(growth: real)
    ensures EstimateDemand([], [Campaign(1, 200.0)], growth) == Value(100.0)
  {
  }

  /** No Later rows: a warning and no number, whatever was chosen for Earlier. */
  lemma ExampleNoLater(earlier: seq<Row>, growth: real)
    ensures EstimateDemand(earlier, [], growth) == NoLaterSelection
  {
  }
}
