/**
 * The minimum pass as app.py:52-59 writes it: the loop walks the table's row
 * labels, but looks the minimum due up in a positional list with the label,
 * `min_payments[i]`. The list is built in table order (app.py:42-45), so the
 * lookup is right only when the labels are 0..n-1. The filter at app.py:28-29
 * keeps the original labels, so dropping any row in front of a kept row
 * leaves a label at or past the end of the list, and the first month stops
 * with an index error.
 */
module LabelIndexing {
  import opened Wrappers
  import opened DebtTable
  import opened Monthly
  import opened Simulator

  /** `min_payments[label]` with `label >= len(min_payments)`. */
  datatype IndexError = IndexError(position: nat)

  /**
   * The minimum pass as written: the debt at position k carries row label
   * `labels[k]`, and its minimum is read from position `labels[k]` of `dues`.
   */
  function MinimumPassByLabel(labels: seq<nat>, dues: seq<real>, bals: seq<real>, budget: real)
    : (r: Result<(seq<real>, real), IndexError>)
    requires |labels| == |dues| == |bals|
    ensures r.Success? ==> |r.value.0| == |bals|
  {
    if bals == [] then Success(([], budget))
    else
      var k := |bals| - 1;
      var prev := MinimumPassByLabel(labels[..k], dues[..k], bals[..k], budget);
      if prev.Failure? then prev
      else
        var (paid, rem) := prev.value;
        if bals[k] <= 0.0 then Success((paid + [0.0], rem))
        else if labels[k] >= |dues| then Failure(IndexError(labels[k]))
        else
          var pay := Min(dues[labels[k]], rem);
          Success((paid + [pay], rem - pay))
  }

  /** With labels 0..n-1 the lookup by label is the positional minimum pass. */
  lemma {:induction false} ContiguousLabelsAgree(labels: seq<nat>, dues: seq<real>, bals: seq<real>, budget: real)
    requires |labels| == |dues| == |bals|
    requires forall k :: 0 <= k < |labels| ==> labels[k] == k
    ensures MinimumPassByLabel(labels, dues, bals, budget) == Success(MinimumPass(dues, bals, budget))
  {
    if bals != [] {
      var k := |bals| - 1;
      ContiguousLabelsAgree(labels[..k], dues[..k], bals[..k], budget);
      assert dues[..k][..k] == dues[..k];
    }
  }

  /** When the filter drops nothing, the source's lookup is harmless. */
  lemma FilterKeepsAllAgrees(rows: seq<Row>, dues: seq<real>, bals: seq<real>, budget: real)
    requires forall i :: 0 <= i < |rows| ==> Kept(rows[i])
    requires |dues| == |bals| == |rows|
    ensures |KeptLabels(rows)| == |rows|
    ensures MinimumPassByLabel(KeptLabels(rows), dues, bals, budget) == Success(MinimumPass(dues, bals, budget))
  {
    FilterAllKept(rows);
    ContiguousLabelsAgree(KeptLabels(rows), dues, bals, budget);
  }

  /** Strictly increasing labels that skip a position once end at or past the length. */
  lemma {:induction false} IncreasingGap(labels: seq<nat>, j: nat)
    requires j < |labels| && labels[j] > j
    requires forall a, b :: 0 <= a < b < |labels| ==> labels[a] < labels[b]
    ensures labels[|labels| - 1] >= |labels|
    decreases |labels| - j
  {
    if j < |labels| - 1 {
      assert labels[j + 1] > j + 1;
      IncreasingGap(labels, j + 1);
    }
  }

  /** A pass whose last debt is active and labelled past the end of `dues` fails. */
  lemma LastLabelOutOfRange(labels: seq<nat>, dues: seq<real>, bals: seq<real>, budget: real)
    requires |labels| == |dues| == |bals| && bals != []
    requires bals[|bals| - 1] > 0.0 && labels[|labels| - 1] >= |dues|
    ensures MinimumPassByLabel(labels, dues, bals, budget).Failure?
  {
  }

  /**
   * The finding: if the filter drops some row that comes before a kept row,
   * the first month's minimum pass over the surviving debts with their
   * starting balances stops with an index error, whatever the budget.
   */
  lemma DroppedRowBreaksMinimumPass(rows: seq<Row>, i: nat, j: nat, budget: real)
    requires i < j < |rows| && !Kept(rows[i]) && Kept(rows[j])
    ensures var debts := Filter(rows);
      var bals := StartingBalances(debts);
      MinimumPassByLabel(KeptLabels(rows), Dues(debts, bals), bals, budget).Failure?
  {
    var debts := Filter(rows);
    var ls := KeptLabels(rows);
    var bals := StartingBalances(debts);
    KeptLabelsDescribeFilter(rows);
    KeptLabelsIncrease(rows);
    KeptLabelsComplete(rows);
    assert j in ls;
    var kj :| 0 <= kj < |ls| && ls[kj] == j;
    // Some label is past its position: otherwise row i would be labelled i and kept.
    if forall k :: 0 <= k < |ls| ==> ls[k] <= k {
      ListPositions(ls, i);
      assert false;
    }
    var gap :| 0 <= gap < |ls| && ls[gap] > gap;
    IncreasingGap(ls, gap);
    assert bals[|bals| - 1] > 0.0;
    LastLabelOutOfRange(ls, Dues(debts, bals), bals, budget);
  }

  /** Strictly increasing naturals never below their position equal it when bounded above by it. */
  lemma {:induction false} ListPositions(ls: seq<nat>, k: nat)
    requires k < |ls|
    requires forall a, b :: 0 <= a < b < |ls| ==> ls[a] < ls[b]
    requires forall m :: 0 <= m < |ls| ==> ls[m] <= m
    ensures ls[k] == k
  {
    if k > 0 {
      ListPositions(ls, k - 1);
    }
  }

  /** The concrete table of the next lemma: the zero-balance first row is dropped and the second keeps label 1. */
  lemma ZeroBalanceFirstRowDropped()
    ensures var rows := [Row(Some("A"), Some(0.0), Some(10.0), Some(25.0)),
                         Row(Some("B"), Some(500.0), Some(20.0), Some(50.0))];
      Filter(rows) == [Debt("B", 500.0, 20.0, 50.0)] && KeptLabels(rows) == [1]
  {
    var rows := [Row(Some("A"), Some(0.0), Some(10.0), Some(25.0)),
                 Row(Some("B"), Some(500.0), Some(20.0), Some(50.0))];
    assert rows[..1][..0] == [];
    assert Filter(rows[..1]) == [] && KeptLabels(rows[..1]) == [];
  }

  /**
   * A concrete table: the first row has a zero balance and is dropped, so
   * the surviving debt keeps label 1 while the list of minimums has one
   * element. The positional pass pays its minimum of 50; the pass as written
   * fails on label 1.
   */
  lemma ZeroBalanceFirstRowFails()
    ensures var rows := [Row(Some("A"), Some(0.0), Some(10.0), Some(25.0)),
                         Row(Some("B"), Some(500.0), Some(20.0), Some(50.0))];
      Filter(rows) == [Debt("B", 500.0, 20.0, 50.0)] && KeptLabels(rows) == [1]
      && MinimumPass([50.0], [500.0], 100.0) == ([50.0], 50.0)
      && MinimumPassByLabel([1], [50.0], [500.0], 100.0) == Failure(IndexError(1))
  {
    ZeroBalanceFirstRowDropped();
    var dues: seq<real>, bals: seq<real>, labels: seq<nat> := [50.0], [500.0], [1];
    assert dues[..0] == [] && bals[..0] == [] && labels[..0] == [];
    assert MinimumPass(dues[..0], bals[..0], 100.0) == ([], 100.0);
    assert MinimumPassByLabel(labels[..0], dues[..0], bals[..0], 100.0) == Success(([], 100.0));
    assert Min(dues[0], 100.0) == 50.0;
    assert MinimumPass(dues, bals, 100.0) == ([] + [50.0], 100.0 - 50.0);
    assert [] + [50.0] == [50.0];
    assert MinimumPassByLabel(labels, dues, bals, 100.0) == Failure(IndexError(1));
  }
}
