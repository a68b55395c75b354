/**
 * The debt table as the user edits it, and the clean-up that runs before the
 * simulation: rows with a missing cell are dropped, and so are rows whose
 * starting balance is not positive (app.py:28-29). Both steps keep the
 * surviving rows in table order and keep their original row labels.
 */
module DebtTable {
  import opened Wrappers

  /** One row of the editable table; a missing cell is `None`. */
  datatype Row = Row(
    name: Option<string>,
    startingBalance: Option<real>,
    ratePercent: Option<real>,
    minimumPayment: Option<real>)

  /** A debt that survived the clean-up. `ratePercent` is the APR in percent. */
  datatype Debt = Debt(
    name: string,
    startingBalance: real,
    ratePercent: real,
    minimumPayment: real)

  /** A row survives when no cell is missing and its starting balance is positive. */
  predicate Kept(r: Row) {
    r.name.Some? && r.startingBalance.Some? && r.ratePercent.Some? && r.minimumPayment.Some?
    && r.startingBalance.value > 0.0
  }

  function ToDebt(r: Row): (d: Debt)
    requires Kept(r)
    ensures d.startingBalance > 0.0
    ensures d.name == r.name.value && d.startingBalance == r.startingBalance.value
    ensures d.ratePercent == r.ratePercent.value && d.minimumPayment == r.minimumPayment.value
  {
    Debt(r.name.value, r.startingBalance.value, r.ratePercent.value, r.minimumPayment.value)
  }

  /** The surviving debts, in table order. */
  function Filter(rows: seq<Row>): (ds: seq<Debt>)
    ensures |ds| <= |rows|
    ensures forall k :: 0 <= k < |ds| ==> ds[k].startingBalance > 0.0
  {
    if rows == [] then []
    else
      var last := rows[|rows| - 1];
      Filter(rows[..|rows| - 1]) + (if Kept(last) then [ToDebt(last)] else [])
  }

  /** The original row labels of the surviving debts, in table order. */
  function KeptLabels(rows: seq<Row>): (ls: seq<nat>)
    ensures |ls| == |Filter(rows)|
    ensures forall k :: 0 <= k < |ls| ==> ls[k] < |rows|
  {
    if rows == [] then []
    else
      var i := |rows| - 1;
      KeptLabels(rows[..i]) + (if Kept(rows[i]) then [i] else [])
  }

  /** The labels of a table are those of the table without its last row, plus that row's if it is kept. */
  lemma KeptLabelsLast(rows: seq<Row>)
    requires rows != []
    ensures var i := |rows| - 1;
      KeptLabels(rows)[..|KeptLabels(rows[..i])|] == KeptLabels(rows[..i])
      && Filter(rows)[..|Filter(rows[..i])|] == Filter(rows[..i])
  {
  }

  /** The k-th surviving debt is the conversion of the row labelled `KeptLabels(rows)[k]`, which is kept. */
  lemma {:induction false} KeptLabelsDescribeFilter(rows: seq<Row>)
    ensures forall k :: 0 <= k < |KeptLabels(rows)| ==>
              Kept(rows[KeptLabels(rows)[k]]) && Filter(rows)[k] == ToDebt(rows[KeptLabels(rows)[k]])
  {
    if rows != [] {
      var i := |rows| - 1;
      var prefix := rows[..i];
      KeptLabelsDescribeFilter(prefix);
      KeptLabelsLast(rows);
      var ls, ds := KeptLabels(rows), Filter(rows);
      var ls', ds' := KeptLabels(prefix), Filter(prefix);
      forall k | 0 <= k < |ls| ensures Kept(rows[ls[k]]) && ds[k] == ToDebt(rows[ls[k]]) {
        if k < |ls'| {
          assert ls[k] == ls'[k] && ds[k] == ds'[k];
          assert prefix[ls'[k]] == rows[ls[k]];
        }
      }
    }
  }

  /** The labels strictly increase, so the filter keeps table order. */
  lemma {:induction false} KeptLabelsIncrease(rows: seq<Row>)
    ensures forall a, b :: 0 <= a < b < |KeptLabels(rows)| ==> KeptLabels(rows)[a] < KeptLabels(rows)[b]
  {
    if rows != [] {
      var i := |rows| - 1;
      KeptLabelsIncrease(rows[..i]);
      KeptLabelsLast(rows);
      var ls, ls' := KeptLabels(rows), KeptLabels(rows[..i]);
      forall a, b | 0 <= a < b < |ls| ensures ls[a] < ls[b] {
        assert ls[a] == ls'[a];
        if b < |ls'| {
          assert ls[b] == ls'[b];
        }
      }
    }
  }

  /** Every kept row has its label in the list: the filter drops no row it should keep. */
  lemma {:induction false} KeptLabelsComplete(rows: seq<Row>)
    ensures forall i :: 0 <= i < |rows| && Kept(rows[i]) ==> i in KeptLabels(rows)
  {
    if rows != [] {
      var n := |rows| - 1;
      KeptLabelsComplete(rows[..n]);
      KeptLabelsLast(rows);
      var ls, ls' := KeptLabels(rows), KeptLabels(rows[..n]);
      forall i | 0 <= i < |rows| && Kept(rows[i]) ensures i in ls {
        if i < n {
          assert rows[..n][i] == rows[i];
          var k :| 0 <= k < |ls'| && ls'[k] == i;
          assert ls[k] == i;
        } else {
          assert ls[|ls| - 1] == n;
        }
      }
    }
  }

  /** A debt is in the filtered list if and only if some kept row converts to it. */
  lemma FilterMembers(rows: seq<Row>, d: Debt)
    ensures d in Filter(rows) <==> exists i :: 0 <= i < |rows| && Kept(rows[i]) && ToDebt(rows[i]) == d
  {
    KeptLabelsDescribeFilter(rows);
    KeptLabelsComplete(rows);
    var ls := KeptLabels(rows);
    if d in Filter(rows) {
      var k :| 0 <= k < |Filter(rows)| && Filter(rows)[k] == d;
      assert Kept(rows[ls[k]]) && ToDebt(rows[ls[k]]) == d;
    }
    if i :| 0 <= i < |rows| && Kept(rows[i]) && ToDebt(rows[i]) == d {
      assert i in ls;
      var k :| 0 <= k < |ls| && ls[k] == i;
      assert Filter(rows)[k] == d;
    }
  }

  /** When nothing is dropped the filter is the identity conversion and labels are 0..n-1. */
  lemma {:induction false} FilterAllKept(rows: seq<Row>)
    requires forall i :: 0 <= i < |rows| ==> Kept(rows[i])
    ensures |Filter(rows)| == |rows|
    ensures forall k :: 0 <= k < |rows| ==> KeptLabels(rows)[k] == k
  {
    if rows != [] {
      FilterAllKept(rows[..|rows| - 1]);
    }
  }
}
