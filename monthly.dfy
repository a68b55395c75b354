/**
 * One simulated month (app.py:42-92): the minimum-payment pass, the cascade of
 * the leftover budget, and the settlement of each active debt. Every pass is a
 * function over the balances at the start of the month; the imperative loops in
 * module Simulator are proved to compute exactly these functions.
 *
 * The passes walk the debts in table order; the functions are written on the
 * last element so that "the first i debts" is the prefix `s[..i]`.
 */
module Monthly {
  import opened DebtTable

  function Min(a: real, b: real): real { if a <= b then a else b }

  function Max(a: real, b: real): real { if a >= b then a else b }

  function Sum(s: seq<real>): real {
    if s == [] then 0.0 else Sum(s[..|s| - 1]) + s[|s| - 1]
  }

  /** Element-wise sum of two sequences of equal length. */
  function AddSeq(a: seq<real>, b: seq<real>): seq<real>
    requires |a| == |b|
  {
    seq(|a|, i requires 0 <= i < |a| => a[i] + b[i])
  }

  lemma {:induction false} SumAddSeq(a: seq<real>, b: seq<real>)
    requires |a| == |b|
    ensures Sum(AddSeq(a, b)) == Sum(a) + Sum(b)
  {
    if a != [] {
      var n := |a| - 1;
      SumAddSeq(a[..n], b[..n]);
      assert AddSeq(a, b)[..n] == AddSeq(a[..n], b[..n]);
      assert AddSeq(a, b)[n] == a[n] + b[n];
    }
  }

  /** All entries are non-negative, so their sum is too. */
  lemma {:induction false} SumNonNegative(s: seq<real>)
    requires forall i :: 0 <= i < |s| ==> s[i] >= 0.0
    ensures Sum(s) >= 0.0
  {
    if s != [] {
      SumNonNegative(s[..|s| - 1]);
    }
  }

  // ---------------------------------------------------------------------
  // Minimum-payment pass (app.py:42-59)
  // ---------------------------------------------------------------------

  /** The minimum owed this month: the minimum payment, capped by the balance; nothing when paid off. */
  function MinimumDue(d: Debt, bal: real): (r: real)
    ensures bal <= 0.0 ==> r == 0.0
    ensures bal > 0.0 ==> r <= bal && r <= d.minimumPayment && (r == bal || r == d.minimumPayment)
  {
    if bal > 0.0 then Min(d.minimumPayment, bal) else 0.0
  }

  /** The list of minimums due, one per debt (app.py:42-45). */
  function Dues(debts: seq<Debt>, bals: seq<real>): (ds: seq<real>)
    requires |debts| == |bals|
    ensures |ds| == |bals|
  {
    seq(|bals|, i requires 0 <= i < |bals| => MinimumDue(debts[i], bals[i]))
  }

  /**
   * Pays each active debt its minimum due out of the budget, in table order,
   * while the budget lasts. Returns the payment per debt and the budget left.
   */
  function MinimumPass(dues: seq<real>, bals: seq<real>, budget: real): (r: (seq<real>, real))
    requires |dues| == |bals|
    ensures |r.0| == |bals|
  {
    if bals == [] then ([], budget)
    else
      var i := |bals| - 1;
      var (paid, rem) := MinimumPass(dues[..i], bals[..i], budget);
      if bals[i] <= 0.0 then (paid + [0.0], rem)
      else
        var pay := Min(dues[i], rem);
        (paid + [pay], rem - pay)
  }

  /** The payments of a pass are those of the pass over the shorter table, plus the last debt's. */
  lemma MinimumPassLast(dues: seq<real>, bals: seq<real>, budget: real)
    requires |dues| == |bals| && bals != []
    ensures var i := |bals| - 1;
      MinimumPass(dues, bals, budget).0[..i] == MinimumPass(dues[..i], bals[..i], budget).0
  {
  }

  /**
   * The minimum pass never over-spends: the budget left stays in [0, budget]
   * and accounts exactly for what was paid.
   */
  lemma {:induction false} MinimumPassBudget(dues: seq<real>, bals: seq<real>, budget: real)
    requires |dues| == |bals|
    requires budget >= 0.0
    requires forall i :: 0 <= i < |dues| ==> dues[i] >= 0.0
    ensures 0.0 <= MinimumPass(dues, bals, budget).1 <= budget
    ensures Sum(MinimumPass(dues, bals, budget).0) + MinimumPass(dues, bals, budget).1 == budget
  {
    if bals != [] {
      var i := |bals| - 1;
      MinimumPassBudget(dues[..i], bals[..i], budget);
      MinimumPassLast(dues, bals, budget);
    }
  }

  /** No debt gets more than its minimum due, and a paid-off debt gets nothing. */
  lemma {:induction false} MinimumPassPerDebt(dues: seq<real>, bals: seq<real>, budget: real)
    requires |dues| == |bals|
    requires budget >= 0.0
    requires forall i :: 0 <= i < |dues| ==> dues[i] >= 0.0
    ensures forall k :: 0 <= k < |bals| ==> 0.0 <= MinimumPass(dues, bals, budget).0[k] <= dues[k]
    ensures forall k :: 0 <= k < |bals| && bals[k] <= 0.0 ==> MinimumPass(dues, bals, budget).0[k] == 0.0
  {
    if bals != [] {
      var i := |bals| - 1;
      MinimumPassPerDebt(dues[..i], bals[..i], budget);
      MinimumPassBudget(dues[..i], bals[..i], budget);
      MinimumPassLast(dues, bals, budget);
      var paid := MinimumPass(dues, bals, budget).0;
      var prev := MinimumPass(dues[..i], bals[..i], budget).0;
      forall k | 0 <= k < i
        ensures 0.0 <= paid[k] <= dues[k] && (bals[k] <= 0.0 ==> paid[k] == 0.0)
      {
        assert paid[k] == prev[k];
      }
    }
  }

  /** Either every active debt got its full minimum, or the budget is used up. */
  lemma {:induction false} MinimumPassFullOrExhausted(dues: seq<real>, bals: seq<real>, budget: real)
    requires |dues| == |bals|
    requires budget >= 0.0
    requires forall i :: 0 <= i < |dues| ==> dues[i] >= 0.0
    ensures (forall k :: 0 <= k < |bals| && bals[k] > 0.0 ==> MinimumPass(dues, bals, budget).0[k] == dues[k])
      || MinimumPass(dues, bals, budget).1 == 0.0
  {
    if bals != [] {
      var i := |bals| - 1;
      MinimumPassFullOrExhausted(dues[..i], bals[..i], budget);
      MinimumPassBudget(dues[..i], bals[..i], budget);
      MinimumPassLast(dues, bals, budget);
      var paid := MinimumPass(dues, bals, budget).0;
      var prev := MinimumPass(dues[..i], bals[..i], budget).0;
      if MinimumPass(dues, bals, budget).1 != 0.0 {
        forall k | 0 <= k < |bals| && bals[k] > 0.0 ensures paid[k] == dues[k] {
          if k < i {
            assert paid[k] == prev[k];
          }
        }
      }
    }
  }

  /**
   * Minimums are paid in table order while the budget lasts: a debt is paid
   * anything only if every earlier active debt got its full minimum.
   */
  lemma {:induction false} MinimumPassInOrder(dues: seq<real>, bals: seq<real>, budget: real)
    requires |dues| == |bals|
    requires budget >= 0.0
    requires forall i :: 0 <= i < |dues| ==> dues[i] >= 0.0
    ensures forall j, k :: 0 <= j < k < |bals| && MinimumPass(dues, bals, budget).0[k] > 0.0 && bals[j] > 0.0 ==>
        MinimumPass(dues, bals, budget).0[j] == dues[j]
  {
    if bals != [] {
      var i := |bals| - 1;
      MinimumPassInOrder(dues[..i], bals[..i], budget);
      MinimumPassFullOrExhausted(dues[..i], bals[..i], budget);
      MinimumPassLast(dues, bals, budget);
      var paid := MinimumPass(dues, bals, budget).0;
      var prev := MinimumPass(dues[..i], bals[..i], budget).0;
      forall j, k | 0 <= j < k < |bals| && paid[k] > 0.0 && bals[j] > 0.0
        ensures paid[j] == dues[j]
      {
        assert paid[j] == prev[j];
        if k < i {
          assert paid[k] == prev[k];
        }
      }
    }
  }

  // ---------------------------------------------------------------------
  // Cascade of the leftover budget (app.py:61-68)
  // ---------------------------------------------------------------------

  /**
   * Walks the active debts in table order; while budget is left, each takes
   * `min(balance, left)` as extra. Returns the extra per debt and what is left.
   */
  function Extras(bals: seq<real>, leftover: real): (r: (seq<real>, real))
    ensures |r.0| == |bals|
  {
    if bals == [] then ([], leftover)
    else
      var i := |bals| - 1;
      var (extra, rem) := Extras(bals[..i], leftover);
      if bals[i] > 0.0 && rem > 0.0 then
        var x := Min(bals[i], rem);
        (extra + [x], rem - x)
      else (extra + [0.0], rem)
  }

  /** The cascade over a prefix of the debts is the prefix of the cascade. */
  lemma {:induction false} ExtrasPrefix(bals: seq<real>, leftover: real, k: nat)
    requires k <= |bals|
    ensures Extras(bals[..k], leftover).0 == Extras(bals, leftover).0[..k]
  {
    if k < |bals| {
      var i := |bals| - 1;
      ExtrasPrefix(bals[..i], leftover, k);
      assert bals[..i][..k] == bals[..k];
    } else {
      assert bals[..k] == bals;
    }
  }

  /** The extras of a cascade are those of the cascade over the shorter table, plus the last debt's. */
  lemma ExtrasLast(bals: seq<real>, leftover: real)
    requires bals != []
    ensures var i := |bals| - 1;
      Extras(bals, leftover).0[..i] == Extras(bals[..i], leftover).0
  {
  }

  /**
   * The cascade never over-spends: what is left stays in [0, leftover] and
   * accounts exactly for the extras.
   */
  lemma {:induction false} ExtrasBudget(bals: seq<real>, leftover: real)
    requires leftover >= 0.0
    ensures 0.0 <= Extras(bals, leftover).1 <= leftover
    ensures Sum(Extras(bals, leftover).0) + Extras(bals, leftover).1 == leftover
  {
    if bals != [] {
      var i := |bals| - 1;
      ExtrasBudget(bals[..i], leftover);
      ExtrasLast(bals, leftover);
    }
  }

  /** No extra is negative, a paid-off debt gets none, and none exceeds the debt's balance. */
  lemma {:induction false} ExtrasPerDebt(bals: seq<real>, leftover: real)
    requires leftover >= 0.0
    ensures forall k :: 0 <= k < |bals| ==> 0.0 <= Extras(bals, leftover).0[k]
    ensures forall k :: 0 <= k < |bals| && bals[k] <= 0.0 ==> Extras(bals, leftover).0[k] == 0.0
    ensures forall k :: 0 <= k < |bals| && bals[k] > 0.0 ==> Extras(bals, leftover).0[k] <= bals[k]
  {
    if bals != [] {
      var i := |bals| - 1;
      ExtrasPerDebt(bals[..i], leftover);
      ExtrasLast(bals, leftover);
      var extra := Extras(bals, leftover).0;
      var prev := Extras(bals[..i], leftover).0;
      forall k | 0 <= k < i
        ensures 0.0 <= extra[k] && (bals[k] <= 0.0 ==> extra[k] == 0.0) && (bals[k] > 0.0 ==> extra[k] <= bals[k])
      {
        assert extra[k] == prev[k];
      }
    }
  }

  /** Budget is left over only when every active debt got its whole balance as extra. */
  lemma {:induction false} ExtrasFullWhenLeft(bals: seq<real>, leftover: real)
    requires leftover >= 0.0
    ensures Extras(bals, leftover).1 > 0.0 ==>
      forall k :: 0 <= k < |bals| && bals[k] > 0.0 ==> Extras(bals, leftover).0[k] == bals[k]
  {
    if bals != [] {
      var i := |bals| - 1;
      ExtrasFullWhenLeft(bals[..i], leftover);
      ExtrasLast(bals, leftover);
      var extra := Extras(bals, leftover).0;
      var prev := Extras(bals[..i], leftover).0;
      if Extras(bals, leftover).1 > 0.0 {
        assert Extras(bals[..i], leftover).1 > 0.0;
        forall k | 0 <= k < |bals| && bals[k] > 0.0 ensures extra[k] == bals[k] {
          if k < i {
            assert extra[k] == prev[k];
          }
        }
      }
    }
  }

  /**
   * The cascade fills debts strictly in order: a debt gets extra only if every
   * earlier active debt got extra equal to its whole balance.
   */
  lemma {:induction false} ExtrasCascade(bals: seq<real>, leftover: real)
    requires leftover >= 0.0
    ensures forall j, k :: 0 <= j < k < |bals| && Extras(bals, leftover).0[k] > 0.0 && bals[j] > 0.0 ==>
                Extras(bals, leftover).0[j] == bals[j]
  {
    if bals != [] {
      var i := |bals| - 1;
      ExtrasCascade(bals[..i], leftover);
      ExtrasFullWhenLeft(bals[..i], leftover);
      ExtrasLast(bals, leftover);
      var extra := Extras(bals, leftover).0;
      var prev := Extras(bals[..i], leftover).0;
      forall j, k | 0 <= j < k < |bals| && extra[k] > 0.0 && bals[j] > 0.0 ensures extra[j] == bals[j] {
        assert extra[j] == prev[j];
        if k < i {
          assert extra[k] == prev[k];
        } else {
          assert Extras(bals[..i], leftover).1 > 0.0;
        }
      }
    }
  }

  /**
   * Once the budget left after the first k debts is used up, no later debt gets
   * extra and nothing more is spent: this is the early `break` of the loop.
   */
  lemma {:induction false} ExtrasStopWhenExhausted(bals: seq<real>, leftover: real, k: nat)
    requires k <= |bals|
    requires Extras(bals[..k], leftover).1 <= 0.0
    ensures Extras(bals, leftover).1 == Extras(bals[..k], leftover).1
    ensures forall j :: k <= j < |bals| ==> Extras(bals, leftover).0[j] == 0.0
  {
    if k < |bals| {
      var i := |bals| - 1;
      assert bals[..i][..k] == bals[..k];
      ExtrasStopWhenExhausted(bals[..i], leftover, k);
      var extra := Extras(bals[..i], leftover).0;
      assert Extras(bals, leftover).0[..i] == extra;
    } else {
      assert bals[..k] == bals;
    }
  }

  /** What each debt is allotted this month: its minimum-pass payment plus its extra. */
  function Allocation(debts: seq<Debt>, bals: seq<real>, budget: real): (pays: seq<real>)
    requires |debts| == |bals|
    ensures |pays| == |bals|
  {
    var (paid, rem) := MinimumPass(Dues(debts, bals), bals, budget);
    AddSeq(paid, Extras(bals, rem).0)
  }

  /** Debts whose minimum payment is not negative. */
  predicate MinimumsNonNegative(debts: seq<Debt>) {
    forall i :: 0 <= i < |debts| ==> debts[i].minimumPayment >= 0.0
  }

  /** Debts whose rate is not negative. */
  predicate RatesNonNegative(debts: seq<Debt>) {
    forall i :: 0 <= i < |debts| ==> debts[i].ratePercent >= 0.0
  }

  /**
   * The month's allocations spend no more than the budget; each is
   * non-negative, a paid-off debt is allotted nothing, and an active debt at
   * most its minimum due plus its balance.
   */
  lemma AllocationWithinBudget(debts: seq<Debt>, bals: seq<real>, budget: real)
    requires |debts| == |bals|
    requires budget >= 0.0 && MinimumsNonNegative(debts)
    ensures var pays := Allocation(debts, bals, budget);
      Sum(pays) <= budget
      && (forall i :: 0 <= i < |bals| ==> pays[i] >= 0.0)
      && (forall i :: 0 <= i < |bals| && bals[i] <= 0.0 ==> pays[i] == 0.0)
      && (forall i :: 0 <= i < |bals| && bals[i] > 0.0 ==> pays[i] <= MinimumDue(debts[i], bals[i]) + bals[i])
  {
    var dues := Dues(debts, bals);
    var (paid, rem) := MinimumPass(dues, bals, budget);
    MinimumPassBudget(dues, bals, budget);
    MinimumPassPerDebt(dues, bals, budget);
    ExtrasBudget(bals, rem);
    ExtrasPerDebt(bals, rem);
    SumAddSeq(paid, Extras(bals, rem).0);
  }

  // ---------------------------------------------------------------------
  // Settlement (app.py:70-92)
  // ---------------------------------------------------------------------

  datatype Settlement = Settlement(interest: real, payment: real, principal: real, newBalance: real)

  /**
   * Interest for the month at a twelfth of the APR, the payment capped at
   * balance plus interest, and the principal and new balance floored at zero.
   */
  function Settle(bal: real, ratePercent: real, allotted: real): Settlement {
    var interest := bal * (ratePercent / 100.0 / 12.0);
    var payment := Min(allotted, bal + interest);
    var principal := Max(payment - interest, 0.0);
    Settlement(interest, payment, principal, Max(bal - principal, 0.0))
  }

  /**
   * What settlement guarantees: interest is a twelfth of the APR on the
   * balance; the payment never exceeds what was allotted nor the balance plus
   * interest; principal and new balance are never negative; the new balance
   * never exceeds the old one and is exactly the old balance less the
   * principal (the floor never cuts in); an allotment that covers balance plus
   * interest pays the debt off; and an allotment within the balance is paid in
   * full.
   */
  lemma SettleBounds(bal: real, ratePercent: real, allotted: real)
    ensures var s := Settle(bal, ratePercent, allotted);
      s.interest == bal * ratePercent / 1200.0
      && s.payment <= allotted && s.payment <= bal + s.interest
      && s.principal >= 0.0 && s.newBalance >= 0.0
      && (bal >= 0.0 ==> s.newBalance <= bal && s.newBalance == bal - s.principal)
      && (bal > 0.0 && allotted >= bal + s.interest ==> s.newBalance == 0.0)
      && (bal >= 0.0 && ratePercent >= 0.0 ==> s.interest >= 0.0)
      && (allotted >= 0.0 && bal + s.interest >= 0.0 ==> s.payment >= 0.0)
      && (0.0 <= allotted <= bal && ratePercent >= 0.0 ==> s.payment == allotted)
  {
    var s := Settle(bal, ratePercent, allotted);
    if bal >= 0.0 && ratePercent >= 0.0 {
      assert s.interest >= 0.0 by {
        assert bal * (ratePercent / 100.0 / 12.0) >= 0.0;
      }
    }
  }

  /** One ledger row; `month` is the 1-based month index standing for its label. */
  datatype Entry = Entry(
    month: nat,
    name: string,
    startingBalance: real,
    interest: real,
    principal: real,
    payment: real,
    endingBalance: real)

  function EntryFor(month: nat, d: Debt, bal: real, allotted: real): (e: Entry)
    ensures e.month == month && e.name == d.name && e.startingBalance == bal
  {
    var s := Settle(bal, d.ratePercent, allotted);
    Entry(month, d.name, bal, s.interest, s.principal, s.payment, s.newBalance)
  }

  /** The ledger rows of one month: one per debt active at the start of the month, in table order. */
  function MonthEntries(month: nat, debts: seq<Debt>, bals: seq<real>, pays: seq<real>): (es: seq<Entry>)
    requires |debts| == |bals| == |pays|
    ensures |es| <= |bals|
  {
    if bals == [] then []
    else
      var i := |bals| - 1;
      MonthEntries(month, debts[..i], bals[..i], pays[..i])
      + (if bals[i] > 0.0 then [EntryFor(month, debts[i], bals[i], pays[i])] else [])
  }

  /** The positions of the debts with a positive balance, in table order. */
  function ActiveIndices(bals: seq<real>): (idx: seq<nat>)
    ensures forall j :: 0 <= j < |idx| ==> idx[j] < |bals| && bals[idx[j]] > 0.0
  {
    if bals == [] then []
    else
      var i := |bals| - 1;
      ActiveIndices(bals[..i]) + (if bals[i] > 0.0 then [i] else [])
  }

  /** ActiveIndices lists every active debt, exactly once and in increasing order. */
  lemma {:induction false} ActiveIndicesComplete(bals: seq<real>)
    ensures forall a, b :: 0 <= a < b < |ActiveIndices(bals)| ==> ActiveIndices(bals)[a] < ActiveIndices(bals)[b]
    ensures forall i :: 0 <= i < |bals| && bals[i] > 0.0 ==> i in ActiveIndices(bals)
  {
    if bals != [] {
      var i := |bals| - 1;
      ActiveIndicesComplete(bals[..i]);
    }
  }

  /**
   * Each debt active at the start of the month gets exactly one ledger row, in
   * table order, even when its payment is zero; a paid-off debt gets none.
   */
  lemma {:induction false} MonthEntriesPerActiveDebt(month: nat, debts: seq<Debt>, bals: seq<real>, pays: seq<real>)
    requires |debts| == |bals| == |pays|
    ensures var es, idx := MonthEntries(month, debts, bals, pays), ActiveIndices(bals);
      |es| == |idx|
      && forall j :: 0 <= j < |es| ==> es[j] == EntryFor(month, debts[idx[j]], bals[idx[j]], pays[idx[j]])
  {
    if bals != [] {
      var i := |bals| - 1;
      MonthEntriesPerActiveDebt(month, debts[..i], bals[..i], pays[..i]);
    }
  }

  /** Every row of a month carries that month's label. */
  lemma {:induction false} MonthEntriesMonth(month: nat, debts: seq<Debt>, bals: seq<real>, pays: seq<real>)
    requires |debts| == |bals| == |pays|
    ensures forall j :: 0 <= j < |MonthEntries(month, debts, bals, pays)| ==>
      MonthEntries(month, debts, bals, pays)[j].month == month
  {
    if bals != [] {
      var i := |bals| - 1;
      MonthEntriesMonth(month, debts[..i], bals[..i], pays[..i]);
      var prev := MonthEntries(month, debts[..i], bals[..i], pays[..i]);
      var es := MonthEntries(month, debts, bals, pays);
      if bals[i] > 0.0 {
        var e := EntryFor(month, debts[i], bals[i], pays[i]);
        assert es == prev + [e];
        assert e.month == month;
        forall j | 0 <= j < |es| ensures es[j].month == month {
          if j < |prev| {
            assert es[j] == prev[j];
            assert prev[j].month == month;
          } else {
            assert es[j] == e;
          }
        }
      } else {
        assert es == prev;
      }
    }
  }

  /** A month in which some balance is positive appends at least one row. */
  lemma MonthEntriesNonEmpty(month: nat, debts: seq<Debt>, bals: seq<real>, pays: seq<real>, i: nat)
    requires |debts| == |bals| == |pays|
    requires i < |bals| && bals[i] > 0.0
    ensures |MonthEntries(month, debts, bals, pays)| > 0
  {
    ActiveIndicesComplete(bals);
    MonthEntriesPerActiveDebt(month, debts, bals, pays);
  }

  /** The balances after settlement: active debts take their new balance, the others keep theirs. */
  function NewBalances(debts: seq<Debt>, bals: seq<real>, pays: seq<real>): (nb: seq<real>)
    requires |debts| == |bals| == |pays|
    ensures |nb| == |bals|
  {
    seq(|bals|, i requires 0 <= i < |bals| => SettledBalance(debts[i], bals[i], pays[i]))
  }

  /**
   * Settlement never raises a balance: a paid-off debt keeps its balance and
   * an active one ends between zero and where it started.
   */
  lemma NewBalancesBounds(debts: seq<Debt>, bals: seq<real>, pays: seq<real>)
    requires |debts| == |bals| == |pays|
    ensures var nb := NewBalances(debts, bals, pays);
      (forall i :: 0 <= i < |bals| && bals[i] <= 0.0 ==> nb[i] == bals[i])
      && (forall i :: 0 <= i < |bals| && bals[i] > 0.0 ==> 0.0 <= nb[i] <= bals[i])
  {
    forall i | 0 <= i < |bals| {
      SettleBounds(bals[i], debts[i].ratePercent, pays[i]);
    }
  }

  /** A debt's balance after settlement: active debts take their new balance, the others keep theirs. */
  function SettledBalance(d: Debt, bal: real, allotted: real): real {
    if bal > 0.0 then Settle(bal, d.ratePercent, allotted).newBalance else bal
  }

  /** Non-negative amounts that add up to at most zero are all zero. */
  lemma {:induction false} SumZeroParts(s: seq<real>)
    requires forall i :: 0 <= i < |s| ==> s[i] >= 0.0
    requires Sum(s) <= 0.0
    ensures forall i :: 0 <= i < |s| ==> s[i] == 0.0
  {
    if s != [] {
      var n := |s| - 1;
      SumNonNegative(s[..n]);
      SumZeroParts(s[..n]);
      forall i | 0 <= i < n ensures s[i] == 0.0 {
        assert s[i] == s[..n][i];
      }
    }
  }

  /**
   * With no budget nothing is allotted, and with non-negative rates every
   * balance comes out of the month as it went in: interest is charged but
   * never paid, and the balance does not grow because only principal moves it.
   */
  lemma ZeroBudgetMonth(debts: seq<Debt>, bals: seq<real>)
    requires |debts| == |bals|
    requires MinimumsNonNegative(debts) && RatesNonNegative(debts)
    ensures forall i :: 0 <= i < |bals| ==> Allocation(debts, bals, 0.0)[i] == 0.0
    ensures NewBalances(debts, bals, Allocation(debts, bals, 0.0)) == bals
  {
    var pays := Allocation(debts, bals, 0.0);
    AllocationWithinBudget(debts, bals, 0.0);
    SumZeroParts(pays);
    forall i | 0 <= i < |bals| ensures NewBalances(debts, bals, pays)[i] == bals[i] {
      if bals[i] > 0.0 {
        SettleBounds(bals[i], debts[i].ratePercent, 0.0);
      }
    }
  }

  function TotalPayment(es: seq<Entry>): real {
    if es == [] then 0.0 else TotalPayment(es[..|es| - 1]) + es[|es| - 1].payment
  }

  /** The rows of a month pay out no more than was allotted. */
  lemma {:induction false} MonthPaymentsWithinAllocation(month: nat, debts: seq<Debt>, bals: seq<real>, pays: seq<real>)
    requires |debts| == |bals| == |pays|
    requires forall i :: 0 <= i < |pays| ==> pays[i] >= 0.0
    ensures TotalPayment(MonthEntries(month, debts, bals, pays)) <= Sum(pays)
  {
    if bals != [] {
      var i := |bals| - 1;
      MonthPaymentsWithinAllocation(month, debts[..i], bals[..i], pays[..i]);
      var prev := MonthEntries(month, debts[..i], bals[..i], pays[..i]);
      var es := MonthEntries(month, debts, bals, pays);
      if bals[i] > 0.0 {
        assert es[..|es| - 1] == prev;
      } else {
        assert es == prev;
      }
    }
  }

  /** Budget conservation: the payments of one month's rows never exceed the budget. */
  lemma MonthWithinBudget(month: nat, debts: seq<Debt>, bals: seq<real>, budget: real)
    requires |debts| == |bals|
    requires budget >= 0.0 && MinimumsNonNegative(debts)
    ensures TotalPayment(MonthEntries(month, debts, bals, Allocation(debts, bals, budget))) <= budget
  {
    AllocationWithinBudget(debts, bals, budget);
    MonthPaymentsWithinAllocation(month, debts, bals, Allocation(debts, bals, budget));
  }

  /**
   * As written, the cascade hands a debt up to its whole balance on top of the
   * minimum it was already paid, and settlement caps the payment at balance
   * plus interest without passing the excess on. Here a 200 budget pays only
   * 150 although the second debt stays open.
   */
  lemma CascadeCanStrandBudget()
    ensures var debts := [Debt("A", 100.0, 0.0, 50.0), Debt("B", 1000.0, 0.0, 0.0)];
      var bals := [100.0, 1000.0];
      var pays := Allocation(debts, bals, 200.0);
      pays == [150.0, 50.0]
      && TotalPayment(MonthEntries(1, debts, bals, pays)) == 150.0
      && NewBalances(debts, bals, pays) == [0.0, 950.0]
  {
    var debts := [Debt("A", 100.0, 0.0, 50.0), Debt("B", 1000.0, 0.0, 0.0)];
    var bals := [100.0, 1000.0];
    StrandedAllocation(debts, bals);
    var pays := [150.0, 50.0];
    var es1 := MonthEntries(1, debts[..1], bals[..1], pays[..1]);
    assert es1 == [EntryFor(1, debts[0], 100.0, 150.0)] by {
      assert debts[..1][..0] == [] && bals[..1][..0] == [] && pays[..1][..0] == [];
      assert MonthEntries(1, debts[..1][..0], bals[..1][..0], pays[..1][..0]) == [];
    }
    var es := MonthEntries(1, debts, bals, pays);
    assert es == es1 + [EntryFor(1, debts[1], 1000.0, 50.0)];
    assert TotalPayment(es1) == 100.0 by {
      assert es1[..0] == [];
    }
    assert es[..1] == es1;
  }

  /** The allocations of the example in CascadeCanStrandBudget. */
  lemma StrandedAllocation(debts: seq<Debt>, bals: seq<real>)
    requires debts == [Debt("A", 100.0, 0.0, 50.0), Debt("B", 1000.0, 0.0, 0.0)]
    requires bals == [100.0, 1000.0]
    ensures Allocation(debts, bals, 200.0) == [150.0, 50.0]
  {
    var dues := Dues(debts, bals);
    assert dues == [50.0, 0.0];
    var m1 := MinimumPass(dues[..1], bals[..1], 200.0);
    assert m1.0 == [50.0] && m1.1 == 150.0 by {
      assert dues[..1][..0] == [] && bals[..1][..0] == [];
      assert MinimumPass(dues[..1][..0], bals[..1][..0], 200.0) == ([], 200.0);
    }
    var m := MinimumPass(dues, bals, 200.0);
    assert m.0 == [50.0, 0.0] && m.1 == 150.0;
    var x1 := Extras(bals[..1], 150.0);
    assert x1.0 == [100.0] && x1.1 == 50.0 by {
      assert bals[..1][..0] == [];
      assert Extras(bals[..1][..0], 150.0) == ([], 150.0);
    }
    var x := Extras(bals, 150.0);
    assert x.0 == [100.0, 50.0];
    assert AddSeq(m.0, x.0) == [150.0, 50.0];
  }
}
