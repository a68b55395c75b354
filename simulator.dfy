/**
 * The payoff simulation (app.py:33-92) and its summary (app.py:98-99).
 *
 * `Run` and `Schedule` give the meaning of the whole simulation as a function;
 * `Simulate` is the loop of the source over an array of balances, one method
 * per pass, and is proved to compute `Schedule`. The lemmas state what the
 * schedule guarantees: the 240-month cap, balances that never rise or go
 * negative, one month label per iteration, and the summary.
 */
module Simulator {
  import opened Wrappers
  import opened DebtTable
  import opened Monthly

  /** The safety cap of the loop: twenty years of months (app.py:38). */
  const MaxMonths: nat := 240

  predicate AnyPositive(bals: seq<real>) {
    exists i :: 0 <= i < |bals| && bals[i] > 0.0
  }

  predicate AllNonNegative(bals: seq<real>) {
    forall i :: 0 <= i < |bals| ==> bals[i] >= 0.0
  }

  /** The working balance column starts as a copy of the starting balances (app.py:35). */
  function StartingBalances(debts: seq<Debt>): (bals: seq<real>)
    ensures |bals| == |debts|
    ensures forall i :: 0 <= i < |debts| ==> bals[i] == debts[i].startingBalance
  {
    seq(|debts|, i requires 0 <= i < |debts| => debts[i].startingBalance)
  }

  /** The ledger so far, the balances, and the month counter. */
  datatype Outcome = Outcome(ledger: seq<Entry>, balances: seq<real>, months: nat)

  /**
   * The rest of the simulation from a given state: while some balance is
   * positive and the cap is not reached, simulate one more month.
   */
  function Run(debts: seq<Debt>, budget: real, bals: seq<real>, month: nat, ledger: seq<Entry>): (o: Outcome)
    requires |bals| == |debts|
    ensures |o.balances| == |debts|
    decreases MaxMonths - month, 1
  {
    if !AnyPositive(bals) || month >= MaxMonths then Outcome(ledger, bals, month)
    else Advance(debts, budget, bals, month, ledger)
  }

  /** One month of the loop body, then the rest of the run. */
  function Advance(debts: seq<Debt>, budget: real, bals: seq<real>, month: nat, ledger: seq<Entry>): (o: Outcome)
    requires |bals| == |debts| && month < MaxMonths
    ensures |o.balances| == |debts|
    decreases MaxMonths - month, 0
  {
    var pays := Allocation(debts, bals, budget);
    Run(debts, budget, NewBalances(debts, bals, pays), month + 1,
        ledger + MonthEntries(month + 1, debts, bals, pays))
  }

  /** The whole simulation: from the starting balances, month 0, an empty ledger. */
  function Schedule(debts: seq<Debt>, budget: real): Outcome {
    Run(debts, budget, StartingBalances(debts), 0, [])
  }

  // ---------------------------------------------------------------------
  // The imperative simulation
  // ---------------------------------------------------------------------

  /** Whether some balance is still positive (app.py:38, first half of the guard). */
  method HasPositiveBalance(balances: array<real>) returns (b: bool)
    ensures b == AnyPositive(balances[..])
  {
    for i := 0 to balances.Length
      invariant forall j :: 0 <= j < i ==> balances[j] <= 0.0
    {
      if balances[i] > 0.0 {
        return true;
      }
    }
    return false;
  }

  /** The list of minimums due this month (app.py:42-45). */
  method ComputeMinimumDues(debts: seq<Debt>, balances: array<real>) returns (dues: seq<real>)
    requires |debts| == balances.Length
    ensures |dues| == |debts|
    ensures forall i :: 0 <= i < |debts| ==> dues[i] == MinimumDue(debts[i], balances[i])
  {
    dues := [];
    for i := 0 to balances.Length
      invariant |dues| == i
      invariant forall j :: 0 <= j < i ==> dues[j] == MinimumDue(debts[j], balances[j])
    {
      var bal := balances[i];
      dues := dues + [if bal > 0.0 then Min(debts[i].minimumPayment, bal) else 0.0];
    }
  }

  /** Pays the minimums from the budget in table order (app.py:47-59). */
  method ApplyMinimums(dues: seq<real>, balances: array<real>, budget: real)
    returns (payments: array<real>, remaining: real)
    requires |dues| == balances.Length
    ensures fresh(payments) && payments.Length == balances.Length
    ensures (payments[..], remaining) == MinimumPass(dues, balances[..], budget)
  {
    var n := balances.Length;
    payments := new real[n];
    remaining := budget;
    for i := 0 to n
      invariant payments[..i] == MinimumPass(dues[..i], balances[..i], budget).0
      invariant remaining == MinimumPass(dues[..i], balances[..i], budget).1
    {
      assert dues[..i + 1][..i] == dues[..i] && balances[..i + 1][..i] == balances[..i];
      var bal := balances[i];
      if bal <= 0.0 {
        payments[i] := 0.0;
        assert payments[..i + 1] == payments[..i] + [0.0];
        continue;
      }
      var pay := Min(dues[i], remaining);
      payments[i] := pay;
      assert payments[..i + 1] == payments[..i] + [pay];
      remaining := remaining - pay;
    }
    assert dues[..n] == dues && balances[..n] == balances[..] && payments[..n] == payments[..];
  }

  /**
   * Cascades the budget left after the minimums to the active debts in table
   * order, stopping as soon as it is used up (app.py:61-68).
   */
  method CascadeExtra(balances: array<real>, payments: array<real>, remaining: real) returns (left: real)
    requires payments.Length == balances.Length && payments != balances
    modifies payments
    ensures payments[..] == AddSeq(old(payments[..]), Extras(balances[..], remaining).0)
    ensures left == Extras(balances[..], remaining).1
  {
    var n := balances.Length;
    left := remaining;
    var i := 0;
    while i < n
      invariant 0 <= i <= n
      invariant left == Extras(balances[..i], remaining).1
      invariant forall j :: 0 <= j < i ==> payments[j] == old(payments[j]) + Extras(balances[..i], remaining).0[j]
      invariant forall j :: i <= j < n ==> payments[j] == old(payments[j])
    {
      assert balances[..i + 1][..i] == balances[..i];
      var bal := balances[i];
      if bal > 0.0 {
        if left <= 0.0 {
          break;
        }
        var extra := Min(bal, left);
        payments[i] := payments[i] + extra;
        left := left - extra;
      }
      i := i + 1;
    }
    assert balances[..][..i] == balances[..i];
    assert i == n ==> balances[..i] == balances[..];
    ExtrasPrefix(balances[..], remaining, i);
    if i < n {
      ExtrasStopWhenExhausted(balances[..], remaining, i);
    }
  }

  /** Settles one active debt: accrue a month of interest, pay, and record the ledger row (app.py:76-92). */
  method SettleDebt(month: nat, d: Debt, bal: real, allotted: real) returns (entry: Entry, newBalance: real)
    requires bal > 0.0
    ensures entry == EntryFor(month, d, bal, allotted)
    ensures newBalance == SettledBalance(d, bal, allotted)
  {
    var rate := d.ratePercent / 100.0 / 12.0;
    var interest := bal * rate;
    var payment := Min(allotted, bal + interest);
    var principal := Max(payment - interest, 0.0);
    newBalance := Max(bal - principal, 0.0);
    entry := Entry(month, d.name, bal, interest, principal, payment, newBalance);
  }

  /**
   * Settles every active debt against its allotted payment, overwrites its
   * balance and appends its ledger row (app.py:70-92).
   */
  method SettleMonth(month: nat, debts: seq<Debt>, balances: array<real>, payments: array<real>)
    returns (entries: seq<Entry>)
    requires |debts| == balances.Length == payments.Length && payments != balances
    modifies balances
    ensures balances[..] == NewBalances(debts, old(balances[..]), payments[..])
    ensures entries == MonthEntries(month, debts, old(balances[..]), payments[..])
  {
    ghost var start := balances[..];
    ghost var settled := NewBalances(debts, start, payments[..]);
    var n := balances.Length;
    entries := [];
    for i := 0 to n
      invariant forall j :: 0 <= j < i ==> balances[j] == settled[j]
      invariant forall j :: i <= j < n ==> balances[j] == start[j]
      invariant entries == MonthEntries(month, debts[..i], start[..i], payments[..i])
    {
      MonthEntriesStep(month, debts, start, payments[..], i);
      var bal := balances[i];
      if bal <= 0.0 {
        continue;
      }
      var entry, newBalance := SettleDebt(month, debts[i], bal, payments[i]);
      assert newBalance == settled[i];
      entries := entries + [entry];
      balances[i] := newBalance;
    }
    assert debts[..n] == debts && start[..n] == start && payments[..n] == payments[..];
    assert balances[..] == settled;
  }

  /** Extending the settled prefix by one debt extends the month's rows by at most its row. */
  lemma MonthEntriesStep(month: nat, debts: seq<Debt>, bals: seq<real>, pays: seq<real>, i: nat)
    requires |debts| == |bals| == |pays| && i < |bals|
    ensures MonthEntries(month, debts[..i + 1], bals[..i + 1], pays[..i + 1])
      == MonthEntries(month, debts[..i], bals[..i], pays[..i])
         + (if bals[i] > 0.0 then [EntryFor(month, debts[i], bals[i], pays[i])] else [])
  {
    assert debts[..i + 1][..i] == debts[..i] && bals[..i + 1][..i] == bals[..i];
    assert pays[..i + 1][..i] == pays[..i];
  }

  /** One month: minimums, cascade, settlement (one iteration of app.py:38-92). */
  method SimulateMonth(month: nat, debts: seq<Debt>, balances: array<real>, budget: real)
    returns (entries: seq<Entry>)
    requires |debts| == balances.Length
    modifies balances
    ensures balances[..] == NewBalances(debts, old(balances[..]), Allocation(debts, old(balances[..]), budget))
    ensures entries == MonthEntries(month, debts, old(balances[..]), Allocation(debts, old(balances[..]), budget))
  {
    ghost var start := balances[..];
    var dues := ComputeMinimumDues(debts, balances);
    assert dues == Dues(debts, start);
    var payments, remaining := ApplyMinimums(dues, balances, budget);
    remaining := CascadeExtra(balances, payments, remaining);
    assert payments[..] == Allocation(debts, start, budget);
    entries := SettleMonth(month, debts, balances, payments);
  }

  /** One unfolding of Run: a month is simulated when some balance is positive and the cap is not reached. */
  lemma RunStep(debts: seq<Debt>, budget: real, bals: seq<real>, month: nat, ledger: seq<Entry>)
    requires |bals| == |debts|
    requires AnyPositive(bals) && month < MaxMonths
    ensures var pays := Allocation(debts, bals, budget);
      Run(debts, budget, bals, month, ledger)
      == Run(debts, budget, NewBalances(debts, bals, pays), month + 1, ledger + MonthEntries(month + 1, debts, bals, pays))
  {
  }

  /**
   * One simulated month, as the lemmas about the whole run use it: the
   * balances it leaves and the rows it appends, with what is known of each.
   */
  lemma MonthStep(debts: seq<Debt>, budget: real, bals: seq<real>, month: nat, ledger: seq<Entry>)
      returns (nb: seq<real>, es: seq<Entry>)
    requires |bals| == |debts|
    requires AnyPositive(bals) && month < MaxMonths
    ensures |nb| == |debts| && |es| > 0
    ensures Run(debts, budget, bals, month, ledger) == Run(debts, budget, nb, month + 1, ledger + es)
    ensures forall j :: 0 <= j < |es| ==> es[j].month == month + 1
    ensures forall i :: 0 <= i < |bals| ==> nb[i] <= bals[i] && (bals[i] >= 0.0 ==> nb[i] >= 0.0)
    ensures budget >= 0.0 && MinimumsNonNegative(debts) ==> TotalPayment(es) <= budget
    ensures RatesNonNegative(debts) && AllNonNegative(bals) ==> TotalInterest(es) >= 0.0 && AllNonNegative(nb)
    ensures budget == 0.0 && MinimumsNonNegative(debts) && RatesNonNegative(debts) ==> nb == bals
  {
    var pays := Allocation(debts, bals, budget);
    nb := NewBalances(debts, bals, pays);
    es := MonthEntries(month + 1, debts, bals, pays);
    assert Run(debts, budget, bals, month, ledger) == Run(debts, budget, nb, month + 1, ledger + es) by {
      RunStep(debts, budget, bals, month, ledger);
    }
    assert |es| > 0 by {
      var i :| 0 <= i < |bals| && bals[i] > 0.0;
      MonthEntriesNonEmpty(month + 1, debts, bals, pays, i);
    }
    assert forall j :: 0 <= j < |es| ==> es[j].month == month + 1 by {
      MonthEntriesMonth(month + 1, debts, bals, pays);
    }
    assert forall i :: 0 <= i < |bals| ==> nb[i] <= bals[i] && (bals[i] >= 0.0 ==> nb[i] >= 0.0) by {
      NewBalancesBounds(debts, bals, pays);
    }
    if budget >= 0.0 && MinimumsNonNegative(debts) {
      assert TotalPayment(es) <= budget by {
        MonthWithinBudget(month + 1, debts, bals, budget);
      }
    }
    if RatesNonNegative(debts) && AllNonNegative(bals) {
      assert TotalInterest(es) >= 0.0 by {
        MonthInterestNonNegative(month + 1, debts, bals, pays);
      }
    }
    if budget == 0.0 && MinimumsNonNegative(debts) && RatesNonNegative(debts) {
      assert nb == bals by {
        ZeroBudgetMonth(debts, bals);
      }
    }
  }

  /**
   * The simulation loop (app.py:33-92): months are simulated while some
   * balance is positive and fewer than 240 months have passed.
   */
  method Simulate(debts: seq<Debt>, budget: real) returns (ledger: seq<Entry>, finalBalances: seq<real>, months: nat)
    ensures Outcome(ledger, finalBalances, months) == Schedule(debts, budget)
    ensures months <= MaxMonths
    ensures months < MaxMonths ==> !AnyPositive(finalBalances)
  {
    var n := |debts|;
    var balances := new real[n];
    for i := 0 to n
      invariant forall j :: 0 <= j < i ==> balances[j] == debts[j].startingBalance
    {
      balances[i] := debts[i].startingBalance;
    }
    assert balances[..] == StartingBalances(debts);
    months := 0;
    ledger := [];
    var active := HasPositiveBalance(balances);
    while active && months < MaxMonths
      invariant months <= MaxMonths
      invariant active == AnyPositive(balances[..])
      invariant Run(debts, budget, balances[..], months, ledger) == Schedule(debts, budget)
      decreases MaxMonths - months
    {
      ghost var start := balances[..];
      months := months + 1;
      var entries := SimulateMonth(months, debts, balances, budget);
      RunStep(debts, budget, start, months - 1, ledger);
      ledger := ledger + entries;
      active := HasPositiveBalance(balances);
    }
    finalBalances := balances[..];
  }

  // ---------------------------------------------------------------------
  // What the schedule guarantees
  // ---------------------------------------------------------------------

  /**
   * The loop guard: the run stops at month 240 or with every balance paid
   * off.
   */
  lemma {:induction false} RunGuard(debts: seq<Debt>, budget: real, bals: seq<real>, month: nat, ledger: seq<Entry>)
    requires |bals| == |debts| && month <= MaxMonths
    ensures Run(debts, budget, bals, month, ledger).months == MaxMonths
      || !AnyPositive(Run(debts, budget, bals, month, ledger).balances)
    decreases MaxMonths - month
  {
    if AnyPositive(bals) && month < MaxMonths {
      var nb, es := MonthStep(debts, budget, bals, month, ledger);
      RunGuard(debts, budget, nb, month + 1, ledger + es);
    }
  }

  /** The month counter only moves forward, by one per simulated month, and never passes 240. */
  lemma {:induction false} RunMonthCount(debts: seq<Debt>, budget: real, bals: seq<real>, month: nat, ledger: seq<Entry>)
    requires |bals| == |debts| && month <= MaxMonths
    ensures month <= Run(debts, budget, bals, month, ledger).months <= MaxMonths
    ensures AnyPositive(bals) && month < MaxMonths ==> month < Run(debts, budget, bals, month, ledger).months
    decreases MaxMonths - month
  {
    if AnyPositive(bals) && month < MaxMonths {
      var nb, es := MonthStep(debts, budget, bals, month, ledger);
      RunMonthCount(debts, budget, nb, month + 1, ledger + es);
    }
  }

  /**
   * The ledger only grows: rows already written are kept as they are and
   * every simulated month appends at least one row.
   */
  lemma {:induction false} RunLedgerGrows(debts: seq<Debt>, budget: real, bals: seq<real>, month: nat, ledger: seq<Entry>)
    requires |bals| == |debts| && month <= MaxMonths
    ensures |ledger| <= |Run(debts, budget, bals, month, ledger).ledger| && Run(debts, budget, bals, month, ledger).ledger[..|ledger|] == ledger
    ensures |Run(debts, budget, bals, month, ledger).ledger| - |ledger| >= Run(debts, budget, bals, month, ledger).months - month
    decreases MaxMonths - month
  {
    if AnyPositive(bals) && month < MaxMonths {
      var nb, es := MonthStep(debts, budget, bals, month, ledger);
      RunLedgerGrows(debts, budget, nb, month + 1, ledger + es);
      var o := Run(debts, budget, bals, month, ledger);
      assert o.ledger[..|ledger + es|][..|ledger|] == o.ledger[..|ledger|];
    }
  }

  /** Balances never rise, and a balance that starts non-negative never goes negative. */
  lemma {:induction false} RunBalance(debts: seq<Debt>, budget: real, bals: seq<real>, month: nat, ledger: seq<Entry>, i: nat)
    requires |bals| == |debts| && i < |bals|
    ensures Run(debts, budget, bals, month, ledger).balances[i] <= bals[i]
    ensures bals[i] >= 0.0 ==> Run(debts, budget, bals, month, ledger).balances[i] >= 0.0
    decreases MaxMonths - month
  {
    if AnyPositive(bals) && month < MaxMonths {
      var nb, es := MonthStep(debts, budget, bals, month, ledger);
      RunBalance(debts, budget, nb, month + 1, ledger + es, i);
    }
  }

  /** The month labels that occur in a ledger. */
  function MonthsOf(es: seq<Entry>): (ms: set<nat>)
    ensures forall j :: 0 <= j < |es| ==> es[j].month in ms
  {
    if es == [] then {} else MonthsOf(es[..|es| - 1]) + {es[|es| - 1].month}
  }

  /** The months after `a` up to and including `b`. */
  function MonthRange(a: nat, b: nat): set<nat>
    decreases b
  {
    if b <= a then {} else MonthRange(a, b - 1) + {b}
  }

  /** MonthRange(a, b) holds exactly the months a+1..b, so it has b - a of them. */
  lemma {:induction false} MonthRangeMembers(a: nat, b: nat)
    ensures forall m :: m in MonthRange(a, b) <==> a < m <= b
    ensures |MonthRange(a, b)| == if a <= b then b - a else 0
    decreases b
  {
    if b > a {
      MonthRangeMembers(a, b - 1);
      assert b !in MonthRange(a, b - 1);
    }
  }

  lemma MonthRangeSplit(a: nat, b: nat)
    requires a < b
    ensures MonthRange(a, b) == {a + 1} + MonthRange(a + 1, b)
  {
    MonthRangeMembers(a, b);
    MonthRangeMembers(a + 1, b);
  }

  lemma {:induction false} MonthsOfAppend(a: seq<Entry>, b: seq<Entry>)
    ensures MonthsOf(a + b) == MonthsOf(a) + MonthsOf(b)
    decreases |b|
  {
    if b == [] {
      assert a + b == a;
    } else {
      var k := |b| - 1;
      assert (a + b)[..|a + b| - 1] == a + b[..k];
      MonthsOfAppend(a, b[..k]);
    }
  }

  /** A non-empty month of rows all labelled m contributes exactly the label m. */
  lemma {:induction false} MonthsOfOneMonth(es: seq<Entry>, m: nat)
    requires |es| > 0 && forall j :: 0 <= j < |es| ==> es[j].month == m
    ensures MonthsOf(es) == {m}
  {
    var k := |es| - 1;
    if k > 0 {
      MonthsOfOneMonth(es[..k], m);
    } else {
      assert es[..k] == [];
    }
  }

  /** Appending a non-empty month of rows labelled m adds exactly the label m. */
  lemma MonthLabelsStep(ledger: seq<Entry>, es: seq<Entry>, m: nat)
    requires |es| > 0 && forall j :: 0 <= j < |es| ==> es[j].month == m
    ensures MonthsOf(ledger + es) == MonthsOf(ledger) + {m}
  {
    MonthsOfAppend(ledger, es);
    MonthsOfOneMonth(es, m);
  }

  /** The month-label step of RunMonths, stated on plain ledgers. */
  lemma MonthsCombine(ledger: seq<Entry>, es: seq<Entry>, final: seq<Entry>, month: nat, last: nat)
    requires month < last
    requires |es| > 0 && forall j :: 0 <= j < |es| ==> es[j].month == month + 1
    requires MonthsOf(final) == MonthsOf(ledger + es) + MonthRange(month + 1, last)
    ensures MonthsOf(final) == MonthsOf(ledger) + MonthRange(month, last)
  {
    MonthLabelsStep(ledger, es, month + 1);
    MonthRangeSplit(month, last);
  }

  /** Every simulated month adds exactly its own label to the ledger. */
  lemma {:induction false} RunMonths(debts: seq<Debt>, budget: real, bals: seq<real>, month: nat, ledger: seq<Entry>)
    requires |bals| == |debts| && month <= MaxMonths
    ensures MonthsOf(Run(debts, budget, bals, month, ledger).ledger)
      == MonthsOf(ledger) + MonthRange(month, Run(debts, budget, bals, month, ledger).months)
    decreases MaxMonths - month
  {
    if AnyPositive(bals) && month < MaxMonths {
      var nb, es := MonthStep(debts, budget, bals, month, ledger);
      RunMonths(debts, budget, nb, month + 1, ledger + es);
      RunMonthCount(debts, budget, nb, month + 1, ledger + es);
      var o := Run(debts, budget, nb, month + 1, ledger + es);
      MonthsCombine(ledger, es, o.ledger, month, o.months);
    } else {
      assert MonthRange(month, month) == {};
    }
  }

  /** The rows of a ledger that carry month label m, in ledger order. */
  function MonthRows(es: seq<Entry>, m: nat): (r: seq<Entry>)
    ensures |r| <= |es|
  {
    if es == [] then []
    else MonthRows(es[..|es| - 1], m) + (if es[|es| - 1].month == m then [es[|es| - 1]] else [])
  }

  lemma {:induction false} MonthRowsAppend(a: seq<Entry>, b: seq<Entry>, m: nat)
    ensures MonthRows(a + b, m) == MonthRows(a, m) + MonthRows(b, m)
    decreases |b|
  {
    if b == [] {
      assert a + b == a;
    } else {
      var k := |b| - 1;
      assert (a + b)[..|a + b| - 1] == a + b[..k];
      MonthRowsAppend(a, b[..k], m);
    }
  }

  lemma {:induction false} MonthRowsAll(es: seq<Entry>, m: nat)
    requires forall j :: 0 <= j < |es| ==> es[j].month == m
    ensures MonthRows(es, m) == es
  {
    if es != [] {
      MonthRowsAll(es[..|es| - 1], m);
    }
  }

  lemma {:induction false} MonthRowsNone(es: seq<Entry>, m: nat)
    requires forall j :: 0 <= j < |es| ==> es[j].month != m
    ensures MonthRows(es, m) == []
  {
    if es != [] {
      MonthRowsNone(es[..|es| - 1], m);
    }
  }

  /** Appending the rows of month+1 to a ledger of earlier months keeps every month within the budget. */
  lemma LedgerMonthStep(ledger: seq<Entry>, es: seq<Entry>, month: nat, budget: real)
    requires forall j :: 0 <= j < |ledger| ==> ledger[j].month <= month
    requires forall m :: TotalPayment(MonthRows(ledger, m)) <= budget
    requires forall j :: 0 <= j < |es| ==> es[j].month == month + 1
    requires TotalPayment(es) <= budget
    ensures forall j :: 0 <= j < |ledger + es| ==> (ledger + es)[j].month <= month + 1
    ensures forall m :: TotalPayment(MonthRows(ledger + es, m)) <= budget
  {
    var ledger' := ledger + es;
    forall j | 0 <= j < |ledger'| ensures ledger'[j].month <= month + 1 {
      if j >= |ledger| {
        assert ledger'[j] == es[j - |ledger|];
      }
    }
    forall m ensures TotalPayment(MonthRows(ledger', m)) <= budget {
      MonthRowsAppend(ledger, es, m);
      if m == month + 1 {
        MonthRowsNone(ledger, m);
        MonthRowsAll(es, m);
        assert MonthRows(ledger', m) == [] + es == es;
      } else {
        MonthRowsNone(es, m);
        assert MonthRows(ledger', m) == MonthRows(ledger, m) + [] == MonthRows(ledger, m);
      }
    }
  }

  /**
   * Budget conservation over the whole run: for every month label, the
   * payments of that month's rows add up to at most the budget.
   */
  lemma {:induction false} RunWithinBudget(debts: seq<Debt>, budget: real, bals: seq<real>, month: nat, ledger: seq<Entry>)
    requires |bals| == |debts|
    requires budget >= 0.0 && MinimumsNonNegative(debts)
    requires forall j :: 0 <= j < |ledger| ==> ledger[j].month <= month
    requires forall m :: TotalPayment(MonthRows(ledger, m)) <= budget
    ensures forall m :: TotalPayment(MonthRows(Run(debts, budget, bals, month, ledger).ledger, m)) <= budget
    decreases MaxMonths - month
  {
    if AnyPositive(bals) && month < MaxMonths {
      var nb, es := MonthStep(debts, budget, bals, month, ledger);
      LedgerMonthStep(ledger, es, month, budget);
      RunWithinBudget(debts, budget, nb, month + 1, ledger + es);
    }
  }

  function TotalInterest(es: seq<Entry>): real {
    if es == [] then 0.0 else TotalInterest(es[..|es| - 1]) + es[|es| - 1].interest
  }

  lemma {:induction false} TotalInterestAppend(a: seq<Entry>, b: seq<Entry>)
    ensures TotalInterest(a + b) == TotalInterest(a) + TotalInterest(b)
    decreases |b|
  {
    if b == [] {
      assert a + b == a;
    } else {
      var k := |b| - 1;
      assert (a + b)[..|a + b| - 1] == a + b[..k];
      TotalInterestAppend(a, b[..k]);
    }
  }

  /** With non-negative rates and balances, a month's rows accrue non-negative interest. */
  lemma {:induction false} MonthInterestNonNegative(month: nat, debts: seq<Debt>, bals: seq<real>, pays: seq<real>)
    requires |debts| == |bals| == |pays|
    requires RatesNonNegative(debts) && AllNonNegative(bals)
    ensures TotalInterest(MonthEntries(month, debts, bals, pays)) >= 0.0
  {
    if bals != [] {
      var i := |bals| - 1;
      MonthInterestNonNegative(month, debts[..i], bals[..i], pays[..i]);
      SettleBounds(bals[i], debts[i].ratePercent, pays[i]);
      var prev := MonthEntries(month, debts[..i], bals[..i], pays[..i]);
      var es := MonthEntries(month, debts, bals, pays);
      if bals[i] > 0.0 {
        assert es[..|es| - 1] == prev;
      } else {
        assert es == prev;
      }
    }
  }

  /** Interest only accumulates: the run adds a non-negative amount of interest to the ledger. */
  lemma {:induction false} RunInterest(debts: seq<Debt>, budget: real, bals: seq<real>, month: nat, ledger: seq<Entry>)
    requires |bals| == |debts|
    requires RatesNonNegative(debts) && AllNonNegative(bals)
    ensures TotalInterest(Run(debts, budget, bals, month, ledger).ledger) >= TotalInterest(ledger)
    decreases MaxMonths - month
  {
    if AnyPositive(bals) && month < MaxMonths {
      var nb, es := MonthStep(debts, budget, bals, month, ledger);
      TotalInterestAppend(ledger, es);
      RunInterest(debts, budget, nb, month + 1, ledger + es);
    }
  }

  // ---------------------------------------------------------------------
  // The summary (app.py:98-99)
  // ---------------------------------------------------------------------

  datatype Summary = Summary(totalInterest: real, monthsNeeded: nat)

  /** An empty ledger has no Interest column, so the source's summary fails on it. */
  datatype SummaryError = MissingInterestColumn

  /** Total interest is the sum of the rows' interest; the month count is the number of distinct labels. */
  function Summarize(ledger: seq<Entry>): Result<Summary, SummaryError> {
    if ledger == [] then Failure(MissingInterestColumn)
    else Success(Summary(TotalInterest(ledger), |MonthsOf(ledger)|))
  }

  /**
   * The summary of a schedule: when some debt starts with a positive balance,
   * the reported month count is exactly the number of simulated months (at
   * least one) and the interest is the ledger's total; otherwise nothing is
   * simulated and the summary fails.
   */
  lemma ScheduleSummary(debts: seq<Debt>, budget: real)
    ensures var o := Schedule(debts, budget);
      (AnyPositive(StartingBalances(debts)) ==>
         1 <= o.months && Summarize(o.ledger) == Success(Summary(TotalInterest(o.ledger), o.months)))
      && (!AnyPositive(StartingBalances(debts)) ==>
         o.months == 0 && o.ledger == [] && Summarize(o.ledger) == Failure(MissingInterestColumn))
  {
    var start := StartingBalances(debts);
    var o := Schedule(debts, budget);
    RunMonthCount(debts, budget, start, 0, []);
    RunLedgerGrows(debts, budget, start, 0, []);
    RunMonths(debts, budget, start, 0, []);
    MonthRangeMembers(0, o.months);
    assert MonthsOf([]) == {};
  }

  /**
   * Over the whole schedule: at most 240 months, stopping early only with
   * every balance paid off; every balance ends between zero and its starting
   * balance; every month's payments fit the budget; and interest is never
   * negative.
   */
  lemma ScheduleGuarantees(debts: seq<Debt>, budget: real)
    requires budget >= 0.0 && MinimumsNonNegative(debts) && RatesNonNegative(debts)
    requires forall i :: 0 <= i < |debts| ==> debts[i].startingBalance >= 0.0
    ensures var o := Schedule(debts, budget);
      o.months <= MaxMonths && (o.months == MaxMonths || !AnyPositive(o.balances))
      && (forall i :: 0 <= i < |debts| ==> 0.0 <= o.balances[i] <= debts[i].startingBalance)
      && (forall m :: TotalPayment(MonthRows(o.ledger, m)) <= budget)
      && TotalInterest(o.ledger) >= 0.0
  {
    var start := StartingBalances(debts);
    RunMonthCount(debts, budget, start, 0, []);
    RunGuard(debts, budget, start, 0, []);
    forall i | 0 <= i < |debts| {
      RunBalance(debts, budget, start, 0, [], i);
    }
    forall m ensures TotalPayment(MonthRows([], m)) <= budget {
      assert MonthRows([], m) == [];
    }
    RunWithinBudget(debts, budget, start, 0, []);
    RunInterest(debts, budget, start, 0, []);
  }

  /**
   * A zero budget pays nothing, so a table with an unpaid debt runs into the
   * 240-month guard with every balance where it started.
   */
  lemma {:induction false} RunZeroBudget(debts: seq<Debt>, bals: seq<real>, month: nat, ledger: seq<Entry>)
    requires |bals| == |debts| && month <= MaxMonths
    requires MinimumsNonNegative(debts) && RatesNonNegative(debts) && AnyPositive(bals)
    ensures Run(debts, 0.0, bals, month, ledger).months == MaxMonths
    ensures Run(debts, 0.0, bals, month, ledger).balances == bals
    decreases MaxMonths - month
  {
    if month < MaxMonths {
      var nb, es := MonthStep(debts, 0.0, bals, month, ledger);
      RunZeroBudget(debts, nb, month + 1, ledger + es);
    }
  }

  /** The whole schedule with a zero budget: 240 months and nothing paid down. */
  lemma ScheduleZeroBudget(debts: seq<Debt>)
    requires MinimumsNonNegative(debts) && RatesNonNegative(debts)
    requires exists i :: 0 <= i < |debts| && debts[i].startingBalance > 0.0
    ensures Schedule(debts, 0.0).months == MaxMonths
    ensures Schedule(debts, 0.0).balances == StartingBalances(debts)
  {
    var start := StartingBalances(debts);
    var i :| 0 <= i < |debts| && debts[i].startingBalance > 0.0;
    assert start[i] > 0.0;
    RunZeroBudget(debts, start, 0, []);
  }
}
