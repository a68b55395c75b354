/**
 * Worked schedules. A single loan of 1200 at 12% APR with a minimum of 100
 * and a monthly budget of 1200: the first month charges 12 interest and pays
 * 1200, leaving 12; the second charges 0.12 and pays 12.12, clearing the
 * loan. The summary reports 12.12 interest over 2 months.
 */
module Scenarios {
  import opened Wrappers
  import opened DebtTable
  import opened Monthly
  import opened Simulator

  /** The allotment of a one-debt table: its minimum due out of the budget, then the cascade's extra. */
  lemma OneDebtAllocation(d: Debt, bal: real, budget: real)
    requires bal > 0.0
    ensures Allocation([d], [bal], budget)
      == [Min(Min(d.minimumPayment, bal), budget)
          + (if budget - Min(Min(d.minimumPayment, bal), budget) > 0.0
             then Min(bal, budget - Min(Min(d.minimumPayment, bal), budget)) else 0.0)]
  {
    var bals: seq<real> := [bal];
    var dues := Dues([d], bals);
    assert dues == [Min(d.minimumPayment, bal)];
    assert dues[..0] == [] && bals[..0] == [];
    var pay := Min(dues[0], budget);
    assert MinimumPass(dues, bals, budget) == ([] + [pay], budget - pay);
    assert [] + [pay] == [pay];
    var rem := budget - pay;
    var extra := if rem > 0.0 then Min(bal, rem) else 0.0;
    assert Extras(bals, rem).0 == [] + [extra];
    assert [] + [extra] == [extra];
  }

  /** The rows of a one-debt month with a positive balance: a single settlement row. */
  lemma OneDebtEntries(month: nat, d: Debt, bal: real, allotted: real)
    requires bal > 0.0
    ensures MonthEntries(month, [d], [bal], [allotted]) == [EntryFor(month, d, bal, allotted)]
    ensures NewBalances([d], [bal], [allotted]) == [Settle(bal, d.ratePercent, allotted).newBalance]
  {
    var ds, bs, ps: seq<real> := [d], [bal], [allotted];
    assert ds[..0] == [] && bs[..0] == [] && ps[..0] == [];
    assert MonthEntries(month, ds[..0], bs[..0], ps[..0]) == [];
    assert [] + [EntryFor(month, d, bal, allotted)] == [EntryFor(month, d, bal, allotted)];
  }

  /** One month of a one-debt schedule: a single settlement row and the settled balance. */
  lemma OneDebtStep(d: Debt, budget: real, bal: real, month: nat, ledger: seq<Entry>, settled: real, e: Entry)
    requires bal > 0.0 && month < MaxMonths
    requires settled == Settle(bal, d.ratePercent, Allocation([d], [bal], budget)[0]).newBalance
    requires e == EntryFor(month + 1, d, bal, Allocation([d], [bal], budget)[0])
    ensures Run([d], budget, [bal], month, ledger) == Run([d], budget, [settled], month + 1, ledger + [e])
  {
    var bals: seq<real> := [bal];
    assert AnyPositive(bals) by { assert bals[0] > 0.0; }
    OneDebtAllocation(d, bal, budget);
    OneDebtEntries(month + 1, d, bal, Allocation([d], [bal], budget)[0]);
    RunStep([d], budget, bals, month, ledger);
  }

  /** Month 1 of the single loan: minimum 100, extra 1100; interest 12, principal 1188. */
  lemma LoanMonthOne(d: Debt, budget: real, bal: real, e: Entry)
    requires d == Debt("Loan", 1200.0, 12.0, 100.0) && budget == 1200.0 && bal == 1200.0
    requires e == Entry(1, "Loan", 1200.0, 12.0, 1188.0, 1200.0, 12.0)
    ensures Run([d], budget, [bal], 0, []) == Run([d], budget, [12.0], 1, [e])
  {
    OneDebtAllocation(d, bal, budget);
    var a := Allocation([d], [bal], budget)[0];
    assert a == 1200.0;
    assert Settle(bal, d.ratePercent, a) == Settlement(12.0, 1200.0, 1188.0, 12.0);
    OneDebtStep(d, budget, bal, 0, [], 12.0, e);
    assert [] + [e] == [e];
  }

  /** Month 2 of the single loan: minimum 12, extra 12; interest 0.12, principal 12; then nothing is owed. */
  lemma LoanMonthTwo(d: Debt, budget: real, bal: real, e1: Entry, e2: Entry)
    requires d == Debt("Loan", 1200.0, 12.0, 100.0) && budget == 1200.0 && bal == 12.0
    requires e2 == Entry(2, "Loan", 12.0, 0.12, 12.0, 12.12, 0.0)
    ensures Run([d], budget, [bal], 1, [e1]) == Outcome([e1, e2], [0.0], 2)
  {
    OneDebtAllocation(d, bal, budget);
    var a := Allocation([d], [bal], budget)[0];
    assert a == 24.0;
    assert Settle(bal, d.ratePercent, a) == Settlement(0.12, 12.12, 12.0, 0.0);
    OneDebtStep(d, budget, bal, 1, [e1], 0.0, e2);
    assert [e1] + [e2] == [e1, e2];
    var b2: seq<real> := [0.0];
    assert !AnyPositive(b2);
  }

  /** The two-month schedule of the single loan, row by row, and its summary. */
  lemma SingleLoanSchedule(d: Debt, budget: real)
    requires d == Debt("Loan", 1200.0, 12.0, 100.0) && budget == 1200.0
    ensures Schedule([d], budget)
      == Outcome([Entry(1, "Loan", 1200.0, 12.0, 1188.0, 1200.0, 12.0),
                  Entry(2, "Loan", 12.0, 0.12, 12.0, 12.12, 0.0)], [0.0], 2)
    ensures Summarize(Schedule([d], budget).ledger) == Success(Summary(12.12, 2))
  {
    var e1 := Entry(1, "Loan", 1200.0, 12.0, 1188.0, 1200.0, 12.0);
    var e2 := Entry(2, "Loan", 12.0, 0.12, 12.0, 12.12, 0.0);
    var start := StartingBalances([d]);
    assert start == [1200.0];
    LoanMonthOne(d, budget, 1200.0, e1);
    LoanMonthTwo(d, budget, 12.0, e1, e2);
    assert Schedule([d], budget) == Outcome([e1, e2], [0.0], 2);
    TwoRows(e1, e2);
    var months: set<nat> := {1, 2};
    assert |months| == 2 by {
      assert months == {1} + {2};
    }
    assert Summarize([e1, e2]) == Success(Summary(12.12, |months|));
  }

  /** The interest total and the month labels of a two-row ledger. */
  lemma TwoRows(a: Entry, b: Entry)
    ensures TotalInterest([a, b]) == a.interest + b.interest
    ensures MonthsOf([a, b]) == {a.month, b.month}
  {
    var two := [a, b];
    assert two[..1] == [a] && [a][..0] == [];
    assert TotalInterest([a]) == 0.0 + a.interest;
    assert MonthsOf([a]) == {} + {a.month};
    assert TotalInterest(two) == TotalInterest([a]) + b.interest;
    assert MonthsOf(two) == MonthsOf([a]) + {b.month};
  }
}
