/**
 * Recompute calls arrive late, twice and out of order. With inputs and clock fixed, the tables they
 * leave depend only on the set of employee-days that was called.
 */
module Confluence {
  import opened Options
  import opened Calendar
  import opened Ledger

  // ---- Tables without ids ---------------------------------------------------------------------

  /** The live rows of a table, ids and order dropped. */
  function Rows(table: Table<Deduction>): multiset<Deduction> {
    var n := |table|;
    if n == 0 then multiset{}
    else Rows(table[..n - 1]) + if table[n - 1].Some? then multiset{table[n - 1].value} else multiset{}
  }

  datatype Contents = Contents(
    deductions: multiset<Deduction>, accruals: map<Key, Accrual>, periods: map<PeriodKey, Totals>)

  function Erase(ledger: Books): Contents {
    Contents(Rows(ledger.deductions), ledger.accruals, ledger.periods)
  }

  // ---- What a sweep does to a table, row by row and sum by sum ---------------------------------

  predicate AutoRow(row: Deduction) {
    row.auto && row.kind in {Late, Absence}
  }

  /** Sum of the employee-day's automatic rows of one kind. */
  function KindTotal(table: Table<Deduction>, key: Key, kind: DeductionKind): int {
    var n := |table|;
    if n == 0 then 0
    else KindTotal(table[..n - 1], key, kind)
         + if IsAuto(table[n - 1], key, kind) then table[n - 1].value.amount else 0
  }

  function KindCount(table: Table<Deduction>, key: Key, kind: DeductionKind): nat {
    var n := |table|;
    if n == 0 then 0
    else KindCount(table[..n - 1], key, kind) + if IsAuto(table[n - 1], key, kind) then 1 else 0
  }

  lemma {:induction false} WipeTotal(table: Table<Deduction>, key: Key, kind: DeductionKind, other: Key, otherKind: DeductionKind)
    ensures KindTotal(Wipe(table, key, kind), other, otherKind)
            == if other == key && otherKind == kind then 0 else KindTotal(table, other, otherKind)
  {
    var n := |table|;
    if n > 0 {
      WipeTotal(table[..n - 1], key, kind, other, otherKind);
      assert Wipe(table, key, kind)[..n - 1] == Wipe(table[..n - 1], key, kind);
    }
  }

  lemma {:induction false} WipeCount(table: Table<Deduction>, key: Key, kind: DeductionKind, other: Key, otherKind: DeductionKind)
    ensures KindCount(Wipe(table, key, kind), other, otherKind)
            == if other == key && otherKind == kind then 0 else KindCount(table, other, otherKind)
  {
    var n := |table|;
    if n > 0 {
      WipeCount(table[..n - 1], key, kind, other, otherKind);
      assert Wipe(table, key, kind)[..n - 1] == Wipe(table[..n - 1], key, kind);
    }
  }

  lemma {:induction false} WipeDayTotal(table: Table<Deduction>, key: Key, kind: DeductionKind, other: Key)
    ensures DeductionTotal(Wipe(table, key, kind), other)
            == DeductionTotal(table, other) - if other == key then KindTotal(table, key, kind) else 0
  {
    var n := |table|;
    if n > 0 {
      WipeDayTotal(table[..n - 1], key, kind, other);
      assert Wipe(table, key, kind)[..n - 1] == Wipe(table[..n - 1], key, kind);
    }
  }

  lemma RowsOfLast(table: Table<Deduction>, row: Deduction)
    requires |table| > 0
    ensures Rows(table)[row] == Rows(table[..|table| - 1])[row] + if table[|table| - 1] == Some(row) then 1 else 0
  {
  }

  lemma {:induction false} WipeRows(table: Table<Deduction>, key: Key, kind: DeductionKind, row: Deduction)
    ensures Rows(Wipe(table, key, kind))[row] == if IsAuto(Some(row), key, kind) then 0 else Rows(table)[row]
  {
    var n := |table|;
    if n > 0 {
      var t := Wipe(table, key, kind);
      assert t[..n - 1] == Wipe(table[..n - 1], key, kind);
      assert t[n - 1] == if IsAuto(table[n - 1], key, kind) then None else table[n - 1];
      assert table[n - 1] == None ==> !IsAuto(table[n - 1], key, kind);
      hide Rows, IsAuto, Wipe;
      WipeRows(table[..n - 1], key, kind, row);
      RowsOfLast(table, row);
      RowsOfLast(t, row);
    }
  }

  lemma AppendEffect(table: Table<Deduction>, row: Deduction, key: Key, kind: DeductionKind)
    ensures var t := table + [Some(row)];
            var here := row.employee == key.employee && row.date == key.date;
            && KindTotal(t, key, kind) == KindTotal(table, key, kind) + (if IsAuto(Some(row), key, kind) then row.amount else 0)
            && KindCount(t, key, kind) == KindCount(table, key, kind) + (if IsAuto(Some(row), key, kind) then 1 else 0)
            && DeductionTotal(t, key) == DeductionTotal(table, key) + (if here then row.amount else 0)
            && Rows(t) == Rows(table) + multiset{row}
  {
  }

  function ValueOr0(amount: Option<int>): int {
    if amount.Some? then amount.value else 0
  }

  /** One wipe-then-insert sweep of one kind. */
  function SweepKind(table: Table<Deduction>, key: Key, kind: DeductionKind, amount: Option<int>): Table<Deduction> {
    AddAuto(Wipe(table, key, kind), key, kind, amount)
  }

  lemma SweepKindEffect(table: Table<Deduction>, key: Key, kind: DeductionKind, amount: Option<int>, other: Key, otherKind: DeductionKind)
    ensures var t := SweepKind(table, key, kind, amount);
            var mine := other == key && otherKind == kind;
            && KindTotal(t, other, otherKind) == (if mine then ValueOr0(amount) else KindTotal(table, other, otherKind))
            && KindCount(t, other, otherKind)
               == (if mine then (if amount.Some? then 1 else 0) else KindCount(table, other, otherKind))
            && DeductionTotal(t, other) == DeductionTotal(table, other)
               + (if other == key then ValueOr0(amount) - KindTotal(table, key, kind) else 0)
  {
    WipeTotal(table, key, kind, other, otherKind);
    WipeCount(table, key, kind, other, otherKind);
    WipeDayTotal(table, key, kind, other);
    if amount.Some? {
      AppendEffect(Wipe(table, key, kind), Deduction(key.employee, key.date, kind, amount.value, true), other, otherKind);
    }
  }

  lemma SweepKindRows(table: Table<Deduction>, key: Key, kind: DeductionKind, amount: Option<int>, row: Deduction)
    ensures Rows(SweepKind(table, key, kind, amount))[row]
            == if IsAuto(Some(row), key, kind) then Rows(AddAuto([], key, kind, amount))[row] else Rows(table)[row]
  {
    WipeRows(table, key, kind, row);
    if amount.Some? {
      var added := Deduction(key.employee, key.date, kind, amount.value, true);
      AppendEffect(Wipe(table, key, kind), added, key, kind);
      AppendEffect([], added, key, kind);
    }
  }

  // ---- One call -------------------------------------------------------------------------------

  /** The employee-day's deductions once it has been recomputed, from the table before any call. */
  function SettledTotal(inputs: Inputs, table: Table<Deduction>, key: Key): int
    requires key.employee in inputs.employees
  {
    if Swept(inputs, key)
    then DeductionTotal(table, key) - KindTotal(table, key, Late) - KindTotal(table, key, Absence)
         + ValueOr0(LateAmount(inputs, key)) + ValueOr0(AbsenceAmount(inputs, key))
    else DeductionTotal(table, key)
  }

  /** The automatic rows a swept employee-day ends up with. */
  function SweptRows(inputs: Inputs, key: Key): multiset<Deduction>
    requires key.employee in inputs.employees
  {
    Rows(AddAuto([], key, Late, LateAmount(inputs, key)))
    + Rows(AddAuto([], key, Absence, AbsenceAmount(inputs, key)))
  }

  function KeyOf(row: Deduction): Key {
    Key(row.employee, row.date)
  }

  lemma SweepTotals(inputs: Inputs, table: Table<Deduction>, key: Key, other: Key)
    requires key.employee in inputs.employees
    ensures var t := Sweep(inputs, table, key);
            && DeductionTotal(t, other) == (if other == key then SettledTotal(inputs, table, key) else DeductionTotal(table, other))
            && (other.employee in inputs.employees ==> SettledTotal(inputs, t, other) == SettledTotal(inputs, table, other))
  {
    hide LateAmount, AbsenceAmount, Swept;
    if Swept(inputs, key) {
      var late, absence := LateAmount(inputs, key), AbsenceAmount(inputs, key);
      var t1 := SweepKind(table, key, Late, late);
      SweepKindEffect(table, key, Late, late, other, Late);
      SweepKindEffect(table, key, Late, late, other, Absence);
      SweepKindEffect(t1, key, Absence, absence, other, Late);
      SweepKindEffect(t1, key, Absence, absence, other, Absence);
    }
  }

  lemma SweepRowCount(inputs: Inputs, table: Table<Deduction>, key: Key, row: Deduction)
    requires key.employee in inputs.employees
    ensures Rows(Sweep(inputs, table, key))[row]
            == if AutoRow(row) && KeyOf(row) == key && Swept(inputs, key)
               then SweptRows(inputs, key)[row] else Rows(table)[row]
  {
    hide LateAmount, AbsenceAmount, Swept;
    if Swept(inputs, key) {
      var late, absence := LateAmount(inputs, key), AbsenceAmount(inputs, key);
      SweepKindRows(table, key, Late, late, row);
      SweepKindRows(SweepKind(table, key, Late, late), key, Absence, absence, row);
      OwnRowsOnly(key, Late, late, row);
      OwnRowsOnly(key, Absence, absence, row);
    }
  }

  lemma OwnRowsOnly(key: Key, kind: DeductionKind, amount: Option<int>, row: Deduction)
    ensures !IsAuto(Some(row), key, kind) ==> Rows(AddAuto([], key, kind, amount))[row] == 0
  {
    if amount.Some? {
      AppendEffect([], Deduction(key.employee, key.date, kind, amount.value, true), key, kind);
    }
  }

  // ---- Any sequence of calls ------------------------------------------------------------------

  predicate Called(inputs: Inputs, calls: seq<Key>, key: Key) {
    key in calls && key.employee in inputs.employees
  }

  ghost predicate PeriodCalled(inputs: Inputs, calls: seq<Key>, period: PeriodKey) {
    exists key :: Called(inputs, calls, key) && PeriodOf(key) == period
  }

  lemma LastCall(calls: seq<Key>)
    requires |calls| > 0
    ensures forall key :: key in calls <==> key in calls[..|calls| - 1] || key == calls[|calls| - 1]
  {
  }

  lemma {:induction false} RunDeductionTotal(inputs: Inputs, ledger: Books, calls: seq<Key>, key: Key)
    ensures var t := Run(inputs, ledger, calls).deductions;
            && DeductionTotal(t, key) == (if Called(inputs, calls, key) then SettledTotal(inputs, ledger.deductions, key)
                                          else DeductionTotal(ledger.deductions, key))
            && (key.employee in inputs.employees ==> SettledTotal(inputs, t, key) == SettledTotal(inputs, ledger.deductions, key))
  {
    hide SettledTotal, Sweep, DeductionTotal, AccrualOf, MonthTotals;
    var n := |calls|;
    if n > 0 {
      RunDeductionTotal(inputs, ledger, calls[..n - 1], key);
      LastCall(calls);
      if calls[n - 1].employee in inputs.employees {
        SweepTotals(inputs, Run(inputs, ledger, calls[..n - 1]).deductions, calls[n - 1], key);
      }
    }
  }

  lemma {:induction false} RunRowCount(inputs: Inputs, ledger: Books, calls: seq<Key>, row: Deduction)
    ensures Rows(Run(inputs, ledger, calls).deductions)[row]
            == if AutoRow(row) && Called(inputs, calls, KeyOf(row)) && Swept(inputs, KeyOf(row))
               then SweptRows(inputs, KeyOf(row))[row] else Rows(ledger.deductions)[row]
  {
    hide SweptRows, Sweep, Swept, Rows, AccrualOf, MonthTotals;
    var n := |calls|;
    if n > 0 {
      RunRowCount(inputs, ledger, calls[..n - 1], row);
      LastCall(calls);
      if calls[n - 1].employee in inputs.employees {
        SweepRowCount(inputs, Run(inputs, ledger, calls[..n - 1]).deductions, calls[n - 1], row);
      }
    }
  }

  /** Each called day holds the accrual of the inputs; the other days keep what they had. */
  lemma {:induction false} RunAccruals(inputs: Inputs, ledger: Books, calls: seq<Key>, key: Key)
    ensures var a := Run(inputs, ledger, calls).accruals;
            && (Called(inputs, calls, key) ==>
                  key in a && a[key] == AccrualOf(inputs, key, SettledTotal(inputs, ledger.deductions, key)))
            && (!Called(inputs, calls, key) ==>
                  (key in a <==> key in ledger.accruals) && (key in a ==> a[key] == ledger.accruals[key]))
  {
    hide SettledTotal, Sweep, DeductionTotal, AccrualOf, MonthTotals;
    var n := |calls|;
    if n > 0 {
      var last := calls[n - 1];
      RunAccruals(inputs, ledger, calls[..n - 1], key);
      LastCall(calls);
      if last.employee in inputs.employees {
        RunDeductionTotal(inputs, ledger, calls[..n - 1], last);
        SweepTotals(inputs, Run(inputs, ledger, calls[..n - 1]).deductions, last, last);
      }
    }
  }

  lemma {:induction false} SumDaysFrame(before: map<Key, Accrual>, after: map<Key, Accrual>, period: PeriodKey, days: nat)
    requires 1 <= period.month <= 12 && days <= DaysInMonth(period.year, period.month)
    requires forall key :: PeriodOf(key) == period ==>
               (key in before <==> key in after) && (key in before ==> before[key] == after[key])
    ensures SumDays(before, period, days) == SumDays(after, period, days)
  {
    if days > 0 {
      SumDaysFrame(before, after, period, days - 1);
      assert PeriodOf(Key(period.employee, Date(period.year, period.month, days))) == period;
    }
  }

  /** A month with a called day holds the sums of the final accruals; other months are untouched. */
  lemma {:induction false} RunPeriods(inputs: Inputs, ledger: Books, calls: seq<Key>, period: PeriodKey)
    ensures var end := Run(inputs, ledger, calls);
            && (PeriodCalled(inputs, calls, period) ==>
                  1 <= period.month <= 12 && period in end.periods && end.periods[period] == MonthTotals(end.accruals, period))
            && (!PeriodCalled(inputs, calls, period) ==>
                  (period in end.periods <==> period in ledger.periods)
                  && (period in end.periods ==> end.periods[period] == ledger.periods[period]))
  {
    hide Sweep, DeductionTotal, AccrualOf;
    var n := |calls|;
    if n > 0 {
      var last, mid := calls[n - 1], Run(inputs, ledger, calls[..n - 1]);
      RunPeriods(inputs, ledger, calls[..n - 1], period);
      LastCall(calls);
      if last.employee !in inputs.employees {
      } else if PeriodOf(last) == period {
        assert Called(inputs, calls, last);
      } else if PeriodCalled(inputs, calls[..n - 1], period) {
        var key :| Called(inputs, calls[..n - 1], key) && PeriodOf(key) == period;
        assert Called(inputs, calls, key);
        SumDaysFrame(mid.accruals, Run(inputs, ledger, calls).accruals, period, DaysInMonth(period.year, period.month));
      }
    }
  }

  // ---- The theorem ----------------------------------------------------------------------------

  /** Repetition and order of the calls leave no trace: only their set matters. */
  lemma RecomputeConfluence(inputs: Inputs, ledger: Books, calls: seq<Key>, calls': seq<Key>)
    requires forall key :: key in calls <==> key in calls'
    ensures Erase(Run(inputs, ledger, calls)) == Erase(Run(inputs, ledger, calls'))
  {
    hide Run, Rows, AccrualOf, SettledTotal, SweptRows, Swept, MonthTotals;
    var a, b := Run(inputs, ledger, calls), Run(inputs, ledger, calls');
    assert a.accruals == b.accruals by {
      forall key ensures (key in a.accruals <==> key in b.accruals) && (key in a.accruals ==> a.accruals[key] == b.accruals[key]) {
        RunAccruals(inputs, ledger, calls, key);
        RunAccruals(inputs, ledger, calls', key);
      }
    }
    assert Rows(a.deductions) == Rows(b.deductions) by {
      forall row ensures Rows(a.deductions)[row] == Rows(b.deductions)[row] {
        RunRowCount(inputs, ledger, calls, row);
        RunRowCount(inputs, ledger, calls', row);
      }
    }
    assert a.periods == b.periods by {
      forall period ensures (period in a.periods <==> period in b.periods)
                            && (period in a.periods ==> a.periods[period] == b.periods[period]) {
        RunPeriods(inputs, ledger, calls, period);
        RunPeriods(inputs, ledger, calls', period);
        assert PeriodCalled(inputs, calls, period) <==> PeriodCalled(inputs, calls', period);
      }
    }
  }

  /** Delivering a whole batch again, in any order, changes nothing. */
  lemma RedeliveryChangesNothing(inputs: Inputs, ledger: Books, calls: seq<Key>, again: seq<Key>)
    requires forall key :: key in again ==> key in calls
    ensures Erase(Run(inputs, ledger, calls + again)) == Erase(Run(inputs, ledger, calls))
  {
    RecomputeConfluence(inputs, ledger, calls + again, calls);
  }
}
