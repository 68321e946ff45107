/**
 * The period row against the tables it summarises: after a full recompute of a month, every KPI bonus
 * and every deduction of the month is counted exactly once.
 */
module PeriodAudit {
  import opened Options
  import opened Calendar
  import opened Ledger
  import opened Confluence
  import Settlement

  /** Sum of an employee's live KPI rows, or of the other ones, dated in the month up to a day of it. */
  function BonusesUpTo(table: Table<Bonus>, period: PeriodKey, day: int, kpi: bool): int {
    var n := |table|;
    if n == 0 then 0
    else
      var slot := table[n - 1];
      BonusesUpTo(table[..n - 1], period, day, kpi)
      + if slot.Some? && (if kpi then slot.value.kind == Kpi else slot.value.kind != Kpi)
           && PeriodOf(Key(slot.value.employee, slot.value.date)) == period && slot.value.date.day <= day
        then slot.value.amount else 0
  }

  function KpiRowsOfMonth(table: Table<Bonus>, period: PeriodKey): int {
    BonusesUpTo(table, period, 31, true)
  }

  function OtherBonusesOfMonth(table: Table<Bonus>, period: PeriodKey): int {
    BonusesUpTo(table, period, 31, false)
  }

  lemma {:induction false} OneMoreDay(table: Table<Bonus>, period: PeriodKey, day: int, kpi: bool)
    requires 1 <= period.month <= 12 && 1 <= day <= DaysInMonth(period.year, period.month)
    ensures BonusesUpTo(table, period, day, kpi)
            == BonusesUpTo(table, period, day - 1, kpi)
               + BonusTotal(table, Key(period.employee, Date(period.year, period.month, day)), kpi)
  {
    if |table| > 0 {
      OneMoreDay(table[..|table| - 1], period, day, kpi);
    }
  }

  lemma {:induction false} WholeMonth(table: Table<Bonus>, period: PeriodKey, kpi: bool)
    requires 1 <= period.month <= 12
    ensures BonusesUpTo(table, period, 0, kpi) == 0
    ensures BonusesUpTo(table, period, DaysInMonth(period.year, period.month), kpi) == BonusesUpTo(table, period, 31, kpi)
  {
    if |table| > 0 {
      WholeMonth(table[..|table| - 1], period, kpi);
    }
  }

  lemma {:induction false} SumOfDaysIsSumOfRows(accruals: map<Key, Accrual>, table: Table<Bonus>, period: PeriodKey, days: nat)
    requires 1 <= period.month <= 12 && days <= DaysInMonth(period.year, period.month)
    requires forall d :: 1 <= d <= days ==>
               var key := Key(period.employee, Date(period.year, period.month, d));
               key in accruals && accruals[key].kpi == BonusTotal(table, key, true)
               && accruals[key].bonuses == BonusTotal(table, key, false)
    ensures SumDays(accruals, period, days).kpi == BonusesUpTo(table, period, days, true)
    ensures SumDays(accruals, period, days).bonuses == BonusesUpTo(table, period, days, false)
  {
    if days == 0 {
      WholeMonth(table, period, true);
      WholeMonth(table, period, false);
    } else {
      SumOfDaysIsSumOfRows(accruals, table, period, days - 1);
      OneMoreDay(table, period, days, true);
      OneMoreDay(table, period, days, false);
    }
  }

  /** The month's calls name every day of it and nothing else. */
  lemma {:induction false} MonthCallsOnly(period: PeriodKey, days: nat, key: Key)
    requires 1 <= period.month <= 12 && days <= DaysInMonth(period.year, period.month)
    ensures key in MonthCalls(period, days) <==> PeriodOf(key) == period && key.date.day <= days
  {
    if days > 0 {
      MonthCallsOnly(period, days - 1, key);
    }
  }

  lemma PeriodCallsExactly(period: PeriodKey, key: Key)
    requires 1 <= period.month <= 12
    ensures key in PeriodCalls(period) <==> PeriodOf(key) == period
  {
    MonthCallsOnly(period, DaysInMonth(period.year, period.month), key);
  }

  lemma {:induction false} CompanyCallsExactly(employees: seq<Id>, year: int, month: int, key: Key)
    requires 1 <= month <= 12
    ensures key in CompanyCalls(employees, year, month)
            <==> key.employee in employees && key.date.year == year && key.date.month == month
  {
    var n := |employees|;
    if n > 0 {
      CompanyCallsExactly(employees[..n - 1], year, month, key);
      PeriodCallsExactly(PeriodKey(employees[n - 1], year, month), key);
      assert employees == employees[..n - 1] + [employees[n - 1]];
    }
  }

  lemma {:induction false} MonthCallsContain(period: PeriodKey, days: nat, d: int)
    requires 1 <= period.month <= 12 && days <= DaysInMonth(period.year, period.month) && 1 <= d <= days
    ensures Key(period.employee, Date(period.year, period.month, d)) in MonthCalls(period, days)
  {
    if d < days {
      MonthCallsContain(period, days - 1, d);
    }
  }

  /** After `recompute_period` the period's KPI amount and its other bonuses are the sums of the month's rows, each once. */
  lemma PeriodCountsEachKpiRowOnce(inputs: Inputs, ledger: Books, period: PeriodKey)
    requires 1 <= period.month <= 12 && period.employee in inputs.employees
    ensures var after := Ledger.Run(inputs, ledger, PeriodCalls(period));
            period in after.periods && after.periods[period].kpi == KpiRowsOfMonth(inputs.bonuses, period)
            && after.periods[period].bonuses == OtherBonusesOfMonth(inputs.bonuses, period)
  {
    hide Ledger.Run, AccrualOf, SettledTotal, BonusTotal, BonusesUpTo, MonthCalls, PeriodCalled;
    var calls := PeriodCalls(period);
    var after := Ledger.Run(inputs, ledger, calls);
    var n := DaysInMonth(period.year, period.month);
    forall d | 1 <= d <= n
      ensures var key := Key(period.employee, Date(period.year, period.month, d));
              key in after.accruals && after.accruals[key].kpi == BonusTotal(inputs.bonuses, key, true)
              && after.accruals[key].bonuses == BonusTotal(inputs.bonuses, key, false)
    {
      var key := Key(period.employee, Date(period.year, period.month, d));
      MonthCallsContain(period, n, d);
      RunAccruals(inputs, ledger, calls, key);
      KpiOfAccrual(inputs, key, SettledTotal(inputs, ledger.deductions, key));
    }
    SumOfDaysIsSumOfRows(after.accruals, inputs.bonuses, period, n);
    WholeMonth(inputs.bonuses, period, true);
    WholeMonth(inputs.bonuses, period, false);
    RunPeriods(inputs, ledger, calls, period);
    MonthCallsContain(period, n, 1);
    PeriodIsCalled(inputs, calls, Key(period.employee, Date(period.year, period.month, 1)));
  }

  lemma KpiOfAccrual(inputs: Inputs, key: Key, deductions: int)
    requires key.employee in inputs.employees
    ensures AccrualOf(inputs, key, deductions).kpi == BonusTotal(inputs.bonuses, key, true)
    ensures AccrualOf(inputs, key, deductions).bonuses == BonusTotal(inputs.bonuses, key, false)
  {
  }

  lemma PeriodIsCalled(inputs: Inputs, calls: seq<Key>, key: Key)
    requires Called(inputs, calls, key)
    ensures PeriodCalled(inputs, calls, PeriodOf(key))
  {
  }

  lemma {:induction false} DroppingARow(table: Table<Bonus>, i: nat, period: PeriodKey)
    requires i < |table| && table[i].Some? && table[i].value.kind == Kpi
    ensures KpiRowsOfMonth(table[i := None], period)
            == KpiRowsOfMonth(table, period)
               - if PeriodOf(Key(table[i].value.employee, table[i].value.date)) == period then table[i].value.amount else 0
  {
    var n := |table|;
    if i == n - 1 {
      assert table[i := None][..n - 1] == table[..n - 1];
    } else {
      assert table[i := None][..n - 1] == table[..n - 1][i := None];
      DroppingARow(table[..n - 1], i, period);
    }
  }

  /**
   * A settled bonus is in its own month's sum exactly once and in no other: without its row the sum
   * would be lower by its amount, and every other period's would be the same.
   */
  lemma SettledBonusCountedOnce(s: Settlement.State, id: Id, other: PeriodKey)
    requires Settlement.Matched(s) && id in s.assignments && Settlement.Live(s.bonuses, s.assignments[id].bonus) && 1 <= s.assignments[id].month <= 12
    ensures var a := s.assignments[id];
            var mine := PeriodKey(a.employee, a.year, a.month);
            KpiRowsOfMonth(s.bonuses, other)
            == KpiRowsOfMonth(s.bonuses[a.bonus.value := None], other)
               + (if other == mine then s.bonuses[a.bonus.value].value.amount else 0)
  {
    var a := s.assignments[id];
    Settlement.HeldLinksAreLive(s, id);
    Settlement.LastDayIsInPeriod(a.year, a.month);
    DroppingARow(s.bonuses, a.bonus.value, other);
  }

  // ---- Deductions -----------------------------------------------------------------------------

  /** Sum of an employee's live deduction rows dated in the month, up to a day of it. */
  function DeductionsUpTo(table: Table<Deduction>, period: PeriodKey, day: int): int {
    var n := |table|;
    if n == 0 then 0
    else
      var slot := table[n - 1];
      DeductionsUpTo(table[..n - 1], period, day)
      + if slot.Some? && PeriodOf(KeyOf(slot.value)) == period && slot.value.date.day <= day then slot.value.amount else 0
  }

  function DeductionRowsOfMonth(table: Table<Deduction>, period: PeriodKey): int {
    DeductionsUpTo(table, period, 31)
  }

  lemma {:induction false} OneMoreDeductionDay(table: Table<Deduction>, period: PeriodKey, day: int)
    requires 1 <= period.month <= 12 && 1 <= day <= DaysInMonth(period.year, period.month)
    ensures DeductionsUpTo(table, period, day)
            == DeductionsUpTo(table, period, day - 1)
               + DeductionTotal(table, Key(period.employee, Date(period.year, period.month, day)))
  {
    if |table| > 0 {
      OneMoreDeductionDay(table[..|table| - 1], period, day);
    }
  }

  lemma {:induction false} WholeDeductionMonth(table: Table<Deduction>, period: PeriodKey)
    requires 1 <= period.month <= 12
    ensures DeductionsUpTo(table, period, 0) == 0
    ensures DeductionsUpTo(table, period, DaysInMonth(period.year, period.month)) == DeductionRowsOfMonth(table, period)
  {
    if |table| > 0 {
      WholeDeductionMonth(table[..|table| - 1], period);
    }
  }

  lemma {:induction false} SumOfDaysIsSumOfDeductions(accruals: map<Key, Accrual>, table: Table<Deduction>, period: PeriodKey, days: nat)
    requires 1 <= period.month <= 12 && days <= DaysInMonth(period.year, period.month)
    requires forall d :: 1 <= d <= days ==>
               var key := Key(period.employee, Date(period.year, period.month, d));
               key in accruals && accruals[key].deductions == DeductionTotal(table, key)
    ensures SumDays(accruals, period, days).deductions == DeductionsUpTo(table, period, days)
  {
    if days == 0 {
      WholeDeductionMonth(table, period);
    } else {
      SumOfDaysIsSumOfDeductions(accruals, table, period, days - 1);
      OneMoreDeductionDay(table, period, days);
    }
  }

  /**
   * After `recompute_period` the period's deductions are the sum of the month's rows in the table the
   * recompute itself left behind, automatic rows and settled penalties included, each once.
   */
  lemma PeriodCountsEachDeductionOnce(inputs: Inputs, ledger: Books, period: PeriodKey)
    requires 1 <= period.month <= 12 && period.employee in inputs.employees
    ensures var after := Ledger.Run(inputs, ledger, PeriodCalls(period));
            period in after.periods && after.periods[period].deductions == DeductionRowsOfMonth(after.deductions, period)
  {
    hide Ledger.Run, AccrualOf, SettledTotal, DeductionTotal, DeductionsUpTo, MonthCalls, PeriodCalled;
    var calls := PeriodCalls(period);
    var after := Ledger.Run(inputs, ledger, calls);
    var n := DaysInMonth(period.year, period.month);
    forall d | 1 <= d <= n
      ensures var key := Key(period.employee, Date(period.year, period.month, d));
              key in after.accruals && after.accruals[key].deductions == DeductionTotal(after.deductions, key)
    {
      var key := Key(period.employee, Date(period.year, period.month, d));
      MonthCallsContain(period, n, d);
      RunAccruals(inputs, ledger, calls, key);
      RunDeductionTotal(inputs, ledger, calls, key);
      DeductionsOfAccrual(inputs, key, SettledTotal(inputs, ledger.deductions, key));
    }
    SumOfDaysIsSumOfDeductions(after.accruals, after.deductions, period, n);
    WholeDeductionMonth(after.deductions, period);
    RunPeriods(inputs, ledger, calls, period);
    MonthCallsContain(period, n, 1);
    PeriodIsCalled(inputs, calls, Key(period.employee, Date(period.year, period.month, 1)));
  }

  lemma DeductionsOfAccrual(inputs: Inputs, key: Key, deductions: int)
    requires key.employee in inputs.employees
    ensures AccrualOf(inputs, key, deductions).deductions == deductions
  {
  }

  lemma {:induction false} DroppingADeduction(table: Table<Deduction>, i: nat, period: PeriodKey)
    requires i < |table| && table[i].Some?
    ensures DeductionRowsOfMonth(table[i := None], period)
            == DeductionRowsOfMonth(table, period) - if PeriodOf(KeyOf(table[i].value)) == period then table[i].value.amount else 0
  {
    var n := |table|;
    if i == n - 1 {
      assert table[i := None][..n - 1] == table[..n - 1];
    } else {
      assert table[i := None][..n - 1] == table[..n - 1][i := None];
      DroppingADeduction(table[..n - 1], i, period);
    }
  }

  /** A settled penalty is in its own month's sum exactly once and in no other. */
  lemma SettledPenaltyCountedOnce(s: Settlement.State, id: Id, other: PeriodKey)
    requires Settlement.Matched(s) && id in s.assignments && s.assignments[id].deduction.Some? && 1 <= s.assignments[id].month <= 12
    ensures var a, table := s.assignments[id], s.ledger.deductions;
            var mine := PeriodKey(a.employee, a.year, a.month);
            Settlement.Live(table, a.deduction)
            && DeductionRowsOfMonth(table, other)
               == DeductionRowsOfMonth(table[a.deduction.value := None], other)
                  + (if other == mine then table[a.deduction.value].value.amount else 0)
  {
    var a := s.assignments[id];
    Settlement.HeldLinksAreLive(s, id);
    Settlement.LastDayIsInPeriod(a.year, a.month);
    DroppingADeduction(s.ledger.deductions, a.deduction.value, other);
  }

  // ---- From approval to the period ------------------------------------------------------------

  /** Payroll recomputes as steps of the settlement machine. */
  function Recomputes(inputs: Inputs, calls: seq<Key>): (events: seq<Settlement.Event>)
    ensures |events| == |calls|
  {
    seq(|calls|, i requires 0 <= i < |calls| => Settlement.Payroll(inputs, calls[i]))
  }

  /** They change the ledger only, and that as the payroll's own run does, on the bonuses that stand. */
  lemma {:induction false} RecomputesAreARun(s: Settlement.State, inputs: Inputs, calls: seq<Key>)
    ensures Settlement.Run(s, Recomputes(inputs, calls))
            == s.(ledger := Ledger.Run(inputs.(bonuses := s.bonuses), s.ledger, calls))
  {
    hide Recomputed;
    var n := |calls|;
    if n > 0 {
      RecomputesAreARun(s, inputs, calls[..n - 1]);
      assert Recomputes(inputs, calls)[..n - 1] == Recomputes(inputs, calls[..n - 1]);
    }
  }

  lemma {:induction false} SettlementRunConcat(s: Settlement.State, first: seq<Settlement.Event>, second: seq<Settlement.Event>)
    ensures Settlement.Run(s, first + second) == Settlement.Run(Settlement.Run(s, first), second)
  {
    hide Settlement.Step;
    var n := |second|;
    if n == 0 {
      assert first + second == first;
    } else {
      SettlementRunConcat(s, first, second[..n - 1]);
      assert (first + second)[..|first + second| - 1] == first + second[..n - 1];
    }
  }

  /** The period row says what the tables say: all live KPI bonuses and all live deductions of its month. */
  ghost predicate PeriodShowsTables(s: Settlement.State, period: PeriodKey) {
    && period in s.ledger.periods
    && s.ledger.periods[period].kpi == KpiRowsOfMonth(s.bonuses, period)
    && s.ledger.periods[period].deductions == DeductionRowsOfMonth(s.ledger.deductions, period)
  }

  function MonthOf(a: Settlement.Assignment): PeriodKey { PeriodKey(a.employee, a.year, a.month) }

  /** The bonus row is there, and without it the period's KPI amount would be lower by its amount. */
  ghost predicate BonusCountedOnce(s: Settlement.State, row: nat, period: PeriodKey) {
    && Settlement.Live(s.bonuses, Some(row)) && period in s.ledger.periods
    && s.ledger.periods[period].kpi == KpiRowsOfMonth(s.bonuses[row := None], period) + s.bonuses[row].value.amount
  }

  ghost predicate PenaltyCountedOnce(s: Settlement.State, row: nat, period: PeriodKey) {
    && Settlement.Live(s.ledger.deductions, Some(row)) && period in s.ledger.periods
    && s.ledger.periods[period].deductions
       == DeductionRowsOfMonth(s.ledger.deductions[row := None], period) + s.ledger.deductions[row].value.amount
  }

  /**
   * After any run of the settlement followed by a recompute of the month, the period shows the tables,
   * and each row linked by an assignment of the month is counted in it exactly once.
   */
  lemma SettledMonthIsInThePeriod(s: Settlement.State, events: seq<Settlement.Event>, inputs: Inputs, period: PeriodKey, id: Id)
    requires Settlement.Matched(s) && 1 <= period.month <= 12 && period.employee in inputs.employees
    ensures var before := Settlement.Run(s, events);
            var t := Settlement.Run(s, events + Recomputes(inputs, PeriodCalls(period)));
            && t.assignments == before.assignments && t.bonuses == before.bonuses && Settlement.Matched(t)
            && PeriodShowsTables(t, period)
    ensures var t := Settlement.Run(s, events + Recomputes(inputs, PeriodCalls(period)));
            id in t.assignments && MonthOf(t.assignments[id]) == period ==>
              (t.assignments[id].bonus.Some? ==> BonusCountedOnce(t, t.assignments[id].bonus.value, period))
              && (t.assignments[id].deduction.Some? ==> PenaltyCountedOnce(t, t.assignments[id].deduction.value, period))
  {
    hide Ledger.Run, Settlement.Run, Settlement.Matched, KpiRowsOfMonth, DeductionRowsOfMonth, PeriodCalls, Recomputes;
    var recomputes := Recomputes(inputs, PeriodCalls(period));
    var before, t := Settlement.Run(s, events), Settlement.Run(s, events + recomputes);
    var live := inputs.(bonuses := before.bonuses);
    SettlementRunConcat(s, events, recomputes);
    RecomputesAreARun(before, inputs, PeriodCalls(period));
    Settlement.SettlementConserved(s, events + recomputes);
    PeriodCountsEachKpiRowOnce(live, before.ledger, period);
    PeriodCountsEachDeductionOnce(live, before.ledger, period);
    if id in t.assignments && MonthOf(t.assignments[id]) == period {
      Settlement.HeldLinksAreLive(t, id);
      if t.assignments[id].bonus.Some? {
        SettledBonusCountedOnce(t, id, period);
      }
      if t.assignments[id].deduction.Some? {
        SettledPenaltyCountedOnce(t, id, period);
      }
    }
  }
}
