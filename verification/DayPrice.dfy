/**
 * What one recompute leaves behind for its employee-day, said in terms of the log, the schedule, the
 * leaves and the employee's rates: hours, base pay, overtime, fines, and the month's sums.
 */
module DayPrice {
  import opened Options
  import opened Calendar
  import opened Decimals
  import opened WorkedTime
  import opened Ledger
  import opened Confluence
  import LedgerInvariant
  import opened Pricing

  // ---- The rows of the day --------------------------------------------------------------------

  /** The payroll reads exactly the non-rejected rows of the window, each as often as it was logged. */
  lemma {:induction false} SelectExactly(log: seq<Record>, from: int, before: int, r: Record)
    ensures multiset(Select(log, from, before))[r] == if from <= r.timestamp < before && !r.rejected then multiset(log)[r] else 0
  {
    var n := |log|;
    if n > 0 {
      SelectExactly(log[..n - 1], from, before, r);
      assert log == log[..n - 1] + [log[n - 1]];
    }
  }

  // ---- Leave ----------------------------------------------------------------------------------

  /** The leave approved for the employee has begun and not ended. */
  predicate OnApprovedLeave(inputs: Inputs, key: Key, leave: Leave) {
    leave in inputs.leaves && leave.approved && leave.employee == key.employee
    && Ordinal(leave.first) <= Ordinal(key.date) && Ordinal(key.date) <= Ordinal(leave.last)
  }

  lemma {:induction false} FirstCoveringIs(leaves: seq<Leave>, key: Key)
    ensures FirstCovering(leaves, key).Some? ==> FirstCovering(leaves, key).value in leaves && Covers(FirstCovering(leaves, key).value, key)
    ensures FirstCovering(leaves, key).None? ==> forall leave :: leave in leaves ==> !Covers(leave, key)
  {
    if |leaves| > 0 {
      FirstCoveringIs(leaves[1..], key);
      assert leaves == [leaves[0]] + leaves[1..];
    }
  }

  lemma LeaveFound(inputs: Inputs, key: Key)
    ensures ApprovedLeaveOn(inputs, key).Some? ==> OnApprovedLeave(inputs, key, ApprovedLeaveOn(inputs, key).value)
    ensures ApprovedLeaveOn(inputs, key).None? ==> forall leave :: !OnApprovedLeave(inputs, key, leave)
  {
    FirstCoveringIs(inputs.leaves, key);
    if ApprovedLeaveOn(inputs, key).None? {
      forall leave ensures !OnApprovedLeave(inputs, key, leave) {
        assert OnApprovedLeave(inputs, key, leave) ==> Covers(leave, key);
      }
    }
  }

  // ---- The accrual ----------------------------------------------------------------------------

  function DayOf(inputs: Inputs, ledger: Books, key: Key): Accrual
    requires key.employee in inputs.employees
  {
    Recomputed(inputs, ledger, key).accruals[key]
  }

  predicate RestDayOf(inputs: Inputs, key: Key) { key in inputs.schedule && inputs.schedule[key] == RestDay }

  /** Minutes of the day: the log's, an open check-in paid to the clock, the shift's end or midnight. */
  function MinutesOfDay(inputs: Inputs, key: Key): int
    requires key.employee in inputs.employees
  {
    var e := inputs.employees[key.employee];
    MinutesWorked(DayRows(inputs, key), CloseAt(key.date, inputs.now, if e.template.Some? then e.template.value.end else None))
  }

  /**
   * An ordinary day accrues the minutes worked as hours, and the overtime credited at the exits; a rest
   * day with any hours accrues none, and all of them as overtime.
   */
  lemma HoursAccrued(inputs: Inputs, ledger: Books, key: Key)
    requires key.employee in inputs.employees
    ensures var a, minutes, credited := DayOf(inputs, ledger, key), MinutesOfDay(inputs, key), PairedOvertime(DayRows(inputs, key));
            var rest := RestDayOf(inputs, key) && HundredthsOfHour(minutes) > 0;
            && (!rest ==> -60 <= 2 * (60 * a.hours - 100 * minutes) <= 60
                          && -60 <= 2 * (60 * a.overtimeHours - 100 * credited) <= 60)
            && (rest ==> a.hours == 0 && -120 <= 2 * (60 * a.overtimeHours - 100 * (minutes + credited)) <= 120)
  {
    HoursOfMinutes(MinutesOfDay(inputs, key));
    HoursOfMinutes(PairedOvertime(DayRows(inputs, key)));
    hide HundredthsOfHour, DayRows, MinutesWorked, PairedOvertime, CloseAt, Sweep, BaseOf, BonusTotal, DeductionTotal, MonthTotals, Pricing.OvertimeEarned;
  }

  /** Without approved leave the accrued hours are priced by the salary type. */
  lemma BaseAccrued(inputs: Inputs, ledger: Books, key: Key)
    requires key.employee in inputs.employees
    requires forall leave :: !OnApprovedLeave(inputs, key, leave)
    ensures BasePriced(inputs.employees[key.employee].pay, DayOf(inputs, ledger, key))
  {
    var a, pay := DayOf(inputs, ledger, key), inputs.employees[key.employee].pay;
    LeaveFound(inputs, key);
    assert a.base == BaseEarnedForDay(pay, a.hours) by {
      hide HoursOf, Sweep, BonusTotal, DeductionTotal, MonthTotals, Pricing.OvertimeEarned;
    }
    hide DayOf;
    if pay.salaryType == Hourly { HourlyPaysTheRate(pay, a.hours); }
    BaseByType(pay, a.hours);
    if pay.salaryType == Monthly && a.hours >= 0 { MonthlyPayCapped(pay, a.hours); }
    hide BaseEarnedForDay, PerDayBase;
  }

  /** On approved leave: unpaid pays nothing, paid pays the daily base, or the day's share of the admin's total. */
  lemma LeaveAccrued(inputs: Inputs, ledger: Books, key: Key) returns (leave: Leave)
    requires key.employee in inputs.employees && exists l :: OnApprovedLeave(inputs, key, l)
    ensures OnApprovedLeave(inputs, key, leave)
    ensures LeavePriced(inputs.employees[key.employee].pay, leave, DayOf(inputs, ledger, key))
  {
    LeaveFound(inputs, key);
    leave := ApprovedLeaveOn(inputs, key).value;
    var days := if leave.days == 0 then 1 else leave.days;
    if leave.overrideTotal.Some? {
      LeaveSharesWithinHalfCentEach(leave.overrideTotal.value, days);
    }
    hide HoursOf, Sweep, BonusTotal, DeductionTotal, MonthTotals, Pricing.OvertimeEarned, LeaveShare, PerDayBase, ApprovedLeaveOn;
  }

  /** Overtime hours pay the hourly rate times the multiplier, 1.50 where none is set. */
  lemma OvertimeAccrued(inputs: Inputs, ledger: Books, key: Key)
    requires key.employee in inputs.employees
    ensures OvertimePriced(inputs.employees[key.employee].pay, DayOf(inputs, ledger, key))
    ensures var a, pay := DayOf(inputs, ledger, key), inputs.employees[key.employee].pay;
            a.overtimeHours > 0 && pay.salaryType == Hourly && pay.hourlyRate != 0 ==>
              var m := Multiplier(pay);
              -(m + 100) <= 2 * (100 * a.overtime - m * BaseEarnedForDay(pay, a.overtimeHours)) <= m + 100
  {
    var a, pay := DayOf(inputs, ledger, key), inputs.employees[key.employee].pay;
    assert a.overtime == OvertimeEarned(pay, a.overtimeHours) by {
      hide HoursOf, BaseOf, Sweep, BonusTotal, DeductionTotal, MonthTotals, Pricing.OvertimeEarned;
    }
    hide DayOf;
    OvertimeFollowsHours(pay, a.overtimeHours, a.overtimeHours);
    EightHoursAreADay(pay);
    if a.overtimeHours > 0 {
      OvertimePaysTheMultiple(pay, a.overtimeHours);
      if pay.salaryType == Hourly && pay.hourlyRate != 0 { HourlyOvertimeIsBaseTimesMultiplier(pay, a.overtimeHours); }
    }
    hide OvertimeEarned, BaseEarnedForDay, EffectiveHourlyRate;
  }

  // ---- The whole day --------------------------------------------------------------------------

  /** Overtime hours at the hourly rate and the multiplier; for HOURLY, the multiplier times base pay. */
  predicate OvertimePriced(pay: Pay, a: Accrual) {
    var m := if pay.overtimeMultiplier != 0 then pay.overtimeMultiplier else 150;
    && a.overtime >= 0
    && (a.overtimeHours <= 0 ==> a.overtime == 0)
    && (a.overtimeHours > 0 && pay.hourlyRate != 0 ==>
          -10000 <= 2 * (10000 * a.overtime - pay.hourlyRate * a.overtimeHours * m) <= 10000)
  }

  /** Accrued hours by the salary type. */
  predicate BasePriced(pay: Pay, a: Accrual) {
    && (pay.salaryType == Hourly ==> -100 <= 2 * (100 * a.base - pay.hourlyRate * a.hours) <= 100)
    && (pay.salaryType == Daily ==> a.base == if a.hours > 0 then pay.dailyRate else 0)
    && (pay.salaryType == Monthly && 0 < a.hours <= 800 ==> -17600 <= 2 * (17600 * a.base - pay.baseSalary * a.hours) <= 17600)
    && (pay.salaryType == Monthly && a.hours >= 800 ==> a.base == PerDayBase(pay))
    && (pay.salaryType == Monthly && a.hours <= 0 ==> a.base == 0)
    && (pay.salaryType == KpiBased ==> a.base == 0)
  }

  /** What a leave day pays. */
  predicate LeavePriced(pay: Pay, leave: Leave, a: Accrual) {
    var days := if leave.days == 0 then 1 else leave.days;
    && (!leave.paid ==> a.base == 0)
    && (leave.paid && leave.overrideTotal.None? ==> a.base == PerDayBase(pay))
    && (leave.paid && leave.overrideTotal.Some? ==> -days <= 2 * (days * a.base - leave.overrideTotal.value) <= days)
  }

  ghost predicate DayPriced(inputs: Inputs, key: Key, a: Accrual)
    requires key.employee in inputs.employees
  {
    var pay := inputs.employees[key.employee].pay;
    && OvertimePriced(pay, a)
    && (if exists leave :: OnApprovedLeave(inputs, key, leave)
        then exists leave :: OnApprovedLeave(inputs, key, leave) && LeavePriced(pay, leave, a)
        else BasePriced(pay, a))
    && a.total == a.base + a.overtime + a.bonuses + a.kpi - a.deductions
  }

  lemma DayIsPriced(inputs: Inputs, ledger: Books, key: Key)
    requires key.employee in inputs.employees
    ensures DayPriced(inputs, key, DayOf(inputs, ledger, key))
  {
    OvertimeAccrued(inputs, ledger, key);
    assert var a := DayOf(inputs, ledger, key); a.total == a.base + a.overtime + a.bonuses + a.kpi - a.deductions by {
      hide BaseOf, HoursOf, Sweep, BonusTotal, DeductionTotal, MonthTotals, Pricing.OvertimeEarned;
    }
    hide DayOf, PerDayBase, OnApprovedLeave;
    if exists leave :: OnApprovedLeave(inputs, key, leave) {
      var leave := LeaveAccrued(inputs, ledger, key);
      assert LeavePriced(inputs.employees[key.employee].pay, leave, DayOf(inputs, ledger, key));
    } else {
      BaseAccrued(inputs, ledger, key);
    }
  }

  // ---- The fines ------------------------------------------------------------------------------

  /**
   * After a recompute of a day that is neither rest nor approved leave, the day holds an automatic row of
   * a kind exactly when that fine is due, with its amount; on the other days its rows are as they were.
   */
  lemma FinesAfterRecompute(inputs: Inputs, ledger: Books, key: Key)
    requires key.employee in inputs.employees
    ensures var before, after := ledger.deductions, Recomputed(inputs, ledger, key).deductions;
            var late, absence := LateAmount(inputs, key), AbsenceAmount(inputs, key);
            if RestDayOf(inputs, key) || exists leave :: OnApprovedLeave(inputs, key, leave) then after == before
            else
              && KindCount(after, key, Late) == (if late.Some? then 1 else 0)
              && KindTotal(after, key, Late) == (if late.Some? then late.value else 0)
              && KindCount(after, key, Absence) == (if absence.Some? then 1 else 0)
              && KindTotal(after, key, Absence) == (if absence.Some? then absence.value else 0)
  {
    var late, absence := LateAmount(inputs, key), AbsenceAmount(inputs, key);
    LeaveFound(inputs, key);
    var t := SweepKind(ledger.deductions, key, Late, late);
    SweepKindEffect(ledger.deductions, key, Late, late, key, Late);
    SweepKindEffect(t, key, Absence, absence, key, Late);
    SweepKindEffect(t, key, Absence, absence, key, Absence);
    hide LateAmount, AbsenceAmount, KindCount, KindTotal, AccrualOf, MonthTotals, DeductionTotal, ApprovedLeaveOn;
  }

  // ---- The month ------------------------------------------------------------------------------

  /** A further day adds its six amounts to its month and to nothing else. */
  lemma {:induction false} DayAddsToItsMonth(accruals: map<Key, Accrual>, key: Key, a: Accrual, period: PeriodKey, days: nat)
    requires 1 <= period.month <= 12 && days <= DaysInMonth(period.year, period.month)
    requires key !in accruals
    ensures var t, u := SumDays(accruals, period, days), SumDays(accruals[key := a], period, days);
            if PeriodOf(key) == period && key.date.day <= days then
              u.base == t.base + a.base && u.overtime == t.overtime + a.overtime && u.bonuses == t.bonuses + a.bonuses
              && u.kpi == t.kpi + a.kpi && u.deductions == t.deductions + a.deductions && u.total == t.total + a.total
            else u == t
  {
    if days > 0 {
      DayAddsToItsMonth(accruals, key, a, period, days - 1);
    }
  }

  lemma {:induction false} EmptyMonth(period: PeriodKey, days: nat)
    requires 1 <= period.month <= 12 && days <= DaysInMonth(period.year, period.month)
    ensures SumDays(map[], period, days) == Totals(0, 0, 0, 0, 0, 0)
  {
    if days > 0 {
      EmptyMonth(period, days - 1);
    }
  }

  /** The whole month: its first recomputed day is its total so far. */
  lemma FirstDayOfLedger(inputs: Inputs, deductions: Table<Deduction>, key: Key)
    requires key.employee in inputs.employees
    ensures var after := Recomputed(inputs, Books(deductions, map[], map[]), key);
            var a := DayOf(inputs, Books(deductions, map[], map[]), key);
            after.periods == map[PeriodOf(key) := Totals(a.base, a.overtime, a.bonuses, a.kpi, a.deductions, a.total)]
  {
    var period, a := PeriodOf(key), DayOf(inputs, Books(deductions, map[], map[]), key);
    DayAddsToItsMonth(map[], key, a, period, DaysInMonth(period.year, period.month));
    EmptyMonth(period, DaysInMonth(period.year, period.month));
    hide Sweep, AccrualOf, DeductionTotal, SumDays;
  }
}
