/** The payroll service as it runs: SQL statements and assignments on the three tables it writes. */
module PayrollEngine {
  import opened Options
  import opened Calendar
  import opened Decimals
  import opened WorkedTime
  import opened Ledger
  import Pricing
  import DayPrice

  class Engine {
    var inputs: Inputs
    var deductions: Table<Deduction>
    var accruals: map<Key, Accrual>
    var periods: map<PeriodKey, Totals>

    constructor (inputs: Inputs, ledger: Books)
      ensures this.inputs == inputs && View() == ledger
    {
      this.inputs := inputs;
      deductions, accruals, periods := ledger.deductions, ledger.accruals, ledger.periods;
    }

    ghost function View(): Books
      reads this
    {
      Books(deductions, accruals, periods)
    }

    method AutogenerateLateDeduction(key: Key)
      requires key.employee in inputs.employees
      modifies this`deductions
      ensures deductions == LateSweep(inputs, old(deductions), key)
    {
      var employee := inputs.employees[key.employee];
      deductions := Wipe(deductions, key, Late);
      if BeforeHire(employee, key.date) {
        return;
      }
      var penaltyPerMin := employee.company.latePenaltyPerMin;
      if penaltyPerMin <= 0.0 {
        return;
      }
      var lateTotal := LateTotal(DayRows(inputs, key));
      if lateTotal <= 0 {
        return;
      }
      var amount := LatePenalty(penaltyPerMin, lateTotal);
      deductions := deductions + [Some(Deduction(key.employee, key.date, Late, amount, true))];
    }

    method AutogenerateAbsenceDeduction(key: Key)
      requires key.employee in inputs.employees
      modifies this`deductions
      ensures deductions == AbsenceSweep(inputs, old(deductions), key)
    {
      var employee := inputs.employees[key.employee];
      deductions := Wipe(deductions, key, Absence);
      if inputs.now < DayEnd(key.date) || !employee.company.absencePenaltyEnabled {
        return;
      }
      if BeforeHire(employee, key.date) || !IsWorkday(employee, key.date) || AbsenceExcused(inputs, key) {
        return;
      }
      if CheckIns(DayRows(inputs, key)) > 0 {
        return;
      }
      var amount := Pricing.PerDayBase(employee.pay);
      if amount <= 0 {
        return;
      }
      deductions := deductions + [Some(Deduction(key.employee, key.date, Absence, amount, true))];
    }

    method RefreshPeriodTotals(period: PeriodKey)
      requires 1 <= period.month <= 12
      modifies this`periods
      ensures View() == Refreshed(old(View()), period)
    {
      if period !in periods {
        periods := periods[period := Totals(0, 0, 0, 0, 0, 0)];
      }
      periods := periods[period := MonthTotals(accruals, period)];
    }

    /** The hours of a day and its base pay: the reading half of `recompute_for_day`. */
    method PriceDay(key: Key) returns (hours: int, overtimeHours: int, base: int)
      requires key.employee in inputs.employees
      ensures (hours, overtimeHours) == HoursOf(inputs, key) && base == BaseOf(inputs, key)
    {
      var employee := inputs.employees[key.employee];
      var leave := ApprovedLeaveOn(inputs, key);
      hours, overtimeHours := HoursForDay(DayRows(inputs, key), key.date, inputs.now, ShiftEnd(employee));
      if IsRestDay(inputs, key) && hours > 0 {
        overtimeHours := overtimeHours + hours;
        hours := 0;
      }
      base := Pricing.BaseEarnedForDay(employee.pay, hours);
      if leave.Some? {
        var days := if leave.value.days == 0 then 1 else leave.value.days;
        if leave.value.paid {
          if leave.value.overrideTotal.Some? {
            base := Pricing.LeaveShare(leave.value.overrideTotal.value, days);
          } else {
            base := Pricing.PerDayBase(employee.pay);
          }
        } else {
          base := 0;
        }
      }
    }

    method RecomputeForDay(key: Key) returns (result: Result<Accrual, ()>)
      modifies this`deductions, this`accruals, this`periods
      ensures View() == Recomputed(inputs, old(View()), key)
      ensures result.Ok? <==> key.employee in inputs.employees
      ensures result.Ok? ==> key in accruals && result.value == accruals[key] && DayPrice.DayPriced(inputs, key, result.value)
      ensures result.Err? ==> View() == old(View())
    {
      hide DayPrice.DayPriced, HoursOf, BaseOf, LateSweep, AbsenceSweep, DeductionTotal, BonusTotal, MonthTotals, Pricing.OvertimeEarned;
      if key.employee !in inputs.employees {
        return Err(());
      }
      if !IsRestDay(inputs, key) && ApprovedLeaveOn(inputs, key) == None {
        AutogenerateLateDeduction(key);
        AutogenerateAbsenceDeduction(key);
      }
      var hours, overtimeHours, base := PriceDay(key);
      var overtime := Pricing.OvertimeEarned(inputs.employees[key.employee].pay, overtimeHours);
      var bonuses := BonusTotal(inputs.bonuses, key, false);
      var kpi := BonusTotal(inputs.bonuses, key, true);
      var total := DeductionTotal(deductions, key);
      var accrual := Accrual(hours, overtimeHours, base, overtime, bonuses, kpi, total,
                             base + overtime + bonuses + kpi - total);
      accruals := accruals[key := accrual];
      RefreshPeriodTotals(PeriodOf(key));
      DayPrice.DayIsPriced(inputs, old(View()), key);
      result := Ok(accrual);
    }

    /** An unknown employee makes the first day raise, which ends the loop with nothing written. */
    method RecomputePeriod(period: PeriodKey) returns (result: Result<nat, ()>)
      requires 1 <= period.month <= 12
      modifies this`deductions, this`accruals, this`periods
      ensures result == if period.employee in inputs.employees
                        then Ok(DaysInMonth(period.year, period.month)) else Err(())
      ensures View() == if result.Ok? then Run(inputs, old(View()), PeriodCalls(period)) else old(View())
    {
      hide Recomputed, DayPrice.DayPriced;
      var days := DaysInMonth(period.year, period.month);
      for d := 1 to days + 1
        invariant d > 1 ==> period.employee in inputs.employees
        invariant View() == Run(inputs, old(View()), MonthCalls(period, d - 1))
      {
        var day := RecomputeForDay(Key(period.employee, Date(period.year, period.month, d)));
        if day.Err? {
          return Err(());
        }
        assert MonthCalls(period, d)[..|MonthCalls(period, d)| - 1] == MonthCalls(period, d - 1);
      }
      result := Ok(days);
    }

    method RecomputeCompanyMonth(employees: seq<Id>, year: int, month: int) returns (days: nat)
      requires 1 <= month <= 12 && forall e :: e in employees ==> e in inputs.employees
      modifies this`deductions, this`accruals, this`periods
      ensures View() == Run(inputs, old(View()), CompanyCalls(employees, year, month))
      ensures days == |employees| * DaysInMonth(year, month)
    {
      hide Recomputed, MonthCalls, DayPrice.DayPriced;
      days := 0;
      for i := 0 to |employees|
        invariant View() == Run(inputs, old(View()), CompanyCalls(employees[..i], year, month))
        invariant days == i * DaysInMonth(year, month)
      {
        var n := RecomputePeriod(PeriodKey(employees[i], year, month));
        days := days + n.value;
        assert employees[..i + 1][..i] == employees[..i];
        RunConcat(inputs, old(View()), CompanyCalls(employees[..i], year, month),
                  PeriodCalls(PeriodKey(employees[i], year, month)));
      }
      assert employees[..|employees|] == employees;
    }
  }

  lemma {:induction false} RunConcat(inputs: Inputs, ledger: Books, first: seq<Key>, second: seq<Key>)
    ensures Run(inputs, ledger, first + second) == Run(inputs, Run(inputs, ledger, first), second)
  {
    var n := |second|;
    if n == 0 {
      assert first + second == first;
    } else {
      RunConcat(inputs, ledger, first, second[..n - 1]);
      var calls := first + second;
      assert calls[..|calls| - 1] == first + second[..n - 1];
    }
  }
}
