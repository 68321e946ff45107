/**
 * Pricing one day: base pay, overtime pay and the daily base behind absences and paid leave.
 * Rates are non-negative cents (the employee schema enforces it), 0 standing for a missing rate,
 * which the code treats alike. Hours are hundredths of an hour.
 */
module Pricing {
  import opened Decimals
  import WorkedTime

  datatype SalaryType = Hourly | Daily | Monthly | KpiBased

  datatype Pay = Pay(
    salaryType: SalaryType,
    baseSalary: nat,
    hourlyRate: nat,
    dailyRate: nat,
    overtimeMultiplier: nat)  // hundredths; 0 falls back to 1.5

  const FULL_DAY := 800
  const WORKING_DAYS := 22

  function Hours(hundredths: int): real {
    hundredths as real / 100.0
  }

  function BaseEarnedForDay(pay: Pay, hours: int): int {
    match pay.salaryType
    case Hourly => Times(pay.hourlyRate as real, Hours(hours))
    case Daily => if hours > 0 then HalfEven(pay.dailyRate as real) else 0
    case Monthly =>
      if hours <= 0 || pay.baseSalary <= 0 then 0
      else
        var billable := if hours <= FULL_DAY then hours else FULL_DAY;
        Times(pay.baseSalary as real / 22.0 / 8.0, Hours(billable))
    case KpiBased => 0
  }

  function PerDayBase(pay: Pay): int {
    match pay.salaryType
    case Monthly => if pay.baseSalary != 0 then HalfEven(pay.baseSalary as real / 22.0) else 0
    case Daily => if pay.dailyRate != 0 then HalfEven(pay.dailyRate as real) else 0
    case Hourly => if pay.hourlyRate != 0 then HalfEven(pay.hourlyRate as real * 8.0) else 0
    case KpiBased => 0
  }

  function EffectiveHourlyRate(pay: Pay): int {
    if pay.hourlyRate != 0 then pay.hourlyRate
    else if pay.dailyRate != 0 then HalfEven(pay.dailyRate as real / 8.0)
    else if pay.baseSalary != 0 then HalfEven(pay.baseSalary as real / 176.0)
    else 0
  }

  function OvertimeExact(rate: int, overtimeHours: int, multiplier: real): real {
    rate as real * Hours(overtimeHours) * multiplier
  }

  function OvertimeEarned(pay: Pay, overtimeHours: int): int {
    if overtimeHours <= 0 then 0
    else
      var multiplier := if pay.overtimeMultiplier != 0 then pay.overtimeMultiplier as real / 100.0 else 1.5;
      HalfEven(OvertimeExact(EffectiveHourlyRate(pay), overtimeHours, multiplier))
  }

  /** Base pay of one day of an approved paid leave whose total the admin fixed. */
  function LeaveShare(total: int, days: int): int
    requires days > 0
  {
    HalfEven(total as real / days as real)
  }

  // ---- Consequences ---------------------------------------------------------------------------

  /** A full shift is worth the daily base of every salary type, to the cent. */
  lemma FullDayPaysDailyBase(pay: Pay)
    ensures WorkedTime.HundredthsOfHour(480) == FULL_DAY
    ensures BaseEarnedForDay(pay, FULL_DAY) == PerDayBase(pay)
  {
    HalfEvenOfCents(800.0, 800);
    assert Hours(FULL_DAY) == 8.0;
    match pay.salaryType
    case Monthly =>
      if pay.baseSalary != 0 {
        assert pay.baseSalary as real / 22.0 / 8.0 * 8.0 == pay.baseSalary as real / 22.0;
      }
    case Hourly => HalfEvenOfCents(0.0, 0);
    case _ => HalfEvenOfCents(0.0, 0);
  }

  lemma BasePayMonotone(pay: Pay, fewer: int, more: int)
    requires 0 <= fewer <= more
    ensures 0 <= BaseEarnedForDay(pay, fewer) <= BaseEarnedForDay(pay, more)
  {
    HalfEvenOfCents(0.0, 0);
    match pay.salaryType
    case Hourly => TimesMonotone(pay.hourlyRate as real, Hours(fewer), Hours(more));
    case Daily => HalfEvenMonotone(0.0, pay.dailyRate as real);
    case Monthly =>
      var a := if fewer <= FULL_DAY then fewer else FULL_DAY;
      var b := if more <= FULL_DAY then more else FULL_DAY;
      TimesMonotone(pay.baseSalary as real / 22.0 / 8.0, Hours(a), Hours(b));
    case KpiBased =>
  }

  /** Hours past the eighth never reach base pay: a monthly day earns at most the full-day amount. */
  lemma MonthlyPayCapped(pay: Pay, hours: int)
    requires pay.salaryType == Monthly && 0 <= hours
    ensures BaseEarnedForDay(pay, hours) <= PerDayBase(pay)
    ensures hours >= FULL_DAY ==> BaseEarnedForDay(pay, hours) == PerDayBase(pay)
  {
    FullDayPaysDailyBase(pay);
    if hours <= FULL_DAY {
      BasePayMonotone(pay, hours, FULL_DAY);
    }
  }

  /** A month of 22 full days pays the salary up to 11 cents either way. */
  lemma FullMonthWithinElevenCents(pay: Pay)
    requires pay.salaryType == Monthly
    ensures -11 <= WORKING_DAYS * BaseEarnedForDay(pay, FULL_DAY) - pay.baseSalary <= 11
  {
    FullDayPaysDailyBase(pay);
    if pay.baseSalary != 0 {
      var exact, paid := pay.baseSalary as real / 22.0, PerDayBase(pay);
      assert -11.0 <= 22.0 * (paid as real) - 22.0 * exact <= 11.0;
      assert -11.0 <= (22 * paid - pay.baseSalary) as real <= 11.0;
    }
  }

  /** The 11 cents are reached: 22 days of a salary of 11 cents pay nothing. */
  lemma ElevenCentsIsTight()
    ensures var pay := Pay(Monthly, 11, 0, 0, 150);
            WORKING_DAYS * BaseEarnedForDay(pay, FULL_DAY) == pay.baseSalary - 11
  {
  }

  lemma SharesOf(n: real, exact: real, share: real)
    requires 0.0 < n && exact - 0.5 <= share <= exact + 0.5
    ensures Product(n, exact) - 0.5 * n <= Product(n, share) <= Product(n, exact) + 0.5 * n
  {
    hide Product;
    var off := share - exact;
    assert exact + off == share;
    ProductLaws(n, exact, off);
    ProductLaws(n, -0.5, off);
    ProductLaws(n, off, 0.5);
  }

  lemma ExactShares(total: real, n: real)
    requires n != 0.0
    ensures Product(n, total / n) == total
  {
  }

  lemma PaidShares(days: int, share: int)
    ensures Product(days as real, share as real) == (days * share) as real
  {
  }

  lemma CentsOff(paid: int, total: int, days: int)
    requires total as real - 0.5 * days as real <= paid as real <= total as real + 0.5 * days as real
    ensures -days <= 2 * (paid - total) <= days
  {
  }

  /** `n` equal shares of a leave total differ from it by at most half a cent each. */
  lemma LeaveSharesWithinHalfCentEach(total: int, days: int)
    requires days > 0
    ensures -days <= 2 * (days * LeaveShare(total, days) - total) <= days
  {
    var share, n, exact := LeaveShare(total, days), days as real, total as real / days as real;
    hide Product;
    SharesOf(n, exact, share as real);
    ExactShares(total as real, n);
    PaidShares(days, share);
    CentsOff(days * share, total, days);
  }

  // ---- What an hour is worth ------------------------------------------------------------------

  lemma HourCents(rate: nat, hours: int)
    ensures rate as real * Hours(hours) == (rate * hours) as real / 100.0
  {
    assert (rate * hours) as real == rate as real * hours as real;
  }

  /** HOURLY pays the rate for each hour, to half a cent over the whole day. */
  lemma HourlyPaysTheRate(pay: Pay, hours: int)
    requires pay.salaryType == Hourly
    ensures -100 <= 2 * (100 * BaseEarnedForDay(pay, hours) - pay.hourlyRate * hours) <= 100
  {
    HourCents(pay.hourlyRate, hours);
    HalfEvenOfRatio(pay.hourlyRate as real * Hours(hours), pay.hourlyRate * hours);
  }

  /** DAILY pays the whole rate for any presence, MONTHLY pays by the hour up to eight, KPI_BASED nothing. */
  lemma BaseByType(pay: Pay, hours: int)
    ensures hours <= 0 && pay.salaryType != Hourly ==> BaseEarnedForDay(pay, hours) == 0
    ensures pay.salaryType == Daily && hours > 0 ==> BaseEarnedForDay(pay, hours) == pay.dailyRate
    ensures pay.salaryType == KpiBased ==> BaseEarnedForDay(pay, hours) == 0 && PerDayBase(pay) == 0
    ensures pay.salaryType == Monthly && 0 < hours <= FULL_DAY ==>
              -17600 <= 2 * (17600 * BaseEarnedForDay(pay, hours) - pay.baseSalary * hours) <= 17600
  {
    HalfEvenOfCents(pay.dailyRate as real, pay.dailyRate);
    if pay.salaryType == Monthly && 0 < hours <= FULL_DAY && pay.baseSalary > 0 {
      MonthlyHours(pay.baseSalary, hours);
    }
  }

  lemma MonthlyHours(salary: nat, hours: int)
    ensures -17600 <= 2 * (17600 * Times(salary as real / 22.0 / 8.0, Hours(hours)) - salary * hours) <= 17600
  {
    var x := salary as real / 22.0 / 8.0 * Hours(hours);
    assert (salary * hours) as real == salary as real * hours as real;
    assert x == (salary * hours) as real / 17600.0;
  }

  // ---- Overtime -------------------------------------------------------------------------------

  /** Hundredths: a missing multiplier pays as 1.50. */
  function Multiplier(pay: Pay): int { if pay.overtimeMultiplier != 0 then pay.overtimeMultiplier else 150 }

  lemma ThreeFactors(rate: int, hours: int, m: int, multiplier: real)
    requires multiplier == m as real / 100.0
    ensures OvertimeExact(rate, hours, multiplier) == (rate * hours * m) as real / 10000.0
  {
    assert (rate * hours) as real == rate as real * hours as real;
    assert (rate * hours * m) as real == (rate * hours) as real * m as real;
    var x := rate as real * hours as real;
    assert rate as real * Hours(hours) == x / 100.0;
    assert x / 100.0 * (m as real / 100.0) == x * m as real / 10000.0;
  }

  lemma SameRounding(x: real, y: real)
    requires x == y
    ensures HalfEven(x) == HalfEven(y)
  {
  }

  /** Overtime in ten-thousandths of a cent, rounded once. */
  lemma OvertimeRounds(pay: Pay, hours: int, n: int)
    requires hours > 0 && n == EffectiveHourlyRate(pay) * hours * Multiplier(pay)
    ensures Multiplier(pay) > 0 && OvertimeEarned(pay, hours) == HalfEven(n as real / 10000.0)
  {
    var rate, m := EffectiveHourlyRate(pay), Multiplier(pay);
    var multiplier := if pay.overtimeMultiplier != 0 then pay.overtimeMultiplier as real / 100.0 else 1.5;
    ThreeFactors(rate, hours, m, multiplier);
    hide EffectiveHourlyRate, HalfEven, OvertimeExact;
    SameRounding(OvertimeExact(rate, hours, multiplier), n as real / 10000.0);
  }

  /** Overtime pays the hourly rate times the multiplier, to half a cent. */
  lemma OvertimePaysTheMultiple(pay: Pay, hours: int)
    requires hours > 0
    ensures -10000 <= 2 * (10000 * OvertimeEarned(pay, hours) - EffectiveHourlyRate(pay) * hours * Multiplier(pay)) <= 10000
  {
    var n := EffectiveHourlyRate(pay) * hours * Multiplier(pay);
    OvertimeRounds(pay, hours, n);
    hide OvertimeEarned, EffectiveHourlyRate, Multiplier, HalfEven;
    HalfEvenOfRatio(n as real / 10000.0, n);
  }

  /** HOURLY: overtime is the multiplier times what base pay would pay for the same hours. */
  lemma HourlyOvertimeIsBaseTimesMultiplier(pay: Pay, hours: int)
    requires pay.salaryType == Hourly && pay.hourlyRate != 0 && hours > 0
    ensures var m := Multiplier(pay);
            -(m + 100) <= 2 * (100 * OvertimeEarned(pay, hours) - m * BaseEarnedForDay(pay, hours)) <= m + 100
  {
    var m, overtime, base := Multiplier(pay), OvertimeEarned(pay, hours), BaseEarnedForDay(pay, hours);
    OvertimePaysTheMultiple(pay, hours);
    HourlyPaysTheRate(pay, hours);
    hide OvertimeEarned, BaseEarnedForDay, Multiplier;
    Combine(pay.hourlyRate * hours, m, overtime, base);
    assert pay.hourlyRate * hours * m == m * (pay.hourlyRate * hours);
  }

  /** From the distances of both amounts to the exact one to their distance from each other. */
  lemma Combine(exact: int, m: int, overtime: int, base: int)
    requires m > 0
    requires -10000 <= 2 * (10000 * overtime - m * exact) <= 10000
    requires -100 <= 2 * (100 * base - exact) <= 100
    ensures -(m + 100) <= 2 * (100 * overtime - m * base) <= m + 100
  {
    var off := 2 * (100 * base - exact);
    assert -100 * m <= m * off <= 100 * m;
    assert m * off == 200 * (m * base) - 2 * (m * exact);
  }

  /** What stands for the hourly rate: a missing one is an eighth of the daily one, or of the monthly day. */
  lemma EightHoursAreADay(pay: Pay)
    ensures pay.hourlyRate != 0 ==> EffectiveHourlyRate(pay) == pay.hourlyRate
    ensures pay.salaryType == Hourly && pay.hourlyRate != 0 ==> 8 * EffectiveHourlyRate(pay) == PerDayBase(pay)
    ensures pay.salaryType == Daily && pay.hourlyRate == 0 && pay.dailyRate != 0 ==>
              -4 <= 8 * EffectiveHourlyRate(pay) - PerDayBase(pay) <= 4
    ensures pay.salaryType == Monthly && pay.hourlyRate == 0 && pay.dailyRate == 0 ==>
              -4 <= 8 * EffectiveHourlyRate(pay) - PerDayBase(pay) <= 4
    ensures pay.hourlyRate == 0 && pay.dailyRate == 0 && pay.baseSalary == 0 ==> EffectiveHourlyRate(pay) == 0
  {
    HalfEvenOfCents(pay.hourlyRate as real * 8.0, 8 * pay.hourlyRate);
    HalfEvenOfCents(pay.dailyRate as real, pay.dailyRate);
  }

  /** Eight overtime hours pay the multiplier times the daily base, for every type with its own rate. */
  lemma OvertimeDayIsDailyBaseTimesMultiplier(pay: Pay)
    requires pay.salaryType == Hourly ==> pay.hourlyRate != 0
    requires pay.salaryType == Daily ==> pay.hourlyRate == 0 && pay.dailyRate != 0
    requires pay.salaryType == Monthly ==> pay.hourlyRate == 0 && pay.dailyRate == 0
    requires pay.salaryType != KpiBased
    ensures var m := Multiplier(pay);
            -(8 * m + 100) <= 2 * (100 * OvertimeEarned(pay, FULL_DAY) - m * PerDayBase(pay)) <= 8 * m + 100
  {
    var m, rate, overtime, base := Multiplier(pay), EffectiveHourlyRate(pay), OvertimeEarned(pay, FULL_DAY), PerDayBase(pay);
    OvertimePaysTheMultiple(pay, FULL_DAY);
    EightHoursAreADay(pay);
    hide OvertimeEarned, EffectiveHourlyRate, Multiplier, PerDayBase;
    CombineDay(rate, m, overtime, base);
  }

  lemma CombineDay(rate: int, m: int, overtime: int, base: int)
    requires 0 <= m && -4 <= 8 * rate - base <= 4
    requires -10000 <= 2 * (10000 * overtime - rate * 800 * m) <= 10000
    ensures -(8 * m + 100) <= 2 * (100 * overtime - m * base) <= 8 * m + 100
  {
    Scale(m, 8 * rate - base, 4);
    Expand(m, rate, base);
  }

  lemma Expand(m: int, rate: int, base: int)
    ensures m * (8 * rate - base) == 8 * (m * rate) - m * base
    ensures rate * 800 * m == 800 * (m * rate)
  {
  }

  lemma Scale(m: int, off: int, bound: int)
    requires 0 <= m && -bound <= off <= bound
    ensures -(m * bound) <= m * off <= m * bound
  {
  }

  lemma RateNonNegative(pay: Pay)
    ensures EffectiveHourlyRate(pay) >= 0
  {
    HalfEvenOfCents(0.0, 0);
    HalfEvenMonotone(0.0, pay.dailyRate as real / 8.0);
    HalfEvenMonotone(0.0, pay.baseSalary as real / 176.0);
  }

  /** Overtime is never negative and never falls with the hours. */
  lemma OvertimeFollowsHours(pay: Pay, fewer: int, more: int)
    requires fewer <= more
    ensures 0 <= OvertimeEarned(pay, fewer) <= OvertimeEarned(pay, more)
    ensures fewer <= 0 ==> OvertimeEarned(pay, fewer) == 0
  {
    if more > 0 {
      var rate, m := EffectiveHourlyRate(pay), Multiplier(pay);
      var less := if fewer > 0 then fewer else 0;
      RateNonNegative(pay);
      OvertimeRounds(pay, more, rate * more * m);
      OrderedProducts(rate, less, more, m);
      RoundedInOrder(rate * less * m, rate * more * m);
      if fewer > 0 {
        OvertimeRounds(pay, fewer, rate * fewer * m);
      }
    }
  }

  /** ... nor with the multiplier. */
  lemma OvertimeFollowsMultiplier(pay: Pay, higher: nat, hours: int)
    requires Multiplier(pay) <= higher
    ensures OvertimeEarned(pay, hours) <= OvertimeEarned(pay.(overtimeMultiplier := higher), hours)
  {
    var raised := pay.(overtimeMultiplier := higher);
    if hours > 0 {
      var rate, m := EffectiveHourlyRate(pay), Multiplier(pay);
      RateNonNegative(pay);
      OvertimeRounds(pay, hours, rate * hours * m);
      OvertimeRounds(raised, hours, rate * hours * higher);
      OrderedFactors(rate * hours, m, higher);
      RoundedInOrder(rate * hours * m, rate * hours * higher);
    }
  }

  lemma OrderedFactors(a: int, b: int, c: int)
    requires 0 <= a && 0 <= b <= c
    ensures 0 <= a * b <= a * c
  {
  }

  lemma OrderedProducts(a: int, b: int, c: int, d: int)
    requires 0 <= a && 0 <= b <= c && 0 <= d
    ensures 0 <= a * b * d <= a * c * d
  {
    OrderedFactors(a, b, c);
    OrderedFactors(d, a * b, a * c);
  }

  lemma RoundedInOrder(a: int, b: int)
    requires 0 <= a <= b
    ensures 0 <= HalfEven(a as real / 10000.0) <= HalfEven(b as real / 10000.0)
  {
    HalfEvenOfCents(0.0, 0);
    HalfEvenMonotone(0.0, a as real / 10000.0);
    HalfEvenMonotone(a as real / 10000.0, b as real / 10000.0);
  }
}
