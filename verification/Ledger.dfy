/**
 * The payroll tables and one recompute of one employee-day, as functions of table values.
 *
 * A table with surrogate ids is the sequence of the slots it ever allocated: a row's id is its slot
 * number and a deleted row leaves `None`. A table with a natural unique key is a map.
 */
module Ledger {
  import opened Options
  import opened Calendar
  import opened Decimals
  import opened WorkedTime
  import Pricing

  type Id = nat
  type Table<T> = seq<Option<T>>

  datatype Key = Key(employee: Id, date: Date)
  datatype PeriodKey = PeriodKey(employee: Id, year: int, month: int)

  datatype DeductionKind = Late | Absence | Penalty | Tax | Advance
  datatype Deduction = Deduction(employee: Id, date: Date, kind: DeductionKind, amount: int, auto: bool)

  datatype BonusKind = Kpi | Fixed | Overtime | Project
  datatype Bonus = Bonus(employee: Id, date: Date, kind: BonusKind, amount: int)

  // ---- What a recompute reads and never writes ------------------------------------------------

  datatype Company = Company(
    latePenaltyPerMin: real,             // exact cents
    absencePenaltyEnabled: bool,
    workingDays: Option<set<int>>)       // None: setting missing or not a list

  datatype Template = Template(end: Option<int>, workingDays: set<int>)

  datatype Employee = Employee(
    pay: Pricing.Pay, company: Company, hireDate: Option<Date>, template: Option<Template>)

  datatype ScheduleStatus = Planned | Swapped | Cancelled | OnLeave | RestDay

  datatype Leave = Leave(
    employee: Id, first: Date, last: Date, approved: bool, paid: bool,
    overrideTotal: Option<int>, days: nat)

  datatype Inputs = Inputs(
    now: int,
    employees: map<Id, Employee>,
    attendance: map<Id, seq<Record>>,    // in timestamp order
    schedule: map<Key, ScheduleStatus>,
    leaves: seq<Leave>,
    bonuses: Table<Bonus>)

  // ---- What a recompute writes ----------------------------------------------------------------

  datatype Accrual = Accrual(
    hours: int, overtimeHours: int,
    base: int, overtime: int, bonuses: int, kpi: int, deductions: int, total: int)

  datatype Totals = Totals(base: int, overtime: int, bonuses: int, kpi: int, deductions: int, total: int)

  datatype Books = Books(
    deductions: Table<Deduction>, accruals: map<Key, Accrual>, periods: map<PeriodKey, Totals>)

  // ---- Attendance of one day ------------------------------------------------------------------

  /** The non-rejected rows inside a window, still in order. */
  function Select(log: seq<Record>, from: int, before: int): seq<Record> {
    var n := |log|;
    if n == 0 then []
    else
      var r := log[n - 1];
      Select(log[..n - 1], from, before)
      + if from <= r.timestamp < before && !r.rejected then [r] else []
  }

  function DayRows(inputs: Inputs, key: Key): seq<Record> {
    if key.employee in inputs.attendance
    then Select(inputs.attendance[key.employee], DayStart(key.date), DayEnd(key.date))
    else []
  }

  function CheckIns(rows: seq<Record>): nat {
    var n := |rows|;
    if n == 0 then 0 else CheckIns(rows[..n - 1]) + if rows[n - 1].check == CheckIn then 1 else 0
  }

  function LateTotal(rows: seq<Record>): int {
    var n := |rows|;
    if n == 0 then 0
    else LateTotal(rows[..n - 1]) + if rows[n - 1].check == CheckIn then rows[n - 1].lateMinutes else 0
  }

  // ---- Automatic deductions -------------------------------------------------------------------

  predicate IsRestDay(inputs: Inputs, key: Key) {
    key in inputs.schedule && inputs.schedule[key] == RestDay
  }

  predicate Covers(leave: Leave, key: Key) {
    leave.employee == key.employee && leave.approved
    && Ordinal(leave.first) <= Ordinal(key.date) <= Ordinal(leave.last)
  }

  function FirstCovering(leaves: seq<Leave>, key: Key): Option<Leave> {
    if |leaves| == 0 then None
    else if Covers(leaves[0], key) then Some(leaves[0])
    else FirstCovering(leaves[1..], key)
  }

  function ApprovedLeaveOn(inputs: Inputs, key: Key): Option<Leave> {
    FirstCovering(inputs.leaves, key)
  }

  /** The two sweeps run only on days that are neither rest days nor approved leave. */
  predicate Swept(inputs: Inputs, key: Key) {
    !IsRestDay(inputs, key) && ApprovedLeaveOn(inputs, key) == None
  }

  predicate BeforeHire(employee: Employee, day: Date) {
    employee.hireDate.Some? && Ordinal(day) < Ordinal(employee.hireDate.value)
  }

  function LatePenalty(perMinute: real, minutes: int): int {
    HalfEven(perMinute * minutes as real)
  }

  function LateAmount(inputs: Inputs, key: Key): Option<int>
    requires key.employee in inputs.employees
  {
    var employee := inputs.employees[key.employee];
    var late := LateTotal(DayRows(inputs, key));
    if BeforeHire(employee, key.date) then None
    else if employee.company.latePenaltyPerMin <= 0.0 then None
    else if late <= 0 then None
    else Some(LatePenalty(employee.company.latePenaltyPerMin, late))
  }

  predicate IsWorkday(employee: Employee, day: Date) {
    var weekday := IsoWeekday(Ordinal(day));
    if employee.template.Some? && employee.template.value.workingDays != {}
    then weekday in employee.template.value.workingDays
    else if employee.company.workingDays.Some? then weekday in employee.company.workingDays.value
    else weekday in {1, 2, 3, 4, 5}
  }

  predicate AbsenceExcused(inputs: Inputs, key: Key) {
    key in inputs.schedule && inputs.schedule[key] in {Cancelled, OnLeave, RestDay}
  }

  function AbsenceAmount(inputs: Inputs, key: Key): Option<int>
    requires key.employee in inputs.employees
  {
    var employee := inputs.employees[key.employee];
    var amount := Pricing.PerDayBase(employee.pay);
    if inputs.now < DayEnd(key.date) then None               // today or later
    else if !employee.company.absencePenaltyEnabled then None
    else if BeforeHire(employee, key.date) then None
    else if !IsWorkday(employee, key.date) then None
    else if AbsenceExcused(inputs, key) then None
    else if CheckIns(DayRows(inputs, key)) > 0 then None
    else if amount <= 0 then None
    else Some(amount)
  }

  predicate IsAuto(slot: Option<Deduction>, key: Key, kind: DeductionKind) {
    slot.Some? && slot.value.auto && slot.value.kind == kind
    && slot.value.employee == key.employee && slot.value.date == key.date
  }

  /** DELETE of the automatic rows of one kind on one employee-day. */
  function Wipe(table: Table<Deduction>, key: Key, kind: DeductionKind): (t: Table<Deduction>)
    ensures |t| == |table|
  {
    seq(|table|, i requires 0 <= i < |table| => if IsAuto(table[i], key, kind) then None else table[i])
  }

  function AddAuto(table: Table<Deduction>, key: Key, kind: DeductionKind, amount: Option<int>): Table<Deduction> {
    if amount.Some?
    then table + [Some(Deduction(key.employee, key.date, kind, amount.value, true))]
    else table
  }

  function LateSweep(inputs: Inputs, table: Table<Deduction>, key: Key): Table<Deduction>
    requires key.employee in inputs.employees
  {
    AddAuto(Wipe(table, key, Late), key, Late, LateAmount(inputs, key))
  }

  function AbsenceSweep(inputs: Inputs, table: Table<Deduction>, key: Key): Table<Deduction>
    requires key.employee in inputs.employees
  {
    AddAuto(Wipe(table, key, Absence), key, Absence, AbsenceAmount(inputs, key))
  }

  function Sweep(inputs: Inputs, table: Table<Deduction>, key: Key): Table<Deduction>
    requires key.employee in inputs.employees
  {
    if Swept(inputs, key) then AbsenceSweep(inputs, LateSweep(inputs, table, key), key) else table
  }

  // ---- Sums over a day and over a month -------------------------------------------------------

  function DeductionTotal(table: Table<Deduction>, key: Key): int {
    var n := |table|;
    if n == 0 then 0
    else
      var slot := table[n - 1];
      DeductionTotal(table[..n - 1], key)
      + if slot.Some? && slot.value.employee == key.employee && slot.value.date == key.date
        then slot.value.amount else 0
  }

  function BonusTotal(table: Table<Bonus>, key: Key, kpi: bool): int {
    var n := |table|;
    if n == 0 then 0
    else
      var slot := table[n - 1];
      BonusTotal(table[..n - 1], key, kpi)
      + if slot.Some? && slot.value.employee == key.employee && slot.value.date == key.date
           && (slot.value.kind == Kpi) == kpi
        then slot.value.amount else 0
  }

  function PeriodOf(key: Key): PeriodKey {
    PeriodKey(key.employee, key.date.year, key.date.month)
  }

  function Add(t: Totals, a: Accrual): Totals {
    Totals(t.base + a.base, t.overtime + a.overtime, t.bonuses + a.bonuses, t.kpi + a.kpi,
           t.deductions + a.deductions, t.total + a.total)
  }

  /** The six sums over the accruals of the month's first `days` days. */
  function SumDays(accruals: map<Key, Accrual>, period: PeriodKey, days: nat): Totals
    requires 1 <= period.month <= 12 && days <= DaysInMonth(period.year, period.month)
  {
    if days == 0 then Totals(0, 0, 0, 0, 0, 0)
    else
      var key := Key(period.employee, Date(period.year, period.month, days));
      var sum := SumDays(accruals, period, days - 1);
      if key in accruals then Add(sum, accruals[key]) else sum
  }

  function MonthTotals(accruals: map<Key, Accrual>, period: PeriodKey): Totals
    requires 1 <= period.month <= 12
  {
    SumDays(accruals, period, DaysInMonth(period.year, period.month))
  }

  // ---- One recompute --------------------------------------------------------------------------

  function ShiftEnd(employee: Employee): Option<int> {
    if employee.template.Some? then employee.template.value.end else None
  }

  /** (hours, overtime hours) after a rest day has turned its hours into overtime. */
  function HoursOf(inputs: Inputs, key: Key): (int, int)
    requires key.employee in inputs.employees
  {
    var rows := DayRows(inputs, key);
    var closeAt := CloseAt(key.date, inputs.now, ShiftEnd(inputs.employees[key.employee]));
    var hours := HundredthsOfHour(MinutesWorked(rows, closeAt));
    var overtime := HundredthsOfHour(PairedOvertime(rows));
    if IsRestDay(inputs, key) && hours > 0 then (0, overtime + hours) else (hours, overtime)
  }

  function BaseOf(inputs: Inputs, key: Key): int
    requires key.employee in inputs.employees
  {
    var pay := inputs.employees[key.employee].pay;
    match ApprovedLeaveOn(inputs, key)
    case None => Pricing.BaseEarnedForDay(pay, HoursOf(inputs, key).0)
    case Some(leave) =>
      var days := if leave.days == 0 then 1 else leave.days;
      if !leave.paid then 0
      else if leave.overrideTotal.Some? then Pricing.LeaveShare(leave.overrideTotal.value, days)
      else Pricing.PerDayBase(pay)
  }

  function AccrualOf(inputs: Inputs, key: Key, deductions: int): Accrual
    requires key.employee in inputs.employees
  {
    var (hours, overtimeHours) := HoursOf(inputs, key);
    var base := BaseOf(inputs, key);
    var overtime := Pricing.OvertimeEarned(inputs.employees[key.employee].pay, overtimeHours);
    var bonuses := BonusTotal(inputs.bonuses, key, false);
    var kpi := BonusTotal(inputs.bonuses, key, true);
    Accrual(hours, overtimeHours, base, overtime, bonuses, kpi, deductions,
            base + overtime + bonuses + kpi - deductions)
  }

  function Refreshed(ledger: Books, period: PeriodKey): Books
    requires 1 <= period.month <= 12
  {
    ledger.(periods := ledger.periods[period := MonthTotals(ledger.accruals, period)])
  }

  /** `recompute_for_day`; a call for an unknown employee raises and leaves the tables alone. */
  function Recomputed(inputs: Inputs, ledger: Books, key: Key): Books {
    if key.employee !in inputs.employees then ledger
    else
      var table := Sweep(inputs, ledger.deductions, key);
      var accrual := AccrualOf(inputs, key, DeductionTotal(table, key));
      Refreshed(ledger.(deductions := table, accruals := ledger.accruals[key := accrual]), PeriodOf(key))
  }

  /** Any finite sequence of calls against fixed inputs and a fixed clock. */
  function Run(inputs: Inputs, ledger: Books, calls: seq<Key>): Books {
    var n := |calls|;
    if n == 0 then ledger else Recomputed(inputs, Run(inputs, ledger, calls[..n - 1]), calls[n - 1])
  }

  /** The calls `recompute_period` makes: every day of the month, future days included. */
  function MonthCalls(period: PeriodKey, days: nat): seq<Key>
    requires 1 <= period.month <= 12 && days <= DaysInMonth(period.year, period.month)
  {
    if days == 0 then []
    else MonthCalls(period, days - 1) + [Key(period.employee, Date(period.year, period.month, days))]
  }

  function PeriodCalls(period: PeriodKey): seq<Key>
    requires 1 <= period.month <= 12
  {
    MonthCalls(period, DaysInMonth(period.year, period.month))
  }

  /** The calls of a month-end close: the whole month of each employee in turn. */
  function CompanyCalls(employees: seq<Id>, year: int, month: int): seq<Key>
    requires 1 <= month <= 12
  {
    var n := |employees|;
    if n == 0 then []
    else CompanyCalls(employees[..n - 1], year, month) + PeriodCalls(PeriodKey(employees[n - 1], year, month))
  }
}
