/**
 * What every recompute keeps, over any history in which the inputs and the clock may change between
 * calls: the period sums, the day and period balances, and the discipline of the automatic rows.
 */
module LedgerInvariant {
  import opened Options
  import opened Calendar
  import opened WorkedTime
  import opened Ledger
  import opened Confluence
  import Pricing

  /** A recompute, or what other writers do to the deduction table between recomputes. */
  datatype Call =
    | Call(inputs: Inputs, key: Key)
    | Entered(row: Deduction)                   // by hand, or by a KPI settlement
    | Rewritten(slot: nat, row: Deduction)      // a settlement refreshed
    | Dropped(slot: nat)                        // a settlement rejected

  /** The other writers never write an automatic LATE or ABSENCE row. */
  function Edited(table: Table<Deduction>, c: Call): Table<Deduction> {
    match c
    case Entered(row) => if AutoRow(row) then table else table + [Some(row)]
    case Rewritten(slot, row) =>
      if slot < |table| && table[slot].Some? && !AutoRow(row) then table[slot := Some(row)] else table
    case Dropped(slot) => if slot < |table| then table[slot := None] else table
    case Call(_, _) => table
  }

  function Next(ledger: Books, c: Call): Books {
    if c.Call? then Recomputed(c.inputs, ledger, c.key)
    else ledger.(deductions := Edited(ledger.deductions, c))
  }

  function History(ledger: Books, calls: seq<Call>): Books {
    var n := |calls|;
    if n == 0 then ledger else Next(History(ledger, calls[..n - 1]), calls[n - 1])
  }

  ghost predicate DaysBalance(accruals: map<Key, Accrual>) {
    forall key :: key in accruals ==>
      var a := accruals[key];
      a.total == a.base + a.overtime + a.bonuses + a.kpi - a.deductions
  }

  ghost predicate PeriodsAreSums(ledger: Books) {
    forall p :: p in ledger.periods ==>
      1 <= p.month <= 12 && ledger.periods[p] == MonthTotals(ledger.accruals, p)
  }

  ghost predicate PeriodsExist(ledger: Books) {
    forall key :: key in ledger.accruals ==> PeriodOf(key) in ledger.periods
  }

  /** At most one automatic LATE and one automatic ABSENCE row per employee-day, and never both. */
  ghost predicate OneAutoRowPerDay(table: Table<Deduction>) {
    forall key :: KindCount(table, key, Late) + KindCount(table, key, Absence) <= 1
  }

  ghost predicate Consistent(ledger: Books) {
    DaysBalance(ledger.accruals) && PeriodsAreSums(ledger) && PeriodsExist(ledger)
    && OneAutoRowPerDay(ledger.deductions)
  }

  lemma {:induction false} LateNeedsCheckIn(rows: seq<Record>)
    ensures LateTotal(rows) > 0 ==> CheckIns(rows) > 0
  {
    if |rows| > 0 {
      LateNeedsCheckIn(rows[..|rows| - 1]);
      if CheckIns(rows) == 0 {
        NoCheckInNoLateness(rows);
      }
    }
  }

  lemma {:induction false} NoCheckInNoLateness(rows: seq<Record>)
    requires CheckIns(rows) == 0
    ensures LateTotal(rows) == 0
  {
    if |rows| > 0 {
      NoCheckInNoLateness(rows[..|rows| - 1]);
    }
  }

  lemma NeverLateAndAbsent(inputs: Inputs, key: Key)
    requires key.employee in inputs.employees
    ensures !(LateAmount(inputs, key).Some? && AbsenceAmount(inputs, key).Some?)
  {
    LateNeedsCheckIn(DayRows(inputs, key));
  }

  lemma SweepKeepsOneAutoRow(inputs: Inputs, table: Table<Deduction>, key: Key)
    requires key.employee in inputs.employees
    requires OneAutoRowPerDay(table)
    ensures OneAutoRowPerDay(Sweep(inputs, table, key))
  {
    NeverLateAndAbsent(inputs, key);
    hide LateAmount, AbsenceAmount, Swept, KindCount;
    if Swept(inputs, key) {
      var late, absence := LateAmount(inputs, key), AbsenceAmount(inputs, key);
      var t1 := SweepKind(table, key, Late, late);
      var t2 := SweepKind(t1, key, Absence, absence);
      assert Sweep(inputs, table, key) == t2;
      forall other ensures KindCount(t2, other, Late) + KindCount(t2, other, Absence) <= 1 {
        SweepKindEffect(table, key, Late, late, other, Late);
        SweepKindEffect(table, key, Late, late, other, Absence);
        SweepKindEffect(t1, key, Absence, absence, other, Late);
        SweepKindEffect(t1, key, Absence, absence, other, Absence);
      }
    }
  }

  lemma RecomputeKeepsSums(inputs: Inputs, ledger: Books, key: Key)
    requires PeriodsAreSums(ledger)
    ensures PeriodsAreSums(Recomputed(inputs, ledger, key))
  {
    hide Sweep, AccrualOf, DeductionTotal;
    var after := Recomputed(inputs, ledger, key);
    forall p | p in after.periods
      ensures 1 <= p.month <= 12 && after.periods[p] == MonthTotals(after.accruals, p)
    {
      if p != PeriodOf(key) && key.employee in inputs.employees {
        assert p in ledger.periods;
        SumDaysFrame(ledger.accruals, after.accruals, p, DaysInMonth(p.year, p.month));
      }
    }
  }

  lemma RecomputeKeepsConsistency(inputs: Inputs, ledger: Books, key: Key)
    requires Consistent(ledger)
    ensures Consistent(Recomputed(inputs, ledger, key))
  {
    RecomputeKeepsSums(inputs, ledger, key);
    hide BaseOf, HoursOf, BonusTotal, DeductionTotal, MonthTotals, Sweep, KindCount, Pricing.OvertimeEarned;
    if key.employee in inputs.employees {
      SweepKeepsOneAutoRow(inputs, ledger.deductions, key);
    }
  }

  lemma {:induction false} KindCountOfUpdate(table: Table<Deduction>, i: nat, slot: Option<Deduction>, key: Key, kind: DeductionKind)
    requires i < |table|
    ensures KindCount(table[i := slot], key, kind)
            == KindCount(table, key, kind) - (if IsAuto(table[i], key, kind) then 1 else 0) + (if IsAuto(slot, key, kind) then 1 else 0)
  {
    var n := |table|;
    if i == n - 1 {
      assert table[i := slot][..n - 1] == table[..n - 1];
    } else {
      assert table[i := slot][..n - 1] == table[..n - 1][i := slot];
      KindCountOfUpdate(table[..n - 1], i, slot, key, kind);
    }
  }

  lemma EditsKeepOneAutoRow(table: Table<Deduction>, c: Call)
    requires OneAutoRowPerDay(table)
    ensures OneAutoRowPerDay(Edited(table, c))
  {
    hide KindCount;
    forall key ensures KindCount(Edited(table, c), key, Late) + KindCount(Edited(table, c), key, Absence) <= 1 {
      match c
      case Entered(row) => AppendEffect(table, row, key, Late); AppendEffect(table, row, key, Absence);
      case Rewritten(slot, row) =>
        if slot < |table| {
          KindCountOfUpdate(table, slot, Some(row), key, Late);
          KindCountOfUpdate(table, slot, Some(row), key, Absence);
        }
      case Dropped(slot) =>
        if slot < |table| {
          KindCountOfUpdate(table, slot, None, key, Late);
          KindCountOfUpdate(table, slot, None, key, Absence);
        }
      case Call(_, _) =>
    }
  }

  /**
   * Every reachable ledger is consistent, whatever the inputs were at each call and whatever the other
   * writers did to their own rows in between.
   */
  lemma {:induction false} ReachableLedgersConsistent(ledger: Books, calls: seq<Call>)
    requires Consistent(ledger)
    ensures Consistent(History(ledger, calls))
  {
    var n := |calls|;
    if n > 0 {
      var before, c := History(ledger, calls[..n - 1]), calls[n - 1];
      ReachableLedgersConsistent(ledger, calls[..n - 1]);
      if c.Call? {
        hide Consistent, Recomputed;
        RecomputeKeepsConsistency(c.inputs, before, c.key);
      } else {
        EditsKeepOneAutoRow(before.deductions, c);
        hide OneAutoRowPerDay, Edited, MonthTotals;
      }
    }
  }

  lemma {:induction false} SumDaysBalance(accruals: map<Key, Accrual>, period: PeriodKey, days: nat)
    requires 1 <= period.month <= 12 && days <= DaysInMonth(period.year, period.month)
    requires DaysBalance(accruals)
    ensures var t := SumDays(accruals, period, days);
            t.total == t.base + t.overtime + t.bonuses + t.kpi - t.deductions
  {
    if days > 0 {
      SumDaysBalance(accruals, period, days - 1);
    }
  }

  lemma PeriodsBalance(ledger: Books, period: PeriodKey)
    requires Consistent(ledger) && period in ledger.periods
    ensures var t := ledger.periods[period];
            t.total == t.base + t.overtime + t.bonuses + t.kpi - t.deductions
  {
    SumDaysBalance(ledger.accruals, period, DaysInMonth(period.year, period.month));
  }

  /**
   * One call touches nothing but its own employee-day: every other slot of the deduction table is
   * as it was, its own slots can only be cleared, and what it appends are automatic rows of the day.
   */
  lemma RecomputeFrame(inputs: Inputs, ledger: Books, key: Key)
    ensures var t := Recomputed(inputs, ledger, key);
            && |ledger.deductions| <= |t.deductions| <= |ledger.deductions| + 2
            && (forall i :: 0 <= i < |ledger.deductions| ==>
                  t.deductions[i] == ledger.deductions[i]
                  || (t.deductions[i] == None && AutoRow(ledger.deductions[i].value) && KeyOf(ledger.deductions[i].value) == key))
            && (forall i :: |ledger.deductions| <= i < |t.deductions| ==>
                  t.deductions[i] == None
                  || (AutoRow(t.deductions[i].value) && KeyOf(t.deductions[i].value) == key))
            && (forall k :: k != key ==> (k in t.accruals <==> k in ledger.accruals)
                                         && (k in t.accruals ==> t.accruals[k] == ledger.accruals[k]))
            && (forall p :: p != PeriodOf(key) ==> (p in t.periods <==> p in ledger.periods)
                                                   && (p in t.periods ==> t.periods[p] == ledger.periods[p]))
  {
    hide LateAmount, AbsenceAmount, Swept, AccrualOf, DeductionTotal, MonthTotals;
  }

  // ---- What the automatic rows say about the log ----------------------------------------------

  predicate Counts(r: Record, from: int, before: int) {
    r.check == CheckIn && !r.rejected && from <= r.timestamp < before
  }

  ghost predicate SomeCounts(log: seq<Record>, from: int, before: int) {
    exists r :: r in log && Counts(r, from, before)
  }

  lemma SomeCountsStep(rest: seq<Record>, last: Record, from: int, before: int)
    ensures SomeCounts(rest + [last], from, before) <==> SomeCounts(rest, from, before) || Counts(last, from, before)
  {
    hide Counts;
    assert last in rest + [last];
    if r :| r in rest && Counts(r, from, before) {
      assert r in rest + [last];
    }
  }

  /** A non-rejected check-in of the employee inside the day. */
  ghost predicate CheckedIn(inputs: Inputs, key: Key) {
    key.employee in inputs.attendance
    && SomeCounts(inputs.attendance[key.employee], DayStart(key.date), DayEnd(key.date))
  }

  lemma SelectStep(log: seq<Record>, from: int, before: int)
    requires |log| > 0
    ensures var n := |log|;
            CheckIns(Select(log, from, before))
            == CheckIns(Select(log[..n - 1], from, before)) + if Counts(log[n - 1], from, before) then 1 else 0
  {
    var n := |log|;
    var selected := Select(log[..n - 1], from, before);
    assert selected + [] == selected && (selected + [log[n - 1]])[..|selected|] == selected;
  }

  lemma {:induction false} SelectedCheckIns(log: seq<Record>, from: int, before: int)
    ensures CheckIns(Select(log, from, before)) > 0 <==> SomeCounts(log, from, before)
  {
    var n := |log|;
    if n > 0 {
      hide Counts, CheckIns, Select, SomeCounts;
      SelectedCheckIns(log[..n - 1], from, before);
      SelectStep(log, from, before);
      SomeCountsStep(log[..n - 1], log[n - 1], from, before);
      assert log == log[..n - 1] + [log[n - 1]];
    }
  }

  /**
   * The absence fine falls exactly on finished days from the hire date on that are workdays of the
   * employee's template, or else of the company, or else Monday to Friday, that are not cancelled, leave
   * or rest in the schedule, and that saw no check-in. It is the daily base.
   */
  lemma AbsenceExactly(inputs: Inputs, key: Key)
    requires key.employee in inputs.employees
    ensures var e := inputs.employees[key.employee];
            var weekday := IsoWeekday(Ordinal(key.date));
            var workday := if e.template.Some? && e.template.value.workingDays != {} then weekday in e.template.value.workingDays
                           else if e.company.workingDays.Some? then weekday in e.company.workingDays.value
                           else 1 <= weekday <= 5;
            AbsenceAmount(inputs, key).Some? <==>
              DayEnd(key.date) <= inputs.now && e.company.absencePenaltyEnabled
              && (e.hireDate.Some? ==> Ordinal(e.hireDate.value) <= Ordinal(key.date)) && workday
              && !(key in inputs.schedule && inputs.schedule[key] in {Cancelled, OnLeave, RestDay})
              && !CheckedIn(inputs, key) && Pricing.PerDayBase(e.pay) > 0
    ensures AbsenceAmount(inputs, key).Some? ==>
              AbsenceAmount(inputs, key).value == Pricing.PerDayBase(inputs.employees[key.employee].pay)
  {
    hide Pricing.PerDayBase;
    if key.employee in inputs.attendance {
      SelectedCheckIns(inputs.attendance[key.employee], DayStart(key.date), DayEnd(key.date));
    }
  }

  /** The lateness fine falls exactly when a rate is set and late minutes were collected since the hire date. */
  lemma LatenessExactly(inputs: Inputs, key: Key)
    requires key.employee in inputs.employees
    ensures var e := inputs.employees[key.employee];
            var minutes := LateTotal(DayRows(inputs, key));
            LateAmount(inputs, key).Some? <==>
              (e.hireDate.Some? ==> Ordinal(e.hireDate.value) <= Ordinal(key.date))
              && e.company.latePenaltyPerMin > 0.0 && minutes > 0
    ensures LateAmount(inputs, key).Some? ==>
              var exact := inputs.employees[key.employee].company.latePenaltyPerMin * LateTotal(DayRows(inputs, key)) as real;
              -1.0 <= 2.0 * (exact - LateAmount(inputs, key).value as real) <= 1.0
  {
    hide DayRows, LateTotal, LatePenalty;
    var e := inputs.employees[key.employee];
    PenaltyIsClose(e.company.latePenaltyPerMin, LateTotal(DayRows(inputs, key)));
  }

  lemma PenaltyIsClose(perMinute: real, minutes: int)
    ensures -1.0 <= 2.0 * (perMinute * minutes as real - LatePenalty(perMinute, minutes) as real) <= 1.0
  {
  }

  /** One late check-in among punctual ones makes all the late minutes; a check-out makes none. */
  lemma {:induction false} OneLateCheckIn(rows: seq<Record>, i: nat)
    requires i < |rows| && forall j :: 0 <= j < |rows| && j != i && rows[j].check == CheckIn ==> rows[j].lateMinutes == 0
    ensures LateTotal(rows) == if rows[i].check == CheckIn then rows[i].lateMinutes else 0
  {
    var n := |rows|;
    if i < n - 1 {
      OneLateCheckIn(rows[..n - 1], i);
    } else {
      NoLateness(rows[..n - 1]);
    }
  }

  lemma {:induction false} NoLateness(rows: seq<Record>)
    requires forall j :: 0 <= j < |rows| && rows[j].check == CheckIn ==> rows[j].lateMinutes == 0
    ensures LateTotal(rows) == 0
  {
    if |rows| > 0 {
      NoLateness(rows[..|rows| - 1]);
    }
  }

  /** A lateness fine presupposes a check-in that day, so the two fines never meet. */
  lemma LateImpliesCheckedIn(inputs: Inputs, key: Key)
    requires key.employee in inputs.employees && LateAmount(inputs, key).Some?
    ensures CheckedIn(inputs, key) && inputs.employees[key.employee].company.latePenaltyPerMin > 0.0
  {
    LateNeedsCheckIn(DayRows(inputs, key));
    if key.employee in inputs.attendance {
      SelectedCheckIns(inputs.attendance[key.employee], DayStart(key.date), DayEnd(key.date));
    }
  }

  /** Marking a day as a rest day moves its hours into overtime and loses none. */
  lemma RestDayConservesHours(inputs: Inputs, key: Key)
    requires key.employee in inputs.employees && IsRestDay(inputs, key)
    ensures var (hours, overtime) := HoursOf(inputs, key);
            var (hours', overtime') := HoursOf(inputs.(schedule := inputs.schedule - {key}), key);
            hours + overtime == hours' + overtime' && (hours' > 0 ==> hours == 0)
  {
  }

  // ---- Hours --------------------------------------------------------------------------------

  lemma {:induction false} SelectSorted(log: seq<Record>, from: int, before: int)
    requires Sorted(log)
    ensures Sorted(Select(log, from, before))
    ensures forall r :: r in Select(log, from, before) ==> r in log && from <= r.timestamp < before && !r.rejected
  {
    if |log| > 0 {
      SelectSorted(log[..|log| - 1], from, before);
    }
  }

  /** No attendance log accrues more than 24.00 hours on a day whose shift ends within the day. */
  lemma AccruedHoursWithinDay(inputs: Inputs, key: Key)
    requires key.employee in inputs.employees
    requires key.employee in inputs.attendance ==> Sorted(inputs.attendance[key.employee])
    requires ShiftEnd(inputs.employees[key.employee]).Some? ==>
               ShiftEnd(inputs.employees[key.employee]).value <= SECONDS_PER_DAY
    ensures 0 <= HoursOf(inputs, key).0 <= 2400
  {
    var rows := DayRows(inputs, key);
    var closeAt := CloseAt(key.date, inputs.now, ShiftEnd(inputs.employees[key.employee]));
    if key.employee in inputs.attendance {
      SelectSorted(inputs.attendance[key.employee], DayStart(key.date), DayEnd(key.date));
    }
    MinutesWithinDay(rows, DayStart(key.date), closeAt);
  }

  // ---- The two screens on one day -------------------------------------------------------------

  /** Every row of the window, rejected ones included: what `today_status` reads. */
  function Shown(log: seq<Record>, from: int, before: int): seq<Record> {
    var n := |log|;
    if n == 0 then []
    else Shown(log[..n - 1], from, before) + if from <= log[n - 1].timestamp < before then [log[n - 1]] else []
  }

  /** Without rejected rows in the window the payroll reads what the screen reads. */
  lemma {:induction false} NothingRejectedNothingHidden(log: seq<Record>, from: int, before: int)
    requires forall r :: r in log && from <= r.timestamp < before ==> !r.rejected
    ensures Select(log, from, before) == Shown(log, from, before)
  {
    if |log| > 0 {
      NothingRejectedNothingHidden(log[..|log| - 1], from, before);
    }
  }

  /** On such a window screen and payroll agree exactly when no check-in lies open in the future. */
  lemma ScreenAgreesOnTheDay(log: seq<Record>, from: int, before: int, now: int)
    requires forall r :: r in log && from <= r.timestamp < before ==> !r.rejected
    ensures var shown := Shown(log, from, before);
            PairedMinutes(shown) + OngoingMinutes(shown, now) == MinutesWorked(Select(log, from, before), now)
            <==> !(OpenSince(shown).Some? && now < OpenSince(shown).value)
  {
    NothingRejectedNothingHidden(log, from, before);
    ScreenAgreesWithPayroll(Shown(log, from, before), now);
  }

  /** The payroll skips a rejected exit and the screen counts it: 120 minutes here, 60 there. */
  lemma RejectedRowSeparatesThem()
    ensures var log := [Record(0, CheckIn, false, 0, 0), Record(3600, CheckOut, true, 0, 0)];
            var shown := Shown(log, 0, 86400);
            MinutesWorked(Select(log, 0, 86400), 7200) == 120
            && PairedMinutes(shown) + OngoingMinutes(shown, 7200) == 60
  {
    var entry, exit := Record(0, CheckIn, false, 0, 0), Record(3600, CheckOut, true, 0, 0);
    var log := [entry, exit];
    assert log[..1] == [entry] && [entry][..0] == [];
    assert Select([entry], 0, 86400) == [] + [entry] && Shown([entry], 0, 86400) == [] + [entry];
    assert Select(log, 0, 86400) == [entry] + [] && Shown(log, 0, 86400) == [entry] + [exit];
    assert [entry] + [] == [entry] && [entry] + [exit] == log;
    assert PairedMinutes(log[..1]) == 0 && Gap(entry, exit) == 60;
  }
}
