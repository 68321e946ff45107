/**
 * The shift-schedule regenerator: a loop over a window of dates that inserts or refreshes the rows it
 * owns and leaves hand-edited rows alone. Dates are `toordinal()` numbers.
 */
module Schedule {
  import opened Options
  import opened Calendar

  type Id = nat

  datatype Status = Planned | Swapped | Cancelled | OnLeave | RestDay

  datatype Row = Row(template: Option<Id>, status: Status, customStart: Option<int>, customEnd: Option<int>)

  /** The template attached to the employee; an inactive one keeps its id but has no working days. */
  datatype Template = Template(id: Id, active: bool, workingDays: set<int>)

  datatype Slot = Slot(employee: Id, date: int)

  type Rows = map<Slot, Row>          // unique per (employee, date)

  // ---- What one date should hold --------------------------------------------------------------

  predicate IsWorkday(template: Option<Template>, date: int) {
    template.Some? && template.value.active && IsoWeekday(date) in template.value.workingDays
  }

  function Target(template: Option<Template>, date: int): Row {
    if IsWorkday(template, date) then Row(Some(template.value.id), Planned, None, None)
    else Row(None, RestDay, None, None)
  }

  /** Custom times, or any status the generator does not produce: the admin's row. */
  predicate Protected(row: Row) {
    row.status !in {Planned, RestDay} || row.customStart.Some? || row.customEnd.Some?
  }

  function Refreshed(row: Option<Row>, target: Row): Row {
    if row.None? then target
    else if Protected(row.value) then row.value
    else row.value.(template := target.template, status := target.status)
  }

  function At(rows: Rows, slot: Slot): Option<Row> {
    if slot in rows then Some(rows[slot]) else None
  }

  function NewRow(rows: Rows, template: Option<Template>, slot: Slot): Row {
    Refreshed(At(rows, slot), Target(template, slot.date))
  }

  // ---- The whole window as one pure map -------------------------------------------------------

  /** Every date of the window refreshed, everything else as it was. */
  function Window(employee: Id, start: int, horizon: int): set<Slot> {
    set d: int | start <= d <= horizon :: Slot(employee, d)
  }

  function Regenerated(rows: Rows, template: Option<Template>, employee: Id, start: int, horizon: int): Rows {
    rows + map slot | slot in Window(employee, start, horizon) :: NewRow(rows, template, slot)
  }

  /** Dates of the window, from the first on, whose row would change. */
  function CountChanges(rows: Rows, template: Option<Template>, employee: Id, start: int, horizon: int): nat
    decreases horizon - start + 1
  {
    if start > horizon then 0
    else
      var slot := Slot(employee, horizon);
      CountChanges(rows, template, employee, start, horizon - 1)
      + if At(rows, slot) == Some(NewRow(rows, template, slot)) then 0 else 1
  }

  // ---- The service ----------------------------------------------------------------------------

  class Planner {
    var rows: Rows
    var templates: map<Id, Option<Template>>     // the template pinned to each known employee

    /** One turn of the loop: the row of one date is inserted, refreshed or left alone. */
    method RefreshDate(existing: Rows, slot: Slot, template: Option<Template>) returns (changed: nat)
      modifies this`rows
      ensures changed == if At(existing, slot) == Some(NewRow(existing, template, slot)) then 0 else 1
      ensures rows == if changed == 0 then old(rows) else old(rows)[slot := NewRow(existing, template, slot)]
    {
      var isWorkday := template.Some? && template.value.active && IsoWeekday(slot.date) in template.value.workingDays;
      var targetStatus := if isWorkday then Planned else RestDay;
      var targetTemplate := if isWorkday then Some(template.value.id) else None;
      changed := 0;
      if slot !in existing {
        rows := rows[slot := Row(targetTemplate, targetStatus, None, None)];
        changed := 1;
      } else {
        var row := existing[slot];
        var hasCustomTimes := row.customStart.Some? || row.customEnd.Some?;
        if row.status in {Planned, RestDay} && !hasCustomTimes {
          if row.template != targetTemplate || row.status != targetStatus {
            rows := rows[slot := row.(template := targetTemplate, status := targetStatus)];
            changed := 1;
          }
        }
      }
    }

    /** An unknown employee has no window; `start` and `horizon` are the first and last date. */
    method RegenerateEmployeeSchedule(employee: Id, start: int, horizon: int) returns (touched: nat)
      modifies this`rows
      ensures employee !in templates ==> rows == old(rows) && touched == 0
      ensures employee in templates ==>
                rows == Regenerated(old(rows), templates[employee], employee, start, horizon)
                && touched == CountChanges(old(rows), templates[employee], employee, start, horizon)
      ensures employee in templates ==> WindowPlanned(old(rows), rows, templates[employee], employee, start, horizon)
    {
      if employee !in templates {
        return 0;
      }
      var template := templates[employee];
      var existing := rows;
      touched := 0;
      var cur := start;
      EmptyWindow(existing, template, employee, start, start - 1);
      hide Regenerated, CountChanges, NewRow, WindowPlanned;
      while cur <= horizon
        invariant start <= cur && (cur <= horizon + 1 || cur == start)
        invariant rows == Regenerated(existing, template, employee, start, cur - 1)
        invariant touched == CountChanges(existing, template, employee, start, cur - 1)
      {
        var slot := Slot(employee, cur);
        ExtendWindow(existing, template, employee, start, cur);
        var changed := RefreshDate(existing, slot, template);
        touched := touched + changed;
        cur := cur + 1;
      }
      if cur != horizon + 1 {
        EmptyWindow(existing, template, employee, start, horizon);
      }
      RegeneratedIsPlanned(existing, template, employee, start, horizon);
    }

    method RegenerateForEmployees(employees: seq<Id>, start: int, horizon: int) returns (total: nat)
      modifies this`rows
      ensures rows == RegeneratedAll(old(rows), templates, employees, start, horizon)
      ensures total == CountAll(old(rows), templates, employees, start, horizon)
    {
      total := 0;
      for i := 0 to |employees|
        invariant rows == RegeneratedAll(old(rows), templates, employees[..i], start, horizon)
        invariant total == CountAll(old(rows), templates, employees[..i], start, horizon)
      {
        var n := RegenerateEmployeeSchedule(employees[i], start, horizon);
        total := total + n;
        assert employees[..i + 1][..i] == employees[..i];
      }
      assert employees[..|employees|] == employees;
    }

    /** `pinned` is what the query for the employees attached to the template returned, in its order. */
    method RegenerateForTemplate(templateId: Id, pinned: seq<Id>, start: int, horizon: int) returns (total: nat)
      requires forall e :: e in pinned <==> Pinned(templates, templateId, e)
      modifies this`rows
      ensures forall slot :: At(rows, slot) ==
                if Pinned(templates, templateId, slot.employee) && start <= slot.date <= horizon
                then Some(NewRow(old(rows), templates[slot.employee], slot)) else At(old(rows), slot)
      ensures total == 0 <==> rows == old(rows)
    {
      hide NewRow, Regenerated, RegeneratedAll, CountAll;
      total := RegenerateForEmployees(pinned, start, horizon);
      forall slot ensures At(rows, slot) ==
          if Pinned(templates, templateId, slot.employee) && start <= slot.date <= horizon
          then Some(NewRow(old(rows), templates[slot.employee], slot)) else At(old(rows), slot)
      {
        FanOutByDate(old(rows), templates, pinned, start, horizon, slot);
      }
      FanOutTouchesNothing(old(rows), templates, pinned, start, horizon);
    }
  }

  predicate Pinned(templates: map<Id, Option<Template>>, templateId: Id, employee: Id) {
    employee in templates && templates[employee].Some? && templates[employee].value.id == templateId
  }

  function RegeneratedAll(rows: Rows, templates: map<Id, Option<Template>>, employees: seq<Id>, start: int, horizon: int): Rows {
    var n := |employees|;
    if n == 0 then rows
    else
      var before := RegeneratedAll(rows, templates, employees[..n - 1], start, horizon);
      if employees[n - 1] in templates
      then Regenerated(before, templates[employees[n - 1]], employees[n - 1], start, horizon) else before
  }

  /** Rows touched by the whole fan-out, one employee after the other. */
  function CountAll(rows: Rows, templates: map<Id, Option<Template>>, employees: seq<Id>, start: int, horizon: int): nat {
    var n := |employees|;
    if n == 0 then 0
    else
      var before := RegeneratedAll(rows, templates, employees[..n - 1], start, horizon);
      CountAll(rows, templates, employees[..n - 1], start, horizon)
      + if employees[n - 1] in templates
        then CountChanges(before, templates[employees[n - 1]], employees[n - 1], start, horizon) else 0
  }

  lemma EmptyWindow(rows: Rows, template: Option<Template>, employee: Id, start: int, horizon: int)
    requires horizon < start
    ensures Regenerated(rows, template, employee, start, horizon) == rows
    ensures CountChanges(rows, template, employee, start, horizon) == 0
  {
  }

  lemma ExtendWindow(rows: Rows, template: Option<Template>, employee: Id, start: int, date: int)
    requires start <= date
    ensures var slot := Slot(employee, date);
            var before := Regenerated(rows, template, employee, start, date - 1);
            var after := Regenerated(rows, template, employee, start, date);
            && after == before[slot := NewRow(rows, template, slot)]
            && At(before, slot) == At(rows, slot)
            && (At(rows, slot) == Some(NewRow(rows, template, slot)) ==> after == before)
            && CountChanges(rows, template, employee, start, date)
               == CountChanges(rows, template, employee, start, date - 1)
                  + if At(rows, slot) == Some(NewRow(rows, template, slot)) then 0 else 1
  {
    hide NewRow;
    var slot := Slot(employee, date);
    var small, large := Window(employee, start, date - 1), Window(employee, start, date);
    assert large == small + {slot};
    var before := Regenerated(rows, template, employee, start, date - 1);
    var after := Regenerated(rows, template, employee, start, date);
    assert after == before[slot := NewRow(rows, template, slot)];
  }

  // ---- Consequences ---------------------------------------------------------------------------

  /** An admin's row: a status the generator does not produce, or times of its own. */
  predicate HandMade(rows: Rows, slot: Slot) {
    slot in rows && (rows[slot].status in {Swapped, Cancelled, OnLeave} || rows[slot].customStart != None || rows[slot].customEnd != None)
  }

  /** The date is planned: shown with the template when it is one of its weekdays, as a rest day without it otherwise. */
  ghost predicate PlannedDay(row: Row, template: Option<Template>, date: int) {
    if template.Some? && template.value.active && IsoWeekday(date) in template.value.workingDays
    then row == Row(Some(template.value.id), Planned, None, None)
    else row == Row(None, RestDay, None, None)
  }

  /** Every date of the window is planned, or holds the row an admin made, unchanged. */
  ghost predicate WindowPlanned(before: Rows, after: Rows, template: Option<Template>, employee: Id, start: int, horizon: int) {
    forall date :: start <= date <= horizon ==>
      var slot := Slot(employee, date);
      slot in after && if HandMade(before, slot) then after[slot] == before[slot] else PlannedDay(after[slot], template, date)
  }

  lemma RefreshedIsPlanned(rows: Rows, template: Option<Template>, slot: Slot)
    ensures HandMade(rows, slot) ==> NewRow(rows, template, slot) == rows[slot]
    ensures !HandMade(rows, slot) ==> PlannedDay(NewRow(rows, template, slot), template, slot.date)
  {
    hide IsoWeekday;
    if slot in rows && !HandMade(rows, slot) {
      assert rows[slot].status.Planned? || rows[slot].status.RestDay?;
      assert !Protected(rows[slot]);
    }
  }

  lemma RegeneratedIsPlanned(rows: Rows, template: Option<Template>, employee: Id, start: int, horizon: int)
    ensures WindowPlanned(rows, Regenerated(rows, template, employee, start, horizon), template, employee, start, horizon)
  {
    forall date | start <= date <= horizon
      ensures var slot, r := Slot(employee, date), Regenerated(rows, template, employee, start, horizon);
              slot in r && if HandMade(rows, slot) then r[slot] == rows[slot] else PlannedDay(r[slot], template, date)
    {
      RegeneratedAt(rows, template, employee, start, horizon, Slot(employee, date));
      RefreshedIsPlanned(rows, template, Slot(employee, date));
      hide HandMade, PlannedDay, NewRow, Regenerated;
    }
  }

  /** What a reader finds afterwards, date by date. */
  lemma RegenerationByDate(rows: Rows, template: Option<Template>, employee: Id, start: int, horizon: int, slot: Slot)
    ensures var r := Regenerated(rows, template, employee, start, horizon);
            var inside := slot.employee == employee && start <= slot.date <= horizon;
            && (inside ==> slot in r)
            && (!inside ==> At(r, slot) == At(rows, slot))
            && (inside && slot in rows && Protected(rows[slot]) ==> r[slot] == rows[slot])
            && (inside && !(slot in rows && Protected(rows[slot])) ==> r[slot] == Target(template, slot.date))
  {
    if slot.employee == employee && start <= slot.date <= horizon {
      assert slot in Window(employee, start, horizon);
    }
  }

  /** `touched` is zero exactly when the schedule already is what regeneration makes of it. */
  lemma {:induction false} NoChangesMeansSame(rows: Rows, template: Option<Template>, employee: Id, start: int, horizon: int)
    ensures CountChanges(rows, template, employee, start, horizon) == 0
            <==> Regenerated(rows, template, employee, start, horizon) == rows
    decreases horizon - start + 1
  {
    if start > horizon {
      EmptyWindow(rows, template, employee, start, horizon);
    } else {
      hide Regenerated, NewRow, CountChanges;
      NoChangesMeansSame(rows, template, employee, start, horizon - 1);
      ExtendWindow(rows, template, employee, start, horizon);
      var slot, before := Slot(employee, horizon), Regenerated(rows, template, employee, start, horizon - 1);
      assert before[slot := NewRow(rows, template, slot)] == rows && At(before, slot) == At(rows, slot) ==> before == rows by {
        if before[slot := NewRow(rows, template, slot)] == rows && At(before, slot) == At(rows, slot) {
          assert before == before[slot := rows[slot]];
        }
      }
    }
  }

  /** Dates of the window whose rows differ. */
  function Differing(before: Rows, after: Rows, employee: Id, start: int, horizon: int): (r: set<int>)
    ensures forall d :: d in r <==> start <= d <= horizon && At(after, Slot(employee, d)) != At(before, Slot(employee, d))
  {
    set d: int | start <= d <= horizon && At(after, Slot(employee, d)) != At(before, Slot(employee, d))
  }

  lemma OneMoreDate(rows: Rows, template: Option<Template>, employee: Id, start: int, horizon: int)
    requires start <= horizon
    ensures var slot := Slot(employee, horizon);
            Differing(rows, Regenerated(rows, template, employee, start, horizon), employee, start, horizon)
            == Differing(rows, Regenerated(rows, template, employee, start, horizon - 1), employee, start, horizon - 1)
               + if At(rows, slot) == Some(NewRow(rows, template, slot)) then {} else {horizon}
  {
    var after, before := Regenerated(rows, template, employee, start, horizon), Regenerated(rows, template, employee, start, horizon - 1);
    forall d: int | start <= d <= horizon
      ensures At(after, Slot(employee, d)) == Some(NewRow(rows, template, Slot(employee, d)))
              && (d < horizon ==> At(before, Slot(employee, d)) == At(after, Slot(employee, d)))
    {
      RegeneratedAt(rows, template, employee, start, horizon, Slot(employee, d));
      RegeneratedAt(rows, template, employee, start, horizon - 1, Slot(employee, d));
    }
    hide Regenerated, NewRow, At;
  }

  /** `touched` is the number of rows that differ afterwards. */
  lemma {:induction false} TouchedCountsDifferences(rows: Rows, template: Option<Template>, employee: Id, start: int, horizon: int)
    ensures CountChanges(rows, template, employee, start, horizon)
            == |Differing(rows, Regenerated(rows, template, employee, start, horizon), employee, start, horizon)|
    decreases horizon - start + 1
  {
    var all := Differing(rows, Regenerated(rows, template, employee, start, horizon), employee, start, horizon);
    if start > horizon {
      assert all == {};
    } else {
      TouchedCountsDifferences(rows, template, employee, start, horizon - 1);
      OneMoreDate(rows, template, employee, start, horizon);
      hide Regenerated, NewRow, At;
    }
  }

  lemma SameRows(a: Rows, b: Rows)
    requires forall s :: At(a, s) == At(b, s)
    ensures a == b
  {
    forall s ensures (s in a <==> s in b) && (s in a ==> a[s] == b[s]) {
      assert At(a, s) == At(b, s);
    }
  }

  /** A later template on a window that covers the earlier one erases every trace of the earlier one. */
  lemma LastTemplateWins(rows: Rows, t1: Option<Template>, t2: Option<Template>, employee: Id, start: int, horizon: int,
                         wideStart: int, wideHorizon: int)
    requires wideStart <= start && horizon <= wideHorizon
    ensures Regenerated(Regenerated(rows, t1, employee, start, horizon), t2, employee, wideStart, wideHorizon)
            == Regenerated(rows, t2, employee, wideStart, wideHorizon)
  {
    var once := Regenerated(rows, t1, employee, start, horizon);
    var twice := Regenerated(once, t2, employee, wideStart, wideHorizon);
    var alone := Regenerated(rows, t2, employee, wideStart, wideHorizon);
    forall slot ensures At(twice, slot) == At(alone, slot) {
      RegenerationByDate(rows, t1, employee, start, horizon, slot);
      RegenerationByDate(once, t2, employee, wideStart, wideHorizon, slot);
      RegenerationByDate(rows, t2, employee, wideStart, wideHorizon, slot);
    }
    SameRows(twice, alone);
  }

  /** A second run of the same regeneration touches nothing. */
  lemma SecondRunTouchesNothing(rows: Rows, template: Option<Template>, employee: Id, start: int, horizon: int)
    ensures CountChanges(Regenerated(rows, template, employee, start, horizon), template, employee, start, horizon) == 0
  {
    LastTemplateWins(rows, template, template, employee, start, horizon, start, horizon);
    NoChangesMeansSame(Regenerated(rows, template, employee, start, horizon), template, employee, start, horizon);
  }

  lemma RefreshTwice(row: Option<Row>, target: Row)
    requires target.customStart.None? && target.customEnd.None?
    ensures Refreshed(Some(Refreshed(row, target)), target) == Refreshed(row, target)
  {
  }

  /**
   * A fan-out date by date: each listed employee's window is refreshed once from the row it had, every
   * other row is as before. The order of the list and repeated employees leave no trace.
   */
  lemma {:induction false} FanOutByDate(rows: Rows, templates: map<Id, Option<Template>>, employees: seq<Id>,
                                        start: int, horizon: int, slot: Slot)
    ensures At(RegeneratedAll(rows, templates, employees, start, horizon), slot) ==
              if slot.employee in employees && slot.employee in templates && start <= slot.date <= horizon
              then Some(NewRow(rows, templates[slot.employee], slot)) else At(rows, slot)
  {
    var n := |employees|;
    if n > 0 {
      var last := employees[n - 1];
      FanOutByDate(rows, templates, employees[..n - 1], start, horizon, slot);
      assert employees == employees[..n - 1] + [last];
      if last in templates {
        var before := RegeneratedAll(rows, templates, employees[..n - 1], start, horizon);
        RegeneratedAt(before, templates[last], last, start, horizon, slot);
        RefreshTwice(At(rows, slot), Target(templates[last], slot.date));
      }
      hide Regenerated, Refreshed, Target;
    }
  }

  lemma RegeneratedAt(rows: Rows, template: Option<Template>, employee: Id, start: int, horizon: int, slot: Slot)
    ensures At(Regenerated(rows, template, employee, start, horizon), slot) ==
              if slot.employee == employee && start <= slot.date <= horizon
              then Some(NewRow(rows, template, slot)) else At(rows, slot)
  {
  }

  /** A fan-out that changes nothing in all changes nothing at any of its steps. */
  lemma PrefixUnchanged(rows: Rows, templates: map<Id, Option<Template>>, employees: seq<Id>, start: int, horizon: int)
    requires |employees| > 0 && RegeneratedAll(rows, templates, employees, start, horizon) == rows
    ensures RegeneratedAll(rows, templates, employees[..|employees| - 1], start, horizon) == rows
  {
    hide RegeneratedAll, NewRow;
    var first := employees[..|employees| - 1];
    var before := RegeneratedAll(rows, templates, first, start, horizon);
    forall slot ensures At(before, slot) == At(rows, slot) {
      FanOutByDate(rows, templates, employees, start, horizon, slot);
      FanOutByDate(rows, templates, first, start, horizon, slot);
    }
    SameRows(before, rows);
  }

  /** The fan-out's count is zero exactly when it left the schedule as it was. */
  lemma {:induction false} FanOutTouchesNothing(rows: Rows, templates: map<Id, Option<Template>>, employees: seq<Id>,
                                                start: int, horizon: int)
    ensures CountAll(rows, templates, employees, start, horizon) == 0
            <==> RegeneratedAll(rows, templates, employees, start, horizon) == rows
  {
    hide CountChanges, Regenerated;
    var n := |employees|;
    if n > 0 {
      FanOutTouchesNothing(rows, templates, employees[..n - 1], start, horizon);
      if employees[n - 1] in templates {
        NoChangesMeansSame(rows, templates[employees[n - 1]], employees[n - 1], start, horizon);
      }
      if RegeneratedAll(rows, templates, employees, start, horizon) == rows {
        PrefixUnchanged(rows, templates, employees, start, horizon);
      }
    }
  }

  /** Regenerations of different employees do not interfere, so a fan-out may visit them in any order. */
  lemma EmployeesIndependent(rows: Rows, t1: Option<Template>, t2: Option<Template>, e1: Id, e2: Id, start: int, horizon: int)
    requires e1 != e2
    ensures Regenerated(Regenerated(rows, t1, e1, start, horizon), t2, e2, start, horizon)
            == Regenerated(Regenerated(rows, t2, e2, start, horizon), t1, e1, start, horizon)
  {
    var a, b := Regenerated(rows, t1, e1, start, horizon), Regenerated(rows, t2, e2, start, horizon);
    forall slot ensures At(Regenerated(a, t2, e2, start, horizon), slot) == At(Regenerated(b, t1, e1, start, horizon), slot) {
      RegenerationByDate(rows, t1, e1, start, horizon, slot);
      RegenerationByDate(rows, t2, e2, start, horizon, slot);
      RegenerationByDate(a, t2, e2, start, horizon, slot);
      RegenerationByDate(b, t1, e1, start, horizon, slot);
    }
    SameRows(Regenerated(a, t2, e2, start, horizon), Regenerated(b, t1, e1, start, horizon));
  }
}
