/**
 * The bridge from KPI assignments to the payroll: approving writes or refreshes a bonus or deduction
 * row linked to the assignment, rejecting deletes it, and the payroll recomputes in between.
 */
module Settlement {
  import opened Options
  import opened Calendar
  import opened Ledger
  import opened Confluence
  import LedgerInvariant
  import Decimals
  import Reward

  datatype Status = Draft | Active | Computed | Approved | Paid | Rejected | Cancelled | Completed

  datatype Assignment = Assignment(
    employee: Id, year: int, month: int, status: Status,
    reward: int, isPenalty: bool,
    bonus: Option<nat>, deduction: Option<nat>)

  /** `bonusesMade` and `deductionsMade` record which slots a settlement inserted; the code keeps no such record. */
  datatype State = State(
    assignments: map<Id, Assignment>,
    bonuses: Table<Bonus>,
    ledger: Books,
    bonusesMade: set<nat>,
    deductionsMade: set<nat>)

  function LastDayOfPeriod(year: int, month: int): Date
    requires 1 <= month <= 12
  {
    if month < 12 then PreviousDay(Date(year, month + 1, 1)) else Date(year, 12, 31)
  }

  /** The last day of the month, leap years included: the day before the next month begins. */
  lemma LastDayIsInPeriod(year: int, month: int)
    requires 1 <= month <= 12
    ensures LastDayOfPeriod(year, month) == Date(year, month, DaysInMonth(year, month))
    ensures Ordinal(LastDayOfPeriod(year, month)) + 1
            == Ordinal(if month < 12 then Date(year, month + 1, 1) else Date(year + 1, 1, 1))
  {
    if month < 12 {
      PreviousDayOrdinal(Date(year, month + 1, 1));
    } else {
      PreviousDayOrdinal(Date(year + 1, 1, 1));
    }
  }

  /** The schema keeps months within 1..12; any other month has no last day and is given a default. */
  function LastDay(year: int, month: int): Date {
    if 1 <= month <= 12 then LastDayOfPeriod(year, month) else Date(year, 1, 1)
  }

  /** The row a link points to, if the row is still there. */
  predicate Live<T>(table: Table<T>, link: Option<nat>) {
    link.Some? && link.value < |table| && table[link.value].Some?
  }

  function SettleBonus(s: State, id: Id, amount: int): (t: State)
    requires id in s.assignments
    ensures t.assignments.Keys == s.assignments.Keys
  {
    var a := s.assignments[id];
    if amount <= 0 then s
    else if Live(s.bonuses, a.bonus) then
      var i := a.bonus.value;
      s.(bonuses := s.bonuses[i := Some(s.bonuses[i].value.(amount := amount, date := LastDay(a.year, a.month)))])
    else
      s.(bonuses := s.bonuses + [Some(Bonus(a.employee, LastDay(a.year, a.month), Kpi, amount))],
         assignments := s.assignments[id := a.(bonus := Some(|s.bonuses|))],
         bonusesMade := s.bonusesMade + {|s.bonuses|})
  }

  function SettleDeduction(s: State, id: Id, amount: int): (t: State)
    requires id in s.assignments
    ensures t.assignments.Keys == s.assignments.Keys
  {
    var a := s.assignments[id];
    var table := s.ledger.deductions;
    if amount <= 0 then s
    else if Live(table, a.deduction) then
      var i := a.deduction.value;
      s.(ledger := s.ledger.(deductions := table[i := Some(table[i].value.(amount := amount, date := LastDay(a.year, a.month)))]))
    else
      s.(ledger := s.ledger.(deductions := table + [Some(Deduction(a.employee, LastDay(a.year, a.month), Penalty, amount, true))]),
         assignments := s.assignments[id := a.(deduction := Some(|table|))],
         deductionsMade := s.deductionsMade + {|table|})
  }

  datatype Event =
    | Recompute(id: Id, outcome: Option<(int, bool)>)     // None: the formula or the engine failed
    | Approve(id: Id, override: Option<int>)
    | Reject(id: Id)
    | SetStatus(id: Id, status: Status)                    // a manager's edit, or a cancellation
    | AddBonus(bonus: Bonus)                               // a manual bonus
    | AddDeduction(deduction: Deduction)                   // a manual deduction
    | Payroll(inputs: Inputs, key: Key)                    // a recompute of one employee-day

  /** Percent of the target reached, rounded to hundredths. */
  function Score(actual: real, target: real): real
    requires target > 0.0
  {
    Decimals.HalfEven(actual / target * 100.0 * 100.0) as real / 100.0
  }

  /** Reward and sign of a recompute: the assignment's own target counts when it is positive. */
  function Outcome(template: Reward.Template, base: nat, target: Option<real>, actual: Option<real>): Option<(int, bool)> {
    if actual.None? then None
    else
      var divisor := if target.Some? && target.value > 0.0 then target.value else template.target;
      var score := if divisor > 0.0 then Score(actual.value, divisor) else 0.0;
      Some((Reward.Reward(template, score, base), Reward.IsPenalty(template)))
  }

  function Recompute'(a: Assignment, outcome: Option<(int, bool)>): Assignment {
    if outcome.None? then a
    else a.(reward := outcome.value.0, isPenalty := outcome.value.1,
            status := if a.status in {Draft, Active} then Computed else a.status)
  }

  function Approve'(s: State, id: Id, override: Option<int>): State
    requires id in s.assignments
  {
    var final := if override.Some? then override.value else s.assignments[id].reward;
    var approved := s.(assignments := s.assignments[id := s.assignments[id].(reward := final, status := Approved)]);
    var settled := if s.assignments[id].isPenalty then SettleDeduction(approved, id, final)
                   else SettleBonus(approved, id, final);
    settled.(assignments := settled.assignments[id := settled.assignments[id].(status := Paid)])
  }

  function Drop<T>(table: Table<T>, link: Option<nat>): Table<T> {
    if link.Some? && link.value < |table| then table[link.value := None] else table
  }

  function Reject'(s: State, id: Id): State
    requires id in s.assignments
  {
    var a := s.assignments[id];
    s.(bonuses := Drop(s.bonuses, a.bonus),
       ledger := s.ledger.(deductions := Drop(s.ledger.deductions, a.deduction)),
       assignments := s.assignments[id := a.(bonus := None, deduction := None, status := Rejected)])
  }

  function Step(s: State, e: Event): State {
    match e
    case Recompute(id, outcome) =>
      if id in s.assignments then s.(assignments := s.assignments[id := Recompute'(s.assignments[id], outcome)]) else s
    case Approve(id, override) => if id in s.assignments then Approve'(s, id, override) else s
    case Reject(id) => if id in s.assignments then Reject'(s, id) else s
    case SetStatus(id, status) =>
      if id in s.assignments then s.(assignments := s.assignments[id := s.assignments[id].(status := status)]) else s
    case AddBonus(b) => s.(bonuses := s.bonuses + [Some(b)])
    case AddDeduction(d) => if d.auto then s else s.(ledger := s.ledger.(deductions := s.ledger.deductions + [Some(d)]))
    case Payroll(inputs, key) => s.(ledger := Recomputed(inputs.(bonuses := s.bonuses), s.ledger, key))
  }

  function Run(s: State, events: seq<Event>): State {
    var n := |events|;
    if n == 0 then s else Step(Run(s, events[..n - 1]), events[n - 1])
  }

  // ---- The service ----------------------------------------------------------------------------

  class KpiService {
    var assignments: map<Id, Assignment>
    var bonuses: Table<Bonus>
    var ledger: Books
    ghost var bonusesMade: set<nat>
    ghost var deductionsMade: set<nat>

    ghost function View(): State
      reads this
    {
      State(assignments, bonuses, ledger, bonusesMade, deductionsMade)
    }

    method SettleBonusRow(id: Id, amount: int) returns (row: Option<nat>)
      requires id in assignments
      modifies this
      ensures View() == SettleBonus(old(View()), id, amount)
      ensures row.Some? <==> amount > 0
      ensures row.Some? ==> assignments[id].bonus == row && Live(bonuses, row) && bonuses[row.value].value.amount == amount
    {
      if amount <= 0 {
        return None;
      }
      var a := assignments[id];
      if a.bonus.Some? && a.bonus.value < |bonuses| && bonuses[a.bonus.value].Some? {
        var old_ := bonuses[a.bonus.value].value;
        bonuses := bonuses[a.bonus.value := Some(old_.(amount := amount, date := LastDay(a.year, a.month)))];
        return a.bonus;
      }
      row := Some(|bonuses|);
      bonusesMade := bonusesMade + {|bonuses|};
      bonuses := bonuses + [Some(Bonus(a.employee, LastDay(a.year, a.month), Kpi, amount))];
      assignments := assignments[id := a.(bonus := row)];
    }

    method SettleDeductionRow(id: Id, amount: int) returns (row: Option<nat>)
      requires id in assignments
      modifies this
      ensures View() == SettleDeduction(old(View()), id, amount)
      ensures row.Some? <==> amount > 0
      ensures row.Some? ==> assignments[id].deduction == row && Live(ledger.deductions, row)
                            && ledger.deductions[row.value].value.amount == amount
    {
      if amount <= 0 {
        return None;
      }
      var a, table := assignments[id], ledger.deductions;
      if a.deduction.Some? && a.deduction.value < |table| && table[a.deduction.value].Some? {
        var old_ := table[a.deduction.value].value;
        ledger := ledger.(deductions := table[a.deduction.value := Some(old_.(amount := amount, date := LastDay(a.year, a.month)))]);
        return a.deduction;
      }
      row := Some(|table|);
      deductionsMade := deductionsMade + {|table|};
      ledger := ledger.(deductions := table + [Some(Deduction(a.employee, LastDay(a.year, a.month), Penalty, amount, true))]);
      assignments := assignments[id := a.(deduction := row)];
    }

    /** `actual` is the value of the formula, `None` when checking or evaluating it failed. */
    method RecomputeAssignment(id: Id, template: Reward.Template, base: nat, target: Option<real>, actual: Option<real>)
      requires id in assignments
      modifies this`assignments
      ensures View() == Step(old(View()), Recompute(id, Outcome(template, base, target, actual)))
      ensures actual.None? ==> View() == old(View())
      ensures actual.Some? && Reward.WithinSchema(template) ==> 0 <= assignments[id].reward
      ensures actual.Some? ==> assignments[id].isPenalty == Reward.IsPenalty(template)
      ensures assignments[id].bonus == old(assignments[id].bonus) && assignments[id].deduction == old(assignments[id].deduction)
    {
      hide Reward.Reward, Reward.WithinSchema, Reward.Disjoint;
      if actual.Some? {
        var divisor := if target.Some? && target.value > 0.0 then target.value else template.target;
        var score := if divisor > 0.0 then Score(actual.value, divisor) else 0.0;
        var reward, isPenalty := Reward.ComputeReward(template, score, base);
        var a := assignments[id].(reward := reward, isPenalty := isPenalty);
        if a.status in {Draft, Active} {
          a := a.(status := Computed);
        }
        assignments := assignments[id := a];
      } else {
        assert assignments[id := assignments[id]] == assignments;
      }
    }

    method ApproveAssignment(id: Id, override: Option<int>)
      requires id in assignments
      modifies this
      ensures View() == Step(old(View()), Approve(id, override))
    {
      var final := if override.Some? then override.value else assignments[id].reward;
      var isPenalty := assignments[id].isPenalty;
      assignments := assignments[id := assignments[id].(reward := final, status := Approved)];
      if isPenalty {
        var _ := SettleDeductionRow(id, final);
      } else {
        var _ := SettleBonusRow(id, final);
      }
      assignments := assignments[id := assignments[id].(status := Paid)];
    }

    method RejectAssignment(id: Id)
      requires id in assignments
      modifies this
      ensures View() == Step(old(View()), Reject(id))
    {
      var a := assignments[id];
      if a.bonus.Some? {
        if a.bonus.value < |bonuses| {
          bonuses := bonuses[a.bonus.value := None];
        }
        a := a.(bonus := None);
      }
      if a.deduction.Some? {
        if a.deduction.value < |ledger.deductions| {
          ledger := ledger.(deductions := ledger.deductions[a.deduction.value := None]);
        }
        a := a.(deduction := None);
      }
      assignments := assignments[id := a.(status := Rejected)];
    }
  }

  // ---- Conservation ---------------------------------------------------------------------------

  predicate BonusFits(a: Assignment, b: Bonus) {
    b.kind == Kpi && b.employee == a.employee && b.date == LastDay(a.year, a.month) && b.amount > 0
  }

  predicate DeductionFits(a: Assignment, d: Deduction) {
    d.kind == Penalty && d.auto && d.employee == a.employee && d.date == LastDay(a.year, a.month) && d.amount > 0
  }

  /** Links and the live rows among the slots a settlement made are in one-to-one correspondence. */
  ghost predicate OneToOne<T>(links: map<Id, nat>, table: Table<T>, made: set<nat>) {
    && (forall i :: i in made ==> i < |table|)
    && (forall id :: id in links ==> links[id] in made && table[links[id]].Some?)
    && (forall id, id' :: id in links && id' in links && id != id' ==> links[id] != links[id'])
    && (forall i :: i in made && table[i].Some? ==> exists id :: id in links && links[id] == i)
  }

  lemma LinkNewRow<T>(links: map<Id, nat>, table: Table<T>, made: set<nat>, id: Id, row: T)
    requires OneToOne(links, table, made) && id !in links
    ensures OneToOne(links[id := |table|], table + [Some(row)], made + {|table|})
  {
    var links', table' := links[id := |table|], table + [Some(row)];
    forall i | i in made + {|table|} && table'[i].Some? ensures exists k :: k in links' && links'[k] == i {
      if i == |table| {
        assert links'[id] == i;
      } else {
        var k :| k in links && links[k] == i;
        assert links'[k] == i;
      }
    }
  }

  lemma RefreshRow<T>(links: map<Id, nat>, table: Table<T>, made: set<nat>, id: Id, row: T)
    requires OneToOne(links, table, made) && id in links
    ensures OneToOne(links, table[links[id] := Some(row)], made)
  {
  }

  lemma DropRow<T>(links: map<Id, nat>, table: Table<T>, made: set<nat>, id: Id)
    requires OneToOne(links, table, made) && id in links
    ensures OneToOne(links - {id}, table[links[id] := None], made)
  {
    var links', table' := links - {id}, table[links[id] := None];
    forall i | i in made && table'[i].Some? ensures exists k :: k in links' && links'[k] == i {
      var k :| k in links && links[k] == i;
      assert links'[k] == i;
    }
  }

  lemma ForeignRows<T>(links: map<Id, nat>, table: Table<T>, made: set<nat>, table': Table<T>)
    requires OneToOne(links, table, made) && |table| <= |table'|
    requires forall i :: i in made ==> table'[i] == table[i]
    ensures OneToOne(links, table', made)
  {
  }

  ghost function BonusLinks(s: State): map<Id, nat> {
    map id | id in s.assignments && s.assignments[id].bonus.Some? :: s.assignments[id].bonus.value
  }

  ghost function DeductionLinks(s: State): map<Id, nat> {
    map id | id in s.assignments && s.assignments[id].deduction.Some? :: s.assignments[id].deduction.value
  }

  /** Each linked row carries its assignment's employee and the last day of its month. */
  ghost predicate BonusRowsFit(s: State) {
    forall id :: id in s.assignments && Live(s.bonuses, s.assignments[id].bonus) ==>
      BonusFits(s.assignments[id], s.bonuses[s.assignments[id].bonus.value].value)
  }

  ghost predicate DeductionRowsFit(s: State) {
    forall id :: id in s.assignments && Live(s.ledger.deductions, s.assignments[id].deduction) ==>
      DeductionFits(s.assignments[id], s.ledger.deductions[s.assignments[id].deduction.value].value)
  }

  ghost predicate BonusSide(s: State) {
    OneToOne(BonusLinks(s), s.bonuses, s.bonusesMade) && BonusRowsFit(s)
  }

  ghost predicate DeductionSide(s: State) {
    OneToOne(DeductionLinks(s), s.ledger.deductions, s.deductionsMade) && DeductionRowsFit(s)
  }

  /** The invariant: bonuses and deductions each match the assignments that hold a link. */
  ghost predicate Matched(s: State) { BonusSide(s) && DeductionSide(s) }

  lemma BonusFrame(s: State, t: State)
    requires BonusSide(s) && t.bonusesMade == s.bonusesMade && s.assignments.Keys == t.assignments.Keys
    requires forall id :: id in s.assignments ==>
               var a, b := s.assignments[id], t.assignments[id];
               a.bonus == b.bonus && a.employee == b.employee && a.year == b.year && a.month == b.month
    requires |s.bonuses| <= |t.bonuses| && forall i :: i in s.bonusesMade ==> t.bonuses[i] == s.bonuses[i]
    ensures BonusSide(t)
  {
    hide LastDay;
    assert BonusLinks(t) == BonusLinks(s);
    ForeignRows(BonusLinks(s), s.bonuses, s.bonusesMade, t.bonuses);
    forall id | id in t.assignments && Live(t.bonuses, t.assignments[id].bonus)
      ensures BonusFits(t.assignments[id], t.bonuses[t.assignments[id].bonus.value].value)
    {
      assert BonusLinks(s)[id] in s.bonusesMade;
    }
  }

  lemma DeductionFrame(s: State, t: State)
    requires DeductionSide(s) && t.deductionsMade == s.deductionsMade && s.assignments.Keys == t.assignments.Keys
    requires forall id :: id in s.assignments ==>
               var a, b := s.assignments[id], t.assignments[id];
               a.deduction == b.deduction && a.employee == b.employee && a.year == b.year && a.month == b.month
    requires |s.ledger.deductions| <= |t.ledger.deductions|
    requires forall i :: i in s.deductionsMade ==> t.ledger.deductions[i] == s.ledger.deductions[i]
    ensures DeductionSide(t)
  {
    hide LastDay;
    assert DeductionLinks(t) == DeductionLinks(s);
    ForeignRows(DeductionLinks(s), s.ledger.deductions, s.deductionsMade, t.ledger.deductions);
    forall id | id in t.assignments && Live(t.ledger.deductions, t.assignments[id].deduction)
      ensures DeductionFits(t.assignments[id], t.ledger.deductions[t.assignments[id].deduction.value].value)
    {
      assert DeductionLinks(s)[id] in s.deductionsMade;
    }
  }

  lemma SettleBonusKeepsMatch(s: State, id: Id, amount: int)
    requires Matched(s) && id in s.assignments
    ensures Matched(SettleBonus(s, id, amount))
  {
    hide OneToOne, LastDay;
    var t, a, links := SettleBonus(s, id, amount), s.assignments[id], BonusLinks(s);
    assert DeductionSide(t) by { DeductionFrame(s, t); }
    if amount <= 0 {
    } else if a.bonus.Some? {
      assert links[id] == a.bonus.value;
      LinkIsLive(links, s.bonuses, s.bonusesMade, id);
      assert BonusLinks(t) == links;
      RefreshRow(links, s.bonuses, s.bonusesMade, id, t.bonuses[a.bonus.value].value);
      forall k | k in s.assignments && s.assignments[k].bonus == a.bonus ensures k == id {
        LinkIsUnique(links, s.bonuses, s.bonusesMade, k, id);
      }
    } else {
      assert BonusLinks(t) == links[id := |s.bonuses|];
      LinkNewRow(links, s.bonuses, s.bonusesMade, id, t.bonuses[|s.bonuses|].value);
      forall k | k in t.assignments && k != id && Live(t.bonuses, t.assignments[k].bonus)
        ensures BonusFits(t.assignments[k], t.bonuses[t.assignments[k].bonus.value].value)
      {
        assert k in links && links[k] == s.assignments[k].bonus.value;
        LinkIsLive(links, s.bonuses, s.bonusesMade, k);
      }
    }
  }

  lemma LinkIsLive<T>(links: map<Id, nat>, table: Table<T>, made: set<nat>, id: Id)
    requires OneToOne(links, table, made) && id in links
    ensures links[id] in made && Live(table, Some(links[id]))
  {
  }

  lemma LinkIsUnique<T>(links: map<Id, nat>, table: Table<T>, made: set<nat>, id: Id, id': Id)
    requires OneToOne(links, table, made) && id in links && id' in links && links[id] == links[id']
    ensures id == id'
  {
  }

  lemma SettleDeductionKeepsMatch(s: State, id: Id, amount: int)
    requires Matched(s) && id in s.assignments
    ensures Matched(SettleDeduction(s, id, amount))
  {
    hide OneToOne, LastDay;
    var t, a, links := SettleDeduction(s, id, amount), s.assignments[id], DeductionLinks(s);
    var table := s.ledger.deductions;
    assert BonusSide(t) by { BonusFrame(s, t); }
    if amount <= 0 {
    } else if a.deduction.Some? {
      assert links[id] == a.deduction.value;
      LinkIsLive(links, table, s.deductionsMade, id);
      assert DeductionLinks(t) == links;
      RefreshRow(links, table, s.deductionsMade, id, t.ledger.deductions[a.deduction.value].value);
      forall k | k in s.assignments && s.assignments[k].deduction == a.deduction ensures k == id {
        LinkIsUnique(links, table, s.deductionsMade, k, id);
      }
    } else {
      assert DeductionLinks(t) == links[id := |table|];
      LinkNewRow(links, table, s.deductionsMade, id, t.ledger.deductions[|table|].value);
      forall k | k in t.assignments && k != id && Live(t.ledger.deductions, t.assignments[k].deduction)
        ensures DeductionFits(t.assignments[k], t.ledger.deductions[t.assignments[k].deduction.value].value)
      {
        assert k in links && links[k] == s.assignments[k].deduction.value;
        LinkIsLive(links, table, s.deductionsMade, k);
      }
    }
  }

  lemma ApproveKeepsMatch(s: State, id: Id, override: Option<int>)
    requires Matched(s) && id in s.assignments
    ensures Matched(Approve'(s, id, override))
  {
    hide BonusSide, DeductionSide, SettleBonus, SettleDeduction;
    var final := if override.Some? then override.value else s.assignments[id].reward;
    var approved := s.(assignments := s.assignments[id := s.assignments[id].(reward := final, status := Approved)]);
    FrameKeepsMatch(s, approved);
    if s.assignments[id].isPenalty {
      SettleDeductionKeepsMatch(approved, id, final);
      FrameKeepsMatch(SettleDeduction(approved, id, final), Approve'(s, id, override));
    } else {
      SettleBonusKeepsMatch(approved, id, final);
      FrameKeepsMatch(SettleBonus(approved, id, final), Approve'(s, id, override));
    }
  }

  lemma DropLinked<T>(links: map<Id, nat>, table: Table<T>, made: set<nat>, id: Id, link: Option<nat>)
    requires OneToOne(links, table, made)
    requires id in links <==> link.Some?
    requires link.Some? ==> links[id] == link.value
    ensures OneToOne(links - {id}, Drop(table, link), made)
  {
    if link.Some? {
      DropRow(links, table, made, id);
    } else {
      assert links - {id} == links;
    }
  }

  lemma RejectKeepsBonusSide(s: State, id: Id)
    requires BonusSide(s) && id in s.assignments
    ensures BonusSide(Reject'(s, id))
  {
    hide OneToOne, LastDay;
    var t, links: map<Id, nat> := Reject'(s, id), BonusLinks(s);
    assert BonusLinks(t) == links - {id};
    DropLinked(links, s.bonuses, s.bonusesMade, id, s.assignments[id].bonus);
  }

  lemma RejectKeepsDeductionSide(s: State, id: Id)
    requires DeductionSide(s) && id in s.assignments
    ensures DeductionSide(Reject'(s, id))
  {
    hide OneToOne, LastDay;
    var t, links: map<Id, nat> := Reject'(s, id), DeductionLinks(s);
    assert DeductionLinks(t) == links - {id};
    DropLinked(links, s.ledger.deductions, s.deductionsMade, id, s.assignments[id].deduction);
  }

  lemma RejectKeepsMatch(s: State, id: Id)
    requires Matched(s) && id in s.assignments
    ensures Matched(Reject'(s, id))
  {
    RejectKeepsBonusSide(s, id);
    RejectKeepsDeductionSide(s, id);
  }

  /** The payroll sweeps only automatic LATE and ABSENCE rows, and a settlement row is neither. */
  lemma PayrollKeepsMatch(s: State, inputs: Inputs, key: Key)
    requires Matched(s)
    ensures Matched(Step(s, Payroll(inputs, key)))
  {
    var t := Step(s, Payroll(inputs, key));
    LedgerInvariant.RecomputeFrame(inputs.(bonuses := s.bonuses), s.ledger, key);
    hide Recomputed;
    forall i | i in s.deductionsMade ensures t.ledger.deductions[i] == s.ledger.deductions[i] {
      if s.ledger.deductions[i].Some? {
        var id :| id in DeductionLinks(s) && DeductionLinks(s)[id] == i;
        assert DeductionFits(s.assignments[id], s.ledger.deductions[i].value);
      }
    }
    FrameKeepsMatch(s, t);
  }

  /** Nothing a settlement relies on changed: links, employees, months and the rows in its slots. */
  lemma FrameKeepsMatch(s: State, t: State)
    requires Matched(s) && s.assignments.Keys == t.assignments.Keys
    requires forall id :: id in s.assignments ==>
               var a, b := s.assignments[id], t.assignments[id];
               a.bonus == b.bonus && a.deduction == b.deduction && a.employee == b.employee && a.year == b.year && a.month == b.month
    requires t == s.(assignments := t.assignments, bonuses := t.bonuses, ledger := t.ledger)
    requires |s.bonuses| <= |t.bonuses| && |s.ledger.deductions| <= |t.ledger.deductions|
    requires forall i :: i in s.bonusesMade ==> t.bonuses[i] == s.bonuses[i]
    requires forall i :: i in s.deductionsMade ==> t.ledger.deductions[i] == s.ledger.deductions[i]
    ensures Matched(t)
  {
    BonusFrame(s, t);
    DeductionFrame(s, t);
  }

  lemma StepKeepsMatch(s: State, e: Event)
    requires Matched(s)
    ensures Matched(Step(s, e))
  {
    match e
    case Recompute(_, _) => FrameKeepsMatch(s, Step(s, e));
    case Approve(id, override) => if id in s.assignments { ApproveKeepsMatch(s, id, override); }
    case Reject(id) => if id in s.assignments { RejectKeepsMatch(s, id); }
    case SetStatus(_, _) => FrameKeepsMatch(s, Step(s, e));
    case AddBonus(_) => FrameKeepsMatch(s, Step(s, e));
    case AddDeduction(_) => FrameKeepsMatch(s, Step(s, e));
    case Payroll(inputs, key) => PayrollKeepsMatch(s, inputs, key);
  }

  /** The correspondence holds after any run of recompute, approve, reject, manual rows and payroll. */
  lemma {:induction false} SettlementConserved(s: State, events: seq<Event>)
    requires Matched(s)
    ensures Matched(Run(s, events))
  {
    hide Matched, Step;
    var n := |events|;
    if n > 0 {
      SettlementConserved(s, events[..n - 1]);
      StepKeepsMatch(Run(s, events[..n - 1]), events[n - 1]);
    }
  }

  /** Nothing is linked and nothing was settled yet: the state every company starts from. */
  lemma StartsMatched(s: State)
    requires s.bonusesMade == {} && s.deductionsMade == {}
    requires forall id :: id in s.assignments ==> s.assignments[id].bonus == None && s.assignments[id].deduction == None
    ensures Matched(s)
  {
  }

  /** In a matched state a held link always points to a live row. */
  lemma HeldLinksAreLive(s: State, id: Id)
    requires Matched(s) && id in s.assignments
    ensures s.assignments[id].bonus.Some? ==> Live(s.bonuses, s.assignments[id].bonus)
    ensures s.assignments[id].deduction.Some? ==> Live(s.ledger.deductions, s.assignments[id].deduction)
  {
    assert s.assignments[id].bonus.Some? ==> id in BonusLinks(s);
    assert s.assignments[id].deduction.Some? ==> id in DeductionLinks(s);
  }

  /** Approval with a positive amount leaves the linked row paying exactly the approved reward. */
  lemma ApprovalPaysTheReward(s: State, id: Id, override: Option<int>)
    requires Matched(s) && id in s.assignments
    ensures var t := Approve'(s, id, override);
            var a := t.assignments[id];
            && a.status == Paid
            && a.reward == (if override.Some? then override.value else s.assignments[id].reward)
            && (a.reward > 0 && !a.isPenalty ==> Live(t.bonuses, a.bonus) && t.bonuses[a.bonus.value].value.amount == a.reward)
            && (a.reward > 0 && a.isPenalty ==>
                  Live(t.ledger.deductions, a.deduction) && t.ledger.deductions[a.deduction.value].value.amount == a.reward)
            && (a.reward <= 0 ==> t.bonuses == s.bonuses && t.ledger == s.ledger && a.bonus == s.assignments[id].bonus)
  {
  }

  /** Approving twice, with whatever amounts, never leaves two bonuses: the second refreshes the first. */
  lemma ReapprovalRefreshes(s: State, id: Id, first: int, second: int)
    requires Matched(s) && id in s.assignments && !s.assignments[id].isPenalty && first > 0 && second > 0
    ensures var t := Approve'(s, id, Some(first));
            var u := Approve'(t, id, Some(second));
            u.assignments[id].bonus == t.assignments[id].bonus && |u.bonuses| == |t.bonuses| && u.bonusesMade == t.bonusesMade
  {
  }

  /**
   * One assignment can pay on both sides: an approval settles its own side and never looks at the
   * other, so both rows stand exactly when the other side was linked before.
   */
  lemma BothSidesIffOtherWasLinked(s: State, id: Id, override: Option<int>)
    requires Matched(s) && id in s.assignments && Approve'(s, id, override).assignments[id].reward > 0
    ensures var t := Approve'(s, id, override);
            var a, was := t.assignments[id], s.assignments[id];
            Live(t.bonuses, a.bonus) && Live(t.ledger.deductions, a.deduction)
            <==> if was.isPenalty then was.bonus.Some? else was.deduction.Some?
  {
    HeldLinksAreLive(s, id);
  }

  /**
   * A failing run: a reward of 100 is approved, a manager reopens the assignment, the next recompute
   * makes it a penalty of 40, and approving that leaves the bonus and the deduction standing.
   */
  lemma BothSidesStand(s: State, id: Id)
    requires s.bonusesMade == {} && s.deductionsMade == {} && id in s.assignments
    requires forall other :: other in s.assignments ==>
               s.assignments[other].bonus == None && s.assignments[other].deduction == None
    ensures var t := Run(s, [Recompute(id, Some((100, false))), Approve(id, None), SetStatus(id, Active),
                             Recompute(id, Some((40, true))), Approve(id, None)]);
            id in t.assignments &&
            var a := t.assignments[id];
            && Matched(t) && a.bonus == Some(|s.bonuses|) && a.deduction == Some(|s.ledger.deductions|)
            && Live(t.bonuses, a.bonus) && t.bonuses[a.bonus.value].value.amount == 100
            && Live(t.ledger.deductions, a.deduction) && t.ledger.deductions[a.deduction.value].value.amount == 40
  {
    var e1, e2, e3, e4 := Recompute(id, Some((100, false))), Approve(id, None), SetStatus(id, Active), Recompute(id, Some((40, true)));
    StartsMatched(s);
    SettlementConserved(s, [e1, e2, e3, e4, e2]);
    RunOfFive(s, e1, e2, e3, e4, e2);
    var open_ := Step(s, e1);
    FirstApproval(open_, id);
    var reopened := Step(Step(Step(open_, e2), e3), e4);
    assert reopened.assignments[id].bonus == Some(|s.bonuses|) && reopened.ledger == s.ledger;
    FirstApproval(reopened, id);
    hide Matched, Approve', Reject', Recomputed, LastDay, Run;
  }

  /** An approval that finds no link on its side inserts the row and links it, and leaves the other side alone. */
  lemma FirstApproval(s: State, id: Id)
    requires id in s.assignments && s.assignments[id].reward > 0
    requires if s.assignments[id].isPenalty then s.assignments[id].deduction == None else s.assignments[id].bonus == None
    ensures var a, t := s.assignments[id], Approve'(s, id, None);
            if a.isPenalty then
              && t.assignments == s.assignments[id := a.(deduction := Some(|s.ledger.deductions|), status := Paid)]
              && t.bonuses == s.bonuses
              && t.ledger.deductions
                 == s.ledger.deductions + [Some(Deduction(a.employee, LastDay(a.year, a.month), Penalty, a.reward, true))]
            else
              && t.assignments == s.assignments[id := a.(bonus := Some(|s.bonuses|), status := Paid)]
              && t.ledger == s.ledger
              && t.bonuses == s.bonuses + [Some(Bonus(a.employee, LastDay(a.year, a.month), Kpi, a.reward))]
  {
    hide LastDay;
  }

  lemma RunSnoc(s: State, events: seq<Event>, e: Event)
    ensures Run(s, events + [e]) == Step(Run(s, events), e)
  {
    assert (events + [e])[..|events|] == events;
  }

  lemma RunOfFive(s: State, e1: Event, e2: Event, e3: Event, e4: Event, e5: Event)
    ensures Run(s, [e1, e2, e3, e4, e5]) == Step(Step(Step(Step(Step(s, e1), e2), e3), e4), e5)
  {
    RunSnoc(s, [], e1);
    RunSnoc(s, [e1], e2);
    RunSnoc(s, [e1, e2], e3);
    RunSnoc(s, [e1, e2, e3], e4);
    RunSnoc(s, [e1, e2, e3, e4], e5);
    hide Step;
    assert [] + [e1] == [e1] && [e1] + [e2] == [e1, e2] && [e1, e2] + [e3] == [e1, e2, e3];
    assert [e1, e2, e3] + [e4] == [e1, e2, e3, e4] && [e1, e2, e3, e4] + [e5] == [e1, e2, e3, e4, e5];
    assert Run(s, []) == s;
  }

  /**
   * The route in front of the service approves open assignments only. Otherwise a status is set by a
   * cancellation, or at month's end, from ACTIVE to COMPUTED.
   */
  ghost predicate Guarded(s: State, e: Event) {
    && (e.Approve? && e.id in s.assignments ==> s.assignments[e.id].status !in {Paid, Rejected, Status.Cancelled})
    && (e.SetStatus? ==>
          e.status == Status.Cancelled
          || (e.status == Computed && e.id in s.assignments && s.assignments[e.id].status == Active))
  }

  /** At most one side is linked, and none while the assignment is open. */
  predicate OneSide(a: Assignment) {
    (a.bonus == None || a.deduction == None)
    && (a.status !in {Paid, Status.Cancelled} ==> a.bonus == None && a.deduction == None)
  }

  lemma GuardedStep(s: State, e: Event)
    requires Guarded(s, e) && forall id :: id in s.assignments ==> OneSide(s.assignments[id])
    ensures forall id :: id in Step(s, e).assignments ==> OneSide(Step(s, e).assignments[id])
  {
    hide LastDay, Recomputed;
  }

  /** Behind that guard no assignment ever pays on both sides. */
  lemma {:induction false} GuardedNeverBoth(s: State, events: seq<Event>)
    requires forall id :: id in s.assignments ==> OneSide(s.assignments[id])
    requires forall k :: 0 <= k < |events| ==> Guarded(Run(s, events[..k]), events[k])
    ensures forall id :: id in Run(s, events).assignments ==> OneSide(Run(s, events).assignments[id])
  {
    hide Step, Guarded, OneSide;
    var n := |events|;
    if n > 0 {
      assert forall k :: 0 <= k < n - 1 ==> events[..n - 1][..k] == events[..k];
      GuardedNeverBoth(s, events[..n - 1]);
      GuardedStep(Run(s, events[..n - 1]), events[n - 1]);
    }
  }

  // ---- Does the money follow the reward? ------------------------------------------------------

  /** The amount of the row a settlement wrote for the assignment on one side, if it stands. */
  function LinkedAmount(s: State, id: Id, penalty: bool): Option<int> {
    if id !in s.assignments then None
    else if penalty then
      var link := s.assignments[id].deduction;
      if Live(s.ledger.deductions, link) then Some(s.ledger.deductions[link.value].value.amount) else None
    else
      var link := s.assignments[id].bonus;
      if Live(s.bonuses, link) then Some(s.bonuses[link.value].value.amount) else None
  }

  /** Neither an approval nor a rejection of this assignment. */
  predicate Unsettling(e: Event, id: Id) {
    !(e.Approve? && e.id == id) && !(e.Reject? && e.id == id)
  }

  /** Two assignments never share a row. */
  lemma OwnRows(s: State, id: Id, other: Id)
    requires Matched(s) && id in s.assignments && other in s.assignments && id != other
    ensures s.assignments[id].bonus.Some? ==> s.assignments[id].bonus != s.assignments[other].bonus
    ensures s.assignments[id].deduction.Some? ==> s.assignments[id].deduction != s.assignments[other].deduction
  {
    hide BonusRowsFit, DeductionRowsFit;
    if s.assignments[id].bonus.Some? && s.assignments[other].bonus.Some? {
      assert BonusLinks(s)[id] != BonusLinks(s)[other];
    }
    if s.assignments[id].deduction.Some? && s.assignments[other].deduction.Some? {
      assert DeductionLinks(s)[id] != DeductionLinks(s)[other];
    }
  }

  /** Approving another assignment leaves the rows linked here as they are. */
  lemma OtherApproval(s: State, id: Id, other: Id, override: Option<int>)
    requires Matched(s) && id in s.assignments && other in s.assignments && id != other
    ensures var t := Approve'(s, other, override);
            && id in t.assignments && t.assignments[id] == s.assignments[id]
            && (s.assignments[id].bonus.Some? ==> LinkedAmount(t, id, false) == LinkedAmount(s, id, false))
            && (s.assignments[id].deduction.Some? ==> LinkedAmount(t, id, true) == LinkedAmount(s, id, true))
  {
    OwnRows(s, id, other);
    HeldLinksAreLive(s, id);
    hide Matched, LastDay;
  }

  lemma OtherRejection(s: State, id: Id, other: Id)
    requires Matched(s) && id in s.assignments && other in s.assignments && id != other
    ensures var t := Reject'(s, other);
            && id in t.assignments && t.assignments[id] == s.assignments[id]
            && (s.assignments[id].bonus.Some? ==> LinkedAmount(t, id, false) == LinkedAmount(s, id, false))
            && (s.assignments[id].deduction.Some? ==> LinkedAmount(t, id, true) == LinkedAmount(s, id, true))
  {
    OwnRows(s, id, other);
    HeldLinksAreLive(s, id);
    hide Matched;
  }

  /** Other assignments' settlements, status edits, manual rows and payroll leave the linked rows as they are. */
  lemma RowsStay(s: State, e: Event, id: Id)
    requires Matched(s) && id in s.assignments && Unsettling(e, id)
    ensures var t := Step(s, e);
            && id in t.assignments
            && t.assignments[id].bonus == s.assignments[id].bonus && t.assignments[id].deduction == s.assignments[id].deduction
            && (s.assignments[id].bonus.Some? ==> LinkedAmount(t, id, false) == LinkedAmount(s, id, false))
            && (s.assignments[id].deduction.Some? ==> LinkedAmount(t, id, true) == LinkedAmount(s, id, true))
  {
    HeldLinksAreLive(s, id);
    match e
    case Approve(other, override) => if other in s.assignments { OtherApproval(s, id, other, override); }
    case Reject(other) => if other in s.assignments { OtherRejection(s, id, other); }
    case Payroll(inputs, key) => if s.assignments[id].deduction.Some? { DeductionOutlivesPayroll(s, inputs, key, id); }
    case _ =>
    hide Matched, Approve', Reject', Recomputed;
  }

  lemma DeductionOutlivesPayroll(s: State, inputs: Inputs, key: Key, id: Id)
    requires Matched(s) && id in s.assignments && s.assignments[id].deduction.Some?
    ensures var t := Step(s, Payroll(inputs, key));
            LinkedAmount(t, id, true) == LinkedAmount(s, id, true) && t.assignments == s.assignments
  {
    hide LastDay, Recomputed, OneToOne;
    HeldLinksAreLive(s, id);
    assert DeductionFits(s.assignments[id], s.ledger.deductions[s.assignments[id].deduction.value].value);
    LedgerInvariant.RecomputeFrame(inputs.(bonuses := s.bonuses), s.ledger, key);
  }

  /** The last recompute of the assignment that succeeded, if there is one, came to this reward and sign. */
  ghost predicate LastOutcomeWas(events: seq<Event>, id: Id, outcome: (int, bool)) {
    (exists i :: 0 <= i < |events| && events[i] == Recompute(id, Some(outcome)) && forall j :: i < j < |events| ==> !Rescores(events[j], id))
    || forall i :: 0 <= i < |events| ==> !Rescores(events[i], id)
  }

  predicate Rescores(e: Event, id: Id) { e.Recompute? && e.id == id && e.outcome.Some? }

  function Standing(s: State, id: Id): (int, bool)
    requires id in s.assignments
  {
    (s.assignments[id].reward, s.assignments[id].isPenalty)
  }

  lemma StandingStep(s: State, e: Event, id: Id)
    requires id in s.assignments && Unsettling(e, id)
    ensures id in Step(s, e).assignments
    ensures Standing(Step(s, e), id) == if Rescores(e, id) then e.outcome.value else Standing(s, id)
  {
    hide LastDay, Recomputed;
  }

  lemma LastOutcomeOf(events: seq<Event>, e: Event, id: Id, outcome: (int, bool))
    ensures LastOutcomeWas(events + [e], id, outcome)
            <==> if Rescores(e, id) then e.outcome.value == outcome else LastOutcomeWas(events, id, outcome)
  {
    var more := events + [e];
    assert forall i :: 0 <= i < |events| ==> more[i] == events[i];
    assert more[|events|] == e;
  }

  /** A linked row on the side of the assignment's sign: what an approval with a positive reward leaves. */
  predicate Settled(s: State, id: Id) {
    id in s.assignments && (if s.assignments[id].isPenalty then s.assignments[id].deduction.Some? else s.assignments[id].bonus.Some?)
    && LinkedAmount(s, id, s.assignments[id].isPenalty) == Some(s.assignments[id].reward)
  }

  lemma ApprovalSettles(s: State, id: Id, override: Option<int>)
    requires Matched(s) && id in s.assignments && Approve'(s, id, override).assignments[id].reward > 0
    ensures Matched(Approve'(s, id, override)) && Settled(Approve'(s, id, override), id)
    ensures Standing(Approve'(s, id, override), id)
            == (if override.Some? then override.value else s.assignments[id].reward, s.assignments[id].isPenalty)
  {
    ApproveKeepsMatch(s, id, override);
    ApprovalPaysTheReward(s, id, override);
    hide LastDay;
  }

  /**
   * After a settlement the row keeps its amount through anything but an approval or rejection of the
   * assignment, cancellation included. So it still pays the assignment's reward, on the right side,
   * exactly when the last successful recompute since came to the settled reward and sign, or none came.
   */
  lemma {:induction false} InSyncIff(s: State, id: Id, later: seq<Event>)
    requires Matched(s) && Settled(s, id) && forall e :: e in later ==> Unsettling(e, id)
    ensures Matched(Run(s, later)) && id in Run(s, later).assignments
    ensures var penalty := s.assignments[id].isPenalty;
            var (t, row) := (Run(s, later), if penalty then s.assignments[id].deduction else s.assignments[id].bonus);
            && (if penalty then t.assignments[id].deduction else t.assignments[id].bonus) == row
            && LinkedAmount(t, id, penalty) == Some(s.assignments[id].reward)
            && (Standing(t, id) == Standing(s, id) <==> LastOutcomeWas(later, id, Standing(s, id)))
  {
    var n := |later|;
    if n > 0 {
      var rest, last := later[..n - 1], later[n - 1];
      InSyncIff(s, id, rest);
      assert later == rest + [last] && last in later;
      var t := Run(s, rest);
      StepKeepsMatch(t, last);
      StandingStep(t, last, id);
      LastOutcomeOf(rest, last, id, Standing(s, id));
      RowsStay(t, last, id);
      hide Matched, Step, LinkedAmount, LastOutcomeWas, Rescores, Unsettling;
    }
  }

  /** A failing run: 100 is approved and paid, the score drops to 40, the assignment is cancelled, and the bonus stays 100. */
  lemma BonusOutlivesItsReward(s: State, id: Id)
    requires Matched(s) && id in s.assignments
    ensures var settled := Approve'(Step(s, Recompute(id, Some((100, false)))), id, None);
            var t := Run(settled, [Recompute(id, Some((40, false))), SetStatus(id, Status.Cancelled)]);
            id in t.assignments && t.assignments[id].reward == 40 && t.assignments[id].status == Status.Cancelled
            && LinkedAmount(t, id, false) == Some(100)
  {
    var e0, e1, e2 := Recompute(id, Some((100, false))), Recompute(id, Some((40, false))), SetStatus(id, Status.Cancelled);
    StepKeepsMatch(s, e0);
    StandingStep(s, e0, id);
    var open_ := Step(s, e0);
    ApprovalSettles(open_, id, None);
    var settled := Approve'(open_, id, None);
    InSyncIff(settled, id, [e1, e2]);
    RunSnoc(settled, [e1], e2);
    RunSnoc(settled, [], e1);
    assert [] + [e1] == [e1] && [e1] + [e2] == [e1, e2] && Run(settled, []) == settled;
    RescoredThenCancelled(settled, id);
    hide Matched, Approve', LinkedAmount, Run, Step;
  }

  lemma RescoredThenCancelled(s: State, id: Id)
    requires id in s.assignments
    ensures var t := Step(Step(s, Recompute(id, Some((40, false)))), SetStatus(id, Status.Cancelled));
            id in t.assignments && t.assignments[id].reward == 40 && t.assignments[id].status == Status.Cancelled
  {
  }

  lemma RejectionLeavesNeither(s: State, id: Id)
    requires Matched(s) && id in s.assignments
    ensures var t := Reject'(s, id);
            && t.assignments[id].bonus == None && t.assignments[id].deduction == None
            && !Live(t.bonuses, s.assignments[id].bonus)
            && !Live(t.ledger.deductions, s.assignments[id].deduction)
  {
  }

  // ---- Scores ---------------------------------------------------------------------------------

  lemma PercentOf(ratio: real)
    ensures -1.0 <= 200.0 * (Decimals.HalfEven(ratio * 100.0 * 100.0) as real / 100.0 - 100.0 * ratio) <= 1.0
    ensures ratio == 1.0 ==> Decimals.HalfEven(ratio * 100.0 * 100.0) == 10000
    ensures ratio == 0.0 ==> Decimals.HalfEven(ratio * 100.0 * 100.0) == 0
  {
  }

  lemma Ratios(actual: real, target: real)
    requires target > 0.0
    ensures actual == target ==> actual / target == 1.0
    ensures actual == 0.0 ==> actual / target == 0.0
  {
  }

  /** The score is the percentage of the target reached, to half a hundredth of a percent. */
  lemma ScoreIsPercentOfTarget(actual: real, target: real)
    requires target > 0.0
    ensures -1.0 <= 200.0 * (Score(actual, target) - 100.0 * (actual / target)) <= 1.0
    ensures actual == target ==> Score(actual, target) == 100.0
    ensures actual == 0.0 ==> Score(actual, target) == 0.0
  {
    PercentOf(actual / target);
    Ratios(actual, target);
    hide Decimals.HalfEven;
  }

  /** A positive target of the assignment counts, else the template's; without either the score is 0. */
  lemma TargetChosen(template: Reward.Template, base: nat, target: Option<real>, actual: real)
    ensures var o := Outcome(template, base, target, Some(actual));
            && o.Some? && o.value.1 == (template.rewardType == Reward.PenaltyPercent)
            && (target.Some? && target.value > 0.0 ==> o.value.0 == Reward.Reward(template, Score(actual, target.value), base))
            && ((target.None? || target.value <= 0.0) && template.target > 0.0 ==>
                  o.value.0 == Reward.Reward(template, Score(actual, template.target), base))
            && ((target.None? || target.value <= 0.0) && template.target <= 0.0 ==> o.value.0 == Reward.Reward(template, 0.0, base))
    ensures Outcome(template, base, target, None) == None
  {
    hide Score, Reward.Reward;
  }

  /** A recompute moves DRAFT and ACTIVE to COMPUTED and no other status, and touches no other assignment and no row. */
  lemma RecomputeMovesOnlyItsOwn(s: State, id: Id, outcome: Option<(int, bool)>)
    requires id in s.assignments
    ensures var t := Step(s, Recompute(id, outcome));
            && t.bonuses == s.bonuses && t.ledger == s.ledger && t.assignments.Keys == s.assignments.Keys
            && (forall other :: other in s.assignments && other != id ==> t.assignments[other] == s.assignments[other])
            && (outcome.None? ==> t.assignments[id] == s.assignments[id])
            && (outcome.Some? ==>
                  var a, was := t.assignments[id], s.assignments[id];
                  && (a.reward, a.isPenalty) == outcome.value && a.bonus == was.bonus && a.deduction == was.deduction
                  && a.status == if was.status == Draft || was.status == Active then Computed else was.status)
  {
  }

  /** Approval ends PAID, rejection REJECTED, and neither touches another assignment. */
  lemma ApproveAndRejectEnd(s: State, id: Id, override: Option<int>)
    requires id in s.assignments
    ensures var t := Approve'(s, id, override);
            t.assignments[id].status == Paid && t.assignments[id].isPenalty == s.assignments[id].isPenalty
            && forall other :: other in s.assignments && other != id ==> other in t.assignments && t.assignments[other] == s.assignments[other]
    ensures var t := Reject'(s, id);
            t.assignments[id].status == Rejected
            && forall other :: other in s.assignments && other != id ==> other in t.assignments && t.assignments[other] == s.assignments[other]
  {
    hide LastDay;
  }
}
