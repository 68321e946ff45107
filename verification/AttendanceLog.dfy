/**
 * The attendance log and its writers: check-in and check-out on the server's clock, face-device events
 * carrying the device's own timestamp, possibly late or out of order, and an admin's corrections. Times are integer
 * seconds; the local zone is a fixed offset.
 */
module AttendanceLog {
  import opened Options
  import opened WorkedTime
  import opened Calendar

  type Id = nat

  const LOCAL_OFFSET := 18000                // UTC+5

  datatype RecordStatus = Valid | Suspicious | Rejected

  datatype Entry = Entry(
    employee: Id, timestamp: int, check: CheckType, status: RecordStatus,
    isLate: bool, lateMinutes: int, isEarlyLeave: bool, overtimeMinutes: int)

  datatype Error = MethodDisabled | AlreadyCheckedIn | NoActiveCheckIn | OnLeaveToday | OutsideGeofence | FaceMismatch

  /** What a call finds outside the log: toggles, leave, location, and the day's shift in seconds of day. */
  datatype Context = Context(
    methodEnabled: bool, onLeave: bool, mobile: bool, inGeofence: bool, faceMatches: bool,
    shiftStart: Option<int>, shiftEnd: Option<int>, allowOvertime: bool)

  function LocalDay(timestamp: int): int { (timestamp + LOCAL_OFFSET) / SECONDS_PER_DAY }

  function LocalMidnight(day: int): int { day * SECONDS_PER_DAY - LOCAL_OFFSET }

  predicate OnDay(e: Entry, employee: Id, day: int) {
    e.employee == employee && LocalMidnight(day) <= e.timestamp < LocalMidnight(day + 1)
  }

  lemma OnDayIsLocalDay(e: Entry, employee: Id, day: int)
    ensures OnDay(e, employee, day) <==> e.employee == employee && LocalDay(e.timestamp) == day
  {
  }

  /** `_last_record_today`: the day's latest row, the later-inserted one on equal timestamps. */
  function LastToday(log: seq<Entry>, employee: Id, day: int): Option<Entry> {
    var n := |log|;
    if n == 0 then None
    else
      var rest := LastToday(log[..n - 1], employee, day);
      var e := log[n - 1];
      if OnDay(e, employee, day) && (rest.None? || rest.value.timestamp <= e.timestamp) then Some(e) else rest
  }

  /** The employee's latest row of any day. */
  function LastEver(log: seq<Entry>, employee: Id): Option<Entry> {
    var n := |log|;
    if n == 0 then None
    else
      var rest := LastEver(log[..n - 1], employee);
      var e := log[n - 1];
      if e.employee == employee && (rest.None? || rest.value.timestamp <= e.timestamp) then Some(e) else rest
  }

  function LateMinutes(timestamp: int, shiftStart: Option<int>): int {
    if shiftStart.Some? && LocalMidnight(LocalDay(timestamp)) + shiftStart.value < timestamp
    then (timestamp - LocalMidnight(LocalDay(timestamp)) - shiftStart.value) / 60
    else 0
  }

  predicate AfterStart(timestamp: int, shiftStart: Option<int>) {
    shiftStart.Some? && LocalMidnight(LocalDay(timestamp)) + shiftStart.value < timestamp
  }

  function CheckIn'(log: seq<Entry>, employee: Id, now: int, c: Context): Result<Entry, Error> {
    var last := LastToday(log, employee, LocalDay(now));
    if !c.methodEnabled then Err(MethodDisabled)
    else if last.Some? && last.value.check == CheckIn then Err(AlreadyCheckedIn)
    else if c.onLeave then Err(OnLeaveToday)
    else if c.mobile && !c.inGeofence then Err(OutsideGeofence)
    else if c.mobile && !c.faceMatches then Err(FaceMismatch)
    else
      var late := if last.None? then LateMinutes(now, c.shiftStart) else 0;
      Ok(Entry(employee, now, CheckIn, if c.inGeofence then Valid else Suspicious, late > 0, late, false, 0))
  }

  function CheckOut'(log: seq<Entry>, employee: Id, now: int, c: Context): Result<Entry, Error> {
    var last := LastToday(log, employee, LocalDay(now));
    if !c.methodEnabled then Err(MethodDisabled)
    else if last.None? || last.value.check != CheckIn then Err(NoActiveCheckIn)
    else if c.onLeave then Err(OnLeaveToday)
    else if c.mobile && !c.inGeofence then Err(OutsideGeofence)
    else if c.mobile && !c.faceMatches then Err(FaceMismatch)
    else
      var past := now - LocalMidnight(LocalDay(now)) - (if c.shiftEnd.Some? then c.shiftEnd.value else 0);
      var overtime := if c.shiftEnd.Some? && past > 0 && c.allowOvertime then past / 60 else 0;
      var early := c.shiftEnd.Some? && past < 0;
      Ok(Entry(employee, now, CheckOut, if c.inGeofence then Valid else Suspicious, false, 0, early, overtime))
  }

  datatype Role = EntryDoor | ExitDoor | Either

  /** A face event; `known` and `enabled` say whether the employee resolves and the company accepts devices. */
  datatype FaceEvent = FaceEvent(
    employee: Id, timestamp: int, role: Role, lowScore: bool, known: bool, enabled: bool, shiftStart: Option<int>)

  function DecideCheckType(log: seq<Entry>, e: FaceEvent): CheckType {
    match e.role
    case EntryDoor => CheckIn
    case ExitDoor => CheckOut
    case Either =>
      var last := LastEver(log, e.employee);
      if last.None? || last.value.check == CheckOut then CheckIn else CheckOut
  }

  function FaceMatch'(log: seq<Entry>, e: FaceEvent): Option<Entry> {
    if !e.enabled || !e.known then None
    else
      var last := LastEver(log, e.employee);
      var suspicious := e.lowScore || (last.Some? && e.timestamp - last.value.timestamp < 60);
      var check := DecideCheckType(log, e);
      var first := check == CheckIn && LastToday(log, e.employee, LocalDay(e.timestamp)).None?;
      Some(Entry(e.employee, e.timestamp, check, if suspicious then Suspicious else Valid,
                 first && AfterStart(e.timestamp, e.shiftStart),
                 if first then LateMinutes(e.timestamp, e.shiftStart) else 0, false, 0))
  }

  // ---- The services ---------------------------------------------------------------------------

  class Log {
    var records: seq<Entry>

    method CheckInForEmployee(employee: Id, now: int, c: Context) returns (result: Result<Entry, Error>)
      modifies this
      ensures result == CheckIn'(old(records), employee, now, c)
      ensures records == if result.Ok? then old(records) + [result.value] else old(records)
      ensures result.Ok? && (result.value.isLate || result.value.lateMinutes > 0) ==>
                forall e :: e in old(records) ==> !OnDay(e, employee, LocalDay(now))
    {
      LastTodayNone(records, employee, LocalDay(now));
      if !c.methodEnabled {
        return Err(MethodDisabled);
      }
      var today := LocalDay(now);
      var lastToday := LastToday(records, employee, today);
      if lastToday.Some? && lastToday.value.check == CheckIn {
        return Err(AlreadyCheckedIn);
      }
      if c.onLeave {
        return Err(OnLeaveToday);
      }
      var isLate, lateMinutes := false, 0;
      if lastToday.None? && c.shiftStart.Some? {
        var diff := now - (LocalMidnight(today) + c.shiftStart.value);
        if diff > 0 {
          lateMinutes := diff / 60;
          isLate := lateMinutes > 0;
        }
      }
      if c.mobile && !c.inGeofence {
        return Err(OutsideGeofence);
      }
      if c.mobile && !c.faceMatches {
        return Err(FaceMismatch);
      }
      var rec := Entry(employee, now, CheckIn, if c.inGeofence then Valid else Suspicious, isLate, lateMinutes, false, 0);
      records := records + [rec];
      result := Ok(rec);
    }

    method CheckOutForEmployee(employee: Id, now: int, c: Context) returns (result: Result<Entry, Error>)
      modifies this
      ensures result == CheckOut'(old(records), employee, now, c)
      ensures records == if result.Ok? then old(records) + [result.value] else old(records)
      ensures result.Ok? ==> exists e :: e in old(records) && OnDay(e, employee, LocalDay(now)) && e.check == CheckIn
    {
      LastTodayNone(records, employee, LocalDay(now));
      if !c.methodEnabled {
        return Err(MethodDisabled);
      }
      var today := LocalDay(now);
      var lastToday := LastToday(records, employee, today);
      if lastToday.None? || lastToday.value.check != CheckIn {
        return Err(NoActiveCheckIn);
      }
      if c.onLeave {
        return Err(OnLeaveToday);
      }
      var overtimeMinutes, isEarlyLeave := 0, false;
      if c.shiftEnd.Some? {
        var diff := now - (LocalMidnight(today) + c.shiftEnd.value);
        if diff > 0 && c.allowOvertime {
          overtimeMinutes := diff / 60;
        } else if diff < 0 {
          isEarlyLeave := true;
        }
      }
      if c.mobile && !c.inGeofence {
        return Err(OutsideGeofence);
      }
      if c.mobile && !c.faceMatches {
        return Err(FaceMismatch);
      }
      var rec := Entry(employee, now, CheckOut, if c.inGeofence then Valid else Suspicious, false, 0, isEarlyLeave, overtimeMinutes);
      records := records + [rec];
      result := Ok(rec);
    }

    method ProcessFaceMatch(e: FaceEvent) returns (result: Option<Entry>)
      modifies this
      ensures result == FaceMatch'(old(records), e)
      ensures records == if result.Some? then old(records) + [result.value] else old(records)
      ensures result.Some? && (result.value.isLate || result.value.lateMinutes > 0) ==>
                forall r :: r in old(records) ==> !OnDay(r, e.employee, LocalDay(e.timestamp))
    {
      LastTodayNone(records, e.employee, LocalDay(e.timestamp));
      if !e.enabled || !e.known {
        return None;
      }
      var last := LastEver(records, e.employee);
      var suspicious := e.lowScore;
      if last.Some? && e.timestamp - last.value.timestamp < 60 {
        suspicious := true;
      }
      var check := DecideCheckType(records, e);
      var isLate, lateMinutes := false, 0;
      if check == CheckIn {
        var localDay := LocalDay(e.timestamp);
        if LastToday(records, e.employee, localDay).None? && e.shiftStart.Some? {
          var diff := e.timestamp - (LocalMidnight(localDay) + e.shiftStart.value);
          if diff > 0 {
            lateMinutes := diff / 60;
            isLate := true;
          }
        }
      }
      var rec := Entry(e.employee, e.timestamp, check, if suspicious then Suspicious else Valid, isLate, lateMinutes, false, 0);
      records := records + [rec];
      result := Some(rec);
    }

    /** An admin's own row: no lateness is computed for it. */
    method ManualRecord(employee: Id, timestamp: int, check: CheckType) returns (rec: Entry)
      modifies this
      ensures records == old(records) + [rec] && rec == ManualEntry(employee, timestamp, check)
    {
      rec := Entry(employee, timestamp, check, Valid, false, 0, false, 0);
      records := records + [rec];
    }

    method UpdateRecord(i: nat, status: RecordStatus)
      requires i < |records|
      modifies this
      ensures records == old(records)[i := old(records)[i].(status := status)]
    {
      records := records[i := records[i].(status := status)];
    }

    method RejectRecord(i: nat, hard: bool)
      requires i < |records|
      modifies this
      ensures hard ==> records == Without(old(records), i)
      ensures !hard ==> records == old(records)[i := old(records)[i].(status := Rejected)]
    {
      if hard {
        records := records[..i] + records[i + 1..];
      } else {
        records := records[i := records[i].(status := Rejected)];
      }
    }
  }

  function ManualEntry(employee: Id, timestamp: int, check: CheckType): Entry {
    Entry(employee, timestamp, check, Valid, false, 0, false, 0)
  }

  function Without(log: seq<Entry>, i: nat): seq<Entry>
    requires i < |log|
  {
    log[..i] + log[i + 1..]
  }

  // ---- Runs -----------------------------------------------------------------------------------

  datatype Event =
    | In(employee: Id, now: int, c: Context)
    | Out(employee: Id, now: int, c: Context)
    | Face(e: FaceEvent)
    | Manual(employee: Id, timestamp: int, check: CheckType)
    | Mark(row: nat, status: RecordStatus)             // an edited or softly rejected record
    | Remove(row: nat)                                 // a hard delete

  function Appended(log: seq<Entry>, e: Event): Option<Entry> {
    match e
    case In(employee, now, c) => var r := CheckIn'(log, employee, now, c); if r.Ok? then Some(r.value) else None
    case Out(employee, now, c) => var r := CheckOut'(log, employee, now, c); if r.Ok? then Some(r.value) else None
    case Face(f) => FaceMatch'(log, f)
    case Manual(employee, timestamp, check) => Some(ManualEntry(employee, timestamp, check))
    case _ => None
  }

  /** What an admin's correction makes of the rows already there. */
  function Corrected(log: seq<Entry>, e: Event): seq<Entry> {
    match e
    case Mark(row, status) => if row < |log| then log[row := log[row].(status := status)] else log
    case Remove(row) => if row < |log| then Without(log, row) else log
    case _ => log
  }

  function Step(log: seq<Entry>, e: Event): seq<Entry> {
    var added := Appended(log, e);
    if added.Some? then log + [added.value] else Corrected(log, e)
  }

  function Run(events: seq<Event>): seq<Entry> {
    var n := |events|;
    if n == 0 then [] else Step(Run(events[..n - 1]), events[n - 1])
  }

  // ---- At most one late arrival per day -------------------------------------------------------

  lemma {:induction false} LastTodayNone(log: seq<Entry>, employee: Id, day: int)
    ensures LastToday(log, employee, day).None? <==> forall i :: 0 <= i < |log| ==> !OnDay(log[i], employee, day)
    ensures LastToday(log, employee, day).Some? ==>
              LastToday(log, employee, day).value in log && OnDay(LastToday(log, employee, day).value, employee, day)
  {
    var n := |log|;
    if n > 0 {
      LastTodayNone(log[..n - 1], employee, day);
      assert forall i :: 0 <= i < n - 1 ==> log[..n - 1][i] == log[i];
    }
  }

  /** A row with lateness is the first its employee's local day received. */
  ghost predicate LateRowsComeFirst(log: seq<Entry>) {
    forall i, j :: 0 <= i < j < |log| && (log[j].lateMinutes > 0 || log[j].isLate) && log[i].employee == log[j].employee ==>
      LocalDay(log[i].timestamp) != LocalDay(log[j].timestamp)
  }

  lemma LateOnlyOnEmptyDay(log: seq<Entry>, e: Event)
    ensures var a := Appended(log, e);
            a.Some? && (a.value.lateMinutes > 0 || a.value.isLate) ==>
              forall i :: 0 <= i < |log| ==> !OnDay(log[i], a.value.employee, LocalDay(a.value.timestamp))
  {
    var a := Appended(log, e);
    if a.Some? {
      LastTodayNone(log, a.value.employee, LocalDay(a.value.timestamp));
    }
  }

  lemma RemovalKeepsOrder(log: seq<Entry>, row: nat)
    requires LateRowsComeFirst(log) && row < |log|
    ensures LateRowsComeFirst(Without(log, row))
  {
    hide LocalDay;
    var r := Without(log, row);
    forall i, j | 0 <= i < j < |r| && (r[j].lateMinutes > 0 || r[j].isLate) && r[i].employee == r[j].employee
      ensures LocalDay(r[i].timestamp) != LocalDay(r[j].timestamp)
    {
      var i', j' := if i < row then i else i + 1, if j < row then j else j + 1;
      assert r[i] == log[i'] && r[j] == log[j'];
    }
  }

  lemma MarkKeepsOrder(log: seq<Entry>, row: nat, status: RecordStatus)
    requires LateRowsComeFirst(log) && row < |log|
    ensures LateRowsComeFirst(log[row := log[row].(status := status)])
  {
    hide LocalDay;
  }

  /** Removing rows or changing their status keeps the order of the rest. */
  lemma CorrectionKeepsOrder(log: seq<Entry>, e: Event)
    requires LateRowsComeFirst(log)
    ensures LateRowsComeFirst(Corrected(log, e))
  {
    match e
    case Mark(row, status) => if row < |log| { MarkKeepsOrder(log, row, status); }
    case Remove(row) => if row < |log| { RemovalKeepsOrder(log, row); }
    case _ =>
    hide LateRowsComeFirst, Without;
  }

  lemma LateStep(log: seq<Entry>, e: Event)
    requires LateRowsComeFirst(log)
    ensures LateRowsComeFirst(Step(log, e))
  {
    var a := Appended(log, e);
    LateOnlyOnEmptyDay(log, e);
    CorrectionKeepsOrder(log, e);
    hide Appended, Corrected, LocalDay, OnDay;
    if a.Some? {
      forall i | 0 <= i < |log| && (a.value.lateMinutes > 0 || a.value.isLate) && log[i].employee == a.value.employee
        ensures LocalDay(log[i].timestamp) != LocalDay(a.value.timestamp)
      {
        OnDayIsLocalDay(log[i], a.value.employee, LocalDay(a.value.timestamp));
      }
    }
  }

  lemma {:induction false} LatenessOnlyOnFirstRow(events: seq<Event>)
    ensures LateRowsComeFirst(Run(events))
  {
    var n := |events|;
    if n > 0 {
      LatenessOnlyOnFirstRow(events[..n - 1]);
      LateStep(Run(events[..n - 1]), events[n - 1]);
    }
  }

  /** However all the writers interleave, one employee-day holds at most one late row. */
  lemma AtMostOneLatePerDay(events: seq<Event>, i: nat, j: nat)
    requires var log := Run(events);
             i < |log| && j < |log| && log[i].lateMinutes > 0 && log[j].lateMinutes > 0
             && log[i].employee == log[j].employee && LocalDay(log[i].timestamp) == LocalDay(log[j].timestamp)
    ensures i == j
  {
    LatenessOnlyOnFirstRow(events);
  }

  /** The two paths disagree on one point: a device arrival under a minute late is late by 0 minutes. */
  lemma LateFlagOfTheTwoPaths(log: seq<Entry>, employee: Id, now: int, c: Context, e: FaceEvent)
    ensures var r := CheckIn'(log, employee, now, c);
            r.Ok? ==> (r.value.isLate <==> r.value.lateMinutes > 0)
    ensures var f := FaceMatch'(log, e);
            f.Some? && f.value.isLate && f.value.lateMinutes == 0 <==>
              e.enabled && e.known && DecideCheckType(log, e) == CheckIn
              && LastToday(log, e.employee, LocalDay(e.timestamp)).None? && e.shiftStart.Some?
              && 0 < e.timestamp - LocalMidnight(LocalDay(e.timestamp)) - e.shiftStart.value < 60
  {
  }

  // ---- Strict alternation ---------------------------------------------------------------------

  /** Only the server-clocked writers, each call later than every one before. */
  ghost predicate ServerClocked(events: seq<Event>) {
    && (forall k :: 0 <= k < |events| ==> events[k].In? || events[k].Out?)
    && (forall k, l :: 0 <= k < l < |events| ==> Clock(events[k]) < Clock(events[l]))
  }

  function Clock(e: Event): int {
    match e
    case In(_, now, _) => now
    case Out(_, now, _) => now
    case Face(f) => f.timestamp
    case Manual(_, timestamp, _) => timestamp
    case _ => 0
  }

  /** The employee's rows of one local day in the order they were written. */
  function DayLog(log: seq<Entry>, employee: Id, day: int): seq<Entry> {
    var n := |log|;
    if n == 0 then []
    else DayLog(log[..n - 1], employee, day) + if OnDay(log[n - 1], employee, day) then [log[n - 1]] else []
  }

  ghost predicate Alternates(rows: seq<Entry>) {
    forall i :: 0 <= i < |rows| ==> rows[i].check == if i % 2 == 0 then CheckIn else CheckOut
  }

  ghost predicate Increasing(rows: seq<Entry>) {
    forall i, j :: 0 <= i < j < |rows| ==> rows[i].timestamp < rows[j].timestamp
  }

  lemma {:induction false} DayLogMembers(log: seq<Entry>, employee: Id, day: int)
    ensures forall k :: 0 <= k < |DayLog(log, employee, day)| ==> DayLog(log, employee, day)[k] in log
  {
    hide OnDay;
    if |log| > 0 {
      DayLogMembers(log[..|log| - 1], employee, day);
    }
  }

  lemma DayLogStep(rest: seq<Entry>, e: Entry, employee: Id, day: int)
    ensures DayLog(rest + [e], employee, day) == DayLog(rest, employee, day) + if OnDay(e, employee, day) then [e] else []
    ensures var last := LastToday(rest, employee, day);
            LastToday(rest + [e], employee, day)
            == if OnDay(e, employee, day) && (last.None? || last.value.timestamp <= e.timestamp) then Some(e) else last
  {
    assert (rest + [e])[..|rest|] == rest;
  }

  /** In a log in time order the new row is later than the day's rows before it. */
  lemma DayLogEarlier(rest: seq<Entry>, e: Entry, employee: Id, day: int)
    requires Increasing(rest + [e])
    ensures forall k :: 0 <= k < |DayLog(rest, employee, day)| ==> DayLog(rest, employee, day)[k].timestamp < e.timestamp
  {
    DayLogMembers(rest, employee, day);
    hide DayLog;
    forall x | x in rest ensures x.timestamp < e.timestamp {
      var i :| 0 <= i < |rest| && rest[i] == x;
      assert (rest + [e])[i] == x && (rest + [e])[|rest|] == e;
    }
  }

  lemma {:induction false} LastTodayIsLastWritten(log: seq<Entry>, employee: Id, day: int)
    requires Increasing(log)
    ensures var rows := DayLog(log, employee, day);
            LastToday(log, employee, day) == if rows == [] then None else Some(rows[|rows| - 1])
  {
    var n := |log|;
    if n > 0 {
      LastTodayIsLastWritten(log[..n - 1], employee, day);
      assert log == log[..n - 1] + [log[n - 1]];
      DayLogStep(log[..n - 1], log[n - 1], employee, day);
      DayLogEarlier(log[..n - 1], log[n - 1], employee, day);
      hide OnDay, DayLog, LastToday, Increasing;
    }
  }

  /** A check-in is accepted exactly where the day is empty or closed, a check-out where it is open. */
  lemma AcceptedDirection(log: seq<Entry>, e: Event)
    requires e.In? || e.Out?
    ensures var a := Appended(log, e);
            a.Some? ==>
              var last := LastToday(log, a.value.employee, LocalDay(a.value.timestamp));
              a.value.check == CheckIn <==> last.None? || last.value.check == CheckOut
  {
  }

  lemma ClockedStep(log: seq<Entry>, e: Event)
    requires e.In? || e.Out?
    ensures Step(log, e) == log || (|Step(log, e)| == |log| + 1 && Step(log, e)[..|log|] == log && Step(log, e)[|log|].timestamp == Clock(e))
  {
  }

  lemma {:induction false} ClockedRunIncreases(events: seq<Event>)
    requires ServerClocked(events)
    ensures Increasing(Run(events))
    ensures forall i :: 0 <= i < |Run(events)| ==> |events| > 0 && Run(events)[i].timestamp <= Clock(events[|events| - 1])
  {
    var n := |events|;
    if n > 0 {
      var log, next := Run(events[..n - 1]), Run(events);
      ClockedRunIncreases(events[..n - 1]);
      ClockedStep(log, events[n - 1]);
      assert n > 1 ==> events[..n - 1][n - 2] == events[n - 2] && Clock(events[n - 2]) < Clock(events[n - 1]);
      hide Step, Clock;
      assert next == log || forall i :: 0 <= i < |log| ==> next[i] == next[..|log|][i];
    }
  }

  lemma AlternationStep(log: seq<Entry>, a: Entry, employee: Id, day: int)
    requires Increasing(log) && Alternates(DayLog(log, employee, day))
    requires var last := LastToday(log, a.employee, LocalDay(a.timestamp));
             a.check == CheckIn <==> last.None? || last.value.check == CheckOut
    ensures Alternates(DayLog(log + [a], employee, day))
  {
    assert (log + [a])[..|log|] == log;
    OnDayIsLocalDay(a, employee, day);
    LastTodayIsLastWritten(log, employee, day);
    hide OnDay, LocalDay, LastToday;
  }

  /** Check-ins and check-outs of an employee's local day strictly alternate, starting with a check-in. */
  lemma {:induction false} DaysAlternate(events: seq<Event>, employee: Id, day: int)
    requires ServerClocked(events)
    ensures Alternates(DayLog(Run(events), employee, day))
  {
    hide Appended, Alternates, DayLog, LastToday, LocalDay;
    var n := |events|;
    if n > 0 {
      DaysAlternate(events[..n - 1], employee, day);
      ClockedRunIncreases(events[..n - 1]);
      var log, a := Run(events[..n - 1]), Appended(Run(events[..n - 1]), events[n - 1]);
      AcceptedDirection(log, events[n - 1]);
      if a.Some? {
        AlternationStep(log, a.value, employee, day);
      }
    } else {
      NothingAlternates(employee, day);
    }
  }

  lemma NothingAlternates(employee: Id, day: int)
    ensures Alternates(DayLog([], employee, day))
  {
  }

  // ---- What each writer writes ----------------------------------------------------------------

  /** Local midnight falls at 19:00 UTC. */
  lemma LocalMidnightIsSevenPm()
    ensures LocalDay(68399) == 0 && LocalDay(68400) == 1 && LocalMidnight(1) == 68400
  {
  }

  /** The day's latest row, and among equal times the last written, is never earlier than another of the day. */
  lemma {:induction false} LastTodayIsLatest(log: seq<Entry>, employee: Id, day: int)
    requires LastToday(log, employee, day).Some?
    ensures forall i :: 0 <= i < |log| && OnDay(log[i], employee, day) ==>
              log[i].timestamp <= LastToday(log, employee, day).value.timestamp
  {
    var n := |log|;
    if LastToday(log[..n - 1], employee, day).Some? {
      LastTodayIsLatest(log[..n - 1], employee, day);
    } else {
      LastTodayNone(log[..n - 1], employee, day);
    }
    assert forall i :: 0 <= i < n - 1 ==> log[..n - 1][i] == log[i];
    hide OnDay;
  }

  lemma {:induction false} LastEverIsLatest(log: seq<Entry>, employee: Id)
    ensures LastEver(log, employee).None? <==> forall i :: 0 <= i < |log| ==> log[i].employee != employee
    ensures LastEver(log, employee).Some? ==>
              var e := LastEver(log, employee).value;
              e in log && e.employee == employee && forall i :: 0 <= i < |log| && log[i].employee == employee ==> log[i].timestamp <= e.timestamp
  {
    var n := |log|;
    if n > 0 {
      LastEverIsLatest(log[..n - 1], employee);
      assert forall i :: 0 <= i < n - 1 ==> log[..n - 1][i] == log[i];
    }
  }

  /** A check-in is accepted exactly when the day is empty or closed and no other gate is shut. */
  lemma CheckInAcceptedIff(log: seq<Entry>, employee: Id, now: int, c: Context)
    ensures var last, r := LastToday(log, employee, LocalDay(now)), CheckIn'(log, employee, now, c);
            && (r.Ok? <==> c.methodEnabled && (last.None? || last.value.check == CheckOut) && !c.onLeave
                           && (c.mobile ==> c.inGeofence && c.faceMatches))
            && (r == Err(MethodDisabled) <==> !c.methodEnabled)
            && (r == Err(AlreadyCheckedIn) <==> c.methodEnabled && last.Some? && last.value.check == CheckIn)
            && (r == Err(OutsideGeofence) ==> c.mobile && !c.inGeofence && !c.onLeave)
            && (r == Err(FaceMismatch) ==> c.mobile && c.inGeofence && !c.faceMatches && !c.onLeave)
  {
  }

  /** Its row: whole minutes past the shift's start on the day's first row, suspicious outside the fence. */
  lemma CheckInRow(log: seq<Entry>, employee: Id, now: int, c: Context)
    requires CheckIn'(log, employee, now, c).Ok?
    ensures var e := CheckIn'(log, employee, now, c).value;
            var first := LastToday(log, employee, LocalDay(now)).None?;
            && e.employee == employee && e.timestamp == now && e.check == CheckIn
            && (e.status == if c.inGeofence then Valid else Suspicious) && !e.isEarlyLeave && e.overtimeMinutes == 0
            && (first && c.shiftStart.Some? ==>
                  var late := now - LocalMidnight(LocalDay(now)) - c.shiftStart.value;
                  if late > 0 then 60 * e.lateMinutes <= late < 60 * e.lateMinutes + 60 else e.lateMinutes == 0)
            && (!first || c.shiftStart.None? ==> e.lateMinutes == 0)
  {
  }

  /** A check-out is accepted exactly when the day is open and no other gate is shut. */
  lemma CheckOutAcceptedIff(log: seq<Entry>, employee: Id, now: int, c: Context)
    ensures var last, r := LastToday(log, employee, LocalDay(now)), CheckOut'(log, employee, now, c);
            && (r.Ok? <==> c.methodEnabled && last.Some? && last.value.check == CheckIn && !c.onLeave
                           && (c.mobile ==> c.inGeofence && c.faceMatches))
            && (r == Err(MethodDisabled) <==> !c.methodEnabled)
            && (r == Err(NoActiveCheckIn) <==> c.methodEnabled && (last.None? || last.value.check == CheckOut))
            && (r == Err(OutsideGeofence) ==> c.mobile && !c.inGeofence && !c.onLeave)
            && (r == Err(FaceMismatch) ==> c.mobile && c.inGeofence && !c.faceMatches && !c.onLeave)
  {
  }

  /** Its row: early before the shift's end, whole minutes of overtime after it where the shift allows any. */
  lemma CheckOutRow(log: seq<Entry>, employee: Id, now: int, c: Context)
    requires CheckOut'(log, employee, now, c).Ok?
    ensures var e := CheckOut'(log, employee, now, c).value;
            && e.employee == employee && e.timestamp == now && e.check == CheckOut
            && (e.status == if c.inGeofence then Valid else Suspicious) && !e.isLate && e.lateMinutes == 0
            && (c.shiftEnd.None? ==> !e.isEarlyLeave && e.overtimeMinutes == 0)
            && (c.shiftEnd.Some? ==>
                  var past := now - LocalMidnight(LocalDay(now)) - c.shiftEnd.value;
                  && (e.isEarlyLeave <==> past < 0)
                  && (past > 0 && c.allowOvertime ==> 60 * e.overtimeMinutes <= past < 60 * e.overtimeMinutes + 60)
                  && (past <= 0 || !c.allowOvertime ==> e.overtimeMinutes == 0))
  {
  }

  /**
   * A face event at an entry door is a check-in, at an exit door a check-out, and at any other the opposite
   * of the employee's latest row. It is suspicious on a low score or within a minute of that row.
   */
  lemma FaceEventRow(log: seq<Entry>, e: FaceEvent)
    ensures FaceMatch'(log, e).Some? <==> e.enabled && e.known
    ensures FaceMatch'(log, e).Some? ==>
              var r, last := FaceMatch'(log, e).value, LastEver(log, e.employee);
              && r.employee == e.employee && r.timestamp == e.timestamp && !r.isEarlyLeave && r.overtimeMinutes == 0
              && (e.role == EntryDoor ==> r.check == CheckIn) && (e.role == ExitDoor ==> r.check == CheckOut)
              && (e.role == Either ==> (last.None? ==> r.check == CheckIn) && (last.Some? ==> r.check != last.value.check))
              && (r.status == if e.lowScore || (last.Some? && e.timestamp < last.value.timestamp + 60) then Suspicious else Valid)
              && (var first := r.check == CheckIn && LastToday(log, e.employee, LocalDay(e.timestamp)).None?;
                  var late := if e.shiftStart.Some? then e.timestamp - LocalMidnight(LocalDay(e.timestamp)) - e.shiftStart.value else 0;
                  && (r.isLate <==> first && late > 0)
                  && (first && late > 0 ==> 60 * r.lateMinutes <= late < 60 * r.lateMinutes + 60)
                  && (!first || late <= 0 ==> r.lateMinutes == 0))
  {
  }

  /** A hard delete takes out one row and keeps the rest in order; a manual row is on time and credits nothing. */
  lemma CorrectionsAreSmall(log: seq<Entry>, row: nat, employee: Id, timestamp: int, check: CheckType)
    requires row < |log|
    ensures |Without(log, row)| == |log| - 1 && Without(log, row)[..row] == log[..row] && Without(log, row)[row..] == log[row + 1..]
    ensures var e := ManualEntry(employee, timestamp, check);
            e.employee == employee && e.timestamp == timestamp && e.check == check && e.status == Valid
            && !e.isLate && e.lateMinutes == 0 && !e.isEarlyLeave && e.overtimeMinutes == 0
  {
  }
}
