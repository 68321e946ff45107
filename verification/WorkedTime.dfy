/**
 * Minutes worked out of one day's check-ins and check-outs: the payroll loop `_hours_for_day` and
 * the employee-facing loop of `today_status`. Times are whole seconds.
 */
module WorkedTime {
  import opened Options
  import opened Calendar
  import opened Decimals

  datatype CheckType = CheckIn | CheckOut

  datatype Record = Record(
    timestamp: int, check: CheckType, rejected: bool, lateMinutes: int, overtimeMinutes: int)

  ghost predicate Sorted(rows: seq<Record>) {
    forall i, j :: 0 <= i < j < |rows| ==> rows[i].timestamp <= rows[j].timestamp
  }

  // ---- What the loops are meant to compute, said without a loop ------------------------------

  /** Floor division: before its start an interval counts as negative. */
  function WholeMinutes(seconds: int): (m: int)
    ensures 60 * m <= seconds < 60 * m + 60
  {
    seconds / 60
  }

  /** Whole minutes of the interval two neighbouring rows bound, when they are an IN and an OUT. */
  function Gap(a: Record, b: Record): nat {
    if a.check == CheckIn && b.check == CheckOut && a.timestamp < b.timestamp
    then WholeMinutes(b.timestamp - a.timestamp)
    else 0
  }

  /** Total over the CHECK_INs that are directly followed by a CHECK_OUT. */
  function PairedMinutes(rows: seq<Record>): nat {
    var n := |rows|;
    if n < 2 then 0 else PairedMinutes(rows[..n - 1]) + Gap(rows[n - 2], rows[n - 1])
  }

  function PairedOvertime(rows: seq<Record>): int {
    var n := |rows|;
    if n < 2 then 0
    else PairedOvertime(rows[..n - 1])
         + if rows[n - 2].check == CheckIn && rows[n - 1].check == CheckOut
           then rows[n - 1].overtimeMinutes else 0
  }

  /** The CHECK_IN still open after the last row. */
  function OpenSince(rows: seq<Record>): Option<int> {
    if |rows| > 0 && rows[|rows| - 1].check == CheckIn
    then Some(rows[|rows| - 1].timestamp) else None
  }

  function WholeMinutesUntil(since: Option<int>, closeAt: int): nat {
    if since.Some? && since.value < closeAt then WholeMinutes(closeAt - since.value) else 0
  }

  function MinutesWorked(rows: seq<Record>, closeAt: int): nat {
    PairedMinutes(rows) + WholeMinutesUntil(OpenSince(rows), closeAt)
  }

  /** Today closes at the clock; any other day at the shift's end, or at midnight without one. */
  function CloseAt(day: Date, now: int, shiftEnd: Option<int>): int {
    if DayStart(day) <= now < DayEnd(day) then now
    else if shiftEnd.Some? then DayStart(day) + shiftEnd.value
    else DayEnd(day)
  }

  /** Minutes as the `Decimal` hours of the payroll, in hundredths of an hour. */
  function HundredthsOfHour(minutes: int): int {
    HalfEven(minutes as real * 100.0 / 60.0)
  }

  // ---- The payroll loop -----------------------------------------------------------------------

  method HoursForDay(rows: seq<Record>, day: Date, now: int, shiftEnd: Option<int>)
    returns (hours: int, overtimeHours: int)
    ensures hours == HundredthsOfHour(MinutesWorked(rows, CloseAt(day, now, shiftEnd)))
    ensures overtimeHours == HundredthsOfHour(PairedOvertime(rows))
  {
    hide HundredthsOfHour, DayStart, DayEnd;
    var minutesWorked, overtimeMinutes := 0, 0;
    var pendingIn: Option<Record> := None;
    for i := 0 to |rows|
      invariant minutesWorked == PairedMinutes(rows[..i])
      invariant overtimeMinutes == PairedOvertime(rows[..i])
      invariant pendingIn == if i > 0 && rows[i - 1].check == CheckIn then Some(rows[i - 1]) else None
    {
      var r := rows[i];
      assert rows[..i + 1][..i] == rows[..i];
      if r.check == CheckIn {
        pendingIn := Some(r);
      } else if pendingIn.Some? {
        var delta := r.timestamp - pendingIn.value.timestamp;
        if delta > 0 {
          minutesWorked := minutesWorked + WholeMinutes(delta);
        }
        overtimeMinutes := overtimeMinutes + r.overtimeMinutes;
        pendingIn := None;
      }
    }
    assert rows[..|rows|] == rows;
    if pendingIn.Some? {
      var closeAt;
      if DayStart(day) <= now < DayEnd(day) {
        closeAt := now;
      } else {
        closeAt := DayEnd(day);
        if shiftEnd.Some? {
          closeAt := DayStart(day) + shiftEnd.value;
        }
      }
      var delta := closeAt - pendingIn.value.timestamp;
      if delta > 0 {
        minutesWorked := minutesWorked + WholeMinutes(delta);
      }
    }
    hours := HundredthsOfHour(minutesWorked);
    overtimeHours := HundredthsOfHour(overtimeMinutes);
  }

  // ---- Bounds and monotonicity ----------------------------------------------------------------

  lemma {:induction false} PairedMinutesWithinSpan(rows: seq<Record>)
    requires Sorted(rows) && |rows| > 0
    ensures 60 * PairedMinutes(rows) <= rows[|rows| - 1].timestamp - rows[0].timestamp
  {
    var n := |rows|;
    if n >= 2 {
      PairedMinutesWithinSpan(rows[..n - 1]);
    }
  }

  /** No log, however its INs and OUTs are mixed, earns more than the 1440 minutes of its day. */
  lemma MinutesWithinDay(rows: seq<Record>, dayStart: int, closeAt: int)
    requires Sorted(rows)
    requires forall r :: r in rows ==> dayStart <= r.timestamp < dayStart + SECONDS_PER_DAY
    requires closeAt <= dayStart + SECONDS_PER_DAY
    ensures 0 <= MinutesWorked(rows, closeAt) <= 1440
  {
    if |rows| > 0 {
      PairedMinutesWithinSpan(rows);
      assert rows[0] in rows && rows[|rows| - 1] in rows;
    }
  }

  /** Closing an open CHECK_IN virtually pays the minutes a CHECK_OUT stamped then would pay. */
  lemma VirtualCloseIsRealCheckOut(rows: seq<Record>, closeAt: int, late: int, overtime: int)
    ensures var out := Record(closeAt, CheckOut, false, late, overtime);
            forall later :: MinutesWorked(rows + [out], later) == MinutesWorked(rows, closeAt)
  {
  }

  lemma PayNeverDropsAsTimePasses(rows: seq<Record>, now: int, later: int)
    requires now <= later
    ensures MinutesWorked(rows, now) <= MinutesWorked(rows, later)
    ensures HundredthsOfHour(MinutesWorked(rows, now)) <= HundredthsOfHour(MinutesWorked(rows, later))
  {
  }

  /**
   * The clock can still cost the employee minutes, once: when the day ends, a check-in left open past
   * the shift's end is closed back at that end. It happens exactly when the session had already run
   * into a minute the shift's end does not pay.
   */
  lemma PayDropsAtMidnight(rows: seq<Record>, day: Date, now: int, later: int, shiftEnd: Option<int>)
    requires DayStart(day) <= now < DayEnd(day) <= later
    ensures var closed := MinutesWorked(rows, CloseAt(day, later, shiftEnd));
            var live := MinutesWorked(rows, CloseAt(day, now, shiftEnd));
            var since := OpenSince(rows);
            closed < live <==>
              shiftEnd.Some? && since.Some?
              && since.value + 60 * WholeMinutesUntil(since, DayStart(day) + shiftEnd.value) + 60 <= now
  {
    var since := OpenSince(rows);
    if since.Some? && since.value < now {
      var ran, paid := WholeMinutes(now - since.value), WholeMinutesUntil(since, CloseAt(day, later, shiftEnd));
      assert ran > paid <==> now - since.value >= 60 * paid + 60;
    }
  }

  /** A failing log: in at 8:00, shift end 17:00. At 22:00 it shows 840 minutes, the next day 540. */
  lemma MinutesLostAtMidnight()
    ensures var rows, day := [Record(28800, CheckIn, false, 0, 0)], Date(1970, 1, 1);
            MinutesWorked(rows, CloseAt(day, 79200, Some(61200))) == 840
            && MinutesWorked(rows, CloseAt(day, 86400, Some(61200))) == 540
  {
    assert DayStart(Date(1970, 1, 1)) == 0;
  }

  /** Minutes become hundredths of an hour to half a hundredth. */
  lemma HoursOfMinutes(minutes: int)
    ensures -60 <= 2 * (60 * HundredthsOfHour(minutes) - 100 * minutes) <= 60
  {
  }

  // ---- Sessions -------------------------------------------------------------------------------

  /** A day told as what it was: entered, left, and the overtime the exit was credited with. */
  datatype Session = Session(entered: int, left: int, overtime: int)

  function LogOf(sessions: seq<Session>): seq<Record> {
    var n := |sessions|;
    if n == 0 then []
    else
      var s := sessions[n - 1];
      LogOf(sessions[..n - 1]) + [Record(s.entered, CheckIn, false, 0, 0), Record(s.left, CheckOut, false, 0, s.overtime)]
  }

  function MinutesOf(sessions: seq<Session>): int {
    var n := |sessions|;
    if n == 0 then 0
    else MinutesOf(sessions[..n - 1])
         + if sessions[n - 1].entered < sessions[n - 1].left then (sessions[n - 1].left - sessions[n - 1].entered) / 60 else 0
  }

  function OvertimeOf(sessions: seq<Session>): int {
    var n := |sessions|;
    if n == 0 then 0 else OvertimeOf(sessions[..n - 1]) + sessions[n - 1].overtime
  }

  function PairedGapOvertime(a: Record, b: Record): int {
    if a.check == CheckIn && b.check == CheckOut then b.overtimeMinutes else 0
  }

  lemma {:induction false} PairedSplit(a: seq<Record>, b: seq<Record>)
    requires |a| > 0 && |b| > 0
    ensures PairedMinutes(a + b) == PairedMinutes(a) + Gap(a[|a| - 1], b[0]) + PairedMinutes(b)
    ensures PairedOvertime(a + b) == PairedOvertime(a) + PairedGapOvertime(a[|a| - 1], b[0]) + PairedOvertime(b)
  {
    var n, c := |b|, a + b;
    if n == 1 {
      assert c[..|c| - 1] == a;
    } else {
      PairedSplit(a, b[..n - 1]);
      assert c[..|c| - 1] == a + b[..n - 1];
    }
  }

  /** A log of closed sessions is paid their minutes and credited their overtime, session by session. */
  lemma {:induction false} SessionsAddUp(sessions: seq<Session>, closeAt: int)
    ensures MinutesWorked(LogOf(sessions), closeAt) == MinutesOf(sessions)
    ensures PairedOvertime(LogOf(sessions)) == OvertimeOf(sessions)
  {
    var n := |sessions|;
    if n > 0 {
      var s, rest := sessions[n - 1], LogOf(sessions[..n - 1]);
      var entry, exit := Record(s.entered, CheckIn, false, 0, 0), Record(s.left, CheckOut, false, 0, s.overtime);
      SessionsAddUp(sessions[..n - 1], closeAt);
      PairedSplit([entry], [exit]);
      assert [entry] + [exit] == [entry, exit];
      if rest != [] {
        EndsOut(sessions[..n - 1]);
        PairedSplit(rest, [entry, exit]);
      } else {
        assert rest + [entry, exit] == [entry, exit];
      }
    }
  }

  lemma EndsOut(sessions: seq<Session>)
    requires LogOf(sessions) != []
    ensures LogOf(sessions)[|LogOf(sessions)| - 1].check == CheckOut
  {
  }

  /** A repeated check-in restarts the session: only the last one counts, whatever follows. */
  lemma LastCheckInCounts(before: seq<Record>, first: Record, second: Record, after: seq<Record>, closeAt: int)
    requires first.check == CheckIn && second.check == CheckIn
    ensures MinutesWorked(before + [first, second] + after, closeAt) == MinutesWorked(before + [second] + after, closeAt)
    ensures PairedOvertime(before + [first, second] + after) == PairedOvertime(before + [second] + after)
  {
    DropOne(before, first, [second] + after);
    assert before + [first, second] + after == before + [first] + ([second] + after);
    assert before + [second] + after == before + ([second] + after);
  }

  /** A check-out with nothing open is ignored, whatever follows. */
  lemma StrayCheckOutIgnored(before: seq<Record>, out: Record, after: seq<Record>, closeAt: int)
    requires out.check == CheckOut && (before == [] || before[|before| - 1].check == CheckOut)
    ensures MinutesWorked(before + [out] + after, closeAt) == MinutesWorked(before + after, closeAt)
    ensures PairedOvertime(before + [out] + after) == PairedOvertime(before + after)
  {
    if after == [] {
      assert before + [out] + after == before + [out] && before + after == before;
      if before != [] { PairedSplit(before, [out]); } else { assert [] + [out] == [out]; }
    } else {
      DropOne(before, out, after);
    }
  }

  /** A row that pairs with neither neighbour can be dropped. */
  lemma DropOne(before: seq<Record>, row: Record, after: seq<Record>)
    requires after != []
    requires row.check == CheckIn ==> after[0].check == CheckIn
    requires row.check == CheckOut ==> before == [] || before[|before| - 1].check == CheckOut
    ensures PairedMinutes(before + [row] + after) == PairedMinutes(before + after)
    ensures PairedOvertime(before + [row] + after) == PairedOvertime(before + after)
    ensures OpenSince(before + [row] + after) == OpenSince(before + after)
  {
    PairedSplit([row], after);
    assert before + [row] + after == before + ([row] + after);
    if before != [] {
      PairedSplit(before, [row] + after);
      PairedSplit(before, after);
    } else {
      assert before + after == after && before + ([row] + after) == [row] + after;
    }
  }

  /** An open check-in at the end is paid to the clock on its day, and to the shift's end or midnight on any other. */
  lemma OpenSessionPays(sessions: seq<Session>, entered: int, day: Date, now: int, shiftEnd: Option<int>)
    ensures var rows := LogOf(sessions) + [Record(entered, CheckIn, false, 0, 0)];
            var midnight := (Ordinal(day) - 719163) * 86400;
            var end := if midnight <= now < midnight + 86400 then now
                       else if shiftEnd.Some? then midnight + shiftEnd.value else midnight + 86400;
            MinutesWorked(rows, CloseAt(day, now, shiftEnd)) == MinutesOf(sessions) + if entered < end then (end - entered) / 60 else 0
  {
    var rest, entry := LogOf(sessions), Record(entered, CheckIn, false, 0, 0);
    SessionsAddUp(sessions, 0);
    if rest != [] {
      EndsOut(sessions);
      PairedSplit(rest, [entry]);
    } else {
      assert rest + [entry] == [entry];
    }
  }

  // ---- The employee-facing loop ---------------------------------------------------------------

  /** Minutes an open session adds in `today_status`: floor division, so negative before its start. */
  function OngoingMinutes(rows: seq<Record>, now: int): int {
    if OpenSince(rows).Some? then WholeMinutes(now - OpenSince(rows).value) else 0
  }

  method TodayStatus(rows: seq<Record>, now: int)
    returns (firstIn: Option<int>, lastOut: Option<int>, isWorking: bool, minutes: int)
    requires Sorted(rows)
    ensures minutes == PairedMinutes(rows) + OngoingMinutes(rows, now)
    ensures isWorking <==> |rows| > 0 && rows[|rows| - 1].check == CheckIn
    ensures firstIn.None? ==> forall k :: 0 <= k < |rows| ==> rows[k].check == CheckOut
    ensures firstIn.Some? ==> exists k :: 0 <= k < |rows| && rows[k].check == CheckIn && rows[k].timestamp == firstIn.value
                                          && forall j :: 0 <= j < k ==> rows[j].check == CheckOut
    ensures lastOut.None? ==> forall k :: 0 <= k < |rows| ==> rows[k].check == CheckIn
    ensures lastOut.Some? ==> exists k :: 0 <= k < |rows| && rows[k].check == CheckOut && rows[k].timestamp == lastOut.value
                                          && forall j :: k < j < |rows| ==> rows[j].check == CheckIn
  {
    firstIn, lastOut, minutes := None, None, 0;
    var pendingIn: Option<int> := None;
    ghost var first, last := 0, 0;
    for i := 0 to |rows|
      invariant minutes == PairedMinutes(rows[..i])
      invariant pendingIn == if i > 0 && rows[i - 1].check == CheckIn then Some(rows[i - 1].timestamp) else None
      invariant firstIn.None? ==> forall k :: 0 <= k < i ==> rows[k].check == CheckOut
      invariant firstIn.Some? ==> 0 <= first < i && rows[first].check == CheckIn && firstIn.value == rows[first].timestamp
                                  && forall k :: 0 <= k < first ==> rows[k].check == CheckOut
      invariant lastOut.None? ==> forall k :: 0 <= k < i ==> rows[k].check == CheckIn
      invariant lastOut.Some? ==> 0 <= last < i && rows[last].check == CheckOut && lastOut.value == rows[last].timestamp
                                  && forall k :: last < k < i ==> rows[k].check == CheckIn
    {
      var r := rows[i];
      assert rows[..i + 1][..i] == rows[..i];
      if r.check == CheckIn {
        if firstIn.None? {
          firstIn := Some(r.timestamp);
          first := i;
        }
        pendingIn := Some(r.timestamp);
      } else {
        lastOut := Some(r.timestamp);
        last := i;
        if pendingIn.Some? {
          minutes := minutes + WholeMinutes(r.timestamp - pendingIn.value);
          pendingIn := None;
        }
      }
    }
    assert rows[..|rows|] == rows;
    isWorking := pendingIn.Some?;
    if isWorking {
      minutes := minutes + WholeMinutes(now - pendingIn.value);
    }
  }

  /** Screen and payroll show the same minutes exactly when no CHECK_IN lies open in the future. */
  lemma ScreenAgreesWithPayroll(rows: seq<Record>, now: int)
    ensures PairedMinutes(rows) + OngoingMinutes(rows, now) == MinutesWorked(rows, now)
            <==> !(OpenSince(rows).Some? && now < OpenSince(rows).value)
  {
  }
}
