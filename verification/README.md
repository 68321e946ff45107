# Attendance, payroll and KPI backend: verified model

The backend records attendance, turns it into daily accruals and monthly salary periods, settles KPI
rewards into the payroll, pushes face templates to devices through a retrying queue, and rotates
refresh tokens for its clients. This project models those engines in Dafny and proves what they are
supposed to guarantee over every input, every order of delivery and every run.

## How the model is built

- A table with surrogate ids is the sequence of the slots it ever allocated: a row's id is its slot
  number and a deleted row leaves `None`. A table with a natural unique key is a map.
- Money is an integer number of cents, hours are hundredths of an hour, times are whole seconds.
  `Decimal` intermediate values are exact reals and `quantize(Decimal("0.01"))` is half-even rounding.
- Code that changes state is a class or a method over mutable fields, with the loops of the source.
  Each such method is proved equal to a function on values (`Recomputed`, `Approve'`, `Drain`,
  `Refresh`, `Regenerated`, ...), and the theorems are lemmas about those functions and their runs.
- Clock readings, network answers, the order of equal sort keys and the results of other services are
  parameters, so a theorem holds whatever they are.

| file | content |
|---|---|
| `Options`, `Decimals`, `Calendar` | nullable values, half-even rounding, dates |
| `WorkedTime`, `Pricing` | the check-in/check-out loops, the price of a day |
| `Ledger`, `PayrollEngine` | the payroll tables: one recompute as a function, and as the service runs it |
| `DayPrice` | what a recompute leaves on its day and month: hours, base, leave, overtime, fines, sums |
| `Confluence`, `LedgerInvariant` | order and repetition of recomputes are irrelevant; what every recompute keeps |
| `Payments` | finalize, approve, mark paid, reopen, and the routes that bypass the workflow |
| `Formula`, `Reward` | the KPI expression language and the reward function |
| `Settlement`, `PeriodAudit` | KPI approvals as bonus and deduction rows; the period counts each once |
| `FaceSync`, `SyncQueueTheorems` | the device queue; safety, termination, no starvation |
| `TokenServer`, `ClientTab` | refresh-token rotation; the browser's single-flight interceptor |
| `LostAnswers` | the same protocol when connections drop and pages are reloaded |
| `Nms`, `FaceMatch` | greedy suppression and margin-guarded matching |
| `Schedule` | the shift-schedule regenerator |
| `AttendanceLog` | check-in, check-out, device events and the admin's corrections of the attendance log |
| `EmployeeCodes` | the renumbering migration and the code counter |

## Where the code and its documentation part

The model follows the code. These points are stated by lemmas, mostly with the exact condition.

- The list of retry delays ends in two hours, but a fifth failed attempt makes the job FAILED, so that
  delay is never used (`TwoHourBackoffUnused`).
- The migration's docstring says a collision cannot happen. It happens exactly when an employee already
  carries the temporary code of an older one (`Upgrade`, `TempPhaseUnique`, `TempClashExists`).
- The docstring of `_hours_for_day` says accrual grows live and forgotten check-outs close at 23:59.
  Without a shift end the code closes at midnight, and with one an open session that ran past the
  shift's end loses minutes when the day is over (`PayDropsAtMidnight`, `MinutesLostAtMidnight`).
- `today_status` and the payroll show the same minutes on one list of rows exactly when no check-in lies
  open in the future (`ScreenAgreesWithPayroll`), and on a window of the log without rejected rows they
  read the same list (`ScreenAgreesOnTheDay`); only the payroll skips rejected rows
  (`RejectedRowSeparatesThem`).
- The template's description of FIXED speaks of the threshold, the code asks for 100 percent
  (`FixedNeedsFullScore`, `FixedAboveThresholdPaysNothing`). Below the
  threshold a TIERED template still pays the tier of score 0 and a penalty is charged in full
  (`BelowThreshold`).
- `approve_period` says approval freezes the totals. What was approved is what stands later exactly when
  no recompute moved it since (`ApprovedTotalKeptIff`); a run pays 250 where 100 was approved
  (`PaysMoreThanApproved`).
- `bulk_mark_paid_company` says it pays APPROVED periods. It also pays FINALIZED and PARTIALLY_PAID ones
  (`BulkMarkPaid`).
- Stale automatic deductions stay on days that later become leave or rest days, because the two sweeps
  are skipped there (the unswept case of `RunRowCount`).
- Approving a KPI again with a reward of zero keeps the earlier bonus (`ApprovalPaysTheReward`), and an
  assignment whose sign flips between two approvals keeps both rows (`BothSidesIffOtherWasLinked`,
  `BothSidesStand`). The approval route refuses settled assignments, so this takes a status edited by
  hand; behind that guard, and without such edits, both rows never stand (`GuardedNeverBoth`).
- A device arrival less than a minute late is flagged late by zero minutes, the same arrival through a
  check-in is not (`LateFlagOfTheTwoPaths`).
- A formula variable named like a helper passes the whitelist walk and breaks the call
  (`ShadowedHelperFails`): accepted formulas are safe exactly when no variable is (`SafeIffNoHelperShadowed`).
- `find_match` depends on the order of the candidates exactly when the margin is not positive and two
  employees share the best similarity at or above the threshold (`OrderFreeIff`, `ZeroGapDependsOnOrder`).
- A page reloaded while a refresh answer is on its way presents a consumed token next. The server ends
  the login, unless that token has expired meanwhile (`ConsumedIffStranded`, `StrandedTokenEndsTheLogin`,
  `ReloadStrandsTheToken`).
- `refresh` says that reuse of a revoked token revokes the whole device chain. Decoding refuses an expired
  token first, so a replay after its expiry leaves the successor alive (`ReuseKillsTheChain` with the exact
  condition, `ExpiredReplaySparesTheChain`).
- `logout` says it revokes one token or all devices, as asked. Asked for one, it revokes all exactly when
  the token it is sent is missing, undecodable or expired (`OtherDevicesSparedIff`,
  `ExpiredLogoutEndsEveryDevice`).
- A sign-out lasts exactly when no refresh is under way whose answer may still come: the answer stores
  its tokens whatever the store holds (`SignOutLastsIff`).
- The retry route says it does not touch the unique constraint. It violates it exactly when another active
  job holds the triple (`RevivalSafeIff`, `RevivalRefused`); it is also the only thing that changes a
  terminal job (`TerminalChangesIff`).
- The KPI engine says that recomputing keeps the salary side in sync. A recompute moves the reward of a
  settled assignment and not its row: the two agree exactly when the last recompute since came to the
  settled reward and sign (`InSyncIff`). Cancelling a settled assignment keeps its row, which the period
  goes on counting (`BonusOutlivesItsReward`, `SettledMonthIsInThePeriod`).
- The finalize route looks at no status: it takes a paid period back to FINALIZED, and only it does
  (`PaidIsForever`, `RoutesBypassTheWorkflow`).
- PARTIALLY_PAID is described as some payment recorded with some pending. No code sets it, and an advance
  entered on a draft leaves a draft (`MoneyPaidIsRecorded`, `RoutesBypassTheWorkflow`).

## Model

| member | source | states |
|---|---|---|
| `Confluence.RecomputeConfluence` | backend/app/services/salary_service.py:523-651 | Two finite call sequences with the same set of employee-days, in any order and with any repetition, leave the same deductions, accruals and periods (ids dropped), from any ledger |
| `Confluence.RedeliveryChangesNothing` | backend/app/services/salary_service.py:523-619 | Delivering already delivered calls again, in any order, changes nothing |
| `Confluence.RunRowCount` | backend/app/services/salary_service.py:549-558 | After any run, how often each deduction row stands: the computed automatic rows on called days that are swept, and exactly the old count for manual rows, uncalled days, rest days and leave days |
| `Confluence.RunAccruals` | backend/app/services/salary_service.py:579-606 | After any run each called day holds the accrual of the inputs with its settled deductions; every other accrual is as it was |
| `Confluence.RunPeriods` | backend/app/services/salary_service.py:622-651 | After any run a month with a called day holds the sums of the final accruals; other months are untouched |
| `Confluence.SweepTotals` | backend/app/services/salary_service.py:453-473 | A sweep of one employee-day settles that day's deductions and leaves the deductions of every other day and employee as they were; what a day settles to is not moved by earlier sweeps |
| `Confluence.SweepRowCount` | backend/app/services/salary_service.py:330-365 | A sweep replaces exactly the automatic LATE and ABSENCE rows of its employee-day; every other row keeps its multiplicity |
| `LedgerInvariant.ReachableLedgersConsistent` | backend/app/services/salary_service.py:523-651 | Over every history of recomputes, manual rows and KPI settlements, inputs and clock changing freely: all six period totals are the sums of the month's accruals, every day balances, and a day has at most one automatic LATE or ABSENCE row and never both |
| `LedgerInvariant.RecomputeKeepsConsistency` | backend/app/services/salary_service.py:523-619 | One recompute keeps that invariant |
| `LedgerInvariant.PeriodsBalance` | backend/app/services/salary_service.py:622-651 | In a consistent ledger every period satisfies total = base + overtime + bonuses + kpi - deductions |
| `LedgerInvariant.RecomputeFrame` | backend/app/services/salary_service.py:523-619 | A recompute can only clear automatic rows of its own day, only appends automatic rows of its own day, and leaves every other accrual and period alone |
| `LedgerInvariant.NeverLateAndAbsent` | backend/app/services/salary_service.py:418-433 | No inputs make a day both late and absent |
| `LedgerInvariant.AbsenceExactly` | backend/app/services/salary_service.py:330-450 | The absence fine falls if and only if the day is over, employed, a workday of the template, else of the company, else Monday to Friday, not cancelled, leave or rest, and without any check-in; it is the per-day base |
| `LedgerInvariant.LatenessExactly` | backend/app/services/salary_service.py:475-508 | The lateness fine falls if and only if the day is employed, a rate is set and late minutes were collected; it is rate times minutes to half a cent |
| `LedgerInvariant.OneLateCheckIn` | backend/app/services/salary_service.py:494-504 | One late check-in among punctual ones makes all the late minutes, and a check-out makes none |
| `LedgerInvariant.LateImpliesCheckedIn` | backend/app/services/salary_service.py:475-508 | A lateness fine presupposes a non-rejected check-in that day and a positive rate |
| `LedgerInvariant.RestDayConservesHours` | backend/app/services/salary_service.py:560-563 | Marking a day as rest day moves its hours to overtime and loses none |
| `LedgerInvariant.AccruedHoursWithinDay` | backend/app/services/salary_service.py:55-137 | No time-ordered attendance log accrues more than 24.00 hours on a day |
| `PayrollEngine.Engine.AutogenerateLateDeduction` | backend/app/services/salary_service.py:453-520 | The late sweep as the service runs it, wipe first and every early return, equals its specification |
| `PayrollEngine.Engine.AutogenerateAbsenceDeduction` | backend/app/services/salary_service.py:330-450 | The absence sweep with its eight skip branches equals its specification |
| `LedgerInvariant.RecomputeKeepsSums` | backend/app/services/salary_service.py:622-651 | A recompute leaves every period row, its own and all others, equal to the sums of its month's accruals |
| `PayrollEngine.Engine.PriceDay` | backend/app/services/salary_service.py:537-576 | Hours, overtime and base of a day: rest days, paid and unpaid leave, admin overrides |
| `PayrollEngine.Engine.RecomputeForDay` | backend/app/services/salary_service.py:523-619 | One recompute takes the three tables to the specified ones and returns the stored accrual, whose base, overtime and total are priced by the employee's own rates or the leave; an unknown employee raises and changes nothing |
| `DayPrice.HoursAccrued` | backend/app/services/salary_service.py:560-563 | An ordinary day accrues the minutes worked and the overtime credited, a rest day all of them as overtime, to half a hundredth of an hour each |
| `DayPrice.BaseAccrued` | backend/app/services/salary_service.py:564 | Without leave the accrued hours are priced by the salary type, to half a cent |
| `DayPrice.LeaveAccrued` | backend/app/services/salary_service.py:565-576 | On approved leave: unpaid nothing, paid the daily base, or the day's share of the admin's total to half a cent |
| `DayPrice.OvertimeAccrued` | backend/app/services/salary_service.py:577 | After a recompute the day's overtime is its overtime hours times rate times multiplier to half a cent, and for HOURLY the multiplier times the base pay of those hours |
| `DayPrice.FinesAfterRecompute` | backend/app/services/salary_service.py:549-558 | After a recompute the day holds one automatic row of a kind, with the fine's amount, if and only if that fine is due; rest and leave days keep their rows |
| `DayPrice.SelectExactly` | backend/app/services/salary_service.py:73-84 | The payroll reads exactly the non-rejected rows of the UTC day, each as often as logged |
| `DayPrice.LeaveFound` | backend/app/services/salary_service.py:288-304 | A leave is found if and only if an approved one of the employee covers the day |
| `DayPrice.DayAddsToItsMonth` | backend/app/services/salary_service.py:628-650 | A further day adds its six amounts to the six totals of its own month and to nothing else |
| `PayrollEngine.Engine.RecomputePeriod` | backend/app/services/salary_service.py:654-676 | The month loop is the run of that month's calls, future days included, and returns the number of days |
| `PayrollEngine.Engine.RecomputeCompanyMonth` | backend/app/services/salary_service.py:804-823 | The company loop is the run of every employee's month calls, with the number of days |
| `WorkedTime.HoursForDay` | backend/app/services/salary_service.py:86-137 | The payroll loop computes the minutes of directly paired rows plus the virtual close, and the overtime of paired rows |
| `WorkedTime.MinutesWithinDay` | backend/app/services/salary_service.py:86-133 | For every time-sorted log, however INs and OUTs are mixed, minutes lie between 0 and 1440 |
| `WorkedTime.PairedMinutesWithinSpan` | backend/app/services/salary_service.py:89-97 | Paired minutes never exceed the span from the first to the last row |
| `WorkedTime.SessionsAddUp` | backend/app/services/salary_service.py:89-97 | A log of closed sessions is paid the whole minutes of each session and credited its overtime |
| `WorkedTime.LastCheckInCounts` | backend/app/services/salary_service.py:90-91 | Of repeated check-ins only the last counts, whatever follows |
| `WorkedTime.StrayCheckOutIgnored` | backend/app/services/salary_service.py:92-97 | A check-out with nothing open is ignored, whatever follows |
| `WorkedTime.OpenSessionPays` | backend/app/services/salary_service.py:99-133 | An open check-in is paid to the clock on its UTC day, on any other to the shift's end, or to midnight |
| `WorkedTime.HoursOfMinutes` | backend/app/services/salary_service.py:135-137 | Minutes become hours to half a hundredth |
| `WorkedTime.VirtualCloseIsRealCheckOut` | backend/app/services/salary_service.py:99-133 | Closing an open check-in virtually yields the minutes a real CHECK_OUT stamped then would yield, at any later closing time |
| `WorkedTime.PayNeverDropsAsTimePasses` | backend/app/services/salary_service.py:103-104 | While the day lasts, minutes and hours never decrease as the clock advances |
| `WorkedTime.PayDropsAtMidnight` | backend/app/services/salary_service.py:102-133 | When the day ends minutes drop if and only if an open check-in had run into a minute the shift's end does not pay |
| `WorkedTime.MinutesLostAtMidnight` | backend/app/services/salary_service.py:102-133 | A failing log: 840 minutes at 22:00, 540 the next day |
| `WorkedTime.TodayStatus` | backend/app/services/attendance_service.py:797-822 | The employee-facing loop: minutes, first check-in, last check-out and whether a session is open |
| `WorkedTime.ScreenAgreesWithPayroll` | backend/app/services/attendance_service.py:813-822 | On one row list the screen and the payroll show the same minutes if and only if no check-in lies open in the future |
| `LedgerInvariant.ScreenAgreesOnTheDay` | backend/app/services/attendance_service.py:785-822 | On a window of the log without rejected rows screen and payroll show the same minutes if and only if no check-in lies open in the future |
| `LedgerInvariant.RejectedRowSeparatesThem` | backend/app/services/salary_service.py:73-84 | A failing log: a rejected exit is skipped by the payroll and counted by the screen |
| `Decimals.HalfEvenUnique` | backend/app/services/salary_service.py:187 | Only one cent is within half a cent of a value with ties to even: the rounding result |
| `Decimals.HalfEvenMonotone` | backend/app/services/salary_service.py:204 | Rounding to cents is monotone |
| `Pricing.FullDayPaysDailyBase` | backend/app/services/salary_service.py:176-207 | An 8.00-hour day accrues exactly the per-day base for every salary type |
| `Pricing.BasePayMonotone` | backend/app/services/salary_service.py:176-207 | Base pay is non-negative and never falls with more hours |
| `Pricing.HourlyPaysTheRate` | backend/app/services/salary_service.py:185-187 | HOURLY pays the rate times the hours, to half a cent |
| `Pricing.BaseByType` | backend/app/services/salary_service.py:189-207 | DAILY pays its rate for any presence, MONTHLY its salary by the hour up to eight, KPI_BASED nothing |
| `Pricing.OvertimePaysTheMultiple` | backend/app/services/salary_service.py:210-216 | Overtime is rate times hours times multiplier, 1.50 when unset, to half a cent |
| `Pricing.HourlyOvertimeIsBaseTimesMultiplier` | backend/app/services/salary_service.py:210-216 | For HOURLY, overtime is the multiplier times what base pay would pay for the same hours, up to the rounding of both |
| `Pricing.EightHoursAreADay` | backend/app/services/salary_service.py:219-227 | The hourly rate is the employee's own; eight hours at a derived one are the daily base within 4 cents |
| `Pricing.OvertimeDayIsDailyBaseTimesMultiplier` | backend/app/services/salary_service.py:210-227 | Eight overtime hours pay the multiplier times the daily base, up to rounding |
| `Pricing.OvertimeFollowsHours` | backend/app/services/salary_service.py:213-216 | Overtime is never negative and never falls with the hours |
| `Pricing.OvertimeFollowsMultiplier` | backend/app/services/salary_service.py:215-216 | Overtime never falls with the multiplier |
| `Pricing.MonthlyPayCapped` | backend/app/services/salary_service.py:195-204 | A monthly day never pays more than the full-day amount, and exactly that from eight hours on |
| `Pricing.FullMonthWithinElevenCents` | backend/app/services/salary_service.py:307-316 | 22 full monthly days differ from the salary by at most 11 cents |
| `Pricing.ElevenCentsIsTight` | backend/app/services/salary_service.py:307-316 | The 11 cents are reached |
| `Pricing.LeaveSharesWithinHalfCentEach` | backend/app/services/salary_service.py:570-574 | The n equal shares of a leave override differ from its total by at most n/2 cents |
| `Payments.MoneyPaidIsRecorded` | backend/app/services/salary_service.py:706-796 | Over any interleaving of recompute, finalize, approve, mark-paid, reopen, the finalize route and entered transactions: the paid amount is the sum of the linked transactions and what mark-paids and entries made due; transactions are positive; PARTIALLY_PAID is never reached; in the workflow alone, money paid implies PAID and the time stamps fit the status |
| `Payments.MoneyIsTheHighestTotal` | backend/app/services/salary_service.py:739-779 | Without entered transactions that amount is the maximum of 0 and the totals at the mark-paid instants |
| `Payments.PaidIsForever` | backend/app/services/salary_service.py:782-796 | Once money has moved no later event takes it back, drops a transaction or leads to DRAFT; the period is PAID later if and only if no finalize route came after the last full payment |
| `Payments.RoutesBypassTheWorkflow` | backend/app/api/v1/salary.py:172-190 | Failing runs: a paid period finalized again, an advance that leaves a draft |
| `Payments.SalaryPeriod.CreateTransaction` | backend/app/api/v1/salary.py:318-346 | An entered transaction adds its amount and, in full, sets PAID |
| `Payments.CloseIsRerunnable` | backend/app/tasks/salary_tasks.py:165-201 | Closing a month twice on the same totals changes nothing and never leaves a period DRAFT or FINALIZED |
| `Payments.StatusAfter` | backend/app/services/salary_service.py:706-796 | The status after every step, from any period |
| `Payments.StampsAfter` | backend/app/services/salary_service.py:728-795 | The time stamps every step sets, keeps or clears |
| `Payments.BulkPaymentSettles` | backend/app/services/salary_service.py:866-891 | The bulk payment pays exactly the finalized, approved or partly paid periods that earned something, up to their total |
| `Payments.ApprovedTotalKeptIff` | backend/app/services/salary_service.py:706-736 | Over every run: the approved total still stands later if and only if the last recompute since the approval carried it or there was none |
| `Payments.PaysMoreThanApproved` | backend/app/services/salary_service.py:739-779 | A failing run: 100 approved, 250 paid |
| `Payments.SalaryPeriod.Approve` | backend/app/services/salary_service.py:706-736 | Approval and its no-op on APPROVED and PAID |
| `Payments.SalaryPeriod.MarkPaid` | backend/app/services/salary_service.py:739-779 | Creates the pending amount as one transaction when it is positive and sets PAID either way |
| `Payments.SalaryPeriod.Reopen` | backend/app/services/salary_service.py:782-796 | Refused exactly when money was paid, otherwise back to DRAFT |
| `Payments.MonthlyFinalize` | backend/app/tasks/salary_tasks.py:121-148 | Moves exactly the DRAFT rows to FINALIZED and returns their number |
| `Payments.BulkApprove` | backend/app/services/salary_service.py:826-852 | Approves exactly the DRAFT and FINALIZED rows and counts them |
| `Payments.BulkMarkPaid` | backend/app/services/salary_service.py:855-892 | Pays exactly the APPROVED, FINALIZED and PARTIALLY_PAID rows with a positive total and counts them |
| `Formula.CheckFormula` | backend/app/services/kpi_service.py:124-131 | The breadth-first whitelist walk accepts a tree if and only if no node anywhere is forbidden, and otherwise reports the reason of such a node |
| `Formula.AcceptedFormulaIsSafe` | backend/app/services/kpi_service.py:118-134 | Evaluating an accepted formula never looks up an unbound name and never calls anything but the six helpers, whatever the arithmetic does, if no variable is named like a helper |
| `Formula.EvalSafe` | backend/app/services/kpi_service.py:118-134 | The same for any environment that still binds the helpers |
| `Formula.EvalReadsOnlyItsNames` | backend/app/services/kpi_service.py:134 | Result and trace depend only on the names occurring in the formula |
| `Formula.ForbiddenExactly` | backend/app/services/kpi_service.py:73-102 | Exactly which nodes the whitelist refuses, and with which reason |
| `Formula.ConditionalTakesItsBranch` | backend/app/services/kpi_service.py:134 | A conditional is its first branch when the test is true and its second otherwise; the other is not evaluated |
| `Formula.OperatorsApply` | backend/app/services/kpi_service.py:134 | Operators apply to their operands' values, the left one first |
| `Formula.HelpersApply` | backend/app/services/kpi_service.py:103-111 | Helpers apply to their arguments' values in order |
| `Formula.AndOrAreConditionals` | backend/app/services/kpi_service.py:134 | `a and b` is `b if a else a`, `a or b` is `a if a else b` |
| `Formula.LongerBoolNests` | backend/app/services/kpi_service.py:134 | A longer `and` or `or` nests to the right |
| `Formula.ChainIsConjunction` | backend/app/services/kpi_service.py:134 | A comparison chain is the conjunction of its links |
| `Formula.BindingIsSubstitution` | backend/app/services/kpi_service.py:134 | For every formula, binding a name to a value and writing the value in its place give the same result |
| `Formula.SafeIffNoHelperShadowed` | backend/app/services/kpi_service.py:118-134 | For every environment of plain values: all accepted formulas are safe if and only if no variable is named like a helper |
| `Formula.ShadowedHelperFails` | backend/app/services/kpi_service.py:134 | Whichever helper a variable shadows, a call of it is accepted and fails |
| `Reward.ValidateTiers` | backend/app/schemas/kpi.py:61-75 | The validator accepts a tier list if and only if its brackets are non-empty and pairwise disjoint, and returns it sorted |
| `Reward.ChainedIffDisjoint` | backend/app/schemas/kpi.py:68-74 | On a sorted list the adjacent-bracket test is equivalent to pairwise disjointness |
| `Reward.PickTier` | backend/app/services/kpi_service.py:455-458 | The loop picks the last tier starting at or below the score, or the first tier |
| `Reward.PicksTheContainingBracket` | backend/app/services/kpi_service.py:445-458 | On a validated list the loop finds the bracket containing the score, and no other contains it |
| `Reward.TieredPaysTheBracket` | backend/app/services/kpi_service.py:445-463 | On a stored list the validator accepts, sorted again by the service, the reward is the multiplier of the bracket containing the effective score |
| `Reward.TieredPaysTheLastReached` | backend/app/services/kpi_service.py:445-463 | For any list and score, gaps included, TIERED pays the last tier reached, the lowest when none is, nothing without tiers |
| `Reward.TieredPaysTheMultiple` | backend/app/services/kpi_service.py:459-463 | TIERED pays amount times the bracket's multiplier, to half a cent |
| `Reward.ComputeReward` | backend/app/services/kpi_service.py:412-476 | The five branches in the service's own order of operations give the reward; it is never negative within the schema, and for disjoint tiers it is that of the bracket containing the score |
| `Reward.FixedPaysTheAmount` | backend/app/services/kpi_service.py:421-425 | FIXED pays its amount to the cent |
| `Reward.PerUnitPaysTheUnits` | backend/app/services/kpi_service.py:437-443 | PER_UNIT at a full score pays every unit of the target its price, to the cent |
| `Reward.PercentageOfTheSalary` | backend/app/services/kpi_service.py:427-435 | PERCENT_OF_SALARY at a full score and a full PENALTY_PERCENT are that percentage of the salary, to half a cent |
| `Reward.ProportionalToScore` | backend/app/services/kpi_service.py:427-474 | Percentages and units grow in proportion to the effective score, a penalty to what is missing to 100, up to rounding |
| `Reward.SalaryIrrelevant` | backend/app/services/kpi_service.py:421-463 | FIXED, PER_UNIT and TIERED do not depend on the salary |
| `Reward.CapAndThreshold` | backend/app/services/kpi_service.py:402-409 | A score above the cap pays as the cap, one below the threshold as none, one between as itself |
| `Reward.RewardNonNegative` | backend/app/services/kpi_service.py:412-476 | Within the schema's bounds no score produces a negative amount |
| `Reward.RewardFollowsScore` | backend/app/services/kpi_service.py:412-476 | A better score never pays less (TIERED: with non-decreasing multipliers) and never costs more for a penalty |
| `Reward.BelowThreshold` | backend/app/services/kpi_service.py:402-409 | What a score below the threshold pays, by reward type |
| `Reward.FixedNeedsFullScore` | backend/app/services/kpi_service.py:421-425 | A FIXED reward is paid if and only if score and cap reach 100 percent |
| `Reward.FixedAboveThresholdPaysNothing` | backend/app/services/kpi_service.py:421-425 | A failing input: above the threshold and unpaid |
| `Settlement.SettlementConserved` | backend/app/services/kpi_service.py:652-841 | Over any run of recompute, approve, reject, status edits, manual rows and payroll recomputes, live settlement bonuses correspond one-to-one with the assignments holding a bonus link and carry their employee and month; likewise deductions |
| `Settlement.StepKeepsMatch` | backend/app/services/kpi_service.py:743-841 | Each single step keeps that correspondence |
| `Settlement.PayrollKeepsMatch` | backend/app/services/salary_service.py:358-365 | A payroll recompute never removes or moves a settled penalty row |
| `Settlement.StartsMatched` | backend/app/services/kpi_service.py:658-699 | Without links and settled rows the correspondence holds |
| `Settlement.HeldLinksAreLive` | backend/app/services/kpi_service.py:673-683 | A held link always points to a live row |
| `Settlement.ApprovalPaysTheReward` | backend/app/services/kpi_service.py:743-794 | A positive approved amount is exactly the linked row's amount; a zero amount writes nothing and keeps an old bonus |
| `Settlement.InSyncIff` | backend/app/services/kpi_service.py:507-594 | Over every run after a settlement, without another approval or rejection of the assignment: its row keeps the settled amount, and reward and sign still agree with it if and only if the last successful recompute came to them or none came |
| `Settlement.BonusOutlivesItsReward` | backend/app/api/v1/kpi.py:585-602 | A failing run: 100 settled, recomputed to 40, cancelled, and the bonus stays 100 |
| `Settlement.ReapprovalRefreshes` | backend/app/services/kpi_service.py:673-683 | A second approval refreshes the first bonus and creates none |
| `Settlement.BothSidesIffOtherWasLinked` | backend/app/services/kpi_service.py:776-779 | After a positive approval bonus and deduction both stand if and only if the other side was linked before |
| `Settlement.BothSidesStand` | backend/app/services/kpi_service.py:743-794 | A failing run: approve a reward, reopen by hand, recompute to a penalty, approve |
| `Settlement.GuardedNeverBoth` | backend/app/api/v1/kpi.py:661-667 | Behind the approval route's status check, with statuses otherwise set by cancellation and the month-end task only, no assignment ever holds both links, over any run |
| `Settlement.RejectionLeavesNeither` | backend/app/services/kpi_service.py:797-841 | Rejection removes both rows and both links |
| `Settlement.LastDayIsInPeriod` | backend/app/services/kpi_service.py:652-655 | The settlement date is the last day of the assignment's month, leap years included: the day before the next month begins |
| `Settlement.KpiService.SettleBonusRow` | backend/app/services/kpi_service.py:658-699 | Refresh or insert the linked bonus, nothing for an amount that is not positive |
| `Settlement.KpiService.SettleDeductionRow` | backend/app/services/kpi_service.py:702-740 | The same for deductions |
| `Settlement.KpiService.RecomputeAssignment` | backend/app/services/kpi_service.py:507-594 | Scores the formula's value against the target, stores reward and sign, moves DRAFT and ACTIVE to COMPUTED, keeps links, and keeps everything on a failed formula |
| `Settlement.ScoreIsPercentOfTarget` | backend/app/services/kpi_service.py:533-537 | The score is the percentage of the target reached, to half a hundredth |
| `Settlement.TargetChosen` | backend/app/services/kpi_service.py:529-538 | The assignment's positive target counts, else the template's, else the score is 0 |
| `Settlement.RecomputeMovesOnlyItsOwn` | backend/app/services/kpi_service.py:539-561 | A recompute changes reward, sign and an open status of its assignment, and no row and no other assignment |
| `Settlement.ApproveAndRejectEnd` | backend/app/services/kpi_service.py:772-828 | Approval ends PAID, rejection REJECTED, no other assignment is touched |
| `Settlement.KpiService.ApproveAssignment` | backend/app/services/kpi_service.py:743-794 | Override or computed reward, settlement by sign, status PAID |
| `Settlement.KpiService.RejectAssignment` | backend/app/services/kpi_service.py:797-841 | Deletes linked rows, clears links, status REJECTED |
| `PeriodAudit.PeriodCountsEachKpiRowOnce` | backend/app/services/salary_service.py:654-676 | After a month's recompute the period's KPI amount is the sum of all live KPI bonuses of the month, and its bonus amount the sum of all others |
| `PeriodAudit.PeriodCallsExactly` | backend/app/services/salary_service.py:671-676 | The month's recompute visits every day of the month and no other |
| `PeriodAudit.CompanyCallsExactly` | backend/app/services/salary_service.py:813-822 | The company's recompute visits exactly the month's days of the listed employees |
| `PeriodAudit.SettledBonusCountedOnce` | backend/app/services/salary_service.py:140-159 | A settled bonus adds its amount to its own month's sum exactly once and to no other |
| `PeriodAudit.SettledPenaltyCountedOnce` | backend/app/services/salary_service.py:162-173 | The same for a settled penalty |
| `PeriodAudit.SettledMonthIsInThePeriod` | backend/app/services/salary_service.py:654-676 | After any settlement run followed by the month's recompute the period shows the sums of the month's rows, and every row linked by an assignment of the month is counted in it exactly once |
| `PeriodAudit.PeriodCountsEachDeductionOnce` | backend/app/services/salary_service.py:162-173 | After a month's recompute the period's deductions are the sum of the month's rows the recompute left behind |
| `SyncQueueTheorems.UpsertSafe` | backend/app/services/face_sync_service.py:85-132 | Enqueueing keeps one active job per triple and leaves every terminal row as it is |
| `FaceSync.Queue.EnqueueForEmployee` | backend/app/services/face_sync_service.py:135-157 | The device fan-out |
| `FaceSync.Queue.EnqueueForDevice` | backend/app/services/face_sync_service.py:160-175 | The roster fan-out |
| `FaceSync.Queue.CancelForEmployee` | backend/app/services/face_sync_service.py:178-198 | Cancels exactly the employee's PENDING and RETRY jobs and counts them |
| `SyncQueueTheorems.DrainSlots` | backend/app/services/face_sync_service.py:224-288 | In a drain each row of the batch is attempted exactly once from the state it had, and no other row changes |
| `FaceSync.Queue.ProcessPending` | backend/app/services/face_sync_service.py:291-322 | A drain attempts each row of the batch once, in order, and counts the outcomes |
| `SyncQueueTheorems.AttemptEnds` | backend/app/services/face_sync_service.py:226-288 | An attempt counts once and ends in success, failure at the fifth, or a later retry, by the adapter's answer |
| `SyncQueueTheorems.UpsertWakes` | backend/app/services/face_sync_service.py:100-132 | After an enqueue the triple has an active job due now; an existing one keeps its attempts, and no other row changes |
| `SyncQueueTheorems.UpsertAllWakes` | backend/app/services/face_sync_service.py:148-157 | A fan-out wakes every triple it names |
| `SyncQueueTheorems.CancelEnds` | backend/app/services/face_sync_service.py:181-198 | A cancellation ends exactly the employee's waiting jobs |
| `SyncQueueTheorems.ReachableSafe` | backend/app/services/face_sync_service.py:85-322 | In every state reachable by enqueues, cancels, drains and manual retries at most one active job per (device, employee, action); PENDING has 0 attempts, RETRY 1 to 4, FAILED exactly 5; active jobs have a retry time; no job is left IN_PROGRESS |
| `SyncQueueTheorems.TerminalForever` | backend/app/models/face_sync.py:49-76 | A terminal job never changes again unless an admin retries that job |
| `SyncQueueTheorems.TerminalChangesIff` | backend/app/api/v1/devices.py:693-722 | A step changes a terminal job if and only if it is a manual retry of that job and no other active job holds its triple |
| `SyncQueueTheorems.RevivalSafeIff` | backend/app/api/v1/devices.py:693-722 | Reviving a job keeps one active job per triple if and only if no other active job holds the triple |
| `SyncQueueTheorems.RevivalRefused` | backend/app/api/v1/devices.py:700-703 | A failing table: a succeeded job queued again cannot be retried |
| `FaceSync.Queue.RetryJob` | backend/app/api/v1/devices.py:693-722 | The retry route under the partial unique index: back to PENDING with 0 attempts, or refused with the table unchanged |
| `SyncQueueTheorems.TwoHourBackoffUnused` | backend/app/services/face_sync_service.py:43-49 | A retried job waits 30, 120, 480 or 1800 seconds, never 7200 |
| `SyncQueueTheorems.DrainSpendsBudget` | backend/app/services/face_sync_service.py:291-322 | A drain lowers the sum of (5 - attempts) over active jobs by at least the rows drained |
| `SyncQueueTheorems.DrainsAreBounded` | backend/app/services/face_sync_service.py:291-322 | Over every run all drains together attempt at most the initial sum of rows and five for each triple enqueued or job retried by hand |
| `SyncQueueTheorems.BatchMovesBehind` | backend/app/services/face_sync_service.py:282-288 | Each row of a batch drawn ahead of a waiting job leaves the rows ahead of it |
| `SyncQueueTheorems.WaitingIsBounded` | backend/app/services/face_sync_service.py:291-322 | While a due job waits, every drain takes at least the smallest limit of rows from those ahead of it, whatever is enqueued |
| `SyncQueueTheorems.NoStarvation` | backend/app/services/face_sync_service.py:291-322 | A due job neither re-enqueued, cancelled nor retried by hand is attempted within floor(k/limit)+1 drains, k being the other active jobs due no later and limit the smallest one drained with |
| `SyncQueueTheorems.CountAheadIsSize` | backend/app/services/face_sync_service.py:295-307 | The k of that bound is the number of other active jobs due no later |
| `TokenServer.ReachableInvariant` | backend/app/services/auth_service.py:113-285 | Over any run of calls every login's rotation chain has at most one active token and stays on one user and device, and each jti is redeemed at most once |
| `TokenServer.ReuseKillsTheChain` | backend/app/services/auth_service.py:147-190 | Presenting a redeemed token is refused, and leaves its chain without an active token if and only if the token has not expired or nothing of the chain was alive |
| `TokenServer.ExpiredReplaySparesTheChain` | backend/app/core/security.py:69-71 | A failing run: a consumed token replayed after its expiry leaves its successor usable |
| `TokenServer.DeadChainStaysDead` | backend/app/services/auth_service.py:139-213 | A dead chain never gains a token or becomes active again, in any later run |
| `TokenServer.PasswordChangeRevokesAll` | backend/app/services/auth_service.py:247-285 | After a password change no token of the user is usable on any device, through any later calls, until the user logs in again |
| `TokenServer.AuthService.LoginUser` | backend/app/services/auth_service.py:113-136 | Device cap (one oldest foreign token revoked), then a fresh token |
| `TokenServer.AuthService.RefreshToken` | backend/app/services/auth_service.py:139-213 | Rotation with its refusals in order: unknown, expired at decoding, reused with the device chain revoked, inactive user; it succeeds exactly for an unexpired usable row of an active account |
| `TokenServer.RefreshSucceedsIff` | backend/app/services/auth_service.py:164-198 | A refresh succeeds if and only if the jti is a row of the user, unexpired, usable, and the account is active |
| `TokenServer.RefreshSwapsOneRow` | backend/app/services/auth_service.py:200-213 | Success swaps the presented row for one fresh row of the same user, device and login, and changes nothing else |
| `TokenServer.RefusalRevokesOnlyOnReuse` | backend/app/services/auth_service.py:173-198 | A refusal changes a table only for reuse, and then revokes exactly the user's active rows on that device |
| `TokenServer.LockedOutGainsNothing` | backend/app/services/auth_service.py:195-198 | Over any run, a user inactive at every refresh and without a login gains no token and redeems none |
| `TokenServer.LoginThenRefresh` | backend/app/services/auth_service.py:113-213 | A login's token refreshes exactly until it expires, as long as the account is active |
| `TokenServer.LoginRevokesTheOldest` | backend/app/services/auth_service.py:80-110 | Up to two devices nobody is signed out; beyond, exactly the oldest usable token off this device is revoked |
| `TokenServer.AuthService.IssueTokenPair` | backend/app/services/auth_service.py:45-77 | Inserts one active row under a fresh jti |
| `TokenServer.LogoutEndsExactly` | backend/app/services/auth_service.py:216-244 | A logout ends exactly the tokens its request names and touches no other row |
| `TokenServer.OtherDevicesSparedIff` | backend/app/services/auth_service.py:234-241 | A logout of one device spares the user's other sessions if and only if it sends a token that decodes |
| `TokenServer.ExpiredLogoutEndsEveryDevice` | backend/app/services/auth_service.py:234-241 | A failing input: signing out with an expired token ends the other device too |
| `TokenServer.LoggedOutTokenIsRefused` | backend/app/services/auth_service.py:172-190 | A token ended by a logout is refused by every later refresh call and mints nothing |
| `ClientTab.NeverPresentsConsumedToken` | client-web/lib/api.ts:35-79 | With one tab against the server, in any interleaving of 401s, answers, logins and other clients, the tab never presents a token a rotation consumed |
| `ClientTab.PostedTokenStillUnredeemed` | client-web/lib/api.ts:48-63 | A posted token is still unredeemed when the server gets to it |
| `ClientTab.ResentAtMostOnce` | client-web/lib/api.ts:43-67 | Each original request goes out at most twice |
| `ClientTab.DeniedIsSentAgain` | client-web/lib/api.ts:46-67 | A 401 with a good token ends in a re-send: rotation, answer, cleared promise, and the request goes out again with the fresh token stored |
| `ClientTab.OneRefreshAtATime` | client-web/lib/api.ts:49-64 | While a refresh is under way a further 401 posts nothing and waits for it |
| `ClientTab.WaitersSettle` | client-web/lib/api.ts:60-74 | Clearing the promise settles every waiter with its answer; a refused one logs out |
| `ClientTab.DeniedForGood` | client-web/lib/api.ts:43-77 | A second 401 after the re-send, or one without a stored token, is final |
| `ClientTab.ReachableSystem` | client-web/lib/api.ts:35-79 | The combined invariant of tab and server in every reachable state |
| `LostAnswers.ConsumedIffStranded` | client-web/lib/api.ts:48-74 | With lost connections and page reloads at any point, the tab presents a consumed token if and only if the answer that would have replaced it was cut off |
| `LostAnswers.StrandedTokenEndsTheLogin` | backend/app/services/auth_service.py:147-190 | Presenting such a token is refused, and ends its chain if and only if it has not expired or the chain was dead before |
| `LostAnswers.ReachableSound` | client-web/lib/api.ts:35-79 | The invariant of tab, server and interrupted refreshes in every reachable state |
| `LostAnswers.ReloadStrandsTheToken` | client-web/lib/auth-store.ts:20-34 | A run that does it: the store survives a reload between rotation and delivery |
| `ClientTab.Interceptor.OnUnauthorized` | client-web/lib/api.ts:39-63 | The 401 handler: retry flag, shared promise, missing token |
| `ClientTab.NextKeepsTokens` | client-web/lib/api.ts:48-63 | Every step of tab, network and server keeps the stored token unredeemed, except between rotation and delivery, when its successor is on the way |
| `ClientTab.NextKeepsRequests` | client-web/lib/api.ts:60-67 | Every step keeps the retry discipline; clearing the shared promise leaves no request waiting for it |
| `ClientTab.Interceptor.OnResume` | client-web/lib/api.ts:64-74 | Re-sending with the new token or logging out |
| `ClientTab.SignOutLastsIff` | client-web/lib/api.ts:51-62 | After a sign-out the store stays empty in every continuation without a sign-in if and only if no refresh is under way whose answer may still come |
| `Nms.NonMaximumSuppression` | backend/app/services/face_service.py:225-247 | The loop returns the greedy set of the ranking as distinct indices in non-increasing score |
| `Nms.GreedySetUnique` | backend/app/services/face_service.py:235-247 | A ranking has only one such set |
| `Nms.GreedySetMeaning` | backend/app/services/face_service.py:235-247 | Kept boxes overlap pairwise at most the threshold; every dropped box overlaps more with a kept box of at least its score |
| `Nms.SuppressionIdempotent` | backend/app/services/face_service.py:235-247 | Suppressing the kept boxes again drops nothing |
| `Nms.UnionPositive` | backend/app/services/face_service.py:242-245 | The overlap ratio of proper boxes never divides by zero |
| `Nms.OverlapCountsCells` | backend/app/services/face_service.py:238-245 | On whole pixels the overlap is the number of shared grid cells over the number of cells in either box |
| `Nms.OverlapOfInner` | backend/app/services/face_service.py:232-245 | A box inside another overlaps it by the ratio of their areas |
| `Nms.OverlapOfItself` | backend/app/services/face_service.py:232-245 | A box overlaps itself by 1 |
| `Nms.NoOverlapIff` | backend/app/services/face_service.py:242-245 | The overlap is 0 if and only if no row or no column is shared |
| `Nms.OverlapSymmetric` | backend/app/services/face_service.py:238-245 | The overlap is symmetric |
| `FaceMatch.FindMatch` | backend/app/services/face_service.py:412-453 | For every gap the loop answers with the first of the most similar valid candidates, unless it is below the threshold or another valid one comes within the gap |
| `FaceMatch.MatchFields` | backend/app/services/face_service.py:441-445 | A match carries the similarity as score and what is missing to 1, never negative, as distance |
| `FaceMatch.PositiveGapIsClear` | backend/app/services/face_service.py:449-453 | With a positive gap a match is returned if and only if some candidate reaches the threshold and beats every other valid one by the gap, and it is that candidate |
| `FaceMatch.NoGapTakesTheFirst` | backend/app/services/face_service.py:438-453 | Without a positive gap a match is returned if and only if some candidate reaches the threshold, and it is the first of the best |
| `FaceMatch.OrderFreeIff` | backend/app/services/face_service.py:434-453 | Reordering never changes the answer if and only if the gap is positive or the best candidates at or above the threshold belong to one employee |
| `FaceMatch.SameBagSameAnswer` | backend/app/services/face_service.py:434-447 | Under that condition the answer depends only on the bag of well-formed candidates: malformed ones and order do not matter |
| `FaceMatch.OrderAndMalformedIrrelevant` | backend/app/services/face_service.py:434-447 | Clarity depends only on the bag of well-formed candidates |
| `FaceMatch.SameAnswer` | backend/app/services/face_service.py:412-453 | Two lists with the same well-formed candidates get the same answer from the service |
| `FaceMatch.ZeroGapDependsOnOrder` | backend/app/services/face_service.py:438-452 | A failing input at gap zero: of two equally similar employees the one listed first is returned, either way round |
| `Schedule.Planner.RegenerateEmployeeSchedule` | backend/app/services/shift_service.py:42-148 | Afterwards every date of the window is PLANNED with the template's id when the template is active and the weekday one of its days, otherwise REST_DAY without a template, except an admin's rows, which are unchanged; the loop refines one pure map, and `touched` counts exactly the rows that differ |
| `Schedule.RegeneratedIsPlanned` | backend/app/services/shift_service.py:105-144 | That statement about every window, from any rows |
| `Calendar.WeekdaysGoRound` | backend/app/services/shift_service.py:105 | 1 January 1970 is weekday 4, each day the next, Monday after Sunday |
| `Schedule.Planner.RegenerateForEmployees` | backend/app/services/shift_service.py:151-163 | The fan-out runs one regeneration per listed employee and adds the counts |
| `Schedule.Planner.RegenerateForTemplate` | backend/app/services/shift_service.py:166-177 | Afterwards every date of every employee pinned to the template is refreshed and nothing else; the count is zero if and only if nothing changed |
| `Schedule.RegenerationByDate` | backend/app/services/shift_service.py:102-145 | Every window date has a row: protected rows unchanged, all others equal to the target; rows outside unchanged |
| `Schedule.NoChangesMeansSame` | backend/app/services/shift_service.py:137-144 | `touched` is zero if and only if regeneration leaves the schedule as it is |
| `Schedule.TouchedCountsDifferences` | backend/app/services/shift_service.py:102-148 | `touched` is the number of dates of the window whose rows differ afterwards |
| `Schedule.LastTemplateWins` | backend/app/services/shift_service.py:79-148 | Regenerating under one template and then another equals the other alone, also on a wider window |
| `Schedule.SecondRunTouchesNothing` | backend/app/services/shift_service.py:79-148 | A second run touches 0 rows |
| `Schedule.EmployeesIndependent` | backend/app/services/shift_service.py:151-163 | Regenerations of two employees commute |
| `Schedule.FanOutByDate` | backend/app/services/shift_service.py:151-163 | Order and repetition of the listed employees leave no trace |
| `Schedule.FanOutTouchesNothing` | backend/app/services/shift_service.py:151-163 | The fan-out's count is zero if and only if the schedule stays as it was |
| `AttendanceLog.DaysAlternate` | backend/app/services/attendance_service.py:377-379 | In runs of check-in and check-out calls each employee's local day strictly alternates, starting with CHECK_IN |
| `AttendanceLog.AtMostOneLatePerDay` | backend/app/services/attendance_service.py:393-407 | With device events, manual rows, edits and deletions interleaved in any order, timestamps out of order included, an employee-day has at most one row with positive lateness |
| `AttendanceLog.LatenessOnlyOnFirstRow` | backend/app/services/device_service.py:554-585 | A late row is the first its local day received, whichever path wrote it |
| `AttendanceLog.LateFlagOfTheTwoPaths` | backend/app/services/device_service.py:576-585 | Exactly when the device path flags lateness of zero minutes |
| `AttendanceLog.LastTodayIsLastWritten` | backend/app/services/attendance_service.py:154-184 | On a log in time order the day's latest row is the one written last |
| `AttendanceLog.LastTodayIsLatest` | backend/app/services/attendance_service.py:173-184 | The day's latest row is never earlier than another of the day |
| `AttendanceLog.LastEverIsLatest` | backend/app/services/device_service.py:453-462 | The employee's latest row over all days |
| `AttendanceLog.Log.CheckInForEmployee` | backend/app/services/attendance_service.py:351-466 | Refusals in the source's order; a late check-in is the day's first row |
| `AttendanceLog.CheckInAcceptedIff` | backend/app/services/attendance_service.py:365-442 | A check-in is accepted if and only if the day is empty or closed and every gate is open; which refusal answers when |
| `AttendanceLog.CheckInRow` | backend/app/services/attendance_service.py:399-466 | Its row: whole minutes past the shift's start on the day's first row, suspicious outside the fence |
| `AttendanceLog.Log.CheckOutForEmployee` | backend/app/services/attendance_service.py:549-632 | Refusals, overtime, early leave; an accepted check-out has a check-in that day |
| `AttendanceLog.CheckOutAcceptedIff` | backend/app/services/attendance_service.py:558-608 | A check-out is accepted if and only if the day is open and every gate is open |
| `AttendanceLog.CheckOutRow` | backend/app/services/attendance_service.py:573-632 | Its row: early before the shift's end, whole minutes of overtime after it where allowed |
| `AttendanceLog.Log.ProcessFaceMatch` | backend/app/services/device_service.py:484-617 | Refusals, direction, suspicion; a late event is the day's first row |
| `AttendanceLog.FaceEventRow` | backend/app/services/device_service.py:493-600 | An entry door checks in, an exit door out, any other alternates with the employee's latest row; suspicion, lateness and refusals |
| `AttendanceLog.CorrectionKeepsOrder` | backend/app/api/v1/attendance.py:280-384 | Editing, rejecting or deleting a record keeps late rows first of their day |
| `EmployeeCodes.Company.Upgrade` | backend/alembic/versions/20260508_1000_company_employee_seq.py:85-124 | The two-phase renumbering succeeds if and only if no employee carries the temporary code of an older one; every UPDATE on the way keeps codes unique; afterwards codes are prefix-0001.. and the counter is past them |
| `EmployeeCodes.Company.UpdateCode` | backend/alembic/versions/20260508_1000_company_employee_seq.py:101-106 | One UPDATE under the unique constraint |
| `EmployeeCodes.Company.CreateEmployee` | backend/app/services/employee_service.py:57-77 | Refuses a taken code, otherwise ratchets the counter past the code's number |
| `EmployeeCodes.RatchetMoves` | backend/app/services/employee_service.py:73-77 | The counter moves to just past a number behind the prefix that reached it, and for no other code |
| `EmployeeCodes.TempPhaseUnique` | backend/alembic/versions/20260508_1000_company_employee_seq.py:98-106 | Each first-phase UPDATE keeps codes unique if and only if no temporary code clash lies among those done |
| `EmployeeCodes.TempStepUnique` | backend/alembic/versions/20260508_1000_company_employee_seq.py:100-106 | The same for one UPDATE |
| `EmployeeCodes.FinalStepUnique` | backend/alembic/versions/20260508_1000_company_employee_seq.py:108-116 | Each second-phase UPDATE keeps codes unique |
| `EmployeeCodes.FinalIsNeverTemp` | backend/alembic/versions/20260508_1000_company_employee_seq.py:39-48 | A final code never equals a temporary one |
| `EmployeeCodes.SlugPrefix` | backend/alembic/versions/20260508_1000_company_employee_seq.py:39-48 | The prefix has between 1 and 16 characters for every slug, which is what keeps final and temporary codes apart |
| `EmployeeCodes.SlugPrefixIs` | backend/alembic/versions/20260508_1000_company_employee_seq.py:39-48 | The prefix is the slug up to its first dash, cut at 16 characters |
| `EmployeeCodes.TempClashExists` | backend/alembic/versions/20260508_1000_company_employee_seq.py:20-23 | The clash is possible |
| `EmployeeCodes.ParseAfterPrint` | backend/alembic/versions/20260508_1000_company_employee_seq.py:110 | Parsing the four-digit padded form gives the number back, whatever its width |
| `EmployeeCodes.FourDigitsUpTo9999` | backend/alembic/versions/20260508_1000_company_employee_seq.py:110 | A code number prints as four digits exactly up to 9999 |
| `EmployeeCodes.SeventhCode` | backend/alembic/versions/20260508_1000_company_employee_seq.py:110 | The seventh code of acme is acme-0007 |
| `EmployeeCodes.MigrationLeavesCounterAhead` | backend/alembic/versions/20260508_1000_company_employee_seq.py:118-124 | After the migration the counter exceeds every number in use |
| `EmployeeCodes.CreationsKeepCounterAhead` | backend/app/services/employee_service.py:72-77 | Any sequence of creations with any codes keeps the counter ahead and codes unique |
| `EmployeeCodes.SuggestedCodeIsFresh` | backend/app/api/v1/employees.py:102-114 | The suggested code is free, and using it moves the counter by one |
| `EmployeeCodes.SuggestionsAlwaysFresh` | backend/app/api/v1/employees.py:86-114 | After the migration and any creations the suggestion is always free |

## Left out

- Screens, HTTP routes, notifications, object storage, sockets and task transport: plumbing around these engines.
- Image decoding, model inference and alignment: boxes, scores and similarities are given, as exact reals. Floating-point rounding and NaN are not modelled.
- `Decimal` intermediate results are exact; the 28-digit context precision is not modelled.
- Times are whole seconds and the local zone is UTC+5 without daylight saving.
- Settlement.LastDayIsInPeriod: months outside 1..12, which the schema refuses, are given a default date by `LastDay`.
- AttendanceLog.DaysAlternate: assumes a strictly advancing server clock; two calls in the same instant are not ordered by the source either.
- Token signing and password hashing: a token is its jti, user and device. Login failures write nothing and are left out; the device cap is not claimed as a bound, since a login revokes one token only.
- ClientTab.NeverPresentsConsumedToken: requests to the auth routes, which the interceptor rejects without a refresh, are not requests of the model; one tab, and refresh answers are not lost; `LostAnswers` drops the second assumption. Two tabs on one token store are not modelled.
- SyncQueueTheorems.NoStarvation: one worker drains at a time; two concurrent drains of the same rows are not modelled.
- SyncQueueTheorems.TerminalForever: rows that disappear with a deleted device or employee are not modelled. The same holds for the tokens of a deleted user.
- TokenServer.AuthService.RefreshToken: within the second in which a token expires, the row's own expiry test answers `token_expired` instead of the decoder's refusal; both change nothing, and whole seconds do not tell them apart.
- Duplicate devices in one fan-out under a session that does not flush, and flush timing in general: a query sees the rows just added.
- PayrollEngine.Engine.RecomputeForDay: ids, timestamps and reason texts of rows are not modelled; leave days and salary rates are non-negative, as the schemas require.
- Which of several overlapping approved leaves a query without an order returns: the model takes the first.
- Transactions that name no period: they touch no period row.
- Formula.AcceptedFormulaIsSafe: arithmetic is an arbitrary partial function; the final conversion to float and the memory and time of an evaluation are not modelled. Keyword arguments and every other refused node are one constructor.
- Settlement.KpiService.RecomputeAssignment: the value of the formula is a parameter; collecting its variables from the tables is not modelled.
- Reward.TieredPaysTheBracket: a template update stores tiers without the validator; for those only `ChosenTier`'s own clauses hold.
- EmployeeCodes.Company.Upgrade: one company; the migration runs all companies in one transaction.
- EmployeeCodes.SuggestionsAlwaysFresh: the prefix is fixed; Unicode digits and a newline at the end of a code, which the regular expression admits, are not modelled.
- The database constraint behind `create_employee` under concurrent calls.
- The offline queue of the web client, the script that recomputes lateness, device health sweeps and vendor event parsers.
- Permissions, subscription plans, audit rows, and the create, read, update and delete routes of branches, departments and the like.
