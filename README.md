# Roomi chore rotation and roommate matching, in Dafny

This project models two parts of Roomi, a shared-housing app: the chore
scheduler and the roommate compatibility score.

The scheduler is `roundRobinAssign` of `lib/schedule.ts`, with its helpers
`nextDateForDay` and `combineDateTime`. Given a chore list, a member roster
and a week start, it hands out dated assignments:
- daily chores: from their start date (or now), 60 of them, or up to the
  end date;
- every-other-day, weekly, biweekly and monthly chores: from the first
  preferred weekday (Saturday by default) on or after the start date (or
  the week start), 30, 8, 8 or 12 occurrences, or up to the end date;
- any other frequency: one assignment, given to the first member from the
  cursor on whose availability covers the preferred day and time, or to the
  member at the cursor when nobody's does. It is emitted only when the
  preferred time is readable and the date is not past the end date.

One cursor rotates round the roster across all chores.

The score is `ruleScore` of `app/api/match/route.ts`. It starts from 50, adds
lifestyle bonuses, a budget term and an interest bonus, and is clamped to
[0, 100]. The ranking scores each candidate, sorts by score descending and
keeps the first three.

Files and modules:

- `opt.dfy` (`Opt`): the `Option` type.
- `calendar.dfy` (`Calendar`): time as whole milliseconds in one time zone:
  - day start, adding days, the weekday;
  - JavaScript's `%` and `Math.ceil` of a day count;
  - calendar-month stepping as a parameter `MonthStep` that is strictly
    increasing in the number of months.
- `js_text.dfy` (`JsText`): `Number`, `split` and `slice` on the clock texts
  the scheduler reads.
- `mod_arith.dfy` (`ModArith`): remainder facts for the cursor.
- `schedule.dfy` (`Schedule`): the scheduler as functions. It has the
  helpers, the availability scan, each chore's series of dates, one chore's
  step (`ChoreStep`), the fold over the chore list, and `RoundRobin`, the
  result of a whole call.
- `schedule_laws.dfy` (`ScheduleLaws`): what the schedule promises:
  - caps and end-date bounds;
  - the availability scan picks the first available member;
  - the rotation law across chores;
  - contiguous, increasing per-chore blocks;
  - clock parsing;
  - a worked case.
- `round_robin.dfy` (`RoundRobinImpl`): the source's loops as methods, one
  cursor and one output list updated in place, each proved to compute the
  matching function of `Schedule`.
- `match.dfy` (`Match`): `ruleScore`, the map/sort/slice ranking and their
  laws.

Time is a parameter wherever the source reads the clock. `now` stands for
`new Date()`, and `addMonths` stands for `setMonth(getMonth() + i)`.

Where the documented behaviour and the code disagree, the model follows the code:

- Daily and every-other-day chores with an end date stop at
  `ceil((end - when) / 1 day)` steps. Every emitted date is therefore strictly
  before the end instant, and an end date given as a bare day (midnight)
  excludes that day. A daily chore from 2024-01-01 to 2024-01-03 at 09:00
  gets two assignments, not three (`ScheduleLaws.DailyEndDateCase`).
- Every-other-day chores go through `nextDateForDay` and default to the week
  start, like the weekly ones; only daily chores start from the start date
  as is.
- A malformed preferred time is not replaced by 18:00. `Number` makes it NaN,
  so the occurrence is an Invalid Date and `toISOString` throws. This is
  modelled as the outcome `InvalidTimeValue`. The exception is daily,
  every-other-day and other-frequency chores with an end date: their guards
  compare against NaN, so nothing is emitted and nothing throws.
- An empty preferred time schedules the chore at 18:00. The availability
  scan reads the empty text as minute 0.

## Model

| member | source | states |
|---|---|---|
| Calendar.Weekday | lib/schedule.ts:5 | `getDay()` lies in 0..6 |
| Calendar.AddDays | lib/schedule.ts:44 | `setDate(getDate() + n)` lands n days later at the same time of day |
| Calendar.WeekdayAfter | lib/schedule.ts:5-6 | moving n whole days moves the weekday n places round the week |
| Calendar.DayStart | lib/schedule.ts:11 | the day's midnight lies within one day before the instant and is a whole number of days |
| Calendar.TruncRem | lib/schedule.ts:5 | JavaScript `%`: equals the mathematical remainder for a non-negative dividend, is never positive for a negative one, and its magnitude is below the divisor |
| Calendar.CeilDays | lib/schedule.ts:40 | `Math.ceil(ms / day)` is the least whole number of days at least as long as `ms` |
| Calendar.CeilDaysBound | lib/schedule.ts:39-42 | a whole day count lies below `Math.ceil(ms / day)` exactly when that many days are shorter than `ms` |
| JsText.NumberTwoDigits | lib/schedule.ts:10 | `Number` reads back a two-digit zero-padded text as the number written |
| JsText.Split | lib/schedule.ts:10 | `split` yields at least one piece and no piece contains the separator |
| JsText.JoinSplit | lib/schedule.ts:10 | joining the pieces of `split` with the separator gives back the text |
| JsText.SplitWithoutSep | lib/schedule.ts:10 | a text without a colon splits into itself alone |
| JsText.SplitAtFirstSep | lib/schedule.ts:10 | the first colon ends the first piece |
| JsText.Number | lib/schedule.ts:10 | `Number` reads a text of decimal digits as a number and anything else as NaN; the empty text reads as 0 |
| JsText.Slice | lib/schedule.ts:73-75 | `slice` takes the characters from `from` up to `to`, both clamped to the length, and is empty when the bounds are out of order |
| Schedule.NextDateForDay | lib/schedule.ts:3-8 | for a weekday 0..6: moves forward 0 to 6 whole days, lands on that weekday, and moves 0 days exactly when the base already falls on it; the time of day is kept |
| Schedule.ClockOf | lib/schedule.ts:10 | the empty text reads as 18:00, and a text without a colon is a whole hour with minute 0, or NaN unless it is all digits |
| Schedule.CombineDateTime | lib/schedule.ts:9-12 | valid exactly when hour and minute read as numbers; the result is on or after the day's midnight with seconds and milliseconds zero |
| Schedule.StartDate | lib/schedule.ts:23 | a given start date is used as is; without one, daily chores start now and the others at the week start |
| Schedule.FirstWhen | lib/schedule.ts:23-34 | `when` is an Invalid Date exactly when the preferred time is unreadable, and for a daily chore or a non-negative preferred day it is not before the start day |
| Schedule.MinuteOfDay | lib/schedule.ts:73-75 | a text of at most two characters is a whole hour: its digits times 60, or NaN unless all digits; the empty text is minute 0 |
| Schedule.ScanFrom | lib/schedule.ts:69-79 | the scan from offset k returns a roster position |
| Schedule.AvailablePos | lib/schedule.ts:67-80 | the chosen position is on the roster |
| Schedule.OccurrenceGrows | lib/schedule.ts:42-119 | each step of a series adds at least one millisecond |
| Schedule.Occurrences | lib/schedule.ts:42-128 | a chore's dates are the first candidates of its series in order: its cap without an end date, else every candidate up to the first one past the end, which is left out |
| Schedule.FirstPastEnd | lib/schedule.ts:39-121 | the index where a series first passes its end date: past there, not past anywhere before |
| Schedule.ChoreStep | lib/schedule.ts:19-135 | one chore leaves the cursor on the roster, and all its assignments name that chore |
| Schedule.ChoreStepAt | lib/schedule.ts:36-135 | the same once `when` is known: the cursor stays on the roster and every assignment names the chore |
| Schedule.Fold | lib/schedule.ts:19-137 | the cursor stays in [0, n) across the chore list |
| Schedule.RoundRobin | lib/schedule.ts:14-15 | an empty roster or chore list yields no assignments |
| ScheduleLaws.OccurrenceIncreasing | lib/schedule.ts:42-119 | candidate dates strictly increase along a series |
| ScheduleLaws.EndDateExact | lib/schedule.ts:39-128 | with an end date the k-th candidate is emitted exactly when the series has not passed the end there: `< end` for daily/every-other-day, `<= end` for the rest; none when the first is already past |
| ScheduleLaws.DailyLoopBound | lib/schedule.ts:39-60 | the loop bound `i < maxDays` admits exactly the emitted occurrences |
| ScheduleLaws.UnboundedCaps | lib/schedule.ts:37-135 | without an end date a chore gets 60, 30, 8, 8, 12 or 1 assignments |
| ScheduleLaws.DailyCount | lib/schedule.ts:37-64 | with an end date: daily gets `ceil((end - when)/day)` assignments, every-other-day half of that rounded up, none when end is not after when |
| ScheduleLaws.WithinEndDate | lib/schedule.ts:37-135 | every assignment of a chore with an end date lies before it (daily, every-other-day) or on or before it (the rest) |
| ScheduleLaws.CombineAtClock | lib/schedule.ts:9-12 | at "HH:MM" the date keeps its day, takes hour HH and minute MM, seconds and ms zero |
| ScheduleLaws.CombineHourOnly | lib/schedule.ts:10 | a text with no minute part gives minute 0 |
| ScheduleLaws.FirstWhenAtClock | lib/schedule.ts:23-34 | at an "HH:MM" preferred time, `when` is at HH:MM; a daily chore keeps its start day, the others move 0 to 6 days on to the preferred weekday |
| ScheduleLaws.DefaultTime | lib/schedule.ts:9-20 | a missing or empty preferred time gives 18:00 |
| ScheduleLaws.MinuteOfClock | lib/schedule.ts:73-75 | an "HH:MM" text reads as minute HH*60 + MM |
| ScheduleLaws.CoversAtClock | lib/schedule.ts:71-77 | a window of "HH:MM" texts covers a clock time exactly on its weekday and between its start and end minutes, both included |
| ScheduleLaws.AvailableAtClock | lib/schedule.ts:71-77 | a member is available at "HH:MM" exactly when one of their windows on that weekday has readable bounds spanning that minute |
| ScheduleLaws.ScanFromIsFirst | lib/schedule.ts:69-80 | the scan from offset k finds the first available member at offset k or later, or the cursor when there is none |
| ScheduleLaws.AvailablePosIsFirst | lib/schedule.ts:67-80 | `pos` is the first member cyclically from the cursor who has a window covering the day and time; the cursor when nobody has |
| ScheduleLaws.FallbackStep | lib/schedule.ts:129-135 | the fallback emits at most one assignment, and one exactly when `when` is readable and not after the end date; it goes at `when` to `roster[pos]`, which is available unless nobody is, and the cursor becomes `(pos+1) mod n`, or else stays put |
| ScheduleLaws.SeriesIgnoresAvailability | lib/schedule.ts:84-128 | series chores ignore availability: rosters with the same ids give the same step |
| ScheduleLaws.StepRotates | lib/schedule.ts:37-128 | a series chore gives its k-th date to member `idx + k` round the roster and leaves the cursor after the last |
| ScheduleLaws.FoldCons | lib/schedule.ts:19 | the loop over chores is the first chore's step followed by the rest from the cursor it left |
| ScheduleLaws.RotationJoins | lib/schedule.ts:19-137 | two rotating stretches, the second starting at the cursor the first left, rotate as one |
| ScheduleLaws.RoundFromShift | lib/schedule.ts:49 | counting len places round the roster then k more is counting len + k |
| ScheduleLaws.FoldRotates | lib/schedule.ts:17-137 | across series chores the rotation carries on from chore to chore |
| ScheduleLaws.RotationLaw | lib/schedule.ts:14-139 | when every chore is a series chore, the k-th assignment goes to member k mod n |
| ScheduleLaws.StepSeries | lib/schedule.ts:19-135 | a chore's assignments are its series from the first occurrence, in order; the fallback gives only the first |
| ScheduleLaws.BlocksJoin | lib/schedule.ts:19-137 | the first chore's block followed by the others' blocks, shifted past it, cuts the joined output into blocks |
| ScheduleLaws.FoldBlocks | lib/schedule.ts:19-137 | the output is the chores' blocks in input order, each block following its chore's series |
| ScheduleLaws.BlockIncreasing | lib/schedule.ts:42-119 | dates within a block strictly increase |
| ScheduleLaws.ScheduleBlocks | lib/schedule.ts:14-139 | chores in input order, each chore's assignments contiguous, naming it, following its series with strictly increasing dates |
| ScheduleLaws.DailyChoreWhen | lib/schedule.ts:29-30 | the worked daily chore's first occurrence is 09:00 on its start day |
| ScheduleLaws.DailyChoreStep | lib/schedule.ts:37-50 | the worked daily chore goes to A and B one day apart, leaving the cursor at C |
| ScheduleLaws.DailyEndDateCase | lib/schedule.ts:37-50 | three members, one daily chore 2024-01-01 to 2024-01-03 at 09:00: A on the 1st and B on the 2nd |
| RoundRobinImpl.FindAvailable | lib/schedule.ts:68-80 | the scan loop computes `pos` |
| RoundRobinImpl.DailyCandidate | lib/schedule.ts:42-46 | a day offset below `maxDays` is the next date of the series and lies before the end date |
| RoundRobinImpl.RecurringCandidate | lib/schedule.ts:86-92 | the weekly, biweekly and monthly loops emit candidate i exactly when it is on or before the end, and emit 8 or 12 without one |
| RoundRobinImpl.RotateSnoc | lib/schedule.ts:47-49 | emitting one more date appends one assignment to the next member |
| RoundRobinImpl.EmitOne | lib/schedule.ts:47-49 | one more push gives the next date to the member at the cursor and moves the cursor on by one, as the rotated series does |
| RoundRobinImpl.EmitDaily | lib/schedule.ts:37-64 | the daily and every-other-day loops append the rotated series and advance the cursor by its length |
| RoundRobinImpl.EmitRecurring | lib/schedule.ts:84-128 | the weekly, biweekly and monthly loops append the rotated series and advance the cursor by its length |
| RoundRobinImpl.DailyBranch | lib/schedule.ts:37-64 | the daily branch does what `ChoreStepAt` says, including the Invalid Date cases |
| RoundRobinImpl.WeekdayBranch | lib/schedule.ts:65-135 | the scan and the series or fallback branch do what `ChoreStepAt` says |
| RoundRobinImpl.FallbackBranch | lib/schedule.ts:129-134 | the fallback push does what `ChoreStepAt` says for a member at the scanned position |
| RoundRobinImpl.ProcessChore | lib/schedule.ts:19-135 | one pass of the chore loop does what `ChoreStep` says |
| RoundRobinImpl.ThenFold | lib/schedule.ts:19 | after one chore's pass the rest of the loop carries on from its output and cursor, and a throw ends the whole call |
| RoundRobinImpl.RoundRobinAssign | lib/schedule.ts:14-139 | the whole method returns `RoundRobin`, so every law of `ScheduleLaws` holds of its result |
| Match.FieldBonus | app/api/match/route.ts:7-10 | a lifestyle bonus is paid exactly when both profiles set the field non-empty and to the same value |
| Match.Lifestyle | app/api/match/route.ts:7-10 | the lifestyle bonuses, 8 + 10 + 7 + 5, total at most 30 |
| Match.Overlap | app/api/match/route.ts:16 | the overlap is never negative |
| Match.BudgetAdjustment | app/api/match/route.ts:12-18 | the budget term is 0 exactly when a bound is missing, else +10 or -10 |
| Match.BudgetOverlapMeaning | app/api/match/route.ts:12-18 | with all four bounds, +10 exactly when the ranges share an interior point, -10 otherwise |
| Match.TouchingBudgetsDisjoint | app/api/match/route.ts:16-17 | ranges that only touch share no interior point and score -10 |
| Match.Distinct | app/api/match/route.ts:20-22 | the set iteration holds the same entries as the list, each once |
| Match.KeepIn | app/api/match/route.ts:22 | the filter is no longer than its input |
| Match.KeepInCount | app/api/match/route.ts:22 | filtering a duplicate-free list counts its members in the other set |
| Match.CommonCount | app/api/match/route.ts:20-22 | `common` is the number of distinct interests both profiles list |
| Match.InterestBonus | app/api/match/route.ts:20-23 | 5 points per distinct shared interest, capped at 15 |
| Match.DuplicateInterestsIgnored | app/api/match/route.ts:20-23 | listing an interest twice does not change the bonus |
| Match.Clamp | app/api/match/route.ts:25 | the clamp lies in [0, 100] and leaves values in range alone |
| Match.RuleScore | app/api/match/route.ts:5-26 | the score lies in [40, 100] |
| Match.RuleScoreSymmetric | app/api/match/route.ts:5-26 | `ruleScore(a, b) == ruleScore(b, a)` |
| Match.ScoreAll | app/api/match/route.ts:38 | one entry per candidate, in order, each with its score |
| Match.Insert | app/api/match/route.ts:39 | inserting adds exactly one entry |
| Match.InsertSorted | app/api/match/route.ts:39 | inserting into a sorted list keeps it sorted |
| Match.SortByScore | app/api/match/route.ts:39 | the sort is a permutation with scores in non-increasing order |
| Match.WithScoreInsert | app/api/match/route.ts:39 | insertion places an entry before every equal-score entry that follows it in the input |
| Match.SortKeepsTies | app/api/match/route.ts:39 | the sort is stable: entries with equal scores keep their input order |
| Match.ScoredEntries | app/api/match/route.ts:37-39 | a rearrangement of the scored candidates holds only candidates, each with its own score |
| Match.Top | app/api/match/route.ts:37-40 | `min(3, n)` results, in non-increasing score order, each a candidate with its `ruleScore` |
| Match.PrefixIsBest | app/api/match/route.ts:40 | nothing after a prefix of a sorted list outscores anything in it |
| Match.TopIsBest | app/api/match/route.ts:37-40 | the results are drawn from the scored candidates, and no omitted candidate scores higher than an included one |

## Left out

- User interface, Supabase storage and the HTTP handling of the match endpoint: request parsing, the 400 response and the JSON reply are not modelled.
- The Gemini calls and the parsing of their replies (app/api/match/route.ts:42-67): a foreign service; the model stops at the ranked `{ p, score }` list.
- Real `Date` semantics: time is whole milliseconds in one time zone without daylight saving, the UTC/local split of `toISOString` and date-only parsing is not modelled, and assignments carry the timestamp rather than its ISO text. The valid date range of `Date` is not modelled.
- Calendar months: `setMonth(getMonth() + i)` is the parameter `addMonths`, of which only "no change for 0 months, strictly increasing in i" is assumed; month lengths and day-of-month overflow are not modelled.
- The clock: the two `new Date()` calls are one `now` parameter.
- `Number`: modelled for texts of decimal digits (and the empty text, which is 0); signs, spaces, decimal points and exponents are read as NaN.
- Profile and chore fields the core does not read (name, major, bio, title, duration, notes) are not modelled; budget bounds are exact reals, not floating point.
- Unparsable dates: start and end dates and the week start are already-parsed timestamps, so a non-empty `start_date`, `end_date` or `weekStartISO` that `new Date` cannot read (an Invalid Date) is not modelled. With such an end date the weekly, biweekly and monthly `while (true)` loops never meet their break conditions and keep pushing until `toISOString` throws or memory runs out; such a start date behaves like an unreadable preferred time. The app fills these fields from date pickers.
- Schedule.CombineDateTime: hours and minutes beyond a day are added as milliseconds, which matches `setHours` only in a zone without daylight saving.
