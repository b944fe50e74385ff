/**
 * `roundRobinAssign` of lib/schedule.ts as the source runs it: one cursor
 * `idx` and one output list `out` updated across a loop over the chores, with
 * a counted loop per frequency. Each method is proved to compute the
 * corresponding function of module `Schedule`.
 */
module RoundRobinImpl {
  import opened Opt
  import opened Calendar
  import opened Schedule
  import opened ModArith
  import opened ScheduleLaws

  /** Rotating one more date onto a run appends one assignment. */
  lemma RotateSnoc(roster: seq<Member>, idx: nat, id: string, dates: seq<Time>, k: nat)
    requires |roster| > 0 && k < |dates|
    ensures Rotate(roster, idx, id, dates[..k + 1])
         == Rotate(roster, idx, id, dates[..k]) + [Assignment(id, RoundFrom(roster, idx, k).id, dates[k])]
  {
  }

  /** One more push of the loop: the next member gets `dates[k]` and the cursor moves on by one. */
  lemma EmitOne(roster: seq<Member>, idx: nat, id: string, dates: seq<Time>, k: nat,
                out0: seq<Assignment>, out: seq<Assignment>, cur: nat)
    requires |roster| > 0 && k < |dates|
    requires out == out0 + Rotate(roster, idx, id, dates[..k]) && cur == (idx + k) % |roster|
    ensures out + [Assignment(id, roster[cur % |roster|].id, dates[k])] == out0 + Rotate(roster, idx, id, dates[..k + 1])
    ensures (cur + 1) % |roster| == (idx + k + 1) % |roster|
  {
    ModAddRight(idx + k, 0, |roster|);
    RotateSnoc(roster, idx, id, dates, k);
    ModAddRight(idx + k, 1, |roster|);
  }

  /** A day offset below the daily loop bound is the next date of the series, and it lies before the end date. */
  lemma DailyCandidate(f: Freq, when: Time, end: Option<Time>, addMonths: MonthStep, k: nat)
    requires f == Daily || f == EveryOtherDay
    requires DayOffset(f, k) < MaxDays(when, end)
    ensures k < |Occurrences(f, when, end, addMonths)|
    ensures Occurrences(f, when, end, addMonths)[k] == AddDays(when, DayOffset(f, k))
    ensures end.Some? ==> AddDays(when, DayOffset(f, k)) < end.value
  {
    DailyLoopBound(f, when, end, addMonths, k);
    if end.Some? {
      EndDateExact(f, when, end.value, addMonths, k);
    }
  }

  /** Whether the weekly, biweekly or monthly loop emits its `i`-th candidate, and what that candidate is. */
  lemma RecurringCandidate(f: Freq, when: Time, end: Option<Time>, addMonths: MonthStep, i: nat)
    requires f == Weekly || f == Biweekly || f == Monthly
    ensures end.None? ==> |Occurrences(f, when, end, addMonths)| == (if f == Monthly then 12 else 8)
    ensures end.Some? ==> (i < |Occurrences(f, when, end, addMonths)| <==> Occurrence(f, when, i, addMonths) <= end.value)
    ensures i < |Occurrences(f, when, end, addMonths)| ==> Occurrences(f, when, end, addMonths)[i] == Occurrence(f, when, i, addMonths)
  {
    if end.Some? {
      EndDateExact(f, when, end.value, addMonths, i);
    }
  }

  /** The availability scan, lines 67-80. */
  method FindAvailable(roster: seq<Member>, idx: nat, day: int, time: string) returns (pos: nat)
    requires idx < |roster|
    ensures pos == AvailablePos(roster, idx, day, time)
  {
    var found: Option<nat> := None;
    for k := 0 to |roster|
      invariant found.None?
      invariant ScanFrom(roster, idx, day, time, k) == AvailablePos(roster, idx, day, time)
    {
      var m := roster[(idx + k) % |roster|];
      if Available(m, day, time) {
        found := Some((idx + k) % |roster|);
        break;
      }
    }
    pos := found.GetOr(idx);
  }

  /** The daily and every-other-day loops, lines 37-64. */
  method EmitDaily(c: Chore, when: Time, roster: seq<Member>, idx: nat, out: seq<Assignment>, ghost addMonths: MonthStep)
    returns (out': seq<Assignment>, idx': nat)
    requires c.freq == Daily || c.freq == EveryOtherDay
    requires idx < |roster|
    ensures out' == out + Rotate(roster, idx, c.id, Occurrences(c.freq, when, c.endDate, addMonths))
    ensures idx' == (idx + |Occurrences(c.freq, when, c.endDate, addMonths)|) % |roster|
  {
    ghost var dates := Occurrences(c.freq, when, c.endDate, addMonths);
    ghost var k := 0;
    var step := if c.freq == Daily then 1 else 2;
    var maxDays := if c.endDate.Some? then CeilDays(c.endDate.value - when) else 60;
    var i := 0;
    out', idx' := out, idx;
    while i < maxDays
      invariant maxDays == MaxDays(when, c.endDate)
      invariant i == DayOffset(c.freq, k) && k <= |dates|
      invariant out' == out + Rotate(roster, idx, c.id, dates[..k])
      invariant idx' == (idx + k) % |roster|
      decreases maxDays - i
    {
      DailyCandidate(c.freq, when, c.endDate, addMonths, k);
      var date := AddDays(when, i);
      if c.endDate.Some? && date > c.endDate.value {
        break;
      }
      EmitOne(roster, idx, c.id, dates, k, out, out', idx');
      var m := roster[idx' % |roster|];
      out' := out' + [Assignment(c.id, m.id, date)];
      idx' := (idx' + 1) % |roster|;
      i := i + step;
      k := k + 1;
    }
    DailyLoopBound(c.freq, when, c.endDate, addMonths, k);
    assert dates[..k] == dates;
  }

  /** The weekly, biweekly and monthly loops, lines 84-128. */
  method EmitRecurring(c: Chore, when: Time, roster: seq<Member>, idx: nat, out: seq<Assignment>, addMonths: MonthStep)
    returns (out': seq<Assignment>, idx': nat)
    requires c.freq == Weekly || c.freq == Biweekly || c.freq == Monthly
    requires idx < |roster|
    ensures out' == out + Rotate(roster, idx, c.id, Occurrences(c.freq, when, c.endDate, addMonths))
    ensures idx' == (idx + |Occurrences(c.freq, when, c.endDate, addMonths)|) % |roster|
  {
    ghost var dates := Occurrences(c.freq, when, c.endDate, addMonths);
    var cap := if c.freq == Monthly then 12 else 8;
    var i := 0;
    out', idx' := out, idx;
    while true
      invariant i <= |dates|
      invariant c.endDate.None? ==> i < cap == |dates|
      invariant out' == out + Rotate(roster, idx, c.id, dates[..i])
      invariant idx' == (idx + i) % |roster|
      decreases |dates| - i
    {
      RecurringCandidate(c.freq, when, c.endDate, addMonths, i);
      var date := Occurrence(c.freq, when, i, addMonths);
      if c.endDate.Some? && date > c.endDate.value {
        break;
      }
      if c.endDate.None? && i >= cap {
        break;
      }
      EmitOne(roster, idx, c.id, dates, i, out, out', idx');
      var m := roster[idx' % |roster|];
      out' := out' + [Assignment(c.id, m.id, date)];
      idx' := (idx' + 1) % |roster|;
      i := i + 1;
      if c.endDate.None? && i >= cap {
        break;
      }
    }
    assert dates[..i] == dates;
  }

  /** One chore's pass of the loop over chores, lines 20-135. */
  method ProcessChore(chore: Chore, roster: seq<Member>, idx: nat, weekStart: Time, now: Time,
                      addMonths: MonthStep, out: seq<Assignment>)
    returns (thrown: bool, out': seq<Assignment>, idx': nat)
    requires idx < |roster|
    ensures Then(out, ChoreStep(chore, roster, idx, weekStart, now, addMonths))
         == if thrown then Thrown else Run(out', idx')
  {
    var time := chore.preferredTime.GetOr("18:00");
    var startDate := if chore.startDate.Some? then chore.startDate.value
                     else if chore.freq == Daily then now else weekStart;
    var when: Option<Time>;
    if chore.freq == Daily {
      when := CombineDateTime(startDate, time);
    } else {
      var day := chore.preferredDay.GetOr(6);
      when := CombineDateTime(NextDateForDay(startDate, day), time);
    }
    if chore.freq == Daily || chore.freq == EveryOtherDay {
      thrown, out', idx' := DailyBranch(chore, when, roster, idx, addMonths, out);
    } else {
      thrown, out', idx' := WeekdayBranch(chore, when, roster, idx, addMonths, out);
    }
  }

  /** The daily and every-other-day branch, lines 37-64. */
  method DailyBranch(chore: Chore, when: Option<Time>, roster: seq<Member>, idx: nat,
                     ghost addMonths: MonthStep, out: seq<Assignment>)
    returns (thrown: bool, out': seq<Assignment>, idx': nat)
    requires chore.freq == Daily || chore.freq == EveryOtherDay
    requires idx < |roster|
    ensures Then(out, ChoreStepAt(chore, roster, idx, when, addMonths))
         == if thrown then Thrown else Run(out', idx')
  {
    thrown, out', idx' := false, out, idx;
    if when.None? {
      // with an end date the bound is NaN and the loop does not run; without one the first push throws
      thrown := chore.endDate.None?;
    } else {
      out', idx' := EmitDaily(chore, when.value, roster, idx, out, addMonths);
    }
  }

  /** The branch for every other frequency, lines 65-135: the availability scan, then the series or the fallback. */
  method WeekdayBranch(chore: Chore, when: Option<Time>, roster: seq<Member>, idx: nat,
                       addMonths: MonthStep, out: seq<Assignment>)
    returns (thrown: bool, out': seq<Assignment>, idx': nat)
    requires chore.freq != Daily && chore.freq != EveryOtherDay
    requires idx < |roster|
    ensures Then(out, ChoreStepAt(chore, roster, idx, when, addMonths))
         == if thrown then Thrown else Run(out', idx')
  {
    var time := chore.preferredTime.GetOr("18:00");
    var day := chore.preferredDay.GetOr(6);
    var pos := FindAvailable(roster, idx, day, time);
    thrown, out', idx' := false, out, idx;
    if chore.freq == Weekly || chore.freq == Biweekly || chore.freq == Monthly {
      if when.None? {
        thrown := true;
      } else {
        out', idx' := EmitRecurring(chore, when.value, roster, idx, out, addMonths);
      }
    } else {
      thrown, out', idx' := FallbackBranch(chore, when, roster, idx, pos, addMonths, out);
    }
  }

  /** The fallback for any other frequency, lines 129-134: one assignment to the member at `pos`. */
  method FallbackBranch(chore: Chore, when: Option<Time>, roster: seq<Member>, idx: nat, pos: nat,
                        ghost addMonths: MonthStep, out: seq<Assignment>)
    returns (thrown: bool, out': seq<Assignment>, idx': nat)
    requires chore.freq == Other
    requires idx < |roster|
    requires pos == AvailablePos(roster, idx, PreferredDay(chore), TimeText(chore))
    ensures Then(out, ChoreStepAt(chore, roster, idx, when, addMonths))
         == if thrown then Thrown else Run(out', idx')
  {
    thrown, out', idx' := false, out, idx;
    if chore.endDate.None? || (when.Some? && when.value <= chore.endDate.value) {
      if when.None? {
        thrown := true;
      } else {
        out' := out + [Assignment(chore.id, roster[pos].id, when.value)];
        idx' := (pos + 1) % |roster|;
      }
    }
  }

  /**
   * Unrolling the fold by one chore, behind a prefix `out` of earlier
   * assignments: `whole` is the fold, `step` the first chore's pass and `rest`
   * the fold of the others from the cursor the pass left. If the pass throws,
   * so does the whole fold; otherwise the fold carries on from the pass's
   * output and cursor.
   */
  lemma ThenFold(out: seq<Assignment>, step: Run, whole: Run, rest: Run, thrown: bool, out': seq<Assignment>, idx': nat)
    requires Then(out, step) == if thrown then Thrown else Run(out', idx')
    requires step.Thrown? ==> whole.Thrown?
    requires step.Run? ==> (whole.Run? <==> rest.Run?) && (whole.Run? ==> whole.out == step.out + rest.out && whole.cursor == rest.cursor)
    ensures thrown ==> Then(out, whole) == Thrown
    ensures !thrown ==> Then(out, whole) == Then(out', rest)
  {
    if step.Run? && rest.Run? {
      assert out + (step.out + rest.out) == (out + step.out) + rest.out;
    }
  }

  /**
   * `roundRobinAssign(chores, members, weekStartISO)`, lines 14-139, with the
   * clock reading `now` and the calendar's month step `addMonths`.
   */
  method RoundRobinAssign(chores: seq<Chore>, members: seq<Member>, weekStartISO: Option<Time>, now: Time,
                          addMonths: MonthStep)
    returns (result: Outcome)
    ensures result == RoundRobin(chores, members, weekStartISO, now, addMonths)
  {
    if |members| == 0 || |chores| == 0 {
      return Ok([]);
    }
    var weekStart := if weekStartISO.Some? then weekStartISO.value else now;
    var roster := members;
    var idx: nat := 0;
    var out := [];
    for c := 0 to |chores|
      invariant idx < |roster|
      invariant Fold(chores, roster, weekStart, now, addMonths, 0)
             == Then(out, Fold(chores[c..], roster, weekStart, now, addMonths, idx))
    {
      assert chores[c..][0] == chores[c] && chores[c..][1..] == chores[c + 1..];
      var thrown, out', idx' := ProcessChore(chores[c], roster, idx, weekStart, now, addMonths, out);
      FoldCons(chores[c..], roster, weekStart, now, addMonths, idx);
      ghost var step := ChoreStep(chores[c], roster, idx, weekStart, now, addMonths);
      ghost var rest := if step.Run? then Fold(chores[c + 1..], roster, weekStart, now, addMonths, step.cursor) else Thrown;
      ThenFold(out, step, Fold(chores[c..], roster, weekStart, now, addMonths, idx), rest, thrown, out', idx');
      out, idx := out', idx';
      if thrown {
        return InvalidTimeValue;
      }
    }
    assert chores[|chores|..] == [];
    return Ok(out);
  }
}
