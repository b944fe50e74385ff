/**
 * What the schedule of lib/schedule.ts promises, proved about the functions
 * of module `Schedule`.
 */
module ScheduleLaws {
  import opened Opt
  import opened JsText
  import opened Calendar
  import opened ModArith
  import opened Schedule

  // ---------------------------------------------------------------------
  // Series of dates
  // ---------------------------------------------------------------------

  /** Candidate dates strictly increase along a series. */
  lemma {:induction false} OccurrenceIncreasing(f: Freq, when: Time, j: nat, k: nat, addMonths: MonthStep)
    requires Recurring(f) && j < k
    ensures Occurrence(f, when, j, addMonths) < Occurrence(f, when, k, addMonths)
    decreases k - j
  {
    OccurrenceGrows(f, when, j, addMonths);
    if j + 1 < k {
      OccurrenceIncreasing(f, when, j + 1, k, addMonths);
    }
  }

  /**
   * With an end date, the `k`-th candidate is emitted exactly when the series
   * is not yet past the end there: on or before the end date for weekly,
   * biweekly and monthly chores, strictly before it for daily and
   * every-other-day chores. In particular nothing is emitted when the first
   * occurrence is already past the end.
   */
  lemma EndDateExact(f: Freq, when: Time, end: Time, addMonths: MonthStep, k: nat)
    requires Recurring(f)
    ensures k < |Occurrences(f, when, Some(end), addMonths)| <==> !PastEnd(f, Occurrence(f, when, k, addMonths), end)
  {
    var n := FirstPastEnd(f, when, end, addMonths, 0);
    if k > n {
      OccurrenceIncreasing(f, when, n, k, addMonths);
    }
  }

  /** The day offset of the `k`-th occurrence of a daily or every-other-day chore. */
  function DayOffset(f: Freq, k: nat): nat {
    if f == Daily then k else 2 * k
  }

  /** The source's `maxDays`: `ceil((end - when) / 1 day)`, or 60 without an end date. */
  function MaxDays(when: Time, end: Option<Time>): int {
    if end.Some? then CeilDays(end.value - when) else 60
  }

  /**
   * The daily loop bound `i < maxDays`, with `i` the day offset, admits
   * exactly the occurrences the schedule emits.
   */
  lemma DailyLoopBound(f: Freq, when: Time, end: Option<Time>, addMonths: MonthStep, k: nat)
    requires f == Daily || f == EveryOtherDay
    ensures k < |Occurrences(f, when, end, addMonths)| <==> DayOffset(f, k) < MaxDays(when, end)
  {
    if end.Some? {
      CeilDaysBound(end.value - when, DayOffset(f, k));
      EndDateExact(f, when, end.value, addMonths, k);
    }
  }

  /**
   * Without an end date and with a readable time, a chore gets its cap: 60
   * daily, 30 every-other-day, 8 weekly, 8 biweekly, 12 monthly, and one
   * assignment in the fallback.
   */
  lemma UnboundedCaps(c: Chore, roster: seq<Member>, idx: nat, weekStart: Time, now: Time, addMonths: MonthStep)
    requires idx < |roster| && c.endDate.None? && FirstWhen(c, weekStart, now).Some?
    ensures ChoreStep(c, roster, idx, weekStart, now, addMonths).Run?
    ensures |ChoreStep(c, roster, idx, weekStart, now, addMonths).out| == Cap(c.freq)
  {
  }

  /**
   * With an end date, a daily chore gets `ceil((end - when) / 1 day)`
   * assignments and an every-other-day chore half that many rounded up; none
   * when the end is not after `when`.
   */
  lemma DailyCount(f: Freq, when: Time, end: Time, addMonths: MonthStep)
    requires f == Daily || f == EveryOtherDay
    ensures var m := CeilDays(end - when);
            |Occurrences(f, when, Some(end), addMonths)|
            == if m <= 0 then 0 else if f == Daily then m else (m + 1) / 2
  {
    var n := |Occurrences(f, when, Some(end), addMonths)|;
    var m := CeilDays(end - when);
    var expected := if m <= 0 then 0 else if f == Daily then m else (m + 1) / 2;
    DailyLoopBound(f, when, Some(end), addMonths, n);
    if n > expected {
      DailyLoopBound(f, when, Some(end), addMonths, expected);
    }
  }

  /** Every assignment a chore with an end date gets lies before it (daily, every other day) or on or before it (the rest). */
  lemma WithinEndDate(c: Chore, roster: seq<Member>, idx: nat, weekStart: Time, now: Time, addMonths: MonthStep)
    requires idx < |roster| && c.endDate.Some?
    ensures var r := ChoreStep(c, roster, idx, weekStart, now, addMonths);
            r.Run? ==> forall k :: 0 <= k < |r.out| ==> !PastEnd(c.freq, r.out[k].when, c.endDate.value)
  {
    var r := ChoreStep(c, roster, idx, weekStart, now, addMonths);
    var w := FirstWhen(c, weekStart, now);
    if r.Run? && w.Some? && Recurring(c.freq) {
      forall k | 0 <= k < |r.out|
        ensures !PastEnd(c.freq, r.out[k].when, c.endDate.value)
      {
        EndDateExact(c.freq, w.value, c.endDate.value, addMonths, k);
      }
    }
  }

  // ---------------------------------------------------------------------
  // combineDateTime
  // ---------------------------------------------------------------------

  /** The text "HH:MM". */
  function ClockText(h: nat, m: nat): string
    requires h < 100 && m < 100
  {
    TwoDigits(h) + ":" + TwoDigits(m)
  }

  /**
   * At a well-formed "HH:MM" the date keeps its day and takes hour `HH` and
   * minute `MM`, with seconds and milliseconds zero.
   */
  lemma CombineAtClock(d: Time, h: nat, m: nat)
    requires h < 24 && m < 60
    ensures var r := CombineDateTime(d, ClockText(h, m));
            && r.Some?
            && DayStart(r.value) == DayStart(d)
            && (r.value - DayStart(d)) / MsPerHour == h
            && (r.value - DayStart(d)) % MsPerHour / MsPerMinute == m
            && (r.value - DayStart(d)) % MsPerMinute == 0
  {
    SplitWithoutSep(TwoDigits(m), ':');
    SplitAtFirstSep(TwoDigits(h), TwoDigits(m), ':');
    assert ClockText(h, m) == TwoDigits(h) + [':'] + TwoDigits(m);
    NumberTwoDigits(h);
    NumberTwoDigits(m);
    var r := DayStart(d) + h * MsPerHour + m * MsPerMinute;
    assert CombineDateTime(d, ClockText(h, m)) == Some(r);
    assert r / MsPerDay == d / MsPerDay;
  }

  /** A text without a colon is the hour alone, and the minute is 0. */
  lemma CombineHourOnly(d: Time, h: nat)
    requires h < 100
    ensures CombineDateTime(d, TwoDigits(h)) == Some(DayStart(d) + h * MsPerHour)
  {
    SplitWithoutSep(TwoDigits(h), ':');
    NumberTwoDigits(h);
  }

  /**
   * At a well-formed "HH:MM" preferred time, `when` lies at that hour and
   * minute; a daily chore keeps its start day, and any other chore moves to
   * the first day on or after its start day, at most six days later, that
   * falls on the preferred weekday.
   */
  lemma FirstWhenAtClock(c: Chore, weekStart: Time, now: Time, h: nat, m: nat)
    requires h < 24 && m < 60 && TimeText(c) == ClockText(h, m)
    requires c.freq == Daily || PreferredDay(c) >= 0
    ensures var r := FirstWhen(c, weekStart, now);
            var s := StartDate(c, weekStart, now);
            && r.Some?
            && r.value - DayStart(r.value) == h * MsPerHour + m * MsPerMinute
            && (c.freq == Daily ==> DayStart(r.value) == DayStart(s))
            && (c.freq != Daily ==>
                  && DayStart(s) <= DayStart(r.value) <= DayStart(s) + 6 * MsPerDay
                  && Weekday(r.value) == PreferredDay(c) % 7)
  {
    var s := StartDate(c, weekStart, now);
    var d := if c.freq == Daily then s else NextDateForDay(s, PreferredDay(c));
    CombineAtClock(d, h, m);
    var r := FirstWhen(c, weekStart, now).value;
    assert r == DayStart(d) + h * MsPerHour + m * MsPerMinute;
    assert r / MsPerDay == d / MsPerDay;
  }

  /** An empty or missing preferred time schedules the chore at 18:00. */
  lemma DefaultTime(c: Chore, d: Time)
    requires c.preferredTime.None? || c.preferredTime == Some("")
    ensures CombineDateTime(d, TimeText(c)) == Some(DayStart(d) + 18 * MsPerHour)
  {
    assert ClockOf("18:00") == ClockOf("") == Some((18, 0));
  }

  // ---------------------------------------------------------------------
  // The availability scan
  // ---------------------------------------------------------------------

  /** An "HH:MM" text reads as minute `HH * 60 + MM` of the day. */
  lemma MinuteOfClock(h: nat, m: nat)
    requires h < 100 && m < 100
    ensures MinuteOfDay(ClockText(h, m)) == Some(h * 60 + m)
  {
    var s := ClockText(h, m);
    assert Slice(s, 0, 2) == TwoDigits(h);
    assert Slice(s, 3, |s|) == TwoDigits(m);
    NumberTwoDigits(h);
    NumberTwoDigits(m);
  }

  /**
   * A window written in "HH:MM" texts covers a clock time exactly on its
   * weekday and from its start minute to its end minute, both included.
   */
  lemma CoversAtClock(day: int, sh: nat, sm: nat, eh: nat, em: nat, d: int, h: nat, m: nat)
    requires sh < 100 && sm < 100 && eh < 100 && em < 100 && h < 100 && m < 100
    ensures Covers(Window(day, ClockText(sh, sm), ClockText(eh, em)), d, ClockText(h, m))
            <==> d == day && sh * 60 + sm <= h * 60 + m <= eh * 60 + em
  {
    MinuteOfClock(sh, sm);
    MinuteOfClock(eh, em);
    MinuteOfClock(h, m);
  }

  /** A window whose bounds read as minutes `lo <= t <= hi`. */
  predicate Holds(w: Window, t: int) {
    var lo := MinuteOfDay(w.start);
    var hi := MinuteOfDay(w.end);
    lo.Some? && hi.Some? && lo.value <= t <= hi.value
  }

  /**
   * A member is available at "HH:MM" on a weekday exactly when one of their
   * windows on that weekday spans minute `HH * 60 + MM`.
   */
  lemma AvailableAtClock(mem: Member, d: int, h: nat, m: nat)
    requires h < 100 && m < 100
    ensures Available(mem, d, ClockText(h, m))
            <==> exists i :: 0 <= i < |mem.availability| && mem.availability[i].day == d
                             && Holds(mem.availability[i], h * 60 + m)
  {
    MinuteOfClock(h, m);
  }

  /** The scan from offset `k` finds the first available member at an offset from `k` on. */
  lemma {:induction false} ScanFromIsFirst(roster: seq<Member>, idx: nat, day: int, time: string, k: nat) returns (j: nat)
    requires idx < |roster| && k <= |roster|
    requires forall i :: 0 <= i < k ==> !Available(RoundFrom(roster, idx, i), day, time)
    ensures j <= |roster|
    ensures forall i :: 0 <= i < j ==> !Available(RoundFrom(roster, idx, i), day, time)
    ensures j < |roster| ==> ScanFrom(roster, idx, day, time, k) == (idx + j) % |roster|
                             && Available(RoundFrom(roster, idx, j), day, time)
    ensures j == |roster| ==> ScanFrom(roster, idx, day, time, k) == idx
    decreases |roster| - k
  {
    if k == |roster| || Available(RoundFrom(roster, idx, k), day, time) {
      j := k;
    } else {
      j := ScanFromIsFirst(roster, idx, day, time, k + 1);
    }
  }

  /**
   * `pos` is the first member, going round the roster from the cursor, who is
   * available at the chore's weekday and time; when nobody is, it is the cursor.
   */
  lemma AvailablePosIsFirst(roster: seq<Member>, idx: nat, day: int, time: string) returns (j: nat)
    requires idx < |roster|
    ensures j <= |roster|
    ensures forall i :: 0 <= i < j ==> !Available(RoundFrom(roster, idx, i), day, time)
    ensures j < |roster| ==> AvailablePos(roster, idx, day, time) == (idx + j) % |roster|
                             && Available(RoundFrom(roster, idx, j), day, time)
    ensures j == |roster| ==> AvailablePos(roster, idx, day, time) == idx
  {
    j := ScanFromIsFirst(roster, idx, day, time, 0);
  }

  /**
   * The fallback branch emits at most one assignment, and does so exactly
   * when `when` is readable and not past the end date; it goes at `when` to
   * the member the scan picked, and moves the cursor just past that member; the
   * member is available then unless nobody is, in which case it is the one
   * at the cursor.
   */
  lemma FallbackStep(c: Chore, roster: seq<Member>, idx: nat, weekStart: Time, now: Time, addMonths: MonthStep)
    requires idx < |roster| && c.freq == Other
    ensures var r := ChoreStep(c, roster, idx, weekStart, now, addMonths);
            var pos := AvailablePos(roster, idx, PreferredDay(c), TimeText(c));
            var w := FirstWhen(c, weekStart, now);
            && (r.Run? ==> |r.out| <= 1)
            && (r.Run? && |r.out| == 1 <==> w.Some? && (c.endDate.None? || w.value <= c.endDate.value))
            && (r.Run? && |r.out| == 0 ==> r.cursor == idx)
            && (r.Run? && |r.out| == 1 ==>
                  && r.out[0].when == FirstWhen(c, weekStart, now).value
                  && r.out[0].memberId == roster[pos].id
                  && r.cursor == (pos + 1) % |roster|
                  && (Available(roster[pos], PreferredDay(c), TimeText(c))
                      || (pos == idx && forall i :: 0 <= i < |roster| ==> !Available(RoundFrom(roster, idx, i), PreferredDay(c), TimeText(c)))))
  {
    var j := AvailablePosIsFirst(roster, idx, PreferredDay(c), TimeText(c));
  }

  /** Two rosters that list the same member ids in the same order. */
  predicate SameIds(r1: seq<Member>, r2: seq<Member>) {
    |r1| == |r2| && forall i :: 0 <= i < |r1| ==> r1[i].id == r2[i].id
  }

  /** Series chores ignore availability: only the ids of the roster and the cursor decide who gets them. */
  lemma SeriesIgnoresAvailability(c: Chore, r1: seq<Member>, r2: seq<Member>, idx: nat, weekStart: Time, now: Time, addMonths: MonthStep)
    requires idx < |r1| && SameIds(r1, r2) && Recurring(c.freq)
    ensures ChoreStep(c, r1, idx, weekStart, now, addMonths) == ChoreStep(c, r2, idx, weekStart, now, addMonths)
  {
    var w := FirstWhen(c, weekStart, now);
    if w.Some? {
      var dates := Occurrences(c.freq, w.value, c.endDate, addMonths);
      assert Rotate(r1, idx, c.id, dates) == Rotate(r2, idx, c.id, dates);
    }
  }

  // ---------------------------------------------------------------------
  // Rotation across chores
  // ---------------------------------------------------------------------

  /** The chores that all produce series, so that every assignment advances the cursor by one. */
  predicate AllRecurring(chores: seq<Chore>) {
    forall i :: 0 <= i < |chores| ==> Recurring(chores[i].freq)
  }

  /** A run whose `k`-th assignment goes to the member `k` places round the roster from `idx`, leaving the cursor after the last. */
  ghost predicate RotatesFrom(r: Run, roster: seq<Member>, idx: nat)
    requires |roster| > 0
  {
    r.Run? ==>
      && r.cursor == (idx + |r.out|) % |roster|
      && forall k :: 0 <= k < |r.out| ==> r.out[k].memberId == RoundFrom(roster, idx, k).id
  }

  /** A series chore hands its dates out in turn from the cursor. */
  lemma StepRotates(c: Chore, roster: seq<Member>, idx: nat, weekStart: Time, now: Time, addMonths: MonthStep)
    requires idx < |roster| && Recurring(c.freq)
    ensures RotatesFrom(ChoreStep(c, roster, idx, weekStart, now, addMonths), roster, idx)
  {
    var w := FirstWhen(c, weekStart, now);
    if w.None? {
      ModUnique(idx, |roster|, 0, idx);
    } else {
      var dates := Occurrences(c.freq, w.value, c.endDate, addMonths);
      var out := Rotate(roster, idx, c.id, dates);
      assert ChoreStep(c, roster, idx, weekStart, now, addMonths) == Run(out, (idx + |dates|) % |roster|);
    }
  }

  /** The fold over a non-empty chore list: the first chore's step, then the rest from the cursor it left. */
  lemma FoldCons(chores: seq<Chore>, roster: seq<Member>, weekStart: Time, now: Time, addMonths: MonthStep, idx: nat)
    requires chores != [] && idx < |roster|
    ensures var step := ChoreStep(chores[0], roster, idx, weekStart, now, addMonths);
            var r := Fold(chores, roster, weekStart, now, addMonths, idx);
            && (step.Thrown? ==> r.Thrown?)
            && (step.Run? ==>
                  var rest := Fold(chores[1..], roster, weekStart, now, addMonths, step.cursor);
                  && (r.Run? <==> rest.Run?)
                  && (r.Run? ==> r.out == step.out + rest.out && r.cursor == rest.cursor))
  {
  }

  /** Across a run of series chores the rotation carries on from one chore to the next. */
  lemma {:induction false} FoldRotates(chores: seq<Chore>, roster: seq<Member>, weekStart: Time, now: Time, addMonths: MonthStep, idx: nat)
    requires idx < |roster| && AllRecurring(chores)
    ensures RotatesFrom(Fold(chores, roster, weekStart, now, addMonths, idx), roster, idx)
    decreases |chores|
  {
    if chores != [] {
      var n := |roster|;
      FoldCons(chores, roster, weekStart, now, addMonths, idx);
      StepRotates(chores[0], roster, idx, weekStart, now, addMonths);
      var step := ChoreStep(chores[0], roster, idx, weekStart, now, addMonths);
      if step.Run? {
        var o, i := step.out, step.cursor;
        assert AllRecurring(chores[1..]) by {
          forall j | 0 <= j < |chores[1..]| ensures Recurring(chores[1..][j].freq) {
            assert chores[1..][j] == chores[j + 1];
          }
        }
        FoldRotates(chores[1..], roster, weekStart, now, addMonths, i);
        var rest := Fold(chores[1..], roster, weekStart, now, addMonths, i);
        if rest.Run? {
          RotationJoins(roster, idx, o, i, rest.out, rest.cursor);
        }
      }
    }
  }

  /** Counting on `len` places and then `k` more is counting on `len + k`. */
  lemma RoundFromShift(roster: seq<Member>, idx: nat, len: nat, k: nat)
    requires |roster| > 0
    ensures RoundFrom(roster, (idx + len) % |roster|, k) == RoundFrom(roster, idx, len + k)
  {
    ModAddRight(idx + len, k, |roster|);
  }

  /** Two rotating stretches, the second starting where the first left the cursor, rotate as one. */
  lemma RotationJoins(roster: seq<Member>, idx: nat, o: seq<Assignment>, i: nat, o2: seq<Assignment>, i2: nat)
    requires idx < |roster|
    requires RotatesFrom(Run(o, i), roster, idx) && RotatesFrom(Run(o2, i2), roster, i)
    ensures RotatesFrom(Run(o + o2, i2), roster, idx)
  {
    var out := o + o2;
    forall k | |o| <= k < |out|
      ensures out[k].memberId == RoundFrom(roster, idx, k).id
    {
      RoundFromShift(roster, idx, |o|, k - |o|);
      assert out[k] == o2[k - |o|];
    }
    ModAddRight(idx + |o|, |o2|, |roster|);
  }

  /**
   * The rotation law: when every chore produces a series, the `k`-th
   * assignment of the whole schedule goes to member `k mod n`.
   */
  lemma RotationLaw(chores: seq<Chore>, members: seq<Member>, weekStart: Option<Time>, now: Time, addMonths: MonthStep)
    requires AllRecurring(chores)
    ensures var r := RoundRobin(chores, members, weekStart, now, addMonths);
            r.Ok? ==> forall k :: 0 <= k < |r.assignments| ==> r.assignments[k].memberId == members[k % |members|].id
  {
    if |members| > 0 && |chores| > 0 {
      FoldRotates(chores, members, weekStart.GetOr(now), now, addMonths, 0);
    }
  }

  // ---------------------------------------------------------------------
  // Order and contiguity
  // ---------------------------------------------------------------------

  /** Assignment `k` of `out` is occurrence `k - start` of chore `c`'s series. */
  ghost predicate SeriesAt(out: seq<Assignment>, k: nat, start: nat, c: Chore, weekStart: Time, now: Time, addMonths: MonthStep) {
    var w := FirstWhen(c, weekStart, now);
    && start <= k < |out|
    && out[k].choreId == c.id
    && w.Some?
    && (Recurring(c.freq) || k == start)
    && out[k].when == Occurrence(c.freq, w.value, k - start, addMonths)
  }

  /** One chore's assignments are its series from the first occurrence, in order. */
  lemma StepSeries(c: Chore, roster: seq<Member>, idx: nat, weekStart: Time, now: Time, addMonths: MonthStep)
    requires idx < |roster|
    ensures var r := ChoreStep(c, roster, idx, weekStart, now, addMonths);
            r.Run? ==> forall k :: 0 <= k < |r.out| ==> SeriesAt(r.out, k, 0, c, weekStart, now, addMonths)
  {
  }

  /** `b` cuts `out` into one block per chore, in order, each following its chore's series. */
  ghost predicate Blocks(out: seq<Assignment>, chores: seq<Chore>, b: seq<nat>, weekStart: Time, now: Time, addMonths: MonthStep) {
    && |b| == |chores| + 1 && b[0] == 0 && b[|chores|] == |out|
    && (forall i, j :: 0 <= i <= j <= |chores| ==> b[i] <= b[j])
    && (forall i, k :: 0 <= i < |chores| && b[i] <= k < b[i + 1] ==>
          SeriesAt(out, k, b[i], chores[i], weekStart, now, addMonths))
  }

  /** The first chore's block followed by the blocks of the rest, shifted past it. */
  lemma BlocksJoin(o: seq<Assignment>, rest: seq<Assignment>, chores: seq<Chore>, b': seq<nat>, weekStart: Time, now: Time, addMonths: MonthStep)
    returns (b: seq<nat>)
    requires chores != []
    requires forall k :: 0 <= k < |o| ==> SeriesAt(o, k, 0, chores[0], weekStart, now, addMonths)
    requires Blocks(rest, chores[1..], b', weekStart, now, addMonths)
    ensures Blocks(o + rest, chores, b, weekStart, now, addMonths)
  {
    var out := o + rest;
    b := [0] + seq(|b'|, j requires 0 <= j < |b'| => b'[j] + |o|);
    forall i, k | 0 <= i < |chores| && b[i] <= k < b[i + 1]
      ensures SeriesAt(out, k, b[i], chores[i], weekStart, now, addMonths)
    {
      if i == 0 {
        assert SeriesAt(o, k, 0, chores[0], weekStart, now, addMonths);
        assert out[k] == o[k];
      } else {
        assert chores[i] == chores[1..][i - 1];
        assert SeriesAt(rest, k - |o|, b'[i - 1], chores[1..][i - 1], weekStart, now, addMonths);
        assert out[k] == rest[k - |o|];
      }
    }
  }

  /**
   * The schedule is the chores' blocks in input order: block `i`, from
   * `b[i]` to `b[i+1]`, holds chore `i`'s assignments, whose dates follow
   * its series.
   */
  lemma {:induction false} FoldBlocks(chores: seq<Chore>, roster: seq<Member>, weekStart: Time, now: Time, addMonths: MonthStep, idx: nat)
    returns (b: seq<nat>)
    requires idx < |roster|
    requires Fold(chores, roster, weekStart, now, addMonths, idx).Run?
    ensures Blocks(Fold(chores, roster, weekStart, now, addMonths, idx).out, chores, b, weekStart, now, addMonths)
    decreases |chores|
  {
    if chores == [] {
      b := [0];
    } else {
      FoldCons(chores, roster, weekStart, now, addMonths, idx);
      var step := ChoreStep(chores[0], roster, idx, weekStart, now, addMonths);
      StepSeries(chores[0], roster, idx, weekStart, now, addMonths);
      var b' := FoldBlocks(chores[1..], roster, weekStart, now, addMonths, step.cursor);
      var rest := Fold(chores[1..], roster, weekStart, now, addMonths, step.cursor).out;
      b := BlocksJoin(step.out, rest, chores, b', weekStart, now, addMonths);
    }
  }

  /** Within a block the dates strictly increase. */
  lemma BlockIncreasing(out: seq<Assignment>, start: nat, end: nat, c: Chore, weekStart: Time, now: Time, addMonths: MonthStep)
    requires start <= end <= |out|
    requires forall k :: start <= k < end ==> SeriesAt(out, k, start, c, weekStart, now, addMonths)
    ensures forall j, k :: start <= j < k < end ==> out[j].when < out[k].when
  {
    forall j, k | start <= j < k < end
      ensures out[j].when < out[k].when
    {
      assert SeriesAt(out, j, start, c, weekStart, now, addMonths);
      assert SeriesAt(out, k, start, c, weekStart, now, addMonths);
      OccurrenceIncreasing(c.freq, FirstWhen(c, weekStart, now).value, j - start, k - start, addMonths);
    }
  }

  /**
   * The whole schedule: chores in input order, each chore's assignments
   * contiguous, naming that chore, following its series with strictly
   * increasing dates.
   */
  lemma ScheduleBlocks(chores: seq<Chore>, members: seq<Member>, weekStart: Option<Time>, now: Time, addMonths: MonthStep)
    returns (b: seq<nat>)
    requires RoundRobin(chores, members, weekStart, now, addMonths).Ok?
    ensures var out := RoundRobin(chores, members, weekStart, now, addMonths).assignments;
            && Blocks(out, chores, b, weekStart.GetOr(now), now, addMonths)
            && (forall i, j, k :: 0 <= i < |chores| && b[i] <= j < k < b[i + 1] ==> out[j].when < out[k].when)
  {
    var out := RoundRobin(chores, members, weekStart, now, addMonths).assignments;
    if |members| == 0 || |chores| == 0 {
      b := seq(|chores| + 1, i => 0);
    } else {
      b := FoldBlocks(chores, members, weekStart.GetOr(now), now, addMonths, 0);
      forall i | 0 <= i < |chores|
        ensures forall j, k :: b[i] <= j < k < b[i + 1] ==> out[j].when < out[k].when
      {
        BlockIncreasing(out, b[i], b[i + 1], chores[i], weekStart.GetOr(now), now, addMonths);
      }
    }
  }

  // ---------------------------------------------------------------------
  // A worked case
  // ---------------------------------------------------------------------

  /** 2024-01-01T00:00, the first day of the worked case below. */
  const Day0: Time := 1_704_067_200_000

  /** A daily chore from 2024-01-01 to 2024-01-03 at 09:00. */
  const DailyChore: Chore := Chore("c1", Daily, None, Some("09:00"), Some(Day0), Some(AddDays(Day0, 2)))

  const ThreeMembers: seq<Member> := [Member("A", []), Member("B", []), Member("C", [])]

  /** The worked chore's first occurrence is 09:00 on its start day. */
  lemma DailyChoreWhen(now: Time)
    ensures FirstWhen(DailyChore, now, now) == Some(Day0 + 9 * MsPerHour)
  {
    assert ClockText(9, 0) == "09:00";
    CombineAtClock(Day0, 9, 0);
    assert DayStart(Day0) == Day0;
    assert StartDate(DailyChore, now, now) == Day0 && TimeText(DailyChore) == ClockText(9, 0);
  }

  /** The worked chore gets the first two members, one day apart, and leaves the cursor at the third. */
  lemma DailyChoreStep(now: Time, addMonths: MonthStep)
    ensures ChoreStep(DailyChore, ThreeMembers, 0, now, now, addMonths)
         == Run([Assignment("c1", "A", Day0 + 9 * MsPerHour), Assignment("c1", "B", AddDays(Day0, 1) + 9 * MsPerHour)], 2)
  {
    var when := Day0 + 9 * MsPerHour;
    var end := AddDays(Day0, 2);
    DailyChoreWhen(now);
    var dates := Occurrences(Daily, when, Some(end), addMonths);
    assert dates == [when, AddDays(when, 1)] by {
      DailyCount(Daily, when, end, addMonths);
      assert CeilDays(end - when) == 2;
    }
    assert Rotate(ThreeMembers, 0, "c1", dates)
        == [Assignment("c1", "A", when), Assignment("c1", "B", AddDays(when, 1))];
  }

  /**
   * Three members and one daily chore from 2024-01-01 to 2024-01-03 at 09:00:
   * the end date is midnight at the start of 2024-01-03, so the ceiling bound
   * admits two days, and the chore goes to A on the 1st and B on the 2nd.
   */
  lemma DailyEndDateCase(now: Time, addMonths: MonthStep)
    ensures RoundRobin([DailyChore], ThreeMembers, None, now, addMonths)
         == Ok([Assignment("c1", "A", Day0 + 9 * MsPerHour), Assignment("c1", "B", AddDays(Day0, 1) + 9 * MsPerHour)])
  {
    DailyChoreStep(now, addMonths);
    assert Fold([DailyChore][1..], ThreeMembers, now, now, addMonths, 2) == Run([], 2);
  }
}
