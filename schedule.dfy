/**
 * The round-robin chore scheduler of lib/schedule.ts, as functions.
 *
 * `RoundRobin` gives what one call of `roundRobinAssign` returns; the method
 * `RoundRobinImpl.RoundRobinAssign` computes it with the source's loops, and
 * module `ScheduleLaws` proves what the schedule promises.
 */
module Schedule {
  import opened Opt
  import opened JsText
  import opened Calendar

  /** A chore's `freq`; `Other` is any other string, which takes the fallback branch. */
  datatype Freq = Daily | EveryOtherDay | Weekly | Biweekly | Monthly | Other

  /**
   * A chore as the scheduler reads it. Start and end dates are the timestamps
   * `new Date(start_date)` and `new Date(end_date)`; a missing or empty date
   * string is `None`.
   */
  datatype Chore = Chore(
    id: string,
    freq: Freq,
    preferredDay: Option<int>,
    preferredTime: Option<string>,
    startDate: Option<Time>,
    endDate: Option<Time>)

  /** One weekly availability window: a weekday and two "HH:MM" texts. */
  datatype Window = Window(day: int, start: string, end: string)

  /** A roster member; a missing availability list is the empty one. */
  datatype Member = Member(id: string, availability: seq<Window>)

  datatype Assignment = Assignment(choreId: string, memberId: string, when: Time)

  /**
   * What a call produces: the assignments, or the `RangeError` ("Invalid time
   * value") that `toISOString` throws when an occurrence built from an
   * unreadable preferred time is pushed.
   */
  datatype Outcome = Ok(assignments: seq<Assignment>) | InvalidTimeValue

  // ---------------------------------------------------------------------
  // Helpers: nextDateForDay and combineDateTime
  // ---------------------------------------------------------------------

  /**
   * `nextDateForDay(base, day)`: the first instant on or after `base`, at the
   * same time of day, that falls on weekday `day`.
   */
  function NextDateForDay(base: Time, day: int): (r: Time)
    ensures day >= 0 ==> base <= r <= AddDays(base, 6) && Weekday(r) == day % 7
    ensures day >= 0 ==> (r == base <==> Weekday(base) == day % 7)
    ensures (r - base) % MsPerDay == 0
    ensures r - DayStart(r) == base - DayStart(base)
  {
    var diff := TruncRem(day - Weekday(base) + 7, 7);
    WeekdayAfter(base, diff);
    var r := AddDays(base, diff);
    assert r - base == diff * MsPerDay;
    r
  }

  /**
   * The hour and minute `combineDateTime` reads from `hhmm`: an empty text is
   * "18:00", the pieces between colons go through `Number`, and a missing
   * minute piece is 0. `None` is an hour or minute that reads as NaN.
   */
  function ClockOf(hhmm: string): (r: Option<(nat, nat)>)
    ensures hhmm == "" ==> r == Some((18, 0))
    ensures hhmm != "" && ':' !in hhmm ==>
              r == if AllDigits(hhmm) then Some((DecimalValue(hhmm), 0)) else None
  {
    var parts := Split(if hhmm == "" then "18:00" else hhmm, ':');
    assert hhmm == "" ==> parts == ["18", "00"] by {
      if hhmm == "" {
        assert "18:00" == "18" + [':'] + "00";
        SplitAtFirstSep("18", "00", ':');
        SplitWithoutSep("00", ':');
        assert "18"[..1] == "1" && "1"[..0] == "";
        assert "00"[..1] == "0" && "0"[..0] == "";
      }
    }
    assert hhmm != "" && ':' !in hhmm ==> parts == [hhmm] by {
      if hhmm != "" && ':' !in hhmm {
        SplitWithoutSep(hhmm, ':');
      }
    }
    var h := Number(parts[0]);
    var m := if |parts| > 1 then Number(parts[1]) else Some(0);
    if h.Some? && m.Some? then Some((h.value, m.value)) else None
  }

  /**
   * `combineDateTime(d, hhmm)`: the day of `d` at the hour and minute read
   * from `hhmm`, seconds and milliseconds zero; hours and minutes past the
   * end of the day roll forward as `setHours` does. `None` is an Invalid Date.
   */
  function CombineDateTime(d: Time, hhmm: string): (r: Option<Time>)
    ensures r.Some? <==> ClockOf(hhmm).Some?
    ensures r.Some? ==> DayStart(d) <= r.value && r.value % MsPerMinute == 0
  {
    match ClockOf(hhmm)
    case None => None
    case Some((h, m)) =>
      var minutes := (d / MsPerDay) * 1440 + h * 60 + m;
      assert DayStart(d) + h * MsPerHour + m * MsPerMinute == minutes * MsPerMinute;
      Some(DayStart(d) + h * MsPerHour + m * MsPerMinute)
  }

  // ---------------------------------------------------------------------
  // A chore's fields with their defaults
  // ---------------------------------------------------------------------

  /** `chore.preferred_time ?? "18:00"`. */
  function TimeText(c: Chore): string {
    c.preferredTime.GetOr("18:00")
  }

  /** `chore.preferred_day ?? 6`. */
  function PreferredDay(c: Chore): int {
    c.preferredDay.GetOr(6)
  }

  /** The start date, falling back to "now" for daily chores and to the week start otherwise. */
  function StartDate(c: Chore, weekStart: Time, now: Time): (r: Time)
    ensures c.startDate.Some? ==> r == c.startDate.value
    ensures c.startDate.None? && c.freq == Daily ==> r == now
    ensures c.startDate.None? && c.freq != Daily ==> r == weekStart
  {
    match c.startDate
    case Some(d) => d
    case None => if c.freq == Daily then now else weekStart
  }

  /**
   * `when`, the first occurrence; only daily chores skip the weekday search.
   * It is an Invalid Date exactly when the preferred time is unreadable, and
   * unless a negative preferred day sends the weekday search backwards it
   * never falls before the day the chore starts.
   */
  function FirstWhen(c: Chore, weekStart: Time, now: Time): (r: Option<Time>)
    ensures r.Some? <==> ClockOf(TimeText(c)).Some?
    ensures r.Some? && (c.freq == Daily || PreferredDay(c) >= 0) ==> DayStart(StartDate(c, weekStart, now)) <= r.value
  {
    var start := StartDate(c, weekStart, now);
    if c.freq == Daily then CombineDateTime(start, TimeText(c))
    else CombineDateTime(NextDateForDay(start, PreferredDay(c)), TimeText(c))
  }

  // ---------------------------------------------------------------------
  // The availability scan
  // ---------------------------------------------------------------------

  /**
   * `Number(s.slice(0, 2)) * 60 + Number(s.slice(3))`; `None` is NaN. A text
   * of at most two characters has no minute piece, which reads as 0, so it is
   * a whole hour.
   */
  function MinuteOfDay(s: string): (r: Option<int>)
    ensures |s| <= 2 ==> r == if AllDigits(s) then Some(DecimalValue(s) * 60) else None
  {
    var h := Number(Slice(s, 0, 2));
    var m := Number(Slice(s, 3, |s|));
    if h.Some? && m.Some? then Some(h.value * 60 + m.value) else None
  }

  /** A window covers a time on a weekday: same day, start <= t <= end, every bound readable. */
  predicate Covers(w: Window, day: int, time: string) {
    var t := MinuteOfDay(time);
    var s := MinuteOfDay(w.start);
    var e := MinuteOfDay(w.end);
    w.day == day && t.Some? && s.Some? && e.Some? && s.value <= t.value <= e.value
  }

  /** `(m.availability || []).some(...)`. */
  predicate Available(m: Member, day: int, time: string) {
    exists i :: 0 <= i < |m.availability| && Covers(m.availability[i], day, time)
  }

  /** The member `k` places round the roster from the cursor `idx`. */
  function RoundFrom(roster: seq<Member>, idx: nat, k: nat): Member
    requires |roster| > 0
  {
    roster[(idx + k) % |roster|]
  }

  /** The scan from offset `k` on. */
  function ScanFrom(roster: seq<Member>, idx: nat, day: int, time: string, k: nat): (pos: nat)
    requires idx < |roster| && k <= |roster|
    ensures pos < |roster|
    decreases |roster| - k
  {
    if k == |roster| then idx
    else if Available(RoundFrom(roster, idx, k), day, time) then (idx + k) % |roster|
    else ScanFrom(roster, idx, day, time, k + 1)
  }

  /**
   * `pos`: the first member from the cursor on, round the roster, who is
   * available at the chore's time, or the cursor itself when nobody is.
   */
  function AvailablePos(roster: seq<Member>, idx: nat, day: int, time: string): (pos: nat)
    requires idx < |roster|
    ensures pos < |roster|
  {
    ScanFrom(roster, idx, day, time, 0)
  }

  // ---------------------------------------------------------------------
  // Recurrence
  // ---------------------------------------------------------------------

  /** The frequencies that emit a series of occurrences. */
  predicate Recurring(f: Freq) {
    f != Other
  }

  /** How many occurrences a chore without an end date gets. */
  function Cap(f: Freq): nat {
    match f
    case Daily => 60
    case EveryOtherDay => 30
    case Weekly => 8
    case Biweekly => 8
    case Monthly => 12
    case Other => 1
  }

  /** The `k`-th candidate date of a series starting at `when`. */
  function Occurrence(f: Freq, when: Time, k: nat, addMonths: MonthStep): Time {
    match f
    case Daily => AddDays(when, k)
    case EveryOtherDay => AddDays(when, 2 * k)
    case Weekly => AddDays(when, 7 * k)
    case Biweekly => AddDays(when, 14 * k)
    case Monthly => addMonths(when, k)
    case Other => when
  }

  /** Candidate dates grow by at least one millisecond per step. */
  lemma {:induction false} OccurrenceGrows(f: Freq, when: Time, k: nat, addMonths: MonthStep)
    requires Recurring(f)
    ensures when + k <= Occurrence(f, when, k, addMonths)
    ensures Occurrence(f, when, k, addMonths) < Occurrence(f, when, k + 1, addMonths)
  {
    if f == Monthly && k > 0 {
      OccurrenceGrows(f, when, k - 1, addMonths);
    }
  }

  /**
   * Whether the series has run past an end date at candidate `date`. Daily
   * and every-other-day series are bounded by `ceil((end - when) / 1 day)`
   * steps of a day, which stops them at the first date not before the end;
   * the others stop at the first date after it.
   */
  predicate PastEnd(f: Freq, date: Time, end: Time) {
    if f == Daily || f == EveryOtherDay then date >= end else date > end
  }

  /** The first candidate index from `k` on at which the series is past `end`. */
  function FirstPastEnd(f: Freq, when: Time, end: Time, addMonths: MonthStep, k: nat): (r: nat)
    requires Recurring(f)
    ensures k <= r
    ensures PastEnd(f, Occurrence(f, when, r, addMonths), end)
    ensures forall j :: k <= j < r ==> !PastEnd(f, Occurrence(f, when, j, addMonths), end)
    decreases end - when - k + 1
  {
    if PastEnd(f, Occurrence(f, when, k, addMonths), end) then k
    else
      OccurrenceGrows(f, when, k, addMonths);
      FirstPastEnd(f, when, end, addMonths, k + 1)
  }

  /**
   * The dates a recurring chore gets: the first candidates of the series in
   * order, as many as its cap without an end date, and with one every
   * candidate up to the first that is past the end.
   */
  function Occurrences(f: Freq, when: Time, end: Option<Time>, addMonths: MonthStep): (dates: seq<Time>)
    requires Recurring(f)
    ensures forall k :: 0 <= k < |dates| ==> dates[k] == Occurrence(f, when, k, addMonths)
    ensures end.None? ==> |dates| == Cap(f)
    ensures end.Some? ==> forall k :: 0 <= k < |dates| ==> !PastEnd(f, dates[k], end.value)
    ensures end.Some? ==> PastEnd(f, Occurrence(f, when, |dates|, addMonths), end.value)
  {
    var count := if end.None? then Cap(f) else FirstPastEnd(f, when, end.value, addMonths, 0);
    seq(count, k requires 0 <= k < count => Occurrence(f, when, k, addMonths))
  }

  /** Assign `dates` in turn to the members from the cursor on, round the roster. */
  function Rotate(roster: seq<Member>, idx: nat, id: string, dates: seq<Time>): (r: seq<Assignment>)
    requires |roster| > 0
  {
    seq(|dates|, k requires 0 <= k < |dates| => Assignment(id, RoundFrom(roster, idx, k).id, dates[k]))
  }

  // ---------------------------------------------------------------------
  // One chore, the chore list, the whole call
  // ---------------------------------------------------------------------

  /** The state threaded through the chore list: assignments so far and the cursor, or a thrown error. */
  datatype Run = Run(out: seq<Assignment>, cursor: nat) | Thrown

  /** Prefix the assignments `out` to a run. */
  function Then(out: seq<Assignment>, r: Run): Run {
    match r
    case Thrown => Thrown
    case Run(o, i) => Run(out + o, i)
  }

  /**
   * What one chore emits and where it leaves the cursor `idx`.
   * Every assignment names the chore, and the cursor stays on the roster.
   */
  function ChoreStep(c: Chore, roster: seq<Member>, idx: nat, weekStart: Time, now: Time, addMonths: MonthStep): (r: Run)
    requires idx < |roster|
    ensures r.Run? ==> r.cursor < |roster|
    ensures r.Run? ==> forall k :: 0 <= k < |r.out| ==> r.out[k].choreId == c.id
  {
    ChoreStepAt(c, roster, idx, FirstWhen(c, weekStart, now), addMonths)
  }

  /** `ChoreStep` once the first occurrence `when` has been worked out. */
  function ChoreStepAt(c: Chore, roster: seq<Member>, idx: nat, when: Option<Time>, addMonths: MonthStep): (r: Run)
    requires idx < |roster|
    ensures r.Run? ==> r.cursor < |roster|
    ensures r.Run? ==> forall k :: 0 <= k < |r.out| ==> r.out[k].choreId == c.id
  {
    match when
    case None =>
      // An Invalid Date: with an end date the daily bound is NaN and the
      // fallback's `when <= endDate` is false, so nothing is pushed; every
      // other path pushes it and `toISOString` throws.
      if c.endDate.Some? && (c.freq == Daily || c.freq == EveryOtherDay || c.freq == Other) then Run([], idx)
      else Thrown
    case Some(when) =>
      if c.freq == Other then
        var pos := AvailablePos(roster, idx, PreferredDay(c), TimeText(c));
        if c.endDate.None? || when <= c.endDate.value then
          Run([Assignment(c.id, roster[pos].id, when)], (pos + 1) % |roster|)
        else Run([], idx)
      else
        var dates := Occurrences(c.freq, when, c.endDate, addMonths);
        Run(Rotate(roster, idx, c.id, dates), (idx + |dates|) % |roster|)
  }

  /** The chores in order, each starting from the cursor the previous one left. */
  function Fold(chores: seq<Chore>, roster: seq<Member>, weekStart: Time, now: Time, addMonths: MonthStep, idx: nat): (r: Run)
    requires idx < |roster|
    ensures r.Run? ==> r.cursor < |roster|
    decreases |chores|
  {
    if chores == [] then Run([], idx)
    else
      match ChoreStep(chores[0], roster, idx, weekStart, now, addMonths)
      case Thrown => Thrown
      case Run(o, i) => Then(o, Fold(chores[1..], roster, weekStart, now, addMonths, i))
  }

  /**
   * `roundRobinAssign(chores, members, weekStartISO)` with the clock reading
   * `now`: nothing for an empty chore list or roster, otherwise the fold from
   * cursor 0 with the week start defaulting to now.
   */
  function RoundRobin(chores: seq<Chore>, members: seq<Member>, weekStart: Option<Time>, now: Time, addMonths: MonthStep): (r: Outcome)
    ensures |members| == 0 || |chores| == 0 ==> r == Ok([])
  {
    if |members| == 0 || |chores| == 0 then Ok([])
    else
      match Fold(chores, members, weekStart.GetOr(now), now, addMonths, 0)
      case Thrown => InvalidTimeValue
      case Run(out, _) => Ok(out)
  }
}
