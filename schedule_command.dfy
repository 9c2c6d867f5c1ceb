/**
 * get_schedule_text of enhanced_telegram_bot/handlers/commands/schedule.py, the
 * text the /schedule command sends. The reply is a sequence of structured lines
 * (one constructor per line the handler writes, carrying the values it prints);
 * the Arabic wording and the emoji are left to the constructor names.
 */
module ScheduleCommand {
  import opened Wrappers
  import opened Seqs
  import opened Settings

  datatype Line =
    | Title(courseName: string)
    | NoScheduleYet
    | WeeklyHeading
      /** A day of the week: its time and its duration, the minutes only when there are some. */
    | DayLine(day: string, time: string, durationHours: int, durationMinutes: Option<int>)
    | NextHeading
      /** The next session's day name and date (as the day's ordinal). */
    | NextDay(day: string, date: int)
    | NextTime(time: string)
      /** The time left until the next session; each part appears only when it is positive. */
    | CountdownLine(days: Option<int>, hours: Option<int>, minutes: Option<int>)
    | ZoomLine(link: string)
    | PasswordLine(password: string)
    | TimezoneLine(timezone: string)
    | InstructorLine(name: string)

  const DEFAULT_DURATION: int := 120

  /** `config.get('duration', 120)`, in minutes. */
  function Duration(e: DayEntry): int {
    e.duration.GetOr(DEFAULT_DURATION)
  }

  /** `d // 60` and `d % 60`: whole hours and the minutes left over. */
  function DurationParts(d: int): (r: (int, int))
    ensures r.0 * 60 + r.1 == d
    ensures 0 <= r.1 < 60
    ensures d >= 0 ==> 0 <= r.0
  {
    (d / 60, d % 60)
  }

  /** A part of a duration as the handler prints it: only when it is positive. */
  function ShownIfPositive(n: int): (r: Option<int>)
    ensures r.Some? <==> n > 0
    ensures r.Some? ==> r.value == n
  {
    if n > 0 then Some(n) else None
  }

  /** Whether the loop lists the day: `config.get('enabled', False)`. */
  function Listed(): ((string, DayEntry)) -> bool {
    (entry: (string, DayEntry)) => entry.1.enabled == Some(true)
  }

  /** Whether the day's entry lacks the time the listing reads with `config['time']`. */
  predicate LacksTime(entry: (string, DayEntry)) {
    entry.1.enabled == Some(true) && entry.1.time.None?
  }

  /** The line of a listed day (the time is only ever read from a day that has one). */
  function LineOf(entry: (string, DayEntry)): Line {
    var (hours, minutes) := DurationParts(Duration(entry.1));
    DayLine(entry.0, entry.1.time.GetOr(""), hours, ShownIfPositive(minutes))
  }

  /** The lines of the given entries, one each, in their order. */
  function LinesOf(entries: seq<(string, DayEntry)>): (r: seq<Line>)
    ensures |r| == |entries|
    ensures forall i :: 0 <= i < |entries| ==> r[i] == LineOf(entries[i])
  {
    if entries == [] then [] else [LineOf(entries[0])] + LinesOf(entries[1..])
  }

  lemma LinesOfCons(e: (string, DayEntry), rest: seq<(string, DayEntry)>)
    ensures LinesOf([e] + rest) == [LineOf(e)] + LinesOf(rest)
  {
    assert ([e] + rest)[1..] == rest;
  }

  /** `acc` followed by the lines of `r`, or the exception of `r`. */
  function Prepend(acc: seq<Line>, r: Result<seq<Line>>): Result<seq<Line>> {
    match r
    case Ok(lines) => Ok(acc + lines)
    case Raised(e) => Raised(e)
  }

  lemma PrependTwice(a: seq<Line>, b: seq<Line>, r: Result<seq<Line>>)
    ensures Prepend(a, Prepend(b, r)) == Prepend(a + b, r)
  {
    if r.Ok? {
      assert a + (b + r.value) == (a + b) + r.value;
    }
  }

  /** The loop over CLASS_SCHEDULE: the lines of the enabled days, or the KeyError of a day without a time. */
  function DayLines(schedule: ClassSchedule): (r: Result<seq<Line>>)
    ensures r.Ok? ==> |r.value| <= |schedule|
  {
    if schedule == [] then Ok([])
    else if LacksTime(schedule[0]) then Raised(KeyError)
    else if Listed()(schedule[0]) then Prepend([LineOf(schedule[0])], DayLines(schedule[1..]))
    else DayLines(schedule[1..])
  }

  /** Exactly an enabled day without a time makes the listing raise, and then with KeyError. */
  lemma {:induction false} DayLinesRaiseOnMissingTime(schedule: ClassSchedule)
    ensures DayLines(schedule).Raised? <==> exists i :: 0 <= i < |schedule| && LacksTime(schedule[i])
    ensures DayLines(schedule).Raised? ==> DayLines(schedule).error == KeyError
  {
    if schedule != [] {
      DayLinesRaiseOnMissingTime(schedule[1..]);
      if !LacksTime(schedule[0]) {
        if exists i :: 0 <= i < |schedule| && LacksTime(schedule[i]) {
          var i :| 0 <= i < |schedule| && LacksTime(schedule[i]);
          assert LacksTime(schedule[1..][i - 1]);
        }
        if exists i :: 0 <= i < |schedule[1..]| && LacksTime(schedule[1..][i]) {
          var i :| 0 <= i < |schedule[1..]| && LacksTime(schedule[1..][i]);
          assert LacksTime(schedule[i + 1]);
        }
      }
    }
  }

  /**
   * When every enabled day has a time, the listing is one line per enabled day, in
   * schedule order, and nothing for the others.
   */
  lemma {:induction false} DayLinesListEnabledDays(schedule: ClassSchedule)
    requires forall i :: 0 <= i < |schedule| ==> !LacksTime(schedule[i])
    ensures DayLines(schedule) == Ok(LinesOf(Filter(schedule, Listed())))
  {
    if schedule != [] {
      var rest := schedule[1..];
      forall i | 0 <= i < |rest|
        ensures !LacksTime(rest[i])
      {
        assert rest[i] == schedule[i + 1];
      }
      DayLinesListEnabledDays(rest);
      var head := schedule[0];
      assert schedule == [head] + rest;
      assert !LacksTime(head);
      FilterCons(head, rest, Listed());
      if Listed()(head) {
        assert DayLines(schedule) == Prepend([LineOf(head)], DayLines(rest));
        LinesOfCons(head, Filter(rest, Listed()));
      } else {
        assert DayLines(schedule) == DayLines(rest);
        assert Filter(schedule, Listed()) == [] + Filter(rest, Listed()) == Filter(rest, Listed());
      }
    }
  }

  /** A wall-clock time as microseconds: the difference of two such values is what `session_time - now` gives. */
  function Micros(t: LocalDateTime): int {
    ((((t.day * 24 + t.hour) * 60 + t.minute) * 60) + t.second) * 1000000 + t.microsecond
  }

  const MICROS_PER_DAY: int := 86400000000

  /** `time_diff.days`, `time_diff.seconds // 3600` and `(time_diff.seconds % 3600) // 60` for a difference in µs. */
  function CountdownParts(diff: int): (r: (int, int, int))
    requires diff > 0
    ensures 0 <= r.0 && 0 <= r.1 < 24 && 0 <= r.2 < 60
    ensures var whole := diff / 1000000;
      r.0 * 86400 + r.1 * 3600 + r.2 * 60 <= whole < r.0 * 86400 + r.1 * 3600 + r.2 * 60 + 60
  {
    var days := diff / MICROS_PER_DAY;
    var seconds := (diff % MICROS_PER_DAY) / 1000000;
    assert diff / 1000000 == days * 86400 + seconds by {
      var inDay := diff % MICROS_PER_DAY;
      assert diff == days * MICROS_PER_DAY + inDay;
      assert inDay == seconds * 1000000 + inDay % 1000000;
      assert diff == (days * 86400 + seconds) * 1000000 + inDay % 1000000;
    }
    (days, seconds / 3600, (seconds % 3600) / 60)
  }

  /** The countdown line: only for a session still ahead, by a positive number of seconds. */
  function CountdownLines(diff: int): (r: seq<Line>)
    ensures r != [] <==> diff > 0
    ensures diff > 0 ==> var (d, h, m) := CountdownParts(diff);
      r == [CountdownLine(ShownIfPositive(d), ShownIfPositive(h), ShownIfPositive(m))]
  {
    if diff <= 0 then []
    else
      var (d, h, m) := CountdownParts(diff);
      [CountdownLine(ShownIfPositive(d), ShownIfPositive(h), ShownIfPositive(m))]
  }

  /** The next-session block; `now` is the clock reading of the countdown. */
  function NextLines(next: Option<NextSession>, now: LocalDateTime): seq<Line> {
    match next
    case None => []
    case Some(s) => [NextHeading, NextDay(s.dayName, s.at.day), NextTime(s.time)] + CountdownLines(Micros(s.at) - Micros(now))
  }

  /** The Zoom block: the link unless it is empty or the placeholder, and then the password unless it is empty. */
  function ZoomLines(link: string, password: string): (r: seq<Line>)
    ensures ZoomLine(link) in r <==> link != "" && link != ZOOM_PLACEHOLDER
    ensures PasswordLine(password) in r <==> link != "" && link != ZOOM_PLACEHOLDER && password != ""
    ensures forall l :: l in r ==> l == ZoomLine(link) || l == PasswordLine(password)
  {
    if link != "" && link != ZOOM_PLACEHOLDER then
      [ZoomLine(link)] + (if password != "" then [PasswordLine(password)] else [])
    else []
  }

  /**
   * The whole text. `first` is the clock reading inside get_next_session and
   * `second` the one the countdown compares with.
   */
  function ScheduleText(s: CourseSettings, first: LocalDateTime, second: LocalDateTime): Result<seq<Line>> {
    if s.classSchedule == [] then Ok([Title(s.courseName), NoScheduleYet])
    else match DayLines(s.classSchedule)
      case Raised(e) => Raised(e)
      case Ok(days) =>
        match GetNextSession(s.classSchedule, first)
        case Raised(e) => Raised(e)
        case Ok(next) =>
          Ok([Title(s.courseName), WeeklyHeading] + days + NextLines(next, second)
             + ZoomLines(s.zoomLink, s.zoomPassword) + [TimezoneLine(s.timezone), InstructorLine(s.instructorName)])
  }

  /** A text that opens with `title`. */
  predicate OpensWith(lines: seq<Line>, title: Line) {
    |lines| >= 2 && lines[0] == title
  }

  /** The weekly layout: title, heading, the day lines, at least two more lines, and `last` at the end. */
  predicate WeeklyLayout(lines: seq<Line>, title: Line, days: seq<Line>, last: Line) {
    && |lines| >= 4 + |days| && lines[0] == title && lines[1] == WeeklyHeading
    && lines[2..2 + |days|] == days && lines[|lines| - 1] == last
  }

  lemma LayoutOf(title: Line, days: seq<Line>, next: seq<Line>, zoom: seq<Line>, footer: Line, last: Line)
    ensures var lines := [title, WeeklyHeading] + days + next + zoom + [footer, last];
      OpensWith(lines, title) && WeeklyLayout(lines, title, days, last)
  {
    var lines := [title, WeeklyHeading] + days + next + zoom + [footer, last];
    assert forall k :: 0 <= k < |days| ==> lines[2 + k] == days[k];
  }

  /**
   * The text opens with the course title. For a non-empty schedule it raises exactly
   * when the day listing or the next-session lookup raises, and otherwise the weekly
   * heading and the day lines follow the title and the instructor line ends it.
   */
  lemma ScheduleTextShape(s: CourseSettings, first: LocalDateTime, second: LocalDateTime)
    ensures ScheduleText(s, first, second).Ok? ==> OpensWith(ScheduleText(s, first, second).value, Title(s.courseName))
    ensures s.classSchedule != [] ==>
      (ScheduleText(s, first, second).Raised? <==>
       DayLines(s.classSchedule).Raised? || GetNextSession(s.classSchedule, first).Raised?)
    ensures s.classSchedule != [] && ScheduleText(s, first, second).Ok? ==>
      WeeklyLayout(ScheduleText(s, first, second).value, Title(s.courseName), DayLines(s.classSchedule).value,
                   InstructorLine(s.instructorName))
  {
    if s.classSchedule != [] {
      var days, next := DayLines(s.classSchedule), GetNextSession(s.classSchedule, first);
      if days.Ok? && next.Ok? {
        LayoutOf(Title(s.courseName), days.value, NextLines(next.value, second), ZoomLines(s.zoomLink, s.zoomPassword),
                 TimezoneLine(s.timezone), InstructorLine(s.instructorName));
      }
    }
  }

  /** An empty schedule gives the title and the no-schedule line, and nothing else. */
  lemma EmptyScheduleOnlyTitle(s: CourseSettings, first: LocalDateTime, second: LocalDateTime)
    requires s.classSchedule == []
    ensures ScheduleText(s, first, second) == Ok([Title(s.courseName), NoScheduleYet])
  {
  }

  /** A proper clock reading: every field in its range. */
  predicate ValidClock(t: LocalDateTime) {
    0 <= t.hour < 24 && 0 <= t.minute < 60 && 0 <= t.second < 60 && 0 <= t.microsecond < 1000000
  }

  /**
   * With a single clock reading the next session is at least a day's worth of
   * microseconds, less the time already gone today, ahead: the countdown is shown.
   */
  lemma NextSessionIsAhead(schedule: ClassSchedule, now: LocalDateTime)
    requires ValidClock(now)
    requires GetNextSession(schedule, now).Ok? && GetNextSession(schedule, now).value.Some?
    ensures Micros(GetNextSession(schedule, now).value.value.at) - Micros(now) > 0
    ensures NextLines(GetNextSession(schedule, now).value, now) != []
    ensures |NextLines(GetNextSession(schedule, now).value, now)| == 4
  {
    var s := GetNextSession(schedule, now).value.value;
    var k :| 0 <= k < 7 && SessionFor(schedule, k, now, s);
    assert s.at.day >= now.day + 1;
    var start := (now.day + 1) * 24 * 60 * 60 * 1000000;
    assert Micros(s.at) >= start;
    assert Micros(now) < start;
  }

  /** The loop over the days: `lines` gains one line per enabled day, or the loop raises KeyError. */
  method ListDays(schedule: ClassSchedule, lines: seq<Line>) returns (r: Result<seq<Line>>)
    ensures r == Prepend(lines, DayLines(schedule))
  {
    var acc := lines;
    var i := 0;
    while i < |schedule|
      invariant 0 <= i <= |schedule|
      invariant Prepend(lines, DayLines(schedule)) == Prepend(acc, DayLines(schedule[i..]))
    {
      assert schedule[i..][1..] == schedule[i + 1..];
      var (day, config) := schedule[i];
      if config.enabled == Some(true) {
        if config.time.None? {
          return Raised(KeyError);
        }
        var (hours, minutes) := DurationParts(Duration(config));
        assert acc + [LineOf(schedule[i])] == acc + [DayLine(day, config.time.value, hours, ShownIfPositive(minutes))];
        PrependTwice(acc, [LineOf(schedule[i])], DayLines(schedule[i + 1..]));
        acc := acc + [DayLine(day, config.time.value, hours, ShownIfPositive(minutes))];
      }
      i := i + 1;
    }
    assert schedule[i..] == [] && acc + [] == acc;
    r := Ok(acc);
  }

  /** The next-session block: day and date, time, and the countdown when the session is still ahead. */
  method AppendNextSession(lines: seq<Line>, next: Option<NextSession>, now: LocalDateTime) returns (r: seq<Line>)
    ensures r == lines + NextLines(next, now)
  {
    r := lines;
    if next.Some? {
      var session := next.value;
      r := r + [NextHeading, NextDay(session.dayName, session.at.day), NextTime(session.time)];
      var diff := Micros(session.at) - Micros(now);
      if diff > 0 {
        var (days, hours, minutes) := CountdownParts(diff);
        assert CountdownLines(diff) == [CountdownLine(ShownIfPositive(days), ShownIfPositive(hours), ShownIfPositive(minutes))];
        r := r + [CountdownLine(ShownIfPositive(days), ShownIfPositive(hours), ShownIfPositive(minutes))];
      } else {
        assert CountdownLines(diff) == [];
      }
    }
    assert r == lines + NextLines(next, now);
  }

  /** The Zoom lines, then the time zone and instructor lines that close the text. */
  method AppendFooter(lines: seq<Line>, s: CourseSettings) returns (r: seq<Line>)
    ensures r == lines + ZoomLines(s.zoomLink, s.zoomPassword) + [TimezoneLine(s.timezone), InstructorLine(s.instructorName)]
  {
    r := lines;
    if s.zoomLink != "" && s.zoomLink != ZOOM_PLACEHOLDER {
      r := r + [ZoomLine(s.zoomLink)];
      if s.zoomPassword != "" {
        r := r + [PasswordLine(s.zoomPassword)];
      }
    }
    assert r == lines + ZoomLines(s.zoomLink, s.zoomPassword);
    r := r + [TimezoneLine(s.timezone), InstructorLine(s.instructorName)];
  }

  /**
   * The text as the handler builds it: the title and heading, the lines of the
   * enabled days, then the next session, Zoom and footer lines.
   */
  method GetScheduleText(s: CourseSettings, first: LocalDateTime, second: LocalDateTime) returns (r: Result<seq<Line>>)
    ensures r == ScheduleText(s, first, second)
  {
    if s.classSchedule == [] {
      return Ok([Title(s.courseName), NoScheduleYet]);
    }
    var listing := ListDays(s.classSchedule, [Title(s.courseName), WeeklyHeading]);
    if listing.Raised? {
      return listing;
    }
    var lines := listing.value;
    ghost var listed := DayLines(s.classSchedule).value;
    assert lines == [Title(s.courseName), WeeklyHeading] + listed;
    var next := GetNextSession(s.classSchedule, first);
    if next.Raised? {
      return Raised(next.error);
    }
    lines := AppendNextSession(lines, next.value, second);
    lines := AppendFooter(lines, s);
    assert ScheduleText(s, first, second) == Ok([Title(s.courseName), WeeklyHeading] + listed + NextLines(next.value, second)
      + ZoomLines(s.zoomLink, s.zoomPassword) + [TimezoneLine(s.timezone), InstructorLine(s.instructorName)]);
    r := Ok(lines);
  }
}
