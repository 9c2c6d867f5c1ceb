/**
 * The job registration of enhanced_telegram_bot/scheduler/scheduler.py: class
 * reminders one hour before each enabled class day, and one-off custom reminders.
 * The APScheduler job store is a map from job id to job, and `add_job` with
 * `replace_existing=True` is a map update.
 */
module ClassScheduler {
  import opened Wrappers
  import opened Seqs
  import Text
  import Settings

  /** A calendar date and time as a `datetime` carries it. */
  datatype DateTime = DateTime(year: nat, month: nat, day: nat, hour: nat, minute: nat, second: nat, microsecond: nat)

  predicate ValidDateTime(t: DateTime) {
    1000 <= t.year <= 9999 && 1 <= t.month <= 12 && 1 <= t.day <= 31
    && t.hour < 24 && t.minute < 60 && t.second < 60 && t.microsecond < 1000000
  }

  /** A registered job: a weekly cron reminder for a class day, or a one-off date reminder. */
  datatype Job =
    | ClassReminder(dayOfWeek: int, hour: int, minute: int, dayName: string, classTime: string)
    | CustomReminder(runAt: DateTime, message: string, userIds: Option<seq<int>>)

  function IsDay(day: string): string -> bool {
    (d: string) => d == day
  }

  /** `day_mapping.get(day_name)`: Monday = 0 to Sunday = 6, None for any other name. */
  function DayNumber(day: string): (r: Option<nat>)
    ensures r.Some? ==> r.value < 7 && Settings.DAYS_MAP[r.value] == day
    ensures r.None? <==> day !in Settings.DAYS_MAP
  {
    FindIndex(Settings.DAYS_MAP, IsDay(day))
  }

  /** A slot of the weekly cycle: weekday (Monday = 0), hour and minute. */
  datatype Slot = Slot(weekday: int, hour: int, minute: int)

  /**
   * The reminder slot for a class at `hour:minute` on `weekday`: the hour before,
   * except that a class at hour 0 is reminded at 23 on the day before.
   */
  function ReminderSlot(weekday: int, hour: int, minute: int): (r: Slot)
    ensures r.minute == minute
    ensures hour > 0 ==> r.hour == hour - 1 && r.weekday == weekday
    ensures hour <= 0 ==> r.hour == 23
    ensures hour == 0 ==> r.weekday == (weekday - 1) % 7
    ensures hour < 0 ==> r.weekday == weekday
  {
    Slot(if hour == 0 then (weekday - 1) % 7 else weekday, if hour > 0 then hour - 1 else 23, minute)
  }

  /** Minutes since Monday 00:00. */
  function WeekMinute(s: Slot): int {
    s.weekday * 1440 + s.hour * 60 + s.minute
  }

  const WEEK_MINUTES: int := 10080

  /** For a real class time the reminder is exactly sixty minutes earlier in the weekly cycle. */
  lemma ReminderIsAnHourBefore(weekday: int, hour: int, minute: int)
    requires 0 <= weekday < 7 && 0 <= hour < 24 && 0 <= minute < 60
    ensures WeekMinute(ReminderSlot(weekday, hour, minute)) == (WeekMinute(Slot(weekday, hour, minute)) - 60) % WEEK_MINUTES
  {
    var r := ReminderSlot(weekday, hour, minute);
    var w := WeekMinute(Slot(weekday, hour, minute));
    if hour > 0 {
      assert WeekMinute(r) == w - 60 && 0 <= w - 60 < WEEK_MINUTES;
    } else if weekday > 0 {
      assert r.weekday == weekday - 1;
      assert WeekMinute(r) == w - 60 && 0 <= w - 60 < WEEK_MINUTES;
    } else {
      assert r.weekday == 6;
      assert WeekMinute(r) == w - 60 + WEEK_MINUTES;
    }
  }

  /** Out-of-range hours that still give a valid cron hour: "-5:30" and "24:00" are accepted as written. */
  lemma OddHoursStillScheduled()
    ensures ReminderSlot(2, -5, 30) == Slot(2, 23, 30)
    ensures ReminderSlot(2, 24, 0) == Slot(2, 23, 0)
    ensures ReminderSlot(0, 0, 15) == Slot(6, 23, 15)
  {
  }

  /** What the loop body does with one CLASS_SCHEDULE entry. */
  datatype Step = Skip | Abort(error: PyError) | Register(id: string, job: Job)

  /** `f"class_reminder_{day_name}"`: different days get different ids. */
  function JobId(day: string): (r: string)
    ensures |r| == |"class_reminder_"| + |day| && r[|"class_reminder_"|..] == day
  {
    "class_reminder_" + day
  }

  lemma JobIdInjective(a: string, b: string)
    ensures JobId(a) == JobId(b) <==> a == b
  {
    if JobId(a) == JobId(b) {
      assert a == JobId(a)[|"class_reminder_"|..];
    }
  }

  /**
   * Whether the cron trigger accepts the reminder for a class at `time`: the time
   * is two integers around a colon, the reminder hour (the hour before, or 23 for
   * hour 0 and below) is at most 23, and the minute is below 60.
   */
  predicate AcceptedTime(time: string) {
    var clock := Settings.ParseClock(time);
    clock.Ok? && clock.value.0 <= 24 && 0 <= clock.value.1 < 60
  }

  /**
   * One iteration of schedule_class_reminders: a day not enabled (a missing flag
   * counts as off) or not a known weekday is skipped; a missing time raises
   * KeyError, a malformed one ValueError, and so does a reminder slot the cron
   * trigger refuses; otherwise the reminder job is registered under the day's id.
   */
  function ClassStep(day: string, entry: Settings.DayEntry): (r: Step)
    ensures r == Skip <==> entry.enabled != Some(true) || DayNumber(day).None?
    ensures r.Register? <==> entry.enabled == Some(true) && DayNumber(day).Some? && entry.time.Some? && AcceptedTime(entry.time.value)
    ensures r == Abort(ValueError) <==> entry.enabled == Some(true) && DayNumber(day).Some? && entry.time.Some? && !AcceptedTime(entry.time.value)
    ensures r.Register? ==>
      && r.id == JobId(day)
      && entry.enabled == Some(true) && DayNumber(day).Some? && entry.time.Some?
      && Settings.ParseClock(entry.time.value).Ok?
      && var (hour, minute) := Settings.ParseClock(entry.time.value).value;
         && r.job == ClassReminder(ReminderSlot(DayNumber(day).value, hour, minute).weekday,
                                   ReminderSlot(DayNumber(day).value, hour, minute).hour, minute, day, entry.time.value)
         && 0 <= r.job.hour < 24 && 0 <= r.job.minute < 60 && 0 <= r.job.dayOfWeek < 7
    ensures r.Abort? ==> entry.enabled == Some(true) && DayNumber(day).Some? && (r.error == KeyError <==> entry.time.None?)
  {
    if entry.enabled != Some(true) then Skip
    else match DayNumber(day)
      case None => Skip
      case Some(weekday) =>
        match entry.time
        case None => Abort(KeyError)
        case Some(time) =>
          match Settings.ParseClock(time)
          case Raised(e) => Abort(e)
          case Ok((hour, minute)) =>
            var slot := ReminderSlot(weekday, hour, minute);
            if !(0 <= slot.hour < 24 && 0 <= minute < 60) then Abort(ValueError)
            else Register(JobId(day), ClassReminder(slot.weekday, slot.hour, minute, day, time))
  }

  /** The job store after the loop over `schedule`, and the exception that ended it early, if any. */
  function AfterClassReminders(jobs: map<string, Job>, schedule: Settings.ClassSchedule): (r: (map<string, Job>, Option<PyError>))
    ensures jobs.Keys <= r.0.Keys
    ensures r.1.Some? ==> r.1.value == KeyError || r.1.value == ValueError
    decreases |schedule|
  {
    if schedule == [] then (jobs, None)
    else match ClassStep(schedule[0].0, schedule[0].1)
      case Skip => AfterClassReminders(jobs, schedule[1..])
      case Abort(e) => (jobs, Some(e))
      case Register(id, job) => AfterClassReminders(jobs[id := job], schedule[1..])
  }

  /** The jobs a complete pass registers, a later entry's job replacing an earlier one with the same id. */
  /** Every job of `m` is a class reminder stored under its own day's id. */
  predicate ClassJobs(m: map<string, Job>) {
    forall id :: id in m ==> m[id].ClassReminder? && id == JobId(m[id].dayName)
  }

  lemma ClassJobsAdd(id: string, job: Job, m: map<string, Job>)
    requires ClassJobs(m) && job.ClassReminder? && id == JobId(job.dayName)
    ensures ClassJobs(map[id := job] + m)
  {
  }

  function Writes(schedule: Settings.ClassSchedule): (r: map<string, Job>)
    ensures ClassJobs(r)
  {
    if schedule == [] then map[]
    else
      var step, rest := ClassStep(schedule[0].0, schedule[0].1), Writes(schedule[1..]);
      if step.Register? then
        ClassJobsAdd(step.id, step.job, rest);
        map[step.id := step.job] + rest
      else rest
  }

  /** An entry for `day` that registers a job. */
  function RegistersDay(day: string): ((string, Settings.DayEntry)) -> bool {
    (e: (string, Settings.DayEntry)) => e.0 == day && ClassStep(e.0, e.1).Register?
  }

  /** One entry of the pass: `day`'s id is written by the first entry or by the rest. */
  lemma WritesKeysStep(schedule: Settings.ClassSchedule, day: string)
    requires schedule != []
    ensures JobId(day) in Writes(schedule) <==> RegistersDay(day)(schedule[0]) || JobId(day) in Writes(schedule[1..])
  {
    var step := ClassStep(schedule[0].0, schedule[0].1);
    if step.Register? {
      assert Writes(schedule) == map[JobId(schedule[0].0) := step.job] + Writes(schedule[1..]);
      JobIdInjective(day, schedule[0].0);
    } else {
      assert Writes(schedule) == Writes(schedule[1..]);
    }
  }

  /** The ids a complete pass writes are those of the days with an entry that registers, and only those. */
  lemma {:induction false} WritesKeys(schedule: Settings.ClassSchedule, day: string)
    ensures JobId(day) in Writes(schedule) <==> Any(schedule, RegistersDay(day))
    decreases |schedule|
  {
    if schedule != [] {
      WritesKeysStep(schedule, day);
      WritesKeys(schedule[1..], day);
      AnyCons(schedule, RegistersDay(day));
    }
  }

  /** An entry whose step raises. */
  function Aborts(): ((string, Settings.DayEntry)) -> bool {
    (e: (string, Settings.DayEntry)) => ClassStep(e.0, e.1).Abort?
  }

  /** A pass that raises nothing met no entry that aborts. */
  lemma {:induction false} CompletePassHasNoAbort(jobs: map<string, Job>, schedule: Settings.ClassSchedule)
    requires AfterClassReminders(jobs, schedule).1.None?
    ensures !Any(schedule, Aborts())
    decreases |schedule|
  {
    if schedule != [] {
      AnyCons(schedule, Aborts());
      match ClassStep(schedule[0].0, schedule[0].1)
      case Skip =>
        CompletePassHasNoAbort(jobs, schedule[1..]);
      case Register(id, job) =>
        CompletePassHasNoAbort(jobs[id := job], schedule[1..]);
    }
  }

  /**
   * After a pass that raises nothing, a day has a reminder job exactly when some
   * entry for it is enabled and it is one of the seven known weekday names.
   */
  lemma CompletePassRemindsEnabledDays(jobs: map<string, Job>, schedule: Settings.ClassSchedule, day: string)
    requires AfterClassReminders(jobs, schedule).1.None?
    ensures JobId(day) in Writes(schedule) <==>
      DayNumber(day).Some? && exists i :: 0 <= i < |schedule| && schedule[i].0 == day && schedule[i].1.enabled == Some(true)
  {
    WritesKeys(schedule, day);
    CompletePassHasNoAbort(jobs, schedule);
    if DayNumber(day).Some? && exists i :: 0 <= i < |schedule| && schedule[i].0 == day && schedule[i].1.enabled == Some(true) {
      var i :| 0 <= i < |schedule| && schedule[i].0 == day && schedule[i].1.enabled == Some(true);
      assert !Aborts()(schedule[i]);
      assert RegistersDay(day)(schedule[i]);
    }
    if Any(schedule, RegistersDay(day)) {
      var i :| 0 <= i < |schedule| && RegistersDay(day)(schedule[i]);
      assert schedule[i].0 == day && schedule[i].1.enabled == Some(true);
    }
  }

  lemma UpdateThenOverlay(m: map<string, Job>, k: string, v: Job, w: map<string, Job>)
    ensures m[k := v] + w == m + (map[k := v] + w)
  {
  }

  /** A pass that raises nothing lays its jobs over the store: registered ids replaced, others kept. */
  lemma {:induction false} CompletePassOverlays(jobs: map<string, Job>, schedule: Settings.ClassSchedule)
    ensures AfterClassReminders(jobs, schedule).1.None? ==> AfterClassReminders(jobs, schedule).0 == jobs + Writes(schedule)
    decreases |schedule|
  {
    if schedule != [] {
      match ClassStep(schedule[0].0, schedule[0].1)
      case Skip =>
        CompletePassOverlays(jobs, schedule[1..]);
      case Abort(_) =>
      case Register(id, job) =>
        CompletePassOverlays(jobs[id := job], schedule[1..]);
        UpdateThenOverlay(jobs, id, job, Writes(schedule[1..]));
    }
  }

  /** Whether the pass raises depends only on the schedule, not on the jobs already there. */
  lemma {:induction false} ErrorIgnoresStore(a: map<string, Job>, b: map<string, Job>, schedule: Settings.ClassSchedule)
    ensures AfterClassReminders(a, schedule).1 == AfterClassReminders(b, schedule).1
    decreases |schedule|
  {
    if schedule != [] {
      match ClassStep(schedule[0].0, schedule[0].1)
      case Skip =>
        ErrorIgnoresStore(a, b, schedule[1..]);
      case Abort(_) =>
      case Register(id, job) =>
        ErrorIgnoresStore(a[id := job], b[id := job], schedule[1..]);
    }
  }

  /** Scheduling the class reminders again replaces the jobs instead of adding copies: the store is the same. */
  lemma RescheduleIsIdempotent(jobs: map<string, Job>, schedule: Settings.ClassSchedule)
    requires AfterClassReminders(jobs, schedule).1.None?
    ensures AfterClassReminders(AfterClassReminders(jobs, schedule).0, schedule) == AfterClassReminders(jobs, schedule)
  {
    var once := AfterClassReminders(jobs, schedule).0;
    CompletePassOverlays(jobs, schedule);
    ErrorIgnoresStore(jobs, once, schedule);
    CompletePassOverlays(once, schedule);
    assert once + Writes(schedule) == once;
  }

  /** The id of a custom reminder: `custom_reminder_` and the time to the second, `%Y%m%d_%H%M%S`. */
  function CustomJobId(t: DateTime): (r: string)
    ensures |r| == 31
  {
    "custom_reminder_" + Text.Pad(t.year, 4) + Text.Pad(t.month, 2) + Text.Pad(t.day, 2) + "_"
      + Text.Pad(t.hour, 2) + Text.Pad(t.minute, 2) + Text.Pad(t.second, 2)
  }

  /** Two times in the same second get the same custom id: the microseconds are not part of it. */
  lemma SameSecondSameId(a: DateTime, b: DateTime)
    requires a.(microsecond := 0) == b.(microsecond := 0)
    ensures CustomJobId(a) == CustomJobId(b)
  {
    assert a.year == b.year && a.month == b.month && a.day == b.day;
    assert a.hour == b.hour && a.minute == b.minute && a.second == b.second;
  }

  /** Valid times in different seconds get different custom ids. */
  lemma DifferentSecondsDifferentIds(a: DateTime, b: DateTime)
    requires ValidDateTime(a) && ValidDateTime(b)
    requires CustomJobId(a) == CustomJobId(b)
    ensures a.(microsecond := 0) == b.(microsecond := 0)
  {
    // Peel the fields off from the right: each has the same width in both ids.
    var a5 := "custom_reminder_" + Text.Pad(a.year, 4) + Text.Pad(a.month, 2) + Text.Pad(a.day, 2) + "_" + Text.Pad(a.hour, 2);
    var b5 := "custom_reminder_" + Text.Pad(b.year, 4) + Text.Pad(b.month, 2) + Text.Pad(b.day, 2) + "_" + Text.Pad(b.hour, 2);
    SplitEqual(a5 + Text.Pad(a.minute, 2), Text.Pad(a.second, 2), b5 + Text.Pad(b.minute, 2), Text.Pad(b.second, 2));
    SplitEqual(a5, Text.Pad(a.minute, 2), b5, Text.Pad(b.minute, 2));
    var a3 := "custom_reminder_" + Text.Pad(a.year, 4) + Text.Pad(a.month, 2) + Text.Pad(a.day, 2);
    var b3 := "custom_reminder_" + Text.Pad(b.year, 4) + Text.Pad(b.month, 2) + Text.Pad(b.day, 2);
    SplitEqual(a3 + "_", Text.Pad(a.hour, 2), b3 + "_", Text.Pad(b.hour, 2));
    SplitEqual(a3, "_", b3, "_");
    var a1 := "custom_reminder_" + Text.Pad(a.year, 4);
    var b1 := "custom_reminder_" + Text.Pad(b.year, 4);
    SplitEqual(a1 + Text.Pad(a.month, 2), Text.Pad(a.day, 2), b1 + Text.Pad(b.month, 2), Text.Pad(b.day, 2));
    SplitEqual(a1, Text.Pad(a.month, 2), b1, Text.Pad(b.month, 2));
    SplitEqual("custom_reminder_", Text.Pad(a.year, 4), "custom_reminder_", Text.Pad(b.year, 4));
    assert Text.Pow10(2) == 100 && Text.Pow10(4) == 10000;
    Text.PadInjective(a.year, b.year, 4);
    Text.PadInjective(a.month, b.month, 2);
    Text.PadInjective(a.day, b.day, 2);
    Text.PadInjective(a.hour, b.hour, 2);
    Text.PadInjective(a.minute, b.minute, 2);
    Text.PadInjective(a.second, b.second, 2);
  }

  /** Two equal concatenations whose right parts have the same length have equal parts. */
  lemma SplitEqual(x1: string, y1: string, x2: string, y2: string)
    requires x1 + y1 == x2 + y2 && |y1| == |y2|
    ensures x1 == x2 && y1 == y2
  {
    assert x1 == (x1 + y1)[..|x1|];
    assert x2 == (x2 + y2)[..|x2|];
    assert y1 == (x1 + y1)[|x1|..];
    assert y2 == (x2 + y2)[|x2|..];
  }

  /** One entry of the pass: skipped, ending it, or registered before the rest. */
  lemma PassStep(jobs: map<string, Job>, rest: Settings.ClassSchedule)
    requires rest != []
    ensures var step := ClassStep(rest[0].0, rest[0].1);
      && (step.Skip? ==> AfterClassReminders(jobs, rest) == AfterClassReminders(jobs, rest[1..]))
      && (step.Abort? ==> AfterClassReminders(jobs, rest) == (jobs, Some(step.error)))
      && (step.Register? ==> AfterClassReminders(jobs, rest) == AfterClassReminders(jobs[step.id := step.job], rest[1..]))
  {
  }

  class JobScheduler {
    var jobs: map<string, Job>

    constructor ()
      ensures jobs == map[]
    {
      jobs := map[];
    }

    /**
     * schedule_class_reminders: one pass over CLASS_SCHEDULE in its order; an
     * exception ends the pass and leaves the jobs registered before it in place.
     */
    method ScheduleClassReminders(schedule: Settings.ClassSchedule) returns (error: Option<PyError>)
      modifies this
      ensures (jobs, error) == AfterClassReminders(old(jobs), schedule)
    {
      var i := 0;
      while i < |schedule|
        invariant 0 <= i <= |schedule|
        invariant AfterClassReminders(jobs, schedule[i..]) == AfterClassReminders(old(jobs), schedule)
      {
        assert schedule[i..][1..] == schedule[i + 1..] && schedule[i..][0] == schedule[i];
        var step := ClassStep(schedule[i].0, schedule[i].1);
        PassStep(jobs, schedule[i..]);
        if step.Abort? {
          return Some(step.error);
        } else if step.Register? {
          jobs := jobs[step.id := step.job];
        }
        i := i + 1;
      }
      error := None;
    }

    /** schedule_custom_reminder: the reminder is stored under its time's id, replacing a job with that id. */
    method ScheduleCustomReminder(runAt: DateTime, message: string, userIds: Option<seq<int>>) returns (id: string)
      modifies this
      ensures id == CustomJobId(runAt)
      ensures jobs == old(jobs)[id := CustomReminder(runAt, message, userIds)]
    {
      id := CustomJobId(runAt);
      jobs := jobs[id := CustomReminder(runAt, message, userIds)];
    }
  }
}
