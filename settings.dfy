/**
 * The helpers of enhanced_telegram_bot/config/settings.py: the two validators that
 * turn a comma-separated string into a list, and get_next_session, which
 * looks for the first enabled class day. The class schedule is the settings'
 * CLASS_SCHEDULE dictionary, kept in its insertion order.
 */
module Settings {
  import opened Wrappers
  import opened Seqs
  import Text

  /**
   * A settings value as pydantic hands it to a `pre` validator: a string or a list
   * already. pydantic's BaseSettings decodes a `List` field read from the
   * environment or `.env` as JSON before the validator runs, so a string reaches it
   * only as a JSON string or as a constructor argument.
   */
  datatype EnvValue<T> = FromString(s: string) | AlreadyList(items: T)

  function NonEmpty(): string -> bool {
    (x: string) => x != ""
  }

  /** `[x.strip() for x in v.split(',') if x.strip()]`. */
  function StrippedItems(s: string): (r: seq<string>)
    ensures forall i :: 0 <= i < |r| ==> r[i] != ""
  {
    Filter(Text.TrimAll(Text.Split(s, ','), Text.Py), NonEmpty())
  }

  /** Trimming is idempotent and does not bring in a character. */
  lemma TrimKeepsOut(s: string, c: char)
    requires c !in s
    ensures Text.Trim(Text.Trim(s, Text.Py), Text.Py) == Text.Trim(s, Text.Py) && c !in Text.Trim(s, Text.Py)
  {
    var t := Text.TrimStart(s, Text.Py);
    var r := Text.TrimEnd(t, Text.Py);
    assert r == Text.Trim(s, Text.Py);
    assert Text.Trim(r, Text.Py) == r;
    assert c !in t by {
      assert t == s[|s| - |t|..];
    }
    assert c !in r by {
      assert r == t[..|r|];
    }
  }

  /** An item that is stripped and holds no comma. */
  function Clean(): string -> bool {
    (x: string) => ',' !in x && Text.Trim(x, Text.Py) == x
  }

  /** The items are stripped and hold no comma. */
  lemma StrippedItemsClean(s: string)
    ensures forall i :: 0 <= i < |StrippedItems(s)| ==> Clean()(StrippedItems(s)[i])
  {
    var pieces := Text.Split(s, ',');
    var items := Text.TrimAll(pieces, Text.Py);
    forall i | 0 <= i < |items|
      ensures Clean()(items[i])
    {
      TrimKeepsOut(pieces[i], ',');
    }
    FilterKeepsProperty(items, NonEmpty(), Clean());
  }

  /** parse_subscription_codes: a string becomes its non-blank stripped items; a list passes unchanged. */
  function ParseSubscriptionCodes(v: EnvValue<seq<string>>): (r: seq<string>)
    ensures v.AlreadyList? ==> r == v.items
    ensures v.FromString? ==> r == StrippedItems(v.s)
  {
    match v
    case FromString(s) => StrippedItems(s)
    case AlreadyList(items) => items
  }

  /** `int()` applied to each item in turn; the first item that is not an integer raises ValueError. */
  function IntsOf(items: seq<string>): (r: Result<seq<int>>)
    ensures r.Ok? <==> forall i :: 0 <= i < |items| ==> Text.PyInt(items[i]).Some?
    ensures r.Raised? ==> r.error == ValueError
    ensures r.Ok? ==> |r.value| == |items| && forall i :: 0 <= i < |items| ==> Text.PyInt(items[i]) == Some(r.value[i])
  {
    match MapAll(items, Text.PyInt)
    case None => Raised(ValueError)
    case Some(ns) => Ok(ns)
  }

  /** parse_admin_ids: a string becomes the integers of its non-blank items; a list passes unchanged. */
  function ParseAdminIds(v: EnvValue<seq<int>>): (r: Result<seq<int>>)
    ensures v.AlreadyList? ==> r == Ok(v.items)
    ensures v.FromString? ==> r == IntsOf(StrippedItems(v.s))
  {
    match v
    case FromString(s) => IntsOf(StrippedItems(s))
    case AlreadyList(items) => Ok(items)
  }

  /** Trimming pieces that carry no surrounding white space changes none of them. */
  lemma TrimAllKeepsTrimmed(parts: seq<string>)
    requires forall i :: 0 <= i < |parts| ==> Text.Trim(parts[i], Text.Py) == parts[i]
    ensures Text.TrimAll(parts, Text.Py) == parts
  {
  }

  /** Codes without commas or surrounding white space survive the trip through a comma-separated string. */
  lemma CodesRoundTrip(codes: seq<string>)
    requires forall i :: 0 <= i < |codes| ==> codes[i] != "" && ',' !in codes[i] && Text.Trim(codes[i], Text.Py) == codes[i]
    ensures ParseSubscriptionCodes(FromString(Text.Join(codes, ','))) == codes
  {
    if codes == [] {
      NoItemsInEmpty("");
    } else {
      Text.SplitJoin(codes, ',');
      TrimAllKeepsTrimmed(codes);
      FilterAllOrNone(codes, NonEmpty());
    }
  }

  /** The empty string holds no item (the text is a parameter, so that the solver does not evaluate the call on the literal). */
  lemma NoItemsInEmpty(s: string)
    requires s == ""
    ensures StrippedItems(s) == []
  {
    assert Text.Split(s, ',') == [""];
    assert Text.TrimAll([""], Text.Py) == [""];
    assert Filter([""], NonEmpty()) == [];
  }

  /** The decimal forms of a list of ids. */
  function NatStrings(ids: seq<nat>): (r: seq<string>)
    ensures |r| == |ids|
    ensures forall i :: 0 <= i < |ids| ==> r[i] == Text.NatToString(ids[i])
  {
    if ids == [] then [] else [Text.NatToString(ids[0])] + NatStrings(ids[1..])
  }

  /** Python `int()` reads back what JavaScript-style decimal writing produced. */
  lemma PyIntOfNatToString(n: nat)
    ensures Text.PyInt(Text.NatToString(n)) == Some(n as int)
  {
    Text.PyIntOfDigits(Text.NatToString(n));
  }

  /** Non-negative ids written with commas between them are parsed back to the same list. */
  lemma AdminIdsRoundTrip(ids: seq<nat>)
    ensures ParseAdminIds(FromString(Text.Join(NatStrings(ids), ','))) == Ok(ids)
  {
    var strs := NatStrings(ids);
    NatStringsClean(ids);
    CodesRoundTrip(strs);
    assert StrippedItems(Text.Join(strs, ',')) == strs;
    IntsOfNatStrings(ids);
  }

  /** The decimal forms of non-negative ids are non-blank, stripped and free of commas. */
  lemma NatStringsClean(ids: seq<nat>)
    ensures forall i :: 0 <= i < |NatStrings(ids)| ==>
      NatStrings(ids)[i] != "" && ',' !in NatStrings(ids)[i] && Text.Trim(NatStrings(ids)[i], Text.Py) == NatStrings(ids)[i]
  {
    var strs := NatStrings(ids);
    forall i | 0 <= i < |strs|
      ensures strs[i] != "" && ',' !in strs[i] && Text.Trim(strs[i], Text.Py) == strs[i]
    {
      Text.TrimDigits(strs[i], Text.Py);
    }
  }

  /** `int()` reads each decimal form back as its id. */
  lemma IntsOfNatStrings(ids: seq<nat>)
    ensures IntsOf(NatStrings(ids)) == Ok(ids)
  {
    var strs := NatStrings(ids);
    forall i | 0 <= i < |strs|
      ensures Text.PyInt(strs[i]) == Some(ids[i] as int)
    {
      PyIntOfNatToString(ids[i]);
    }
    var r := IntsOf(strs);
    assert r.value == ids by {
      forall i | 0 <= i < |ids|
        ensures r.value[i] == ids[i]
      {
        assert Text.PyInt(strs[i]) == Some(r.value[i]);
      }
    }
  }

  /** One entry of CLASS_SCHEDULE; None is a missing key. `enabled` stands for its truth value. */
  datatype DayEntry = DayEntry(enabled: Option<bool>, time: Option<string>, duration: Option<int>)

  /** CLASS_SCHEDULE in its insertion order. */
  type ClassSchedule = seq<(string, DayEntry)>

  /** `schedule.get(day)`: the entry stored under the day name. */
  function Lookup(schedule: ClassSchedule, day: string): (r: Option<DayEntry>)
    ensures r.None? <==> forall i :: 0 <= i < |schedule| ==> schedule[i].0 != day
    ensures r.Some? ==> exists i :: 0 <= i < |schedule| && schedule[i] == (day, r.value)
  {
    if schedule == [] then None
    else if schedule[0].0 == day then Some(schedule[0].1)
    else Lookup(schedule[1..], day)
  }

  const MONDAY := "الاثنين"
  const THURSDAY := "الخميس"

  /** The `days_map` of get_next_session, Monday = 0 to Sunday = 6, in its iteration order. */
  const DAYS_MAP: seq<string> := [MONDAY, "الثلاثاء", "الأربعاء", THURSDAY, "الجمعة", "السبت", "الأحد"]

  /** The default CLASS_SCHEDULE: Monday and Thursday at 20:00 for 120 minutes. */
  const DEFAULT_CLASS_SCHEDULE: ClassSchedule := [
    (MONDAY, DayEntry(Some(true), Some("20:00"), Some(120))),
    (THURSDAY, DayEntry(Some(true), Some("20:00"), Some(120)))]

  /** The settings get_schedule_text reads. */
  datatype CourseSettings = CourseSettings(
    courseName: string,
    instructorName: string,
    zoomLink: string,
    zoomPassword: string,
    classSchedule: ClassSchedule,
    timezone: string)

  const ZOOM_PLACEHOLDER := "https://zoom.us/j/meeting-id"

  const DEFAULT_SETTINGS := CourseSettings("أساسيات البرمجة", "المعلم", ZOOM_PLACEHOLDER, "", DEFAULT_CLASS_SCHEDULE, "Africa/Cairo")

  /**
   * A wall-clock time in the course's time zone. `day` is the proleptic Gregorian
   * ordinal of the date (`date.toordinal()`, 1 for 1 January of year 1, a Monday).
   */
  datatype LocalDateTime = LocalDateTime(day: int, hour: int, minute: int, second: int, microsecond: int)

  /** `date.weekday()`: Monday is 0. */
  function Weekday(day: int): (r: int)
    ensures 0 <= r < 7
  {
    (day + 6) % 7
  }

  /** Moving `ahead` days on moves the weekday on by as many, round the week. */
  lemma WeekdayAfter(day: int, ahead: int)
    ensures Weekday(day + ahead) == (Weekday(day) + ahead) % 7
  {
    var q := (day + 6) / 7;
    assert day + 6 == 7 * q + Weekday(day);
    assert day + ahead + 6 == 7 * q + (Weekday(day) + ahead);
  }

  /** `hour, minute = map(int, time.split(':'))`: exactly two integer pieces, or ValueError. */
  function ParseClock(time: string): (r: Result<(int, int)>)
    ensures r.Raised? ==> r.error == ValueError
    ensures r.Ok? <==> Text.CountChar(time, ':') == 1 && Text.PyInt(Text.Split(time, ':')[0]).Some? && Text.PyInt(Text.Split(time, ':')[1]).Some?
  {
    var pieces := Text.Split(time, ':');
    if |pieces| != 2 then Raised(ValueError)
    else match (Text.PyInt(pieces[0]), Text.PyInt(pieces[1]))
      case (Some(h), Some(m)) => Ok((h, m))
      case _ => Raised(ValueError)
  }

  /** A time that parses is one colon between the two integers it gives. */
  lemma ParseClockReadsBothSides(time: string)
    requires ParseClock(time).Ok?
    ensures exists a, b :: time == a + ":" + b && Text.PyInt(a) == Some(ParseClock(time).value.0) && Text.PyInt(b) == Some(ParseClock(time).value.1)
  {
    var pieces := Text.Split(time, ':');
    Text.JoinSplit(time, ':');
    assert Text.Join(pieces, ':') == pieces[0] + ":" + pieces[1];
  }

  /** `days_ahead`: the days until weekday `dayNum`, a full week when it is today. */
  function DaysAhead(dayNum: int, weekday: int): (r: int)
    requires 0 <= dayNum < 7 && 0 <= weekday < 7
    ensures 1 <= r <= 7
    ensures (weekday + r) % 7 == dayNum
    ensures r == 7 <==> dayNum == weekday
  {
    var d := dayNum - weekday;
    if d <= 0 then d + 7 else d
  }

  datatype NextSession = NextSession(dayName: string, time: string, at: LocalDateTime)

  /** Whether the schedule has the day switched on. */
  predicate EnabledIn(schedule: ClassSchedule, day: string) {
    var e := Lookup(schedule, day);
    e.Some? && e.value.enabled == Some(true)
  }

  /** Whether the scan passes over the day: absent, or present and switched off. */
  predicate SkippedIn(schedule: ClassSchedule, day: string) {
    var e := Lookup(schedule, day);
    e.None? || e.value.enabled == Some(false)
  }

  /** A time `hour, minute = map(int, ...)` reads and `replace` accepts. */
  predicate ReadableTime(time: string) {
    var clock := ParseClock(time);
    clock.Ok? && 0 <= clock.value.0 < 24 && 0 <= clock.value.1 < 60
  }

  /** A configured day the scan stops at with KeyError: no `enabled`, or enabled without `time`. */
  predicate MissingKeyIn(schedule: ClassSchedule, day: string) {
    var e := Lookup(schedule, day);
    e.Some? && (e.value.enabled.None? || (e.value.enabled == Some(true) && e.value.time.None?))
  }

  /** An enabled day whose time raises ValueError. */
  predicate BadTimeIn(schedule: ClassSchedule, day: string) {
    var e := Lookup(schedule, day);
    e.Some? && e.value.enabled == Some(true) && e.value.time.Some? && !ReadableTime(e.value.time.value)
  }

  /** An enabled day whose time gives a session. */
  predicate GoodDayIn(schedule: ClassSchedule, day: string) {
    var e := Lookup(schedule, day);
    e.Some? && e.value.enabled == Some(true) && e.value.time.Some? && ReadableTime(e.value.time.value)
  }

  /** Position `k` is the first day from position `i` on that the scan does not pass over. */
  predicate FirstStop(schedule: ClassSchedule, i: nat, k: int) {
    && i <= k < 7
    && (forall j :: i <= j < k ==> SkippedIn(schedule, DAYS_MAP[j]))
    && !SkippedIn(schedule, DAYS_MAP[k])
  }

  /**
   * What get_next_session returns for the enabled day at `days_map` position `k`:
   * that day, its configured time, and the date `days_ahead` days from now at that
   * time with seconds and microseconds zeroed.
   */
  predicate SessionFor(schedule: ClassSchedule, k: int, now: LocalDateTime, s: NextSession)
    requires 0 <= k < 7
  {
    && s.dayName == DAYS_MAP[k]
    && EnabledIn(schedule, DAYS_MAP[k])
    && Lookup(schedule, DAYS_MAP[k]).value.time == Some(s.time)
    && ParseClock(s.time) == Ok((s.at.hour, s.at.minute))
    && s.at.day == now.day + DaysAhead(k, Weekday(now.day))
    && Weekday(s.at.day) == k
    && 0 <= s.at.hour < 24 && 0 <= s.at.minute < 60 && s.at.second == 0 && s.at.microsecond == 0
  }

  /** The loop body at `days_map` position `k`: go on to the next day, or return (or raise). */
  datatype Step = Continue | Return(result: Result<Option<NextSession>>)

  /** The session an enabled day with time `time` at `days_map` position `k` gives, or the ValueError. */
  function SessionAt(day: string, time: string, k: nat, now: LocalDateTime): (r: Result<Option<NextSession>>)
    requires k < 7
    ensures r.Raised? ==> r.error == ValueError
    ensures r.Ok? <==> ReadableTime(time)
    ensures r.Ok? ==> r.value.Some?
    ensures r.Ok? && r.value.Some? ==>
      var s := r.value.value;
      && s.dayName == day && s.time == time
      && ParseClock(time) == Ok((s.at.hour, s.at.minute))
      && s.at.day == now.day + DaysAhead(k, Weekday(now.day))
      && Weekday(s.at.day) == k
      && 0 <= s.at.hour < 24 && 0 <= s.at.minute < 60 && s.at.second == 0 && s.at.microsecond == 0
  {
    var clock := ParseClock(time);
    if clock.Raised? then Raised(clock.error)
    else
      SessionOn(day, time, k, now, clock.value.0, clock.value.1)
  }

  /** `now.replace(hour=hour, minute=minute, ...)` moved on by the days to the weekday at position `k`. */
  function SessionOn(day: string, time: string, k: nat, now: LocalDateTime, hour: int, minute: int): (r: Result<Option<NextSession>>)
    requires k < 7
    ensures r.Raised? <==> !(0 <= hour < 24 && 0 <= minute < 60)
    ensures r.Raised? ==> r.error == ValueError
    ensures r.Ok? ==>
      && r.value == Some(NextSession(day, time, LocalDateTime(now.day + DaysAhead(k, Weekday(now.day)), hour, minute, 0, 0)))
      && Weekday(r.value.value.at.day) == k
  {
    if !(0 <= hour < 24 && 0 <= minute < 60) then Raised(ValueError)
    else
      var ahead := DaysAhead(k, Weekday(now.day));
      WeekdayAfter(now.day, ahead);
      Ok(Some(NextSession(day, time, LocalDateTime(now.day + ahead, hour, minute, 0, 0))))
  }

  function ScanStep(schedule: ClassSchedule, k: nat, now: LocalDateTime): (r: Step)
    requires k < 7
    ensures r == Continue <==> SkippedIn(schedule, DAYS_MAP[k])
    ensures r == Return(Raised(KeyError)) <==> MissingKeyIn(schedule, DAYS_MAP[k])
    ensures r == Return(Raised(ValueError)) <==> BadTimeIn(schedule, DAYS_MAP[k])
    ensures r.Return? && r.result.Ok? <==> GoodDayIn(schedule, DAYS_MAP[k])
    ensures r.Return? && r.result.Ok? ==> r.result.value.Some? && SessionFor(schedule, k, now, r.result.value.value)
  {
    match Lookup(schedule, DAYS_MAP[k])
    case None => Continue
    case Some(entry) =>
      match entry.enabled
      case None => Return(Raised(KeyError))
      case Some(false) => Continue
      case Some(true) =>
        match entry.time
        case None => Return(Raised(KeyError))
        case Some(time) => Return(SessionAt(DAYS_MAP[k], time, k, now))
  }

  /**
   * The scan of get_next_session from `days_map` position `i` on: the first day that
   * is configured and enabled gives the session; a configured day without `enabled`
   * (or an enabled one without `time`) raises KeyError; a malformed time, or one
   * `replace` refuses, raises ValueError.
   */
  function NextSessionFrom(schedule: ClassSchedule, i: nat, now: LocalDateTime): (r: Result<Option<NextSession>>)
    requires i <= 7
    decreases 7 - i
    ensures (forall k :: i <= k < 7 ==> SkippedIn(schedule, DAYS_MAP[k])) <==> r == Ok(None)
    ensures r.Ok? && r.value.Some? ==>
      exists k :: i <= k < 7 && (forall j :: i <= j < k ==> SkippedIn(schedule, DAYS_MAP[j])) && SessionFor(schedule, k, now, r.value.value)
  {
    if i == 7 then Ok(None)
    else
      match ScanStep(schedule, i, now)
      case Continue => NextSessionFrom(schedule, i + 1, now)
      case Return(result) => result
  }

  /**
   * Which outcome the scan from position `i` has is decided by the first day it does
   * not pass over: a session when that day is enabled with a readable time, KeyError
   * when a key is missing there, ValueError when its time is bad.
   */
  lemma NextSessionOutcome(schedule: ClassSchedule, i: nat, now: LocalDateTime)
    requires i <= 7
    ensures var r := NextSessionFrom(schedule, i, now);
      r.Ok? && r.value.Some? <==> exists k :: FirstStop(schedule, i, k) && GoodDayIn(schedule, DAYS_MAP[k])
    ensures NextSessionFrom(schedule, i, now) == Raised(KeyError) <==>
      exists k :: FirstStop(schedule, i, k) && MissingKeyIn(schedule, DAYS_MAP[k])
    ensures NextSessionFrom(schedule, i, now) == Raised(ValueError) <==>
      exists k :: FirstStop(schedule, i, k) && BadTimeIn(schedule, DAYS_MAP[k])
  {
    NextSessionFound(schedule, i, now);
    NextSessionKeyError(schedule, i, now);
    NextSessionValueError(schedule, i, now);
  }

  lemma {:induction false} NextSessionFound(schedule: ClassSchedule, i: nat, now: LocalDateTime)
    requires i <= 7
    decreases 7 - i
    ensures NextSessionFrom(schedule, i, now).Ok? && NextSessionFrom(schedule, i, now).value.Some? <==>
      exists k :: FirstStop(schedule, i, k) && GoodDayIn(schedule, DAYS_MAP[k])
  {
    if i < 7 {
      if SkippedIn(schedule, DAYS_MAP[i]) {
        NextSessionFound(schedule, i + 1, now);
        NextSessionFoundPastSkip(schedule, i, now);
      } else {
        NextSessionFoundAtStop(schedule, i, now);
      }
    }
  }

  lemma NextSessionFoundPastSkip(schedule: ClassSchedule, i: nat, now: LocalDateTime)
    requires i < 7 && SkippedIn(schedule, DAYS_MAP[i])
    requires NextSessionFrom(schedule, i + 1, now).Ok? && NextSessionFrom(schedule, i + 1, now).value.Some? <==>
      exists k :: FirstStop(schedule, i + 1, k) && GoodDayIn(schedule, DAYS_MAP[k])
    ensures NextSessionFrom(schedule, i, now).Ok? && NextSessionFrom(schedule, i, now).value.Some? <==>
      exists k :: FirstStop(schedule, i, k) && GoodDayIn(schedule, DAYS_MAP[k])
  {
    assert ScanStep(schedule, i, now) == Continue;
    assert NextSessionFrom(schedule, i, now) == NextSessionFrom(schedule, i + 1, now);
    StopsAfterSkip(schedule, i);
  }

  lemma NextSessionFoundAtStop(schedule: ClassSchedule, i: nat, now: LocalDateTime)
    requires i < 7 && !SkippedIn(schedule, DAYS_MAP[i])
    ensures NextSessionFrom(schedule, i, now).Ok? && NextSessionFrom(schedule, i, now).value.Some? <==>
      exists k :: FirstStop(schedule, i, k) && GoodDayIn(schedule, DAYS_MAP[k])
  {
    var r := ScanStep(schedule, i, now).result;
    assert NextSessionFrom(schedule, i, now) == r;
    OnlyStopAt(schedule, i);
    if GoodDayIn(schedule, DAYS_MAP[i]) {
      assert FirstStop(schedule, i, i);
    }
  }

  lemma {:induction false} NextSessionKeyError(schedule: ClassSchedule, i: nat, now: LocalDateTime)
    requires i <= 7
    decreases 7 - i
    ensures NextSessionFrom(schedule, i, now) == Raised(KeyError) <==>
      exists k :: FirstStop(schedule, i, k) && MissingKeyIn(schedule, DAYS_MAP[k])
  {
    if i < 7 {
      if SkippedIn(schedule, DAYS_MAP[i]) {
        NextSessionKeyError(schedule, i + 1, now);
        NextSessionKeyErrorPastSkip(schedule, i, now);
      } else {
        NextSessionKeyErrorAtStop(schedule, i, now);
      }
    }
  }

  lemma NextSessionKeyErrorPastSkip(schedule: ClassSchedule, i: nat, now: LocalDateTime)
    requires i < 7 && SkippedIn(schedule, DAYS_MAP[i])
    requires NextSessionFrom(schedule, i + 1, now) == Raised(KeyError) <==>
      exists k :: FirstStop(schedule, i + 1, k) && MissingKeyIn(schedule, DAYS_MAP[k])
    ensures NextSessionFrom(schedule, i, now) == Raised(KeyError) <==>
      exists k :: FirstStop(schedule, i, k) && MissingKeyIn(schedule, DAYS_MAP[k])
  {
    assert ScanStep(schedule, i, now) == Continue;
    assert NextSessionFrom(schedule, i, now) == NextSessionFrom(schedule, i + 1, now);
    StopsAfterSkip(schedule, i);
  }

  lemma NextSessionKeyErrorAtStop(schedule: ClassSchedule, i: nat, now: LocalDateTime)
    requires i < 7 && !SkippedIn(schedule, DAYS_MAP[i])
    ensures NextSessionFrom(schedule, i, now) == Raised(KeyError) <==>
      exists k :: FirstStop(schedule, i, k) && MissingKeyIn(schedule, DAYS_MAP[k])
  {
    var r := ScanStep(schedule, i, now).result;
    assert NextSessionFrom(schedule, i, now) == r;
    OnlyStopAt(schedule, i);
    if MissingKeyIn(schedule, DAYS_MAP[i]) {
      assert FirstStop(schedule, i, i);
    }
  }

  lemma {:induction false} NextSessionValueError(schedule: ClassSchedule, i: nat, now: LocalDateTime)
    requires i <= 7
    decreases 7 - i
    ensures NextSessionFrom(schedule, i, now) == Raised(ValueError) <==>
      exists k :: FirstStop(schedule, i, k) && BadTimeIn(schedule, DAYS_MAP[k])
  {
    if i < 7 {
      if SkippedIn(schedule, DAYS_MAP[i]) {
        NextSessionValueError(schedule, i + 1, now);
        NextSessionValueErrorPastSkip(schedule, i, now);
      } else {
        NextSessionValueErrorAtStop(schedule, i, now);
      }
    }
  }

  lemma NextSessionValueErrorPastSkip(schedule: ClassSchedule, i: nat, now: LocalDateTime)
    requires i < 7 && SkippedIn(schedule, DAYS_MAP[i])
    requires NextSessionFrom(schedule, i + 1, now) == Raised(ValueError) <==>
      exists k :: FirstStop(schedule, i + 1, k) && BadTimeIn(schedule, DAYS_MAP[k])
    ensures NextSessionFrom(schedule, i, now) == Raised(ValueError) <==>
      exists k :: FirstStop(schedule, i, k) && BadTimeIn(schedule, DAYS_MAP[k])
  {
    assert ScanStep(schedule, i, now) == Continue;
    assert NextSessionFrom(schedule, i, now) == NextSessionFrom(schedule, i + 1, now);
    StopsAfterSkip(schedule, i);
  }

  lemma NextSessionValueErrorAtStop(schedule: ClassSchedule, i: nat, now: LocalDateTime)
    requires i < 7 && !SkippedIn(schedule, DAYS_MAP[i])
    ensures NextSessionFrom(schedule, i, now) == Raised(ValueError) <==>
      exists k :: FirstStop(schedule, i, k) && BadTimeIn(schedule, DAYS_MAP[k])
  {
    var r := ScanStep(schedule, i, now).result;
    assert NextSessionFrom(schedule, i, now) == r;
    OnlyStopAt(schedule, i);
    if BadTimeIn(schedule, DAYS_MAP[i]) {
      assert FirstStop(schedule, i, i);
    }
  }

  /** Past a skipped day, the first stop from `i` is the first stop from `i + 1`. */
  lemma StopsAfterSkip(schedule: ClassSchedule, i: nat)
    requires i < 7 && SkippedIn(schedule, DAYS_MAP[i])
    ensures forall k :: FirstStop(schedule, i, k) <==> FirstStop(schedule, i + 1, k)
  {
  }

  /** A day the scan does not pass over is the only first stop. */
  lemma OnlyStopAt(schedule: ClassSchedule, i: nat)
    requires i < 7 && !SkippedIn(schedule, DAYS_MAP[i])
    ensures forall k :: FirstStop(schedule, i, k) <==> k == i
  {
  }

  /** get_next_session. */
  function GetNextSession(schedule: ClassSchedule, now: LocalDateTime): (r: Result<Option<NextSession>>)
    ensures r == NextSessionFrom(schedule, 0, now)
  {
    NextSessionFrom(schedule, 0, now)
  }

  /**
   * The first enabled day in Monday-to-Sunday order wins, not the soonest: with the
   * default schedule on a Wednesday the answer is Monday, five days ahead, although
   * Thursday is tomorrow.
   */
  lemma FirstDayNotSoonest(now: LocalDateTime)
    requires Weekday(now.day) == 2
    ensures GetNextSession(DEFAULT_CLASS_SCHEDULE, now) == Ok(Some(NextSession(MONDAY, "20:00", LocalDateTime(now.day + 5, 20, 0, 0, 0))))
    ensures DaysAhead(3, Weekday(now.day)) == 1
  {
    DefaultMondayFirst(DEFAULT_CLASS_SCHEDULE, now);
  }

  lemma DefaultMondayFirst(schedule: ClassSchedule, now: LocalDateTime)
    requires schedule == DEFAULT_CLASS_SCHEDULE && Weekday(now.day) == 2
    ensures GetNextSession(schedule, now) == Ok(Some(NextSession(MONDAY, "20:00", LocalDateTime(now.day + 5, 20, 0, 0, 0))))
  {
    var time := schedule[0].1.time.value;
    ParseEightPm(time);
    MondayFirst(schedule, time, 20, 0, now);
  }

  /** A schedule that starts with an enabled Monday gives that Monday, whatever follows. */
  lemma MondayFirst(schedule: ClassSchedule, time: string, hour: int, minute: int, now: LocalDateTime)
    requires |schedule| >= 1 && schedule[0].0 == MONDAY && schedule[0].1.enabled == Some(true) && schedule[0].1.time == Some(time)
    requires ParseClock(time) == Ok((hour, minute)) && 0 <= hour < 24 && 0 <= minute < 60
    ensures GetNextSession(schedule, now) == Ok(Some(NextSession(MONDAY, time, LocalDateTime(now.day + DaysAhead(0, Weekday(now.day)), hour, minute, 0, 0))))
  {
    assert DAYS_MAP[0] == MONDAY;
    assert Lookup(schedule, MONDAY) == Some(schedule[0].1);
    var expected := Ok(Some(NextSession(MONDAY, time, LocalDateTime(now.day + DaysAhead(0, Weekday(now.day)), hour, minute, 0, 0))));
    assert SessionAt(MONDAY, time, 0, now) == expected;
    assert ScanStep(schedule, 0, now) == Return(expected);
  }

  lemma EightPm()
    ensures ParseClock("20:00") == Ok((20, 0))
  {
    ParseEightPm("20:00");
  }

  // The steps below take the text as a parameter, so that the solver does not
  // evaluate the whole call on the literal.

  lemma ParseEightPm(t: string)
    requires t == "20:00"
    ensures ParseClock(t) == Ok((20, 0))
  {
    var hours, minutes := t[..2], t[3..];
    assert t == hours + [':'] + minutes;
    SplitEightPm(t, hours, minutes);
    TwentyReads(hours);
    ZeroZeroReads(minutes);
  }

  lemma SplitEightPm(t: string, hours: string, minutes: string)
    requires t == "20:00" && t == hours + [':'] + minutes && |hours| == 2
    ensures Text.Split(t, ':') == [hours, minutes]
  {
    assert hours == t[..2] && minutes == t[3..];
    Text.SplitPair(hours, minutes, ':');
  }

  lemma TwentyReads(hours: string)
    requires hours == "20"
    ensures Text.PyInt(hours) == Some(20)
  {
    assert hours[0] == '2' && hours[1] == '0';
    assert Text.DigitValue(hours[0]) * 10 + Text.DigitValue(hours[1]) == 20;
    Text.PyIntTwoDigits(hours);
  }

  lemma ZeroZeroReads(minutes: string)
    requires minutes == "00"
    ensures Text.PyInt(minutes) == Some(0)
  {
    assert minutes[0] == '0' && minutes[1] == '0';
    assert Text.DigitValue(minutes[0]) * 10 + Text.DigitValue(minutes[1]) == 0;
    Text.PyIntTwoDigits(minutes);
  }

  /** A session on today's weekday is reported a week away, even when its hour is still ahead. */
  lemma TodayIsAWeekAway(schedule: ClassSchedule, now: LocalDateTime)
    requires GetNextSession(schedule, now).Ok? && GetNextSession(schedule, now).value.Some?
    requires GetNextSession(schedule, now).value.value.dayName == DAYS_MAP[Weekday(now.day)]
    ensures GetNextSession(schedule, now).value.value.at.day == now.day + 7
  {
    var s := GetNextSession(schedule, now).value.value;
    var k :| 0 <= k < 7 && (forall j :: 0 <= j < k ==> SkippedIn(schedule, DAYS_MAP[j])) && SessionFor(schedule, k, now, s);
    DayNameDetermines(k, Weekday(now.day));
  }

  /** No two positions of `days_map` hold the same name. */
  lemma DayNameDetermines(k: int, j: int)
    requires 0 <= k < 7 && 0 <= j < 7 && DAYS_MAP[k] == DAYS_MAP[j]
    ensures k == j
  {
  }
}
