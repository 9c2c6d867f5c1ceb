/**
 * The jobs of bot/scheduler/reminderScheduler.js: the cron slot of each session
 * reminder, the reminder broadcast with its sent and failed counters, the weekly
 * statistics for admins, the daily cleanup of the messages file, and the hourly
 * welcome of new users.
 *
 * Times are milliseconds; a date read from JSON is None when missing or not
 * parseable (an Invalid Date, which compares false with everything). Each cron tick
 * is an explicit call with `now`; the transport is the oracle `fails`.
 *
 * As shipped, the file imports getUsersWithReminders and updateUserActivity from
 * bot/services/userService.js, which does not export them, so it fails to load.
 * This module describes what it would do if those functions existed.
 */
module ReminderScheduler {
  import opened Wrappers
  import opened Seqs
  import Text
  import SchedulingService

  const MINUTE_MS: int := 60000
  const HOUR_MS: int := 3600000
  const DAY_MS: int := 86400000
  const DAY_MINUTES: int := 1440
  const WEEK_MINUTES: int := 10080

  /** An entry of `config.schedule.sessions`: an Arabic day name and "HH:MM". */
  datatype ConfigSession = ConfigSession(day: string, time: string)

  /** The fields of a users.json record this scheduler reads and sets. */
  datatype BotUser = BotUser(id: int, isVerified: bool, isAdmin: bool, joinDate: Option<int>, lastActivity: Option<int>, welcomeSent: bool)

  /** The `data` objects logMessage records. */
  datatype LogData =
    | ReminderLog(session: string, time: string, sentCount: nat, failedCount: nat)
    | CleanupLog(cleanedVerifications: int, cleanedMessages: nat, inactiveUsers: nat)
    | OtherData

  /** An entry of the messages file. */
  datatype Message = Message(userId: string, kind: string, data: LogData, date: Option<int>)

  // ---------------------------------------------------------------------------
  // Day numbers and cron slots

  /** getDayNumber: the seven Arabic day names to 0 (Sunday) .. 6; any other name gives 0. */
  function GetDayNumber(arabicDay: string): (r: nat)
    ensures r < 7
    ensures forall i :: 0 <= i < |SchedulingService.ARABIC_DAYS| && arabicDay == SchedulingService.ARABIC_DAYS[i] ==> r == i
    ensures arabicDay !in SchedulingService.ARABIC_DAYS ==> r == 0
  {
    if arabicDay == "الأحد" then 0
    else if arabicDay == "الاثنين" then 1
    else if arabicDay == "الثلاثاء" then 2
    else if arabicDay == "الأربعاء" then 3
    else if arabicDay == "الخميس" then 4
    else if arabicDay == "الجمعة" then 5
    else if arabicDay == "السبت" then 6
    else 0
  }

  /** The two day tables agree: translating an English day name and numbering it gives its place in the week. */
  lemma {:induction false} DayNumberOfTranslatedName(i: nat)
    requires i < |SchedulingService.DAYS|
    ensures GetDayNumber(SchedulingService.GetDayNameInArabic(SchedulingService.DAYS[i])) == i
  {
    assert SchedulingService.GetDayNameInArabic(SchedulingService.DAYS[i]) == SchedulingService.ARABIC_DAYS[i];
  }

  /** An unknown day name is numbered like Sunday, so its reminder is scheduled on Sundays. */
  lemma UnknownDayIsSunday(name: string)
    requires name !in SchedulingService.ARABIC_DAYS
    ensures GetDayNumber(name) == GetDayNumber(SchedulingService.ARABIC_DAYS[0])
  {
  }

  /**
   * `Number(s)` for the strings a clock field holds, as `setHours` uses it: the
   * value truncated toward zero, None for NaN. JavaScript white space around the
   * numeral is ignored and a blank field is 0; "0x", "0o" and "0b" (either case)
   * introduce an unsigned hexadecimal, octal or binary integer; otherwise an
   * optional sign precedes a decimal numeral with an optional point and exponent.
   * "Infinity" makes the date invalid, like NaN, so it is None too.
   */
  function JsNumber(s: string): (r: Option<int>)
    ensures Text.Trim(s, Text.Js) == [] ==> r == Some(0)
    ensures Text.Trim(s, Text.Js) != [] && Text.AllDigits(Text.Trim(s, Text.Js)) ==>
      r == Some(Text.DecimalValue(Text.Trim(s, Text.Js)) as int)
    ensures IsSignedDigits(Text.Trim(s, Text.Js)) ==> r == Some(SignedValue(Text.Trim(s, Text.Js)))
  {
    var t := Text.Trim(s, Text.Js);
    DigitsLiteral(t);
    SignedLiteral(t);
    NumericLiteral(t)
  }

  /** A sign followed by decimal digits. */
  predicate IsSignedDigits(t: string) {
    |t| >= 2 && (t[0] == '-' || t[0] == '+') && Text.AllDigits(t[1..])
  }

  /** The value of a sign followed by decimal digits. */
  function SignedValue(t: string): int
    requires IsSignedDigits(t)
  {
    var v := Text.DecimalValue(t[1..]) as int;
    if t[0] == '-' then -v else v
  }

  /** The value of a numeric literal with the white space already trimmed off. */
  function NumericLiteral(t: string): Option<int> {
    if t == [] then Some(0)
    else if |t| >= 2 && t[0] == '0' && RadixMark(t[1]) > 0 then
      var radix := RadixMark(t[1]);
      if t[2..] != [] && Text.AllRadix(t[2..], radix) then Some(Text.RadixValue(t[2..], radix) as int) else None
    else
      var u := if t[0] == '-' || t[0] == '+' then t[1..] else t;
      match UnsignedDecimal(u)
      case None => None
      case Some(v) => Some(if t[0] == '-' then -(v as int) else v as int)
  }

  /** Digits alone are a decimal literal. */
  lemma DigitsLiteral(t: string)
    ensures t != [] && Text.AllDigits(t) ==> NumericLiteral(t) == Some(Text.DecimalValue(t) as int)
  {
    if t != [] && Text.AllDigits(t) {
      assert Text.IsDigit(t[0]) && (|t| >= 2 ==> Text.IsDigit(t[1]));
      assert !(|t| >= 2 && t[0] == '0' && RadixMark(t[1]) > 0);
      DigitsNumeral(t);
    }
  }

  /** A sign and digits are a signed decimal literal. */
  lemma SignedLiteral(t: string)
    ensures IsSignedDigits(t) ==> NumericLiteral(t) == Some(SignedValue(t))
  {
    if IsSignedDigits(t) {
      DigitsNumeral(t[1..]);
    }
  }

  /** The radix a letter after a leading "0" selects: x for 16, o for 8, b for 2; 0 for no letter of these. */
  function RadixMark(c: char): nat {
    if c == 'x' || c == 'X' then 16
    else if c == 'o' || c == 'O' then 8
    else if c == 'b' || c == 'B' then 2
    else 0
  }

  predicate IsExponentMark(c: char) {
    c == 'e' || c == 'E'
  }

  /** An exponent: an optional sign and at least one decimal digit. */
  function ExponentValue(x: string): Option<int> {
    var digits := if x != [] && (x[0] == '-' || x[0] == '+') then x[1..] else x;
    if digits == [] || !Text.AllDigits(digits) then None
    else if x[0] == '-' then Some(-(Text.DecimalValue(digits) as int))
    else Some(Text.DecimalValue(digits) as int)
  }

  /** `m` times ten to the `e`, truncated toward zero: each negative power drops one last digit. */
  function Scaled(m: nat, e: int): nat
    decreases if e < 0 then -e else 0
  {
    if e >= 0 then m * Text.Pow10(e) else Scaled(m / 10, e + 1)
  }

  /** The parts of a decimal numeral: its digits without the point, how many of them follow the point, and the exponent. */
  datatype Numeral = Numeral(digits: string, fractionDigits: nat, exponent: int)

  /**
   * The parts of an unsigned decimal numeral: digits with at most one point among
   * them and at least one digit in all, then optionally an exponent mark and an
   * exponent; None when `u` is not such a numeral.
   */
  function ReadNumeral(u: string): (r: Option<Numeral>)
    ensures r.Some? ==> r.value.digits != [] && Text.AllDigits(r.value.digits)
  {
    var e := match FindIndex(u, IsExponentMark) case Some(k) => k case None => |u|;
    var exponent := if e < |u| then ExponentValue(u[e + 1..]) else Some(0);
    var pieces := Text.Split(u[..e], '.');
    var whole := pieces[0];
    var fraction := if |pieces| >= 2 then pieces[1] else "";
    if |pieces| > 2 || exponent.None? || whole + fraction == [] || !Text.AllDigits(whole + fraction) then None
    else Some(Numeral(whole + fraction, |fraction|, exponent.value))
  }

  /** The value of an unsigned decimal numeral truncated toward zero, or None when `u` is not one. */
  function UnsignedDecimal(u: string): Option<nat> {
    match ReadNumeral(u)
    case None => None
    case Some(n) => Some(Scaled(Text.DecimalValue(n.digits), n.exponent - n.fractionDigits))
  }

  /** A plain digit string is a numeral worth its decimal value. */
  lemma DigitsNumeral(u: string)
    ensures u != [] && Text.AllDigits(u) ==> UnsignedDecimal(u) == Some(Text.DecimalValue(u))
  {
    if u != [] && Text.AllDigits(u) {
      assert forall j :: 0 <= j < |u| ==> !IsExponentMark(u[j]);
      assert u[..|u|] == u;
      Text.SplitWithoutSeparator(u, '.');
      assert u + "" == u;
      assert ReadNumeral(u) == Some(Numeral(u, 0, 0));
    }
  }

  /** A literal that starts and ends with a digit or a point, and has no radix prefix, is read as an unsigned decimal. */
  lemma UnsignedLiteral(t: string)
    requires t != [] && (Text.IsDigit(t[0]) || t[0] == '.') && (Text.IsDigit(t[|t| - 1]) || t[|t| - 1] == '.')
    requires |t| >= 2 ==> RadixMark(t[1]) == 0
    ensures JsNumber(t) == match UnsignedDecimal(t) case None => None case Some(v) => Some(v as int)
  {
    Text.NotWhitespace(t[0], Text.Js);
    Text.NotWhitespace(t[|t| - 1], Text.Js);
    assert Text.Trim(t, Text.Js) == t;
    assert t[0] != '-' && t[0] != '+';
    assert !(|t| >= 2 && t[0] == '0' && RadixMark(t[1]) > 0);
  }

  /** `Number` drops the fraction of a decimal numeral: "20.5" sets hour 20. */
  lemma JsNumberDropsFraction(w: string, f: string)
    requires Text.AllDigits(w) && Text.AllDigits(f) && w + f != []
    ensures JsNumber(w + "." + f) == Some(Text.DecimalValue(w) as int)
  {
    var t := w + "." + f;
    FractionNumeral(w, f);
    FractionTruncated(w, f);
    assert UnsignedDecimal(t) == Some(Text.DecimalValue(w));
    FractionLiteral(w, f, t);
  }

  /** A numeral with a point has no radix prefix and starts and ends with a digit or the point. */
  lemma FractionLiteral(w: string, f: string, t: string)
    requires Text.AllDigits(w) && Text.AllDigits(f) && w + f != [] && t == w + "." + f
    ensures JsNumber(t) == match UnsignedDecimal(t) case None => None case Some(v) => Some(v as int)
  {
    assert t[0] == (if w == [] then '.' else w[0]);
    assert t[|t| - 1] == (if f == [] then '.' else f[|f| - 1]);
    assert |t| >= 2 ==> t[1] == '.' || Text.IsDigit(t[1]);
    UnsignedLiteral(t);
  }

  /** A numeral with a point and no exponent is its digits scaled down by the fraction's length. */
  lemma FractionNumeral(w: string, f: string)
    requires Text.AllDigits(w) && Text.AllDigits(f) && w + f != []
    ensures Text.AllDigits(w + f)
    ensures UnsignedDecimal(w + "." + f) == Some(Scaled(Text.DecimalValue(w + f), -|f|))
  {
    PointWithoutExponent(w, f);
    assert Text.AllDigits(w + f) by {
      assert forall j :: 0 <= j < |w + f| ==> (w + f)[j] == if j < |w| then w[j] else f[j - |w|];
    }
    assert ReadNumeral(w + "." + f) == Some(Numeral(w + f, |f|, 0));
  }

  /** Digits around one point: no exponent mark, and the point splits the digits before from those after. */
  lemma PointWithoutExponent(w: string, f: string)
    requires Text.AllDigits(w) && Text.AllDigits(f)
    ensures FindIndex(w + "." + f, IsExponentMark) == None
    ensures Text.Split((w + "." + f)[..|w + "." + f|], '.') == [w, f]
  {
    var t := w + "." + f;
    assert forall j :: 0 <= j < |t| ==> !IsExponentMark(t[j]);
    assert t[..|t|] == t == w + ['.'] + f;
    Text.SplitPair(w, f, '.');
  }

  /** Scaling the digits of `w` and `f` down by the length of `f` leaves the value of `w`. */
  lemma {:induction false} FractionTruncated(w: string, f: string)
    requires Text.AllDigits(w) && Text.AllDigits(f)
    ensures Text.AllDigits(w + f)
    ensures Scaled(Text.DecimalValue(w + f), -|f|) == Text.DecimalValue(w)
    decreases |f|
  {
    if f == [] {
      assert w + f == w;
    } else {
      var f' := f[..|f| - 1];
      FractionTruncated(w, f');
      assert (w + f)[..|w + f| - 1] == w + f';
      assert Text.DecimalValue(w + f) / 10 == Text.DecimalValue(w + f');
    }
  }

  /** `Number` applies a decimal exponent: "2e1" sets hour 20. */
  lemma JsNumberExponent(w: string, k: nat)
    requires w != [] && Text.AllDigits(w)
    ensures JsNumber(w + "e" + Text.NatToString(k)) == Some((Text.DecimalValue(w) * Text.Pow10(k)) as int)
  {
    var x := Text.NatToString(k);
    var t := w + "e" + x;
    assert t[0] == w[0] && t[|t| - 1] == x[|x| - 1];
    assert t[1] == 'e' || Text.IsDigit(t[1]);
    UnsignedLiteral(t);
    ExponentNumeral(w, x, k);
  }

  /** Digits, an "e" and the digits of `k` are the digits' value times ten to the `k`. */
  lemma ExponentNumeral(w: string, x: string, k: nat)
    requires w != [] && Text.AllDigits(w) && x == Text.NatToString(k)
    ensures UnsignedDecimal(w + "e" + x) == Some(Text.DecimalValue(w) * Text.Pow10(k))
  {
    var t := w + "e" + x;
    assert t[|w|] == 'e' && forall j :: 0 <= j < |w| ==> !IsExponentMark(t[j]);
    assert FindIndex(t, IsExponentMark) == Some(|w|);
    assert t[..|w|] == w && t[|w| + 1..] == x;
    ExponentOfNatString(k);
    Text.SplitWithoutSeparator(w, '.');
    assert w + "" == w;
    assert ReadNumeral(t) == Some(Numeral(w, 0, k));
  }

  /** The decimal form of `k` read back as an exponent is `k`. */
  lemma ExponentOfNatString(k: nat)
    ensures ExponentValue(Text.NatToString(k)) == Some(k)
  {
    var x := Text.NatToString(k);
    assert x[0] != '-' && x[0] != '+';
  }

  /** `Number` reads a hexadecimal integer after "0x": "0x14" sets hour 20. */
  lemma JsNumberHex(h: string)
    requires h != [] && Text.AllRadix(h, 16)
    ensures JsNumber("0x" + h) == Some(Text.RadixValue(h, 16) as int)
  {
    var t := "0x" + h;
    assert t[0] == '0' && t[1] == 'x' && t[2..] == h && t[|t| - 1] == h[|h| - 1];
    Text.NotWhitespace(t[0], Text.Js);
    Text.NotWhitespace(t[|t| - 1], Text.Js);
    assert Text.Trim(t, Text.Js) == t;
  }

  /** A node-cron expression `minute hour * * dayOfWeek`. */
  datatype CronJob = CronJob(minute: int, hour: int, dayOfWeek: nat, session: ConfigSession)

  /**
   * The time of day `lead` minutes before h:m, as `addMinutes(setHours(h, m), -lead)`
   * followed by getHours/getMinutes gives it: the minute of the day wraps, the day
   * does not move.
   */
  function CronSlot(h: int, m: int, lead: int): (r: (int, int))
    ensures 0 <= r.0 < 60 && 0 <= r.1 < 24
    ensures (r.1 * 60 + r.0 - (h * 60 + m - lead)) % DAY_MINUTES == 0
  {
    var total := (h * 60 + m - lead) % DAY_MINUTES;
    (total % 60, total / 60)
  }

  /** The job for one session, or None when its time or the lead is NaN (node-cron then throws). */
  function JobOf(s: ConfigSession, lead: Option<int>): (r: Option<CronJob>)
    ensures r.Some? ==> r.value.dayOfWeek == GetDayNumber(s.day) && r.value.session == s
  {
    var parts := Text.Split(s.time, ':');
    var h := JsNumber(parts[0]);
    var m := if |parts| >= 2 then JsNumber(parts[1]) else None;
    if h.None? || m.None? || lead.None? then None
    else
      var slot := CronSlot(h.value, m.value, lead.value);
      Some(CronJob(slot.0, slot.1, GetDayNumber(s.day), s))
  }

  /** The minute of the week (Sunday 00:00 is 0) at which a job fires. */
  function WeekMinute(day: nat, hour: int, minute: int): int {
    day * DAY_MINUTES + hour * 60 + minute
  }

  /**
   * A reminder whose lead reaches back past midnight stays on the session's own day:
   * it fires later that day, `1440 - lead` minutes after the session, instead of
   * `lead` minutes before it on the previous day.
   */
  lemma {:induction false} SlotNotShiftedAcrossMidnight(day: nat, h: int, m: int, lead: int)
    requires 0 <= h * 60 + m < lead <= DAY_MINUTES
    ensures WeekMinute(day, CronSlot(h, m, lead).1, CronSlot(h, m, lead).0) - WeekMinute(day, h, m) == DAY_MINUTES - lead
  {
    var total := h * 60 + m - lead;
    assert total % DAY_MINUTES == total + DAY_MINUTES;
    var slot := CronSlot(h, m, lead);
    assert slot.1 * 60 + slot.0 == total + DAY_MINUTES;
  }

  /** Within one day the slot is exactly `lead` minutes before the session. */
  lemma {:induction false} SlotBeforeSessionSameDay(day: nat, h: int, m: int, lead: int)
    requires 0 <= lead <= h * 60 + m < DAY_MINUTES
    ensures WeekMinute(day, h, m) - WeekMinute(day, CronSlot(h, m, lead).1, CronSlot(h, m, lead).0) == lead
  {
    var total := h * 60 + m - lead;
    assert total % DAY_MINUTES == total;
    var slot := CronSlot(h, m, lead);
    assert slot.1 * 60 + slot.0 == total;
  }

  /** Sunday 00:30 with the default lead of 60 minutes is reminded at 23:30 on Sunday. */
  lemma SundayHalfPastMidnight()
    ensures CronSlot(0, 30, 60) == (30, 23)
  {
  }

  /**
   * scheduleSessionReminders: one cron job per configured session, in order. The
   * first session whose slot is NaN makes node-cron throw, which ends the loop.
   */
  method ScheduleSessionReminders(sessions: seq<ConfigSession>, reminderTime: string) returns (jobs: seq<CronJob>, aborted: bool)
    ensures JobsFor(jobs, sessions, Text.JsParseInt(reminderTime))
    ensures aborted <==> |jobs| < |sessions|
    ensures aborted ==> JobOf(sessions[|jobs|], Text.JsParseInt(reminderTime)).None?
  {
    var lead := Text.JsParseInt(reminderTime);
    jobs := [];
    aborted := false;
    var i := 0;
    while i < |sessions|
      invariant 0 <= i <= |sessions| && |jobs| == i
      invariant JobsFor(jobs, sessions, lead)
    {
      var job := JobOf(sessions[i], lead);
      if job.None? {
        return jobs, true;
      }
      MapsPrefixSnoc(jobs, sessions, s => JobOf(s, lead), job.value);
      jobs := jobs + [job.value];
      i := i + 1;
    }
  }

  /** The jobs registered so far are those of the first sessions, one each. */
  predicate JobsFor(jobs: seq<CronJob>, sessions: seq<ConfigSession>, lead: Option<int>) {
    MapsPrefix(jobs, sessions, s => JobOf(s, lead))
  }

  // ---------------------------------------------------------------------------
  // The messages file

  class MessagesFile {
    var messages: seq<Message>
    /** How many times the file has been written. */
    var writes: nat

    constructor (messages: seq<Message>)
      ensures this.messages == messages && writes == 0
    {
      this.messages := messages;
      writes := 0;
    }

    /** logMessage: read the file, append one entry dated now, write it back. */
    method LogMessage(userId: string, kind: string, data: LogData, now: int)
      modifies this
      ensures messages == old(messages) + [Message(userId, kind, data, Some(now))]
      ensures writes == old(writes) + 1
    {
      messages := messages + [Message(userId, kind, data, Some(now))];
      writes := writes + 1;
    }

    /** `writeJSON` of a whole new content. */
    method Write(content: seq<Message>)
      modifies this
      ensures messages == content && writes == old(writes) + 1
    {
      messages := content;
      writes := writes + 1;
    }
  }

  // ---------------------------------------------------------------------------
  // The reminder broadcast

  function Delivers(fails: int -> bool): BotUser -> bool {
    (u: BotUser) => !fails(u.id)
  }

  /** Delivered, and then the activity update threw: counted as sent and as failed. */
  function DoubleCounted(fails: int -> bool, activityFails: int -> bool): BotUser -> bool {
    (u: BotUser) => !fails(u.id) && activityFails(u.id)
  }

  /**
   * sendSessionReminder to the users with reminders on. A failed send counts as
   * failed; a delivered one counts as sent, and the activity update that follows
   * sits in the same try, so its failure (`activityFails`) counts as failed too.
   * Nothing is sent or logged for an empty list.
   */
  method SendSessionReminder(recipients: seq<BotUser>, session: ConfigSession, now: int,
                             fails: int -> bool, activityFails: int -> bool, file: MessagesFile)
    returns (sentCount: nat, failedCount: nat)
    modifies file
    ensures recipients == [] ==> sentCount == 0 && failedCount == 0 && file.messages == old(file.messages) && file.writes == old(file.writes)
    ensures sentCount == CountWhere(recipients, Delivers(fails))
    ensures sentCount + failedCount == |recipients| + CountWhere(recipients, DoubleCounted(fails, activityFails))
    ensures recipients != [] ==>
      && file.messages == old(file.messages) + [Message("system", "session_reminder", ReminderLog(session.day, session.time, sentCount, failedCount), Some(now))]
      && file.writes == old(file.writes) + 1
  {
    if |recipients| == 0 {
      return 0, 0;
    }
    sentCount, failedCount := 0, 0;
    var i := 0;
    while i < |recipients|
      invariant 0 <= i <= |recipients|
      invariant sentCount == CountWhere(recipients[..i], Delivers(fails))
      invariant sentCount + failedCount == i + CountWhere(recipients[..i], DoubleCounted(fails, activityFails))
      invariant file.messages == old(file.messages) && file.writes == old(file.writes)
    {
      var user := recipients[i];
      assert recipients[..i + 1] == recipients[..i] + [user];
      FilterSnoc(recipients[..i], user, Delivers(fails));
      FilterSnoc(recipients[..i], user, DoubleCounted(fails, activityFails));
      if fails(user.id) {
        failedCount := failedCount + 1;
      } else {
        sentCount := sentCount + 1;
        if activityFails(user.id) {
          failedCount := failedCount + 1;
        }
      }
      i := i + 1;
    }
    assert recipients[..|recipients|] == recipients;
    file.LogMessage("system", "session_reminder", ReminderLog(session.day, session.time, sentCount, failedCount), now);
  }

  /** When the activity update never throws, every recipient is counted exactly once. */
  lemma {:induction false} CountsAddUp(recipients: seq<BotUser>, fails: int -> bool, activityFails: int -> bool, sentCount: nat, failedCount: nat)
    requires forall x :: !activityFails(x)
    requires sentCount + failedCount == |recipients| + CountWhere(recipients, DoubleCounted(fails, activityFails))
    ensures sentCount + failedCount == |recipients|
  {
    forall i | 0 <= i < |recipients|
      ensures !DoubleCounted(fails, activityFails)(recipients[i])
    {
      assert !activityFails(recipients[i].id);
    }
    FilterAllOrNone(recipients, DoubleCounted(fails, activityFails));
  }

  // ---------------------------------------------------------------------------
  // Weekly statistics

  datatype Recommendation = EncourageSignups | IncreaseEngagement | RemindInactive | KeepItUp

  function Rank(r: Recommendation): nat {
    match r
    case EncourageSignups => 0
    case IncreaseEngagement => 1
    case RemindInactive => 2
    case KeepItUp => 3
  }

  /**
   * getWeeklyRecommendations. `weeklyMessages < total * 0.5` is `2m < t` and
   * `activeUsers < total * 0.7` is `10a < 7t` on the integer counts.
   */
  function GetWeeklyRecommendations(newUsers: nat, weeklyMessages: nat, activeUsers: nat, totalUsers: nat): (r: seq<Recommendation>)
    ensures EncourageSignups in r <==> newUsers == 0
    ensures IncreaseEngagement in r <==> 2 * weeklyMessages < totalUsers
    ensures RemindInactive in r <==> 10 * activeUsers < 7 * totalUsers
    ensures KeepItUp in r <==> r == [KeepItUp]
    ensures r == [KeepItUp] <==> newUsers != 0 && 2 * weeklyMessages >= totalUsers && 10 * activeUsers >= 7 * totalUsers
    ensures r != []
    ensures forall i, j :: 0 <= i < j < |r| ==> Rank(r[i]) < Rank(r[j])
  {
    var recs := (if newUsers == 0 then [EncourageSignups] else [])
      + (if 2 * weeklyMessages < totalUsers then [IncreaseEngagement] else [])
      + (if 10 * activeUsers < 7 * totalUsers then [RemindInactive] else []);
    if recs == [] then [KeepItUp] else recs
  }

  /** Strictly after `since` (`new Date(d) > since`). */
  predicate After(date: Option<int>, since: int) {
    date.Some? && date.value > since
  }

  /** Strictly before `until` (`new Date(d) < until`). */
  predicate Before(date: Option<int>, until: int) {
    date.Some? && date.value < until
  }

  predicate Verified(u: BotUser) {
    u.isVerified
  }

  function JoinedAfter(since: int): BotUser -> bool {
    (u: BotUser) => After(u.joinDate, since)
  }

  function ActiveAfter(since: int): BotUser -> bool {
    (u: BotUser) => After(u.lastActivity, since)
  }

  function SentAfter(since: int): Message -> bool {
    (m: Message) => After(m.date, since)
  }

  function IsAdminOf(adminIds: seq<int>): BotUser -> bool {
    (u: BotUser) => u.isAdmin || u.id in adminIds
  }

  /** The ids the transport accepts. */
  function Accepts(fails: int -> bool): int -> bool {
    (x: int) => !fails(x)
  }

  datatype WeeklyStats = WeeklyStats(totalUsers: nat, newUsers: nat, activeUsers: nat, weeklyMessages: nat, recommendations: seq<Recommendation>)

  /** The figures of the weekly report, over verified users only. */
  function WeeklyStatsOf(allUsers: seq<BotUser>, messages: seq<Message>, now: int): (s: WeeklyStats)
    ensures s.totalUsers == |Filter(allUsers, Verified)|
    ensures s.newUsers == |Filter(Filter(allUsers, Verified), JoinedAfter(now - 7 * DAY_MS))|
    ensures s.activeUsers == |Filter(Filter(allUsers, Verified), ActiveAfter(now - 7 * DAY_MS))|
    ensures s.weeklyMessages == |Filter(messages, SentAfter(now - 7 * DAY_MS))|
    ensures s.newUsers <= s.totalUsers && s.activeUsers <= s.totalUsers && s.weeklyMessages <= |messages|
    ensures s.recommendations == GetWeeklyRecommendations(s.newUsers, s.weeklyMessages, s.activeUsers, s.totalUsers)
  {
    var users := Filter(allUsers, Verified);
    var weekAgo := now - 7 * DAY_MS;
    var newUsers := CountWhere(users, JoinedAfter(weekAgo));
    var weeklyMessages := CountWhere(messages, SentAfter(weekAgo));
    var activeUsers := CountWhere(users, ActiveAfter(weekAgo));
    WeeklyStats(|users|, newUsers, activeUsers, weeklyMessages, GetWeeklyRecommendations(newUsers, weeklyMessages, activeUsers, |users|))
  }

  /**
   * The week is open at its start: a verified user who joined exactly seven days
   * before `now` is not new, one who joined a millisecond later is.
   */
  lemma NewUsersWeekBoundary(allUsers: seq<BotUser>, messages: seq<Message>, now: int, u: BotUser)
    requires u.isVerified
    ensures u.joinDate == Some(now - 7 * DAY_MS) ==>
      WeeklyStatsOf(allUsers + [u], messages, now).newUsers == WeeklyStatsOf(allUsers, messages, now).newUsers
    ensures u.joinDate == Some(now - 7 * DAY_MS + 1) ==>
      WeeklyStatsOf(allUsers + [u], messages, now).newUsers == WeeklyStatsOf(allUsers, messages, now).newUsers + 1
  {
    FilterSnoc(allUsers, u, Verified);
    FilterSnoc(Filter(allUsers, Verified), u, JoinedAfter(now - 7 * DAY_MS));
  }

  /** Likewise a message logged exactly seven days before `now` is not in the week's count. */
  lemma WeeklyMessagesWeekBoundary(allUsers: seq<BotUser>, messages: seq<Message>, now: int, m: Message)
    ensures m.date == Some(now - 7 * DAY_MS) ==>
      WeeklyStatsOf(allUsers, messages + [m], now).weeklyMessages == WeeklyStatsOf(allUsers, messages, now).weeklyMessages
    ensures m.date == Some(now - 7 * DAY_MS + 1) ==>
      WeeklyStatsOf(allUsers, messages + [m], now).weeklyMessages == WeeklyStatsOf(allUsers, messages, now).weeklyMessages + 1
  {
    FilterSnoc(messages, m, SentAfter(now - 7 * DAY_MS));
  }

  /**
   * sendWeeklyStats: the report goes to every verified user who is an admin or
   * listed in the configured admin ids; a failed send is skipped.
   */
  method SendWeeklyStats(allUsers: seq<BotUser>, messages: seq<Message>, now: int, adminIds: seq<int>, fails: int -> bool)
    returns (stats: WeeklyStats, attempted: seq<int>, delivered: seq<int>)
    ensures stats == WeeklyStatsOf(allUsers, messages, now)
    ensures attempted == Ids(Filter(Filter(allUsers, Verified), IsAdminOf(adminIds)))
    ensures delivered == Filter(attempted, Accepts(fails))
  {
    stats := WeeklyStatsOf(allUsers, messages, now);
    attempted := Ids(Filter(Filter(allUsers, Verified), IsAdminOf(adminIds)));
    delivered := SendEach(attempted, fails);
  }

  /**
   * The send loop shared by the weekly report and the welcome messages: one
   * attempt per id, in order; a failed send is caught and the loop goes on.
   * The ids that were delivered to are returned.
   */
  method SendEach(ids: seq<int>, fails: int -> bool) returns (delivered: seq<int>)
    ensures delivered == Filter(ids, Accepts(fails))
  {
    delivered := [];
    var i := 0;
    while i < |ids|
      invariant 0 <= i <= |ids|
      invariant delivered == Filter(ids[..i], Accepts(fails))
    {
      assert Filter(ids[..i + 1], Accepts(fails)) == delivered + (if fails(ids[i]) then [] else [ids[i]]) by {
        assert ids[..i + 1] == ids[..i] + [ids[i]];
        FilterSnoc(ids[..i], ids[i], Accepts(fails));
      }
      if !fails(ids[i]) {
        delivered := delivered + [ids[i]];
      }
      i := i + 1;
    }
    assert ids[..|ids|] == ids;
  }

  /** Every recipient of the weekly report is a verified admin, and no verified admin is left out. */
  lemma WeeklyRecipients(allUsers: seq<BotUser>, adminIds: seq<int>, u: BotUser)
    requires u in allUsers
    ensures u in Filter(Filter(allUsers, Verified), IsAdminOf(adminIds)) <==> u.isVerified && (u.isAdmin || u.id in adminIds)
  {
    var verified := Filter(allUsers, Verified);
    var admins := Filter(verified, IsAdminOf(adminIds));
    if u in admins {
      var k :| 0 <= k < |admins| && admins[k] == u;
      assert admins[k] in verified;
      var j :| 0 <= j < |verified| && verified[j] == u;
      assert Verified(verified[j]);
    }
    if u.isVerified && (u.isAdmin || u.id in adminIds) {
      var i :| 0 <= i < |allUsers| && allUsers[i] == u;
      assert Verified(allUsers[i]);
      assert u in verified;
      var j :| 0 <= j < |verified| && verified[j] == u;
      assert IsAdminOf(adminIds)(verified[j]);
    }
  }

  // ---------------------------------------------------------------------------
  // Daily cleanup

  function KeptAfter(since: int): Message -> bool {
    (m: Message) => After(m.date, since)
  }

  function InactiveBefore(until: int): BotUser -> bool {
    (u: BotUser) => Before(u.lastActivity, until)
  }

  /**
   * performDailyCleanup. `cleanedVerifications` is what the verification cleanup
   * returned, None when that call threw, which skips the whole job. The messages
   * dated strictly after thirty days ago are kept in order; the file is written only
   * when something was dropped, then the cleanup is logged into it.
   */
  method PerformDailyCleanup(file: MessagesFile, cleanedVerifications: Option<int>, users: seq<BotUser>, now: int)
    modifies file
    ensures cleanedVerifications.None? ==> file.messages == old(file.messages) && file.writes == old(file.writes)
    ensures cleanedVerifications.Some? ==>
      var kept := Filter(old(file.messages), KeptAfter(now - 30 * DAY_MS));
      && file.messages == kept + [Message("system", "daily_cleanup",
           CleanupLog(cleanedVerifications.value, |old(file.messages)| - |kept|, CountWhere(users, InactiveBefore(now - 7 * DAY_MS))), Some(now))]
      && file.writes == old(file.writes) + (if |kept| < |old(file.messages)| then 2 else 1)
  {
    if cleanedVerifications.None? {
      return;
    }
    var messages := file.messages;
    var filtered := Filter(messages, KeptAfter(now - 30 * DAY_MS));
    if |filtered| != |messages| {
      file.Write(filtered);
    } else {
      FilterKeepsLength(messages, KeptAfter(now - 30 * DAY_MS));
      FilterAllOrNone(messages, KeptAfter(now - 30 * DAY_MS));
    }
    var inactive := CountWhere(users, InactiveBefore(now - 7 * DAY_MS));
    file.LogMessage("system", "daily_cleanup", CleanupLog(cleanedVerifications.value, |messages| - |filtered|, inactive), now);
  }

  /** The cleanup rewrites the file exactly when some message is not strictly newer than thirty days. */
  lemma CleanupRewritesIffStale(messages: seq<Message>, now: int)
    ensures |Filter(messages, KeptAfter(now - 30 * DAY_MS))| < |messages| <==>
      exists i :: 0 <= i < |messages| && !After(messages[i].date, now - 30 * DAY_MS)
  {
    FilterKeepsLength(messages, KeptAfter(now - 30 * DAY_MS));
  }

  // ---------------------------------------------------------------------------
  // Welcome of new users

  predicate IsNewAt(u: BotUser, now: int) {
    After(u.joinDate, now - HOUR_MS) && !u.welcomeSent
  }

  function NewAt(now: int): BotUser -> bool {
    (u: BotUser) => IsNewAt(u, now)
  }

  /**
   * checkNewUsers: every user who joined strictly within the last hour and has no
   * welcome flag is sent a welcome; a delivered welcome sets the flag on the copy
   * read from the file (`memory`), which is never written back.
   */
  method CheckNewUsers(users: seq<BotUser>, now: int, fails: int -> bool) returns (welcomed: seq<int>, memory: seq<BotUser>)
    ensures welcomed == Filter(Ids(Filter(users, NewAt(now))), Accepts(fails))
    ensures |memory| == |users|
    ensures forall i :: 0 <= i < |users| ==>
      memory[i] == (if IsNewAt(users[i], now) && !fails(users[i].id) then users[i].(welcomeSent := true) else users[i])
  {
    welcomed := SendEach(Ids(Filter(users, NewAt(now))), fails);
    memory := seq(|users|, i requires 0 <= i < |users| =>
      if IsNewAt(users[i], now) && !fails(users[i].id) then users[i].(welcomeSent := true) else users[i]);
  }

  function Ids(users: seq<BotUser>): (r: seq<int>)
    ensures |r| == |users| && forall i :: 0 <= i < |users| ==> r[i] == users[i].id
  {
    seq(|users|, i requires 0 <= i < |users| => users[i].id)
  }

  /**
   * With the hourly schedule, a user already present at one tick is not new at a
   * tick an hour or more later, so the unsaved flag does not cause a second welcome.
   */
  lemma HourlyTicksWelcomeOnce(u: BotUser, tick: int, later: int)
    requires u.joinDate.Some? && u.joinDate.value <= tick && tick + HOUR_MS <= later
    ensures !IsNewAt(u, later)
  {
  }

  /**
   * Because the flag is never written back, a second check within the hour of a
   * join selects the same user again, however the first delivery went.
   */
  lemma {:induction false} RecheckWithinHourSelectsAgain(users: seq<BotUser>, i: nat, tick: int, later: int)
    requires i < |users| && IsNewAt(users[i], tick) && tick <= later
    requires users[i].joinDate.value > later - HOUR_MS
    ensures users[i] in Filter(users, NewAt(later))
  {
    assert NewAt(later)(users[i]);
  }
}
