/**
 * The session schedule of services/schedulingService.js: today's sessions, the
 * per-minute trigger that reminds 60, 15 and 5 minutes before a session, the
 * failure-isolated broadcasts to active users, and the daily and weekly schedule
 * texts.
 *
 * A tick is an explicit call with `now` (milliseconds) and `midnight`, the start of
 * the local day containing `now`. The transport is the oracle `fails`: a send to
 * id `x` throws exactly when `fails(x)`.
 */
module SchedulingService {
  import opened Wrappers
  import opened Seqs
  import Text
  import UserManagement

  const MINUTE_MS: int := 60000
  const HOUR_MS: int := 3600000

  /**
   * A weekly session or a special event (the same JSON shape; only events carry a
   * `date`, an ISO day such as "2025-08-15").
   */
  datatype Session = Session(time: string, topic: string, kind: string, zoomLink: Option<string>, duration: int, date: Option<string>)

  /**
   * The schedule file: `weeklySchedule` maps lower-case English day names to their
   * sessions; either part may be missing from the JSON.
   */
  datatype Schedule = Schedule(weeklySchedule: Option<map<string, seq<Session>>>, specialEvents: Option<seq<Session>>)

  datatype TodaySchedule = TodaySchedule(regular: seq<Session>, special: seq<Session>, dayName: string)

  /** The day label getTodaySchedule falls back to when the schedule cannot be read. */
  const TODAY_FALLBACK: string := "اليوم"

  const DAYS: seq<string> := ["sunday", "monday", "tuesday", "wednesday", "thursday", "friday", "saturday"]
  const ARABIC_DAYS: seq<string> := ["الأحد", "الاثنين", "الثلاثاء", "الأربعاء", "الخميس", "الجمعة", "السبت"]

  /** getDayNameInArabic: the seven English day names translated, anything else returned as given. */
  function GetDayNameInArabic(dayName: string): (r: string)
    ensures forall i :: 0 <= i < |DAYS| && dayName == DAYS[i] ==> r == ARABIC_DAYS[i]
    ensures dayName !in DAYS ==> r == dayName
  {
    if dayName == "sunday" then "الأحد"
    else if dayName == "monday" then "الاثنين"
    else if dayName == "tuesday" then "الثلاثاء"
    else if dayName == "wednesday" then "الأربعاء"
    else if dayName == "thursday" then "الخميس"
    else if dayName == "friday" then "الجمعة"
    else if dayName == "saturday" then "السبت"
    else dayName
  }

  predicate IsOn(date: string, s: Session) {
    s.date == Some(date)
  }

  /**
   * getTodaySchedule for the local weekday name `dayName` and the date string
   * `todayDate`. A schedule without `weeklySchedule` makes the lookup throw, which
   * gives the empty fallback.
   */
  function GetTodaySchedule(schedule: Schedule, dayName: string, todayDate: string): (r: TodaySchedule)
    ensures schedule.weeklySchedule.None? ==> r == TodaySchedule([], [], TODAY_FALLBACK)
    ensures schedule.weeklySchedule.Some? ==>
      && r.dayName == GetDayNameInArabic(dayName)
      && r.regular == (if dayName in schedule.weeklySchedule.value then schedule.weeklySchedule.value[dayName] else [])
      && (forall i :: 0 <= i < |r.special| ==> r.special[i].date == Some(todayDate))
      && (schedule.specialEvents.None? ==> r.special == [])
      && (schedule.specialEvents.Some? ==> forall i :: 0 <= i < |schedule.specialEvents.value| && schedule.specialEvents.value[i].date == Some(todayDate) ==> schedule.specialEvents.value[i] in r.special)
  {
    match schedule.weeklySchedule
    case None => TodaySchedule([], [], TODAY_FALLBACK)
    case Some(weekly) =>
      var regular := if dayName in weekly then weekly[dayName] else [];
      var special := match schedule.specialEvents
        case None => []
        case Some(events) => Filter(events, (s: Session) => IsOn(todayDate, s));
      TodaySchedule(regular, special, GetDayNameInArabic(dayName))
  }

  // ---------------------------------------------------------------------------
  // The per-minute trigger

  /** `Math.round(diff / 60000)` for a difference in milliseconds (halves round up). */
  function RoundedMinutes(diff: int): (r: int)
    ensures r * MINUTE_MS - 30000 <= diff < r * MINUTE_MS + 30000
  {
    (diff + 30000) / MINUTE_MS
  }

  /** The minute offsets at which a reminder is sent. */
  predicate IsLead(k: int) {
    k == 60 || k == 15 || k == 5
  }

  /** The hour and minute of a session's "HH:MM", read with `split(':')` and `parseInt`. */
  function ClockOf(time: string): (r: Option<(int, int)>)
    ensures ':' !in time ==> r.None?
  {
    if ':' !in time then
      Text.SplitWithoutSeparator(time, ':');
      None
    else
    var parts := Text.Split(time, ':');
    var h := Text.JsParseInt(parts[0]);
    var m := if |parts| >= 2 then Text.JsParseInt(parts[1]) else None;
    if h.Some? && m.Some? then Some((h.value, m.value)) else None
  }

  /** `setHours(h, m, 0, 0)` on today's date; out-of-range values carry into the next units. */
  function StartToday(midnight: int, clock: (int, int)): (r: int)
    ensures r - midnight == (clock.0 * 60 + clock.1) * MINUTE_MS
    ensures 0 <= clock.0 < 24 && 0 <= clock.1 < 60 ==> midnight <= r < midnight + 24 * HOUR_MS
  {
    midnight + clock.0 * HOUR_MS + clock.1 * MINUTE_MS
  }

  /** The reminder a session triggers at `now`, if any: its rounded minute distance, when that is a lead. */
  function LeadAt(start: int, now: int): (r: Option<int>)
    ensures r.Some? <==> IsLead(RoundedMinutes(start - now))
    ensures r.Some? ==> r.value * MINUTE_MS - 30000 <= start - now < r.value * MINUTE_MS + 30000
  {
    var k := RoundedMinutes(start - now);
    if IsLead(k) then Some(k) else None
  }

  /** The reminder a session's tick sends: none for a time that does not read as two numbers, otherwise LeadAt of its start today. */
  function LeadOf(s: Session, now: int, midnight: int): (r: Option<int>)
    ensures ClockOf(s.time).None? ==> r.None?
    ensures r.Some? ==> IsLead(r.value)
    ensures r.Some? ==> var start := StartToday(midnight, ClockOf(s.time).value);
      r.value * MINUTE_MS - 30000 <= start - now < r.value * MINUTE_MS + 30000
  {
    match ClockOf(s.time)
    case None => None
    case Some(clock) => LeadAt(StartToday(midnight, clock), now)
  }

  /** A lead fires in a half-open minute-wide window, so two ticks a minute or more apart never both send it. */
  lemma LeadFiresOncePerWindow(start: int, now: int, later: int)
    requires LeadAt(start, now).Some? && now + MINUTE_MS <= later
    ensures LeadAt(start, later) != LeadAt(start, now)
  {
  }

  /** Ticks on whole minutes before a session on a whole minute fire exactly at 60, 15 and 5 minutes before it. */
  lemma {:induction false} WholeMinuteTicks(start: int, minutesBefore: int)
    ensures LeadAt(start, start - minutesBefore * MINUTE_MS) == (if IsLead(minutesBefore) then Some(minutesBefore) else None)
  {
    var diff := minutesBefore * MINUTE_MS;
    assert start - (start - diff) == diff;
    assert (diff + 30000) / MINUTE_MS == minutesBefore by {
      assert diff + 30000 == minutesBefore * MINUTE_MS + 30000;
    }
  }

  /** "20:00" is read as 20 hours and 0 minutes. */
  lemma ClockOfEightPm()
    ensures ClockOf("20:00") == Some((20, 0))
  {
    ClockOfText("20:00");
  }

  /** A time written as two digit runs around a colon reads as those two numbers. */
  lemma ClockOfDigits(hours: string, minutes: string)
    requires hours != [] && Text.AllDigits(hours) && minutes != [] && Text.AllDigits(minutes)
    ensures ClockOf(hours + ":" + minutes) == Some((Text.DecimalValue(hours) as int, Text.DecimalValue(minutes) as int))
  {
    SplitClock(hours, minutes);
    ParseDigits(hours);
    ParseDigits(minutes);
  }

  lemma SplitClock(hours: string, minutes: string)
    requires Text.AllDigits(hours) && Text.AllDigits(minutes)
    ensures ':' in hours + ":" + minutes && Text.Split(hours + ":" + minutes, ':') == [hours, minutes]
  {
    assert hours + ":" + minutes == hours + [':'] + minutes;
    assert ':' !in hours && ':' !in minutes by {
      assert forall c :: c in hours ==> Text.IsDigit(c);
      assert forall c :: c in minutes ==> Text.IsDigit(c);
    }
    Text.SplitPair(hours, minutes, ':');
  }

  lemma ParseDigits(digits: string)
    requires digits != [] && Text.AllDigits(digits)
    ensures Text.JsParseInt(digits) == Some(Text.DecimalValue(digits) as int)
  {
    Text.JsParseIntLeadingDigits(digits, []);
    assert digits + [] == digits;
  }

  // The steps below take the text as a parameter, so that the solver does not
  // evaluate the whole call on the literal.

  lemma ClockOfText(t: string)
    requires t == "20:00"
    ensures ClockOf(t) == Some((20, 0))
  {
    var hours, minutes := t[..2], t[3..];
    assert t == hours + [':'] + minutes;
    Text.SplitPair(hours, minutes, ':');
    ParseIntReads(hours, 20);
    ParseIntReads(minutes, 0);
  }

  lemma ParseIntReads(digits: string, n: int)
    requires (digits == "20" && n == 20) || (digits == "00" && n == 0)
    ensures Text.JsParseInt(digits) == Some(n)
  {
    assert Text.AllDigits(digits) && |digits| == 2;
    assert Text.DigitValue(digits[0]) * 10 + Text.DigitValue(digits[1]) == n;
    Text.TwoDigitValue(digits);
    Text.JsParseIntLeadingDigits(digits, []);
    assert digits + [] == digits;
  }

  /** A session at 20:00 is announced at 19:00, 19:45 and 19:55, and not at 19:30. */
  lemma EightPmScenario(midnight: int, s: Session)
    requires s.time == "20:00"
    ensures LeadOf(s, midnight + 19 * HOUR_MS, midnight) == Some(60)
    ensures LeadOf(s, midnight + 19 * HOUR_MS + 45 * MINUTE_MS, midnight) == Some(15)
    ensures LeadOf(s, midnight + 19 * HOUR_MS + 55 * MINUTE_MS, midnight) == Some(5)
    ensures LeadOf(s, midnight + 19 * HOUR_MS + 30 * MINUTE_MS, midnight).None?
  {
    ClockOfEightPm();
    var start := midnight + 20 * HOUR_MS;
    WholeMinuteTicks(start, 60);
    WholeMinuteTicks(start, 15);
    WholeMinuteTicks(start, 5);
    WholeMinuteTicks(start, 30);
  }

  // ---------------------------------------------------------------------------
  // Broadcasts to active users

  predicate RemindersOn(u: UserManagement.User) {
    u.remindersEnabled
  }

  function Delivers(fails: int -> bool): UserManagement.User -> bool {
    (u: UserManagement.User) => !fails(u.id)
  }

  function Ids(users: seq<UserManagement.User>): (r: seq<int>)
    ensures |r| == |users| && forall i :: 0 <= i < |users| ==> r[i] == users[i].id
  {
    seq(|users|, i requires 0 <= i < |users| => users[i].id)
  }

  /**
   * The loop shared by the reminder and the daily schedule: every user with
   * reminders on is sent one message; a failing send is skipped and the loop goes on.
   */
  method Broadcast(users: seq<UserManagement.User>, fails: int -> bool) returns (attempted: seq<int>, successCount: nat)
    ensures attempted == Ids(Filter(users, RemindersOn))
    ensures successCount == CountWhere(Filter(users, RemindersOn), Delivers(fails))
    ensures successCount <= |attempted|
  {
    attempted := [];
    successCount := 0;
    var i := 0;
    while i < |users|
      invariant 0 <= i <= |users|
      invariant attempted == Ids(Filter(users[..i], RemindersOn))
      invariant successCount == CountWhere(Filter(users[..i], RemindersOn), Delivers(fails))
    {
      var user := users[i];
      BroadcastPrefix(users, i, fails);
      if user.remindersEnabled {
        attempted := attempted + [user.id];
        if !fails(user.id) {
          successCount := successCount + 1;
        }
      }
      i := i + 1;
    }
    assert users[..|users|] == users;
  }

  /** One more user adds its id to the attempted list exactly when its reminders are on, and a success when its send goes through. */
  lemma BroadcastStep(prefix: seq<UserManagement.User>, user: UserManagement.User, fails: int -> bool)
    ensures Ids(Filter(prefix + [user], RemindersOn)) == Ids(Filter(prefix, RemindersOn)) + (if user.remindersEnabled then [user.id] else [])
    ensures CountWhere(Filter(prefix + [user], RemindersOn), Delivers(fails))
      == CountWhere(Filter(prefix, RemindersOn), Delivers(fails)) + (if user.remindersEnabled && !fails(user.id) then 1 else 0)
  {
    var on := Filter(prefix, RemindersOn);
    FilterSnoc(prefix, user, RemindersOn);
    if user.remindersEnabled {
      assert Filter(prefix + [user], RemindersOn) == on + [user];
      IdsSnoc(on, user);
      FilterSnoc(on, user, Delivers(fails));
    } else {
      assert Filter(prefix + [user], RemindersOn) == on;
    }
  }

  lemma BroadcastPrefix(users: seq<UserManagement.User>, i: nat, fails: int -> bool)
    requires i < |users|
    ensures Ids(Filter(users[..i + 1], RemindersOn)) == Ids(Filter(users[..i], RemindersOn)) + (if users[i].remindersEnabled then [users[i].id] else [])
    ensures CountWhere(Filter(users[..i + 1], RemindersOn), Delivers(fails))
      == CountWhere(Filter(users[..i], RemindersOn), Delivers(fails)) + (if users[i].remindersEnabled && !fails(users[i].id) then 1 else 0)
  {
    assert users[..i + 1] == users[..i] + [users[i]];
    BroadcastStep(users[..i], users[i], fails);
  }

  lemma IdsSnoc(users: seq<UserManagement.User>, user: UserManagement.User)
    ensures Ids(users + [user]) == Ids(users) + [user.id]
  {
    assert forall k :: 0 <= k < |users| ==> (users + [user])[k] == users[k];
  }

  /** The placeholder sent instead of a missing Zoom link. */
  const LINK_SOON: string := "سيتم إرسال الرابط قريباً"

  /** The reminder text's three fields: time, link, topic. */
  datatype ReminderMessage = ReminderMessage(time: string, link: string, topic: string)

  /** The daily schedule text: regular sessions and special events, each numbered from 1. */
  datatype DailyMessage = DailyMessage(regular: seq<Session>, special: seq<Session>)

  datatype Delivery<M> = Skipped | Sent(message: M, attempted: seq<int>, successCount: nat)

  function ReminderMessageOf(s: Session): (m: ReminderMessage)
    ensures m.link == (if UserManagement.Truthy(s.zoomLink) then s.zoomLink.value else LINK_SOON)
  {
    ReminderMessage(s.time, if UserManagement.Truthy(s.zoomLink) then s.zoomLink.value else LINK_SOON, s.topic)
  }

  /**
   * sendSessionReminder. `users` is the users file; the recipients are the active
   * users with reminders on. Nothing is sent when no user is active.
   */
  method SendSessionReminder(users: seq<UserManagement.User>, now: int, session: Session, minutesBefore: int, fails: int -> bool)
    returns (d: Delivery<ReminderMessage>)
    ensures UserManagement.GetActiveUsers(users, now) == [] <==> d.Skipped?
    ensures d.Sent? ==>
      && d.message == ReminderMessageOf(session)
      && d.attempted == Ids(Filter(UserManagement.GetActiveUsers(users, now), RemindersOn))
      && d.successCount == CountWhere(Filter(UserManagement.GetActiveUsers(users, now), RemindersOn), Delivers(fails))
  {
    var active := UserManagement.GetActiveUsers(users, now);
    if |active| == 0 {
      return Skipped;
    }
    var attempted, successCount := Broadcast(active, fails);
    d := Sent(ReminderMessageOf(session), attempted, successCount);
  }

  /** Every recipient of a reminder is a user that is active and has reminders on. */
  lemma RemindedUsersAreActive(users: seq<UserManagement.User>, now: int, x: int)
    requires x in Ids(Filter(UserManagement.GetActiveUsers(users, now), RemindersOn))
    ensures exists u :: u in users && u.id == x && UserManagement.IsUserActive(Some(u), now) && u.remindersEnabled
  {
    var active := UserManagement.GetActiveUsers(users, now);
    var on := Filter(active, RemindersOn);
    var k :| 0 <= k < |on| && Ids(on)[k] == x;
    assert on[k] in active;
  }

  /** sendDailySchedule: nothing is sent on a day without regular sessions and special events. */
  method SendDailySchedule(users: seq<UserManagement.User>, now: int, today: TodaySchedule, fails: int -> bool)
    returns (d: Delivery<DailyMessage>)
    ensures today.regular == [] && today.special == [] <==> d.Skipped?
    ensures d.Sent? ==>
      && d.message == DailyMessage(today.regular, today.special)
      && d.attempted == Ids(Filter(UserManagement.GetActiveUsers(users, now), RemindersOn))
      && d.successCount == CountWhere(Filter(UserManagement.GetActiveUsers(users, now), RemindersOn), Delivers(fails))
  {
    var active := UserManagement.GetActiveUsers(users, now);
    if |today.regular| == 0 && |today.special| == 0 {
      return Skipped;
    }
    var attempted, successCount := Broadcast(active, fails);
    d := Sent(DailyMessage(today.regular, today.special), attempted, successCount);
  }

  /** One reminder sent during a tick: the index into today's sessions, the lead and the delivery. */
  datatype Fired = Fired(index: nat, minutesBefore: int, delivery: Delivery<ReminderMessage>)

  /** The sessions one tick checks: today's regular sessions, then today's special events. */
  function AllSessions(today: TodaySchedule): seq<Session> {
    today.regular + today.special
  }

  /**
   * A reminder that is due: its session's rounded distance is its lead, and it was
   * skipped exactly when no user is active (`active` is the active users), otherwise
   * sent with the session's text to the active users with reminders on, delivered
   * to those the transport accepts.
   */
  predicate Due(f: Fired, sessions: seq<Session>, now: int, midnight: int, active: seq<UserManagement.User>, fails: int -> bool) {
    && f.index < |sessions|
    && LeadOf(sessions[f.index], now, midnight) == Some(f.minutesBefore)
    && (f.delivery.Skipped? <==> active == [])
    && (f.delivery.Sent? ==>
      && f.delivery.message == ReminderMessageOf(sessions[f.index])
      && f.delivery.attempted == Ids(Filter(active, RemindersOn))
      && f.delivery.successCount == CountWhere(Filter(active, RemindersOn), Delivers(fails)))
  }

  /** Whether the session at `index` got a reminder. */
  predicate Announced(fired: seq<Fired>, index: nat) {
    exists k :: 0 <= k < |fired| && fired[k].index == index
  }

  /**
   * The state of a tick after the first `i` sessions: every reminder so far is due,
   * they are in session order, and every earlier session with a lead got one.
   */
  predicate TickedUpTo(fired: seq<Fired>, sessions: seq<Session>, now: int, midnight: int, active: seq<UserManagement.User>, fails: int -> bool, i: nat) {
    && AllDueBefore(fired, sessions, now, midnight, active, fails, i)
    && InSessionOrder(fired)
    && AnnouncedBefore(fired, sessions, now, midnight, i)
  }

  predicate AllDueBefore(fired: seq<Fired>, sessions: seq<Session>, now: int, midnight: int, active: seq<UserManagement.User>, fails: int -> bool, i: nat) {
    forall k :: 0 <= k < |fired| ==> fired[k].index < i && Due(fired[k], sessions, now, midnight, active, fails)
  }

  predicate InSessionOrder(fired: seq<Fired>) {
    forall k, l :: 0 <= k < l < |fired| ==> fired[k].index < fired[l].index
  }

  predicate AnnouncedBefore(fired: seq<Fired>, sessions: seq<Session>, now: int, midnight: int, i: nat) {
    forall j :: 0 <= j < i && j < |sessions| && LeadOf(sessions[j], now, midnight).Some? ==> Announced(fired, j)
  }

  /** A session without a lead adds nothing. */
  lemma TickSkips(fired: seq<Fired>, sessions: seq<Session>, now: int, midnight: int, active: seq<UserManagement.User>, fails: int -> bool, i: nat)
    requires TickedUpTo(fired, sessions, now, midnight, active, fails, i)
    requires i < |sessions| && LeadOf(sessions[i], now, midnight).None?
    ensures TickedUpTo(fired, sessions, now, midnight, active, fails, i + 1)
  {
  }

  /** A session with a lead adds its own reminder at the end. */
  lemma TickFires(fired: seq<Fired>, sessions: seq<Session>, now: int, midnight: int, active: seq<UserManagement.User>, fails: int -> bool, i: nat, f: Fired)
    requires TickedUpTo(fired, sessions, now, midnight, active, fails, i)
    requires f.index == i && Due(f, sessions, now, midnight, active, fails)
    ensures TickedUpTo(fired + [f], sessions, now, midnight, active, fails, i + 1)
  {
    FiresDue(fired, sessions, now, midnight, active, fails, i, f);
    FiresInOrder(fired, i, f);
    FiresAnnounced(fired, sessions, now, midnight, i, f);
  }

  lemma FiresDue(fired: seq<Fired>, sessions: seq<Session>, now: int, midnight: int, active: seq<UserManagement.User>, fails: int -> bool, i: nat, f: Fired)
    requires AllDueBefore(fired, sessions, now, midnight, active, fails, i)
    requires f.index == i && Due(f, sessions, now, midnight, active, fails)
    ensures AllDueBefore(fired + [f], sessions, now, midnight, active, fails, i + 1)
  {
    var after := fired + [f];
    forall k | 0 <= k < |after|
      ensures after[k].index < i + 1 && Due(after[k], sessions, now, midnight, active, fails)
    {
      if k < |fired| {
        assert after[k] == fired[k];
      }
    }
  }

  lemma FiresInOrder(fired: seq<Fired>, i: nat, f: Fired)
    requires forall k :: 0 <= k < |fired| ==> fired[k].index < i
    requires InSessionOrder(fired) && f.index == i
    ensures InSessionOrder(fired + [f])
  {
    var after := fired + [f];
    forall k, l | 0 <= k < l < |after|
      ensures after[k].index < after[l].index
    {
      assert after[k] == fired[k];
      if l < |fired| {
        assert after[l] == fired[l];
      }
    }
  }

  lemma FiresAnnounced(fired: seq<Fired>, sessions: seq<Session>, now: int, midnight: int, i: nat, f: Fired)
    requires AnnouncedBefore(fired, sessions, now, midnight, i) && f.index == i
    ensures AnnouncedBefore(fired + [f], sessions, now, midnight, i + 1)
  {
    var after := fired + [f];
    forall j | 0 <= j < i + 1 && j < |sessions| && LeadOf(sessions[j], now, midnight).Some?
      ensures Announced(after, j)
    {
      if j == i {
        assert after[|fired|].index == j;
      } else {
        var k :| 0 <= k < |fired| && fired[k].index == j;
        assert after[k] == fired[k];
      }
    }
  }

  /**
   * checkUpcomingSessions: one per-minute tick. Each of today's sessions whose
   * rounded distance is a lead gets one reminder, in session order, each sent
   * as sendSessionReminder sends it: to the active users with reminders on.
   */
  method CheckUpcomingSessions(today: TodaySchedule, now: int, midnight: int, users: seq<UserManagement.User>, fails: int -> bool)
    returns (fired: seq<Fired>)
    ensures forall k :: 0 <= k < |fired| ==>
      Due(fired[k], AllSessions(today), now, midnight, UserManagement.GetActiveUsers(users, now), fails)
    ensures forall k, l :: 0 <= k < l < |fired| ==> fired[k].index < fired[l].index
    ensures forall i :: 0 <= i < |AllSessions(today)| && LeadOf(AllSessions(today)[i], now, midnight).Some? ==> Announced(fired, i)
  {
    var sessions := AllSessions(today);
    ghost var active := UserManagement.GetActiveUsers(users, now);
    fired := [];
    var i := 0;
    while i < |sessions|
      invariant 0 <= i <= |sessions|
      invariant TickedUpTo(fired, sessions, now, midnight, active, fails, i)
    {
      var lead := LeadOf(sessions[i], now, midnight);
      if lead.Some? {
        var d := SendSessionReminder(users, now, sessions[i], lead.value, fails);
        var f := Fired(i, lead.value, d);
        TickFires(fired, sessions, now, midnight, active, fails, i, f);
        fired := fired + [f];
      } else {
        TickSkips(fired, sessions, now, midnight, active, fails, i);
      }
      i := i + 1;
    }
  }

  // ---------------------------------------------------------------------------
  // Schedule texts

  /** One numbered session block of the daily text; the link line is present only for a truthy link. */
  datatype SessionBlock = SessionBlock(number: nat, time: string, topic: string, kind: string, duration: int, link: Option<string>)

  datatype DailyText = NoSessions(day: string) | DaySessions(day: string, blocks: seq<SessionBlock>)

  function BlockOf(number: nat, s: Session): (b: SessionBlock)
    ensures b.link.Some? <==> UserManagement.Truthy(s.zoomLink)
    ensures b.link.Some? ==> b.link == s.zoomLink
  {
    SessionBlock(number, s.time, s.topic, s.kind, s.duration, if UserManagement.Truthy(s.zoomLink) then s.zoomLink else None)
  }

  /** The daily text for a day's sessions (`sessions` None when the day has none at all). */
  function DailyOf(dayName: string, sessions: Option<seq<Session>>): (t: DailyText)
    ensures t.day == GetDayNameInArabic(dayName)
    ensures t.NoSessions? <==> sessions.None? || sessions.value == []
    ensures t.DaySessions? ==>
      |t.blocks| == |sessions.value| && forall i :: 0 <= i < |t.blocks| ==> t.blocks[i] == BlockOf(i + 1, sessions.value[i])
  {
    if sessions.None? || sessions.value == [] then NoSessions(GetDayNameInArabic(dayName))
    else DaySessions(GetDayNameInArabic(dayName), seq(|sessions.value|, i requires 0 <= i < |sessions.value| => BlockOf(i + 1, sessions.value[i])))
  }

  /** formatDailySchedule: the blocks are appended one session at a time. */
  method FormatDailySchedule(dayName: string, sessions: Option<seq<Session>>) returns (t: DailyText)
    ensures t == DailyOf(dayName, sessions)
  {
    if sessions.None? || |sessions.value| == 0 {
      return NoSessions(GetDayNameInArabic(dayName));
    }
    var s := sessions.value;
    var blocks: seq<SessionBlock> := [];
    var i := 0;
    while i < |s|
      invariant 0 <= i <= |s| && |blocks| == i
      invariant forall j :: 0 <= j < i ==> blocks[j] == BlockOf(j + 1, s[j])
    {
      blocks := blocks + [BlockOf(i + 1, s[i])];
      i := i + 1;
    }
    t := DaySessions(GetDayNameInArabic(dayName), blocks);
  }

  predicate HasSessions(weekly: map<string, seq<Session>>, day: string) {
    day in weekly && weekly[day] != []
  }

  /** The indices into DAYS, among the first `n`, of the days the weekly text lists. */
  function ListedDays(weekly: map<string, seq<Session>>, n: nat): (r: seq<nat>)
    requires n <= |DAYS|
    ensures forall k :: 0 <= k < |r| ==> r[k] < n && HasSessions(weekly, DAYS[r[k]])
    ensures forall k, l :: 0 <= k < l < |r| ==> r[k] < r[l]
    ensures forall d :: 0 <= d < n && HasSessions(weekly, DAYS[d]) ==> d in r
  {
    if n == 0 then []
    else ListedDays(weekly, n - 1) + (if HasSessions(weekly, DAYS[n - 1]) then [n - 1] else [])
  }

  /**
   * formatWeeklySchedule: after the header, the daily text of every day with at
   * least one session, Sunday first and Saturday last.
   */
  method FormatWeeklySchedule(weekly: map<string, seq<Session>>) returns (days: seq<DailyText>)
    ensures TextsOfDays(days, weekly, ListedDays(weekly, |DAYS|))
  {
    days := [];
    var i := 0;
    while i < |DAYS|
      invariant 0 <= i <= |DAYS|
      invariant TextsOfDays(days, weekly, ListedDays(weekly, i))
    {
      days := AddDay(days, weekly, i);
      i := i + 1;
    }
  }

  /** One turn of the weekly loop: the day at index `d` adds its daily text when it has sessions. */
  method AddDay(days: seq<DailyText>, weekly: map<string, seq<Session>>, d: nat) returns (days': seq<DailyText>)
    requires d < |DAYS| && TextsOfDays(days, weekly, ListedDays(weekly, d))
    ensures TextsOfDays(days', weekly, ListedDays(weekly, d + 1))
  {
    var day := DAYS[d];
    ListedDaysStep(weekly, d);
    days' := days;
    if day in weekly && |weekly[day]| > 0 {
      var text := FormatDailySchedule(day, Some(weekly[day]));
      ExtendTexts(days, weekly, ListedDays(weekly, d), d, text);
      days' := days + [text];
    }
  }

  lemma ListedDaysStep(weekly: map<string, seq<Session>>, d: nat)
    requires d < |DAYS|
    ensures ListedDays(weekly, d + 1) == ListedDays(weekly, d) + (if HasSessions(weekly, DAYS[d]) then [d] else [])
  {
  }

  /** The daily text of one more listed day extends the texts of the days before it. */
  lemma ExtendTexts(days: seq<DailyText>, weekly: map<string, seq<Session>>, listed: seq<nat>, d: nat, text: DailyText)
    requires TextsOfDays(days, weekly, listed)
    requires d < |DAYS| && HasSessions(weekly, DAYS[d]) && text == DailyOf(DAYS[d], Some(weekly[DAYS[d]]))
    ensures TextsOfDays(days + [text], weekly, listed + [d])
  {
    var days', listed' := days + [text], listed + [d];
    forall k | 0 <= k < |days'|
      ensures days'[k] == DailyOf(DAYS[listed'[k]], Some(weekly[DAYS[listed'[k]]]))
    {
      if k < |days| {
        assert days'[k] == days[k] && listed'[k] == listed[k];
      } else {
        assert days'[k] == text && listed'[k] == d;
      }
    }
  }

  /** `days` holds the daily texts of the listed days, in their order. */
  predicate TextsOfDays(days: seq<DailyText>, weekly: map<string, seq<Session>>, listed: seq<nat>) {
    && |days| == |listed|
    && forall k :: 0 <= k < |listed| ==>
      listed[k] < |DAYS| && HasSessions(weekly, DAYS[listed[k]]) && days[k] == DailyOf(DAYS[listed[k]], Some(weekly[DAYS[listed[k]]]))
  }

  /** No listed day is empty: every daily text in the weekly text has session blocks. */
  lemma WeeklyListsOnlyDaysWithSessions(weekly: map<string, seq<Session>>, k: nat)
    requires k < |ListedDays(weekly, |DAYS|)|
    ensures DailyOf(DAYS[ListedDays(weekly, |DAYS|)[k]], Some(weekly[DAYS[ListedDays(weekly, |DAYS|)[k]]])).DaySessions?
  {
  }
}
