/**
 * The users table of database.py's Database class, with the message log: the table
 * is a map from user id to row, and each method that issues an UPDATE or INSERT
 * reassigns it. Times are `datetime.now()` readings in microseconds, passed in as
 * `now`; durations are configured in seconds.
 */
module BotDatabase {
  import opened Wrappers
  import UserManagement

  const MAX_WARNINGS: int := 3
  /** Config.MUTE_DURATION: one hour, in seconds. */
  const MUTE_DURATION: int := 3600
  const MICROS_PER_SECOND: int := 1000000

  /** One row of the users table; None is SQL NULL. */
  datatype Row = Row(
    username: Option<string>,
    firstName: Option<string>,
    lastName: Option<string>,
    isVerified: bool,
    isAdmin: bool,
    warnings: int,
    isMuted: bool,
    muteUntil: Option<int>,
    registeredAt: int,
    lastActivity: int)

  /** The `user_data` dictionary register_user reads. */
  datatype UserData = UserData(id: int, username: Option<string>, firstName: Option<string>, lastName: Option<string>)

  /** One row of the messages table. */
  datatype LoggedMessage = LoggedMessage(userId: int, text: string, kind: string)

  /** The row INSERTed for a new user: column defaults, and admin iff the id is a configured admin. */
  function NewRow(data: UserData, adminIds: seq<int>, now: int): (r: Row)
    ensures r.isAdmin <==> data.id in adminIds
    ensures !r.isVerified && r.warnings == 0 && !r.isMuted && r.muteUntil.None?
    ensures r.username == data.username && r.firstName == data.firstName && r.lastName == data.lastName
    ensures r.registeredAt == now && r.lastActivity == now
  {
    Row(data.username, data.firstName, data.lastName, false, data.id in adminIds, 0, false, None, now, now)
  }

  /** The row after the UPDATE for a returning user: new names and activity, everything else kept. */
  function Refreshed(row: Row, data: UserData, now: int): (r: Row)
    ensures r.username == data.username && r.firstName == data.firstName && r.lastName == data.lastName && r.lastActivity == now
    ensures r.(username := row.username, firstName := row.firstName, lastName := row.lastName, lastActivity := row.lastActivity) == row
  {
    row.(username := data.username, firstName := data.firstName, lastName := data.lastName, lastActivity := now)
  }

  /** `duration_seconds or Config.MUTE_DURATION`: None and 0 are falsy and give the default. */
  function MuteSeconds(duration: Option<int>): (r: int)
    ensures duration.None? || duration == Some(0) ==> r == MUTE_DURATION
    ensures duration.Some? && duration.value != 0 ==> r == duration.value
  {
    match duration
    case None => MUTE_DURATION
    case Some(d) => if d == 0 then MUTE_DURATION else d
  }

  /** The row muted until `until`. */
  function MutedUntil(row: Row, until: int): (r: Row)
    ensures r.isMuted && r.muteUntil == Some(until)
    ensures r.(isMuted := row.isMuted, muteUntil := row.muteUntil) == row
  {
    row.(isMuted := true, muteUntil := Some(until))
  }

  /** The row after unmute_user: not muted, no mute end; the other columns kept. */
  function Unmuted(row: Row): (r: Row)
    ensures !r.isMuted && r.muteUntil.None?
    ensures r.(isMuted := row.isMuted, muteUntil := row.muteUntil) == row
  {
    row.(isMuted := false, muteUntil := None)
  }

  /**
   * The row after add_warning at `now`: one more warning; at the threshold or above
   * the user is muted for MUTE_DURATION from now, below it the mute columns are kept.
   */
  function Warned(row: Row, now: int): (r: Row)
    ensures r.warnings == row.warnings + 1
    ensures r.warnings >= MAX_WARNINGS ==> r.isMuted && r.muteUntil == Some(now + MUTE_DURATION * MICROS_PER_SECOND)
    ensures r.warnings < MAX_WARNINGS ==> r.isMuted == row.isMuted && r.muteUntil == row.muteUntil
    ensures r.isVerified == row.isVerified && r.isAdmin == row.isAdmin && r.username == row.username
  {
    var counted := row.(warnings := row.warnings + 1);
    if counted.warnings >= MAX_WARNINGS then MutedUntil(counted, now + MUTE_DURATION * MICROS_PER_SECOND) else counted
  }

  /** A mute that still holds at `now`: muted, and either without an end or with `now` not past it. */
  predicate MuteInForce(row: Row, now: int) {
    row.isMuted && (row.muteUntil.None? || now <= row.muteUntil.value)
  }

  /** A mute whose end `now` has passed; is_muted lifts it. */
  predicate MuteLapsed(row: Row, now: int) {
    row.isMuted && row.muteUntil.Some? && now > row.muteUntil.value
  }

  /** What is_muted answers for the table `users`. */
  function MutedAnswer(users: map<int, Row>, userId: int, now: int): (r: bool)
    ensures r <==> userId in users && MuteInForce(users[userId], now)
    ensures !r && userId in users && users[userId].isMuted ==> MuteLapsed(users[userId], now)
  {
    if userId !in users || !users[userId].isMuted then false
    else if users[userId].muteUntil.Some? && now > users[userId].muteUntil.value then false
    else true
  }

  /** The table after is_muted: a lapsed mute is lifted as a side effect, nothing else changes. */
  function AfterMuteCheck(users: map<int, Row>, userId: int, now: int): (r: map<int, Row>)
    ensures r.Keys == users.Keys
    ensures forall id :: id in users && id != userId ==> r[id] == users[id]
    ensures userId in users ==> r[userId] == if MuteLapsed(users[userId], now) then Unmuted(users[userId]) else users[userId]
  {
    if userId in users && MuteLapsed(users[userId], now) then users[userId := Unmuted(users[userId])] else users
  }

  class Database {
    var users: map<int, Row>
    var messages: seq<LoggedMessage>
    /** Config.ADMIN_IDS, read from the environment. */
    const adminIds: seq<int>
    /** Config.SUBSCRIPTION_CODES, read from the environment. */
    const subscriptionCodes: seq<string>

    constructor (adminIds: seq<int>, subscriptionCodes: seq<string>)
      ensures users == map[] && messages == []
      ensures this.adminIds == adminIds && this.subscriptionCodes == subscriptionCodes
    {
      users := map[];
      messages := [];
      this.adminIds := adminIds;
      this.subscriptionCodes := subscriptionCodes;
    }

    /**
     * register_user: a known id has its names and activity refreshed and gets False;
     * a new id is inserted and gets True.
     */
    method RegisterUser(data: UserData, now: int) returns (isNew: bool)
      modifies this
      ensures isNew <==> data.id !in old(users)
      ensures data.id in old(users) ==> users == old(users)[data.id := Refreshed(old(users)[data.id], data, now)]
      ensures data.id !in old(users) ==> users == old(users)[data.id := NewRow(data, adminIds, now)]
      ensures messages == old(messages)
    {
      if data.id in users {
        users := users[data.id := Refreshed(users[data.id], data, now)];
        return false;
      }
      users := users[data.id := NewRow(data, adminIds, now)];
      isNew := true;
    }

    /**
     * verify_user: a configured code marks the row verified (if there is one) and gets
     * True; any other code gets False and changes nothing.
     */
    method VerifyUser(userId: int, code: string) returns (ok: bool)
      modifies this
      ensures ok <==> code in subscriptionCodes
      ensures ok && userId in old(users) ==> users == old(users)[userId := old(users)[userId].(isVerified := true)]
      ensures !ok || userId !in old(users) ==> users == old(users)
      ensures messages == old(messages)
    {
      if code in subscriptionCodes {
        if userId in users {
          users := users[userId := users[userId].(isVerified := true)];
        }
        return true;
      }
      ok := false;
    }

    /**
     * add_warning: the row gets one more warning and the new count is returned. For an
     * unknown id the SELECT finds no row and indexing it raises TypeError.
     */
    method AddWarning(userId: int, now: int) returns (r: Result<int>)
      modifies this
      ensures userId !in old(users) ==> r == Raised(TypeError) && users == old(users)
      ensures userId in old(users) ==> r == Ok(old(users)[userId].warnings + 1) && users == old(users)[userId := Warned(old(users)[userId], now)]
      ensures messages == old(messages)
    {
      if userId !in users {
        return Raised(TypeError);
      }
      var row := users[userId].(warnings := users[userId].warnings + 1);
      if row.warnings >= MAX_WARNINGS {
        row := MutedUntil(row, now + MUTE_DURATION * MICROS_PER_SECOND);
      }
      users := users[userId := row];
      r := Ok(row.warnings);
    }

    /** mute_user: the mute end becomes now plus the duration, replacing any earlier one; always True. */
    method MuteUser(userId: int, duration: Option<int>, now: int) returns (ok: bool)
      modifies this
      ensures ok
      ensures userId in old(users) ==> users == old(users)[userId := MutedUntil(old(users)[userId], now + MuteSeconds(duration) * MICROS_PER_SECOND)]
      ensures userId !in old(users) ==> users == old(users)
      ensures messages == old(messages)
    {
      if userId in users {
        users := users[userId := MutedUntil(users[userId], now + MuteSeconds(duration) * MICROS_PER_SECOND)];
      }
      ok := true;
    }

    /** unmute_user: always True. */
    method UnmuteUser(userId: int) returns (ok: bool)
      modifies this
      ensures ok
      ensures userId in old(users) ==> users == old(users)[userId := Unmuted(old(users)[userId])]
      ensures userId !in old(users) ==> users == old(users)
      ensures messages == old(messages)
    {
      if userId in users {
        users := users[userId := Unmuted(users[userId])];
      }
      ok := true;
    }

    /** is_muted: the answer for the table as it was, which loses a lapsed mute on the way. */
    method IsMuted(userId: int, now: int) returns (muted: bool)
      modifies this
      ensures muted == MutedAnswer(old(users), userId, now)
      ensures users == AfterMuteCheck(old(users), userId, now)
      ensures messages == old(messages)
    {
      if userId !in users || !users[userId].isMuted {
        return false;
      }
      if users[userId].muteUntil.Some? && now > users[userId].muteUntil.value {
        var _ := UnmuteUser(userId);
        return false;
      }
      muted := true;
    }

    /** is_admin: `user and user['is_admin']`, here as a truth value. */
    function IsAdmin(userId: int): (r: bool)
      reads this
      ensures r <==> userId in users && users[userId].isAdmin
    {
      userId in users && users[userId].isAdmin
    }

    /** log_message: one row appended to the messages table. */
    method LogMessage(userId: int, text: string, kind: string)
      modifies this
      ensures messages == old(messages) + [LoggedMessage(userId, text, kind)]
      ensures users == old(users)
    {
      messages := messages + [LoggedMessage(userId, text, kind)];
    }
  }

  /** Unmuting twice leaves the row as unmuting once does. */
  lemma UnmuteIdempotent(row: Row)
    ensures Unmuted(Unmuted(row)) == Unmuted(row)
  {
  }

  /** A user's third warning from a clean row mutes them for an hour from that warning. */
  lemma ThirdWarningMutes(row: Row, t1: int, t2: int, t3: int)
    requires row.warnings == 0 && !row.isMuted && row.muteUntil.None?
    ensures !Warned(row, t1).isMuted && !Warned(Warned(row, t1), t2).isMuted
    ensures Warned(Warned(Warned(row, t1), t2), t3).isMuted
    ensures Warned(Warned(Warned(row, t1), t2), t3).muteUntil == Some(t3 + MUTE_DURATION * MICROS_PER_SECOND)
  {
    var r1 := Warned(row, t1);
    var r2 := Warned(r1, t2);
    assert r1.warnings == 1 && r2.warnings == 2;
  }

  /** Every warning past the threshold moves the mute end to an hour after that warning. */
  lemma LaterWarningRestartsMute(row: Row, now: int)
    requires row.warnings >= MAX_WARNINGS - 1
    ensures Warned(row, now).muteUntil == Some(now + MUTE_DURATION * MICROS_PER_SECOND)
  {
  }

  /** A timed mute holds up to and including its end and is gone one microsecond later. */
  lemma MuteEndsStrictlyAfterItsEnd(users: map<int, Row>, userId: int, until: int)
    requires userId in users && users[userId].isMuted && users[userId].muteUntil == Some(until)
    ensures MutedAnswer(users, userId, until)
    ensures !MutedAnswer(users, userId, until + 1)
    ensures AfterMuteCheck(users, userId, until + 1)[userId] == Unmuted(users[userId])
  {
  }

  /**
   * At the instant a mute ends the two stores disagree: the Python table still
   * reports the mute, while services/userManagement.js counts it as expired.
   */
  lemma MuteBoundaryDiffersFromUserManagement(row: Row, u: UserManagement.User, until: int)
    requires row.isMuted && row.muteUntil == Some(until) && u.muteUntil == Some(until)
    ensures MuteInForce(row, until) && UserManagement.MuteExpired(u, until)
  {
  }
}
