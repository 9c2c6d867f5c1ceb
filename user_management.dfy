/**
 * The moderation state machine of services/userManagement.js: registration with an
 * optional six-digit subscription code, permission levels, warnings that mute
 * automatically at a threshold, explicit mute and unmute, the active-user test and
 * the periodic mute-expiry sweep.
 *
 * The users file is the `users` field of a UserStore; `saves` counts the calls of
 * saveUsers that wrote it. Times are milliseconds since the epoch, as JavaScript's
 * Date holds them.
 */
module UserManagement {
  import opened Wrappers
  import opened Seqs
  import Text

  const MINUTE_MS: int := 60000

  datatype UserType = Admin | Moderator | Student | Pending | OtherType(name: string)

  datatype UserStatus = Active | Muted | Banned | PendingVerification

  datatype Warning = Warning(id: int, reason: string, issuedBy: int, issuedAt: int, active: bool)

  datatype User = User(
    id: int,
    username: Option<string>,
    firstName: string,
    lastName: string,
    userType: UserType,
    status: UserStatus,
    registeredAt: int,
    lastSeen: int,
    subscriptionCode: Option<string>,
    remindersEnabled: bool,
    statsWarnings: int,
    warnings: seq<Warning>,
    muteUntil: Option<int>)

  /** The chat profile registerUser receives (`userInfo`). */
  datatype UserInfo = UserInfo(id: int, username: Option<string>, firstName: Option<string>, lastName: Option<string>)

  /** The `botConfig` values this module consults; `muteTime` is in minutes. */
  datatype Config = Config(
    adminIds: seq<int>,
    requireVerification: bool,
    subscriptionCode: string,
    maxWarnings: int,
    muteTime: int)

  /** The configuration's defaults: three warnings, thirty minutes of mute. */
  function DefaultConfig(adminIds: seq<int>, requireVerification: bool, subscriptionCode: string): (c: Config)
    ensures c.maxWarnings == 3 && c.muteTime == 30
  {
    Config(adminIds, requireVerification, subscriptionCode, 3, 30)
  }

  // ---------------------------------------------------------------------------
  // Subscription codes and permissions

  /** Whether `s` consists of exactly `n` ASCII digits. */
  function DigitRun(s: string, n: nat): (r: bool)
    ensures r <==> |s| == n && Text.AllDigits(s)
  {
    if n == 0 then s == []
    else s != [] && Text.IsDigit(s[0]) && DigitRun(s[1..], n - 1)
  }

  /** validateSubscriptionCode: the pattern `^\d{6}$`. */
  function ValidateSubscriptionCode(code: string): (ok: bool)
    ensures ok <==> |code| == 6 && forall i :: 0 <= i < 6 ==> '0' <= code[i] <= '9'
  {
    DigitRun(code, 6)
  }

  /** The level of a user type in checkUserPermission's hierarchy; None for a type it does not list. */
  function Level(t: UserType): Option<nat> {
    match t
    case Admin => Some(3)
    case Moderator => Some(2)
    case Student => Some(1)
    case Pending => Some(0)
    case OtherType(_) => None
  }

  /** checkUserPermission. A comparison with a missing level is false in JavaScript (`undefined >= n`). */
  function CheckUserPermission(user: Option<User>, required: UserType): (r: bool)
    ensures r ==> user.Some? && !user.value.userType.OtherType? && !required.OtherType?
    ensures user.Some? && user.value.userType == Admin && !required.OtherType? ==> r
    ensures user.Some? && !user.value.userType.OtherType? && required == Pending ==> r
    ensures user.Some? && user.value.userType == Pending && r ==> required == Pending
  {
    user.Some? && Level(user.value.userType).Some? && Level(required).Some?
    && Level(user.value.userType).value >= Level(required).value
  }

  /** The hierarchy from the weakest to the strongest type. */
  const HIERARCHY: seq<UserType> := [Pending, Student, Moderator, Admin]

  /** A user passes exactly when its type stands at or above the required one in HIERARCHY. */
  lemma PermissionFollowsHierarchy(user: User, required: UserType)
    ensures CheckUserPermission(Some(user), required) <==>
      exists i, j :: 0 <= j <= i < |HIERARCHY| && HIERARCHY[i] == user.userType && HIERARCHY[j] == required
  {
    if CheckUserPermission(Some(user), required) {
      var i, j := Level(user.userType).value, Level(required).value;
      assert HIERARCHY[i] == user.userType && HIERARCHY[j] == required;
    }
  }

  /** A null user and a user of an unknown type are refused whatever is required. */
  lemma PermissionRefusals(user: User, required: UserType)
    ensures !CheckUserPermission(None, required)
    ensures user.userType.OtherType? ==> !CheckUserPermission(Some(user), required)
    ensures required.OtherType? ==> !CheckUserPermission(Some(user), required)
  {
  }

  // ---------------------------------------------------------------------------
  // Registration

  /** JavaScript truthiness of an optional string: absent and empty are both falsy. */
  predicate Truthy(s: Option<string>) {
    s.Some? && s.value != ""
  }

  /**
   * The type and status registerUser gives a new user, or None when the code is
   * rejected as not being six digits.
   */
  function ClassifyNewUser(config: Config, id: int, code: Option<string>): (r: Option<(UserType, UserStatus)>)
    ensures id in config.adminIds ==> r == Some((Admin, Active))
    ensures id !in config.adminIds && !config.requireVerification ==> r == Some((Student, Active))
    ensures id !in config.adminIds && config.requireVerification ==>
      if !Truthy(code) then r == Some((Pending, PendingVerification))
      else if !ValidateSubscriptionCode(code.value) then r.None?
      else if code.value == config.subscriptionCode then r == Some((Student, Active))
      else r == Some((Pending, PendingVerification))
  {
    if id in config.adminIds then Some((Admin, Active))
    else if !config.requireVerification then Some((Student, Active))
    else if !Truthy(code) then Some((Pending, PendingVerification))
    else if !ValidateSubscriptionCode(code.value) then None
    else if code.value == config.subscriptionCode then Some((Student, Active))
    else Some((Pending, PendingVerification))
  }

  /** With verification required, only the configured code makes a non-admin an active student. */
  lemma ActiveStudentNeedsConfiguredCode(config: Config, id: int, code: Option<string>)
    requires config.requireVerification && id !in config.adminIds
    ensures ClassifyNewUser(config, id, code) == Some((Student, Active)) <==>
      Truthy(code) && ValidateSubscriptionCode(code.value) && code.value == config.subscriptionCode
  {
  }

  /** The record registerUser builds for a new user. */
  function NewUser(info: UserInfo, t: UserType, status: UserStatus, code: Option<string>, now: int): (u: User)
    ensures u.id == info.id && u.userType == t && u.status == status
    ensures u.warnings == [] && u.statsWarnings == 0 && u.muteUntil.None? && u.remindersEnabled
    ensures u.registeredAt == now && u.lastSeen == now
  {
    User(
      info.id,
      if Truthy(info.username) then info.username else None,
      if Truthy(info.firstName) then info.firstName.value else "",
      if Truthy(info.lastName) then info.lastName.value else "",
      t, status, now, now,
      if Truthy(code) then code else None,
      true, 0, [], None)
  }

  datatype RegisterResult =
    | Returning(user: User)
    | Registered(user: User, pendingVerification: bool)
    | InvalidSubscriptionCode
    | SaveError

  // ---------------------------------------------------------------------------
  // Warnings, mutes, the active test and the sweep, on single records

  /** The warnings whose `active` flag is set, in order. */
  function ActiveWarnings(ws: seq<Warning>): seq<Warning> {
    Filter(ws, (w: Warning) => w.active)
  }

  /** The number of active warnings (`warnings.filter(w => w.active).length`). */
  function ActiveCount(ws: seq<Warning>): nat {
    |ActiveWarnings(ws)|
  }

  /** The record after addWarning at time `now`. */
  function Warn(u: User, reason: string, adminId: int, now: int, config: Config): (r: User)
    ensures r.warnings == u.warnings + [Warning(now, reason, adminId, now, true)]
    ensures ActiveCount(r.warnings) == ActiveCount(u.warnings) + 1 && r.statsWarnings == ActiveCount(r.warnings)
    ensures ActiveCount(r.warnings) >= config.maxWarnings ==> r.status == Muted && r.muteUntil == Some(now + config.muteTime * MINUTE_MS)
    ensures ActiveCount(r.warnings) < config.maxWarnings ==> r.status == u.status && r.muteUntil == u.muteUntil
    ensures r.id == u.id && r.userType == u.userType && r.remindersEnabled == u.remindersEnabled
  {
    var w := Warning(now, reason, adminId, now, true);
    var ws := u.warnings + [w];
    FilterSnoc(u.warnings, w, (w: Warning) => w.active);
    var count := ActiveCount(ws);
    if count >= config.maxWarnings then
      u.(warnings := ws, statsWarnings := count, status := Muted, muteUntil := Some(now + config.muteTime * MINUTE_MS))
    else
      u.(warnings := ws, statsWarnings := count)
  }

  datatype WarningResult = WarningResult(user: User, warningCount: nat, remainingWarnings: nat, muted: bool, muteUntil: Option<int>)

  /** What addWarning returns for the updated record. */
  function WarningReport(r: User, config: Config): (res: WarningResult)
    ensures res.warningCount == ActiveCount(r.warnings)
    ensures res.remainingWarnings as int == if config.maxWarnings - res.warningCount > 0 then config.maxWarnings - res.warningCount else 0
    ensures res.muted <==> res.warningCount >= config.maxWarnings
  {
    var count := ActiveCount(r.warnings);
    WarningResult(r, count, if config.maxWarnings - count > 0 then (config.maxWarnings - count) as nat else 0,
                  count >= config.maxWarnings, r.muteUntil)
  }

  /** Once at or past the threshold, every further warning moves the mute end to its own time plus the mute length. */
  lemma {:induction false} EachWarningRestartsMute(u: User, config: Config, t1: int, t2: int, reason: string, adminId: int)
    requires ActiveCount(u.warnings) + 1 >= config.maxWarnings
    requires t1 < t2
    ensures Warn(Warn(u, reason, adminId, t1, config), reason, adminId, t2, config).muteUntil == Some(t2 + config.muteTime * MINUTE_MS)
    ensures Warn(u, reason, adminId, t1, config).muteUntil.value < Warn(Warn(u, reason, adminId, t1, config), reason, adminId, t2, config).muteUntil.value
  {
    var first := Warn(u, reason, adminId, t1, config);
    assert ActiveCount(first.warnings) >= config.maxWarnings;
  }

  /** muteUser on one record: `duration` minutes from now, replacing any earlier end. */
  function Mute(u: User, duration: int, now: int): (r: User)
    ensures r.status == Muted && r.muteUntil == Some(now + duration * MINUTE_MS)
    ensures r.warnings == u.warnings && r.statsWarnings == u.statsWarnings && r.userType == u.userType
  {
    u.(status := Muted, muteUntil := Some(now + duration * MINUTE_MS))
  }

  /** unmuteUser on one record: no mute end, status active, whatever the status was. */
  function Unmute(u: User): (r: User)
    ensures r.status == Active && r.muteUntil.None?
    ensures r.warnings == u.warnings && r.userType == u.userType && r.id == u.id
  {
    u.(status := Active, muteUntil := None)
  }

  /** Unmuting twice leaves the record as unmuting once; muting then unmuting forgets the mute. */
  lemma UnmuteIdempotent(u: User, duration: int, now: int)
    ensures Unmute(Unmute(u)) == Unmute(u)
    ensures Unmute(Mute(u, duration, now)) == Unmute(u)
  {
  }

  /** isUserActive: a pure read that never clears an expired mute. */
  function IsUserActive(user: Option<User>, now: int): (r: bool)
    ensures r ==> user.Some? && user.value.status == Active
    ensures user.Some? && user.value.muteUntil.Some? && user.value.muteUntil.value > now ==> !r
  {
    if user.None? then false
    else if user.value.muteUntil.Some? && user.value.muteUntil.value > now then false
    else user.value.status == Active
  }

  /** An expired mute whose status was not yet reset keeps the user inactive until the sweep runs. */
  lemma ExpiredMuteStillInactive(u: User, now: int)
    requires u.status == Muted && u.muteUntil.Some? && u.muteUntil.value <= now
    ensures !IsUserActive(Some(u), now)
  {
  }

  /** The sweep's test (`muteUntil && muteUntil <= now`). */
  predicate MuteExpired(u: User, now: int) {
    u.muteUntil.Some? && u.muteUntil.value <= now
  }

  /** One record after checkMuteExpirations at time `now`. */
  function SweepUser(u: User, now: int): (r: User)
    ensures MuteExpired(u, now) ==> r == Unmute(u)
    ensures !MuteExpired(u, now) ==> r == u
  {
    if MuteExpired(u, now) then u.(muteUntil := None, status := Active) else u
  }

  /** After the sweep a user whose mute had expired is active at every later read. */
  lemma SweepRestoresActivity(u: User, now: int, later: int)
    requires MuteExpired(u, now)
    ensures IsUserActive(Some(SweepUser(u, now)), later)
  {
  }

  /** The sweep resets any status, so a banned user whose mute ran out comes back active. */
  lemma SweepLiftsBanWithExpiredMute(u: User, now: int)
    requires u.status == Banned && MuteExpired(u, now)
    ensures SweepUser(u, now).status == Active
  {
  }

  /** A down-counting user is never reported muted past expiry: by the sweep's next tick it is active again. */
  lemma ActiveOnceExpiredAndSwept(u: User, now: int)
    requires u.muteUntil.Some? && u.muteUntil.value <= now && u.status == Muted
    ensures !IsUserActive(Some(u), now) && IsUserActive(Some(SweepUser(u, now)), now)
  {
  }

  /** getActiveUsers: the users isUserActive accepts, in file order. */
  function GetActiveUsers(users: seq<User>, now: int): (r: seq<User>)
    ensures forall i :: 0 <= i < |r| ==> r[i] in users && IsUserActive(Some(r[i]), now)
    ensures forall i :: 0 <= i < |users| && IsUserActive(Some(users[i]), now) ==> users[i] in r
  {
    Filter(users, (u: User) => IsUserActive(Some(u), now))
  }

  /** The users file after the sweep, record by record. */
  function SweepAll(users: seq<User>, now: int): (r: seq<User>)
    ensures |r| == |users| && forall i :: 0 <= i < |users| ==> r[i] == SweepUser(users[i], now)
  {
    seq(|users|, i requires 0 <= i < |users| => SweepUser(users[i], now))
  }

  /**
   * The loop of checkMuteExpirations: every record whose mute end has passed is
   * reset, `updated` records whether any was.
   */
  method SweepExpired(users: seq<User>, now: int) returns (result: seq<User>, updated: bool)
    ensures |result| == |users|
    ensures forall i :: 0 <= i < |users| ==> result[i] == SweepUser(users[i], now)
    ensures updated <==> exists i :: 0 <= i < |users| && MuteExpired(users[i], now)
  {
    result := users;
    updated := false;
    var i := 0;
    while i < |result|
      invariant 0 <= i <= |users| && |result| == |users|
      invariant forall j :: 0 <= j < i ==> result[j] == SweepUser(users[j], now)
      invariant forall j :: i <= j < |users| ==> result[j] == users[j]
      invariant updated <==> exists j :: 0 <= j < i && MuteExpired(users[j], now)
    {
      var user := result[i];
      if user.muteUntil.Some? && user.muteUntil.value <= now {
        result := result[i := user.(muteUntil := None, status := Active)];
        updated := true;
      }
      i := i + 1;
    }
  }

  /** The first index of the user with id `id` (`findIndex(user => user.id === id)`). */
  function IndexOfUser(users: seq<User>, id: int): (r: Option<nat>)
    ensures r.Some? ==> r.value < |users| && users[r.value].id == id && forall j :: 0 <= j < r.value ==> users[j].id != id
    ensures r.None? <==> forall j :: 0 <= j < |users| ==> users[j].id != id
  {
    FindIndex(users, (u: User) => u.id == id)
  }

  // ---------------------------------------------------------------------------
  // The users file and the operations that load, change and save it

  class UserStore {
    var users: seq<User>
    /** How many times saveUsers has written the users file. */
    var saves: nat
    const config: Config

    constructor (config: Config, users: seq<User>)
      ensures this.config == config && this.users == users && saves == 0
    {
      this.config := config;
      this.users := users;
      saves := 0;
    }

    /**
     * registerUser. A returning user gets a new lastSeen; a new user is appended with
     * the type and status ClassifyNewUser gives. `saveOk` is whether the write of the
     * file succeeds; a failed write leaves the file as it was.
     */
    method RegisterUser(info: UserInfo, code: Option<string>, now: int, saveOk: bool) returns (res: RegisterResult)
      modifies this
      ensures match IndexOfUser(old(users), info.id)
        case Some(i) =>
          && res == Returning(old(users)[i].(lastSeen := now))
          && users == (if saveOk then old(users)[i := old(users)[i].(lastSeen := now)] else old(users))
          && saves == old(saves) + (if saveOk then 1 else 0)
        case None =>
          match ClassifyNewUser(config, info.id, code)
          case None => res == InvalidSubscriptionCode && users == old(users) && saves == old(saves)
          case Some(ts) =>
            var u := NewUser(info, ts.0, ts.1, code, now);
            if saveOk then
              res == Registered(u, ts.1 == PendingVerification) && users == old(users) + [u] && saves == old(saves) + 1
            else
              res == SaveError && users == old(users) && saves == old(saves)
    {
      var index := IndexOfUser(users, info.id);
      if index.Some? {
        var updated := users[index.value].(lastSeen := now);
        if saveOk {
          users := users[index.value := updated];
          saves := saves + 1;
        }
        return Returning(updated);
      }
      var kind := ClassifyNewUser(config, info.id, code);
      if kind.None? {
        return InvalidSubscriptionCode;
      }
      var u := NewUser(info, kind.value.0, kind.value.1, code, now);
      if saveOk {
        users := users + [u];
        saves := saves + 1;
        res := Registered(u, kind.value.1 == PendingVerification);
      } else {
        res := SaveError;
      }
    }

    /** addWarning. An unknown id changes nothing and saves nothing. */
    method AddWarning(userId: int, reason: string, adminId: int, now: int) returns (res: Option<WarningResult>)
      modifies this
      ensures match IndexOfUser(old(users), userId)
        case None => res.None? && users == old(users) && saves == old(saves)
        case Some(i) =>
          var r := Warn(old(users)[i], reason, adminId, now, config);
          && users == old(users)[i := r]
          && res == Some(WarningReport(r, config))
          && saves == old(saves) + 1
    {
      var index := IndexOfUser(users, userId);
      if index.None? {
        return None;
      }
      var r := Warn(users[index.value], reason, adminId, now, config);
      users := users[index.value := r];
      saves := saves + 1;
      res := Some(WarningReport(r, config));
    }

    /** muteUser: `duration` minutes from now, for any known id; an unknown id changes nothing. */
    method MuteUser(userId: int, duration: int, reason: string, adminId: int, now: int) returns (res: Option<int>)
      modifies this
      ensures match IndexOfUser(old(users), userId)
        case None => res.None? && users == old(users) && saves == old(saves)
        case Some(i) =>
          && users == old(users)[i := Mute(old(users)[i], duration, now)]
          && res == Some(now + duration * MINUTE_MS)
          && saves == old(saves) + 1
    {
      var index := IndexOfUser(users, userId);
      if index.None? {
        return None;
      }
      users := users[index.value := Mute(users[index.value], duration, now)];
      saves := saves + 1;
      res := Some(now + duration * MINUTE_MS);
    }

    /** unmuteUser: succeeds for any known id, whatever its status. */
    method UnmuteUser(userId: int, adminId: int) returns (found: bool)
      modifies this
      ensures match IndexOfUser(old(users), userId)
        case None => !found && users == old(users) && saves == old(saves)
        case Some(i) => found && users == old(users)[i := Unmute(old(users)[i])] && saves == old(saves) + 1
    {
      var index := IndexOfUser(users, userId);
      if index.None? {
        return false;
      }
      users := users[index.value := Unmute(users[index.value])];
      saves := saves + 1;
      found := true;
    }

    /** checkMuteExpirations: one tick of the sweep; the file is written only when a record changed. */
    method CheckMuteExpirations(now: int)
      modifies this
      ensures users == SweepAll(old(users), now)
      ensures saves == old(saves) + (if exists i :: 0 <= i < |old(users)| && MuteExpired(old(users)[i], now) then 1 else 0)
    {
      var swept, updated := SweepExpired(users, now);
      if updated {
        users := swept;
        saves := saves + 1;
      }
      assert !updated ==> forall i :: 0 <= i < |users| ==> SweepUser(users[i], now) == users[i];
    }
  }
}
