/**
 * The user registry of bot/services/userService.js. A user is a JSON object, here
 * a map from field names to primitive values; the users file is the `users` field
 * of a UserRegistry and `writes` counts its writes.
 */
module UserService {
  import opened Wrappers
  import opened Seqs

  /**
   * A primitive JSON value. `Instant(ms)` is the string `toISOString()` writes for
   * the instant `ms`.
   */
  datatype Value = Num(n: int) | Str(s: string) | Bool(b: bool) | Null | Instant(ms: int)

  type Record = map<string, Value>

  /** `record.id`: None is JavaScript's undefined, for a record without an id. */
  function IdOf(r: Record): Option<Value> {
    if "id" in r then Some(r["id"]) else None
  }

  /** The test `user.id === userId` as `find` and `findIndex` apply it. */
  function HasId(userId: Option<Value>): Record -> bool {
    (r: Record) => IdOf(r) == userId
  }

  datatype RegisterResult = AlreadyRegistered | Registered(user: Record)

  datatype UpdateResult = UserNotFound | Updated(user: Record)

  class UserRegistry {
    var users: seq<Record>
    var writes: nat

    constructor (users: seq<Record>)
      ensures this.users == users && writes == 0
    {
      this.users := users;
      writes := 0;
    }

    /** getUserInfo: the first record with the id, or undefined. */
    function GetUserInfo(userId: Option<Value>): (r: Option<Record>)
      reads this
      ensures r.None? <==> forall i :: 0 <= i < |users| ==> IdOf(users[i]) != userId
      ensures r.Some? ==> exists i :: 0 <= i < |users| && users[i] == r.value && IdOf(r.value) == userId && forall j :: 0 <= j < i ==> IdOf(users[j]) != userId
    {
      Find(users, HasId(userId))
    }

    /**
     * registerUser: a record whose id is already present is refused; otherwise it is
     * appended with `registeredAt` set to now. The caller gets back the record it
     * passed, without that field.
     */
    method RegisterUser(user: Record, now: int) returns (res: RegisterResult)
      modifies this
      ensures (exists i :: 0 <= i < |old(users)| && IdOf(old(users)[i]) == IdOf(user)) ==>
        res == AlreadyRegistered && users == old(users) && writes == old(writes)
      ensures (forall i :: 0 <= i < |old(users)| ==> IdOf(old(users)[i]) != IdOf(user)) ==>
        && res == Registered(user)
        && users == old(users) + [user["registeredAt" := Instant(now)]]
        && writes == old(writes) + 1
    {
      var existing := Find(users, HasId(IdOf(user)));
      if existing.Some? {
        return AlreadyRegistered;
      }
      users := users + [user["registeredAt" := Instant(now)]];
      writes := writes + 1;
      res := Registered(user);
    }

    /**
     * updateUser: the first record with the id becomes that record with the fields
     * of `updates` laid over it; its position and every other record are kept.
     */
    method UpdateUser(userId: Option<Value>, updates: Record) returns (res: UpdateResult)
      modifies this
      ensures match FindIndex(old(users), HasId(userId))
        case None => res == UserNotFound && users == old(users) && writes == old(writes)
        case Some(i) =>
          && users == old(users)[i := old(users)[i] + updates]
          && res == Updated(old(users)[i] + updates)
          && writes == old(writes) + 1
    {
      var index := FindIndex(users, HasId(userId));
      if index.None? {
        return UserNotFound;
      }
      var merged := users[index.value] + updates;
      users := users[index.value := merged];
      writes := writes + 1;
      res := Updated(merged);
    }
  }

  /** The merged record keeps the old fields that `updates` does not name and takes the named ones from `updates`. */
  lemma MergeOverrides(current: Record, updates: Record, key: string)
    ensures key in updates ==> key in (current + updates) && (current + updates)[key] == updates[key]
    ensures key !in updates && key in current ==> key in (current + updates) && (current + updates)[key] == current[key]
    ensures key !in updates && key !in current ==> key !in (current + updates)
  {
  }

  /** A registered record carries the caller's fields except `registeredAt`, which is overwritten with now. */
  lemma RegisteredFields(user: Record, now: int, key: string)
    ensures key in user["registeredAt" := Instant(now)] <==> key in user || key == "registeredAt"
    ensures key != "registeredAt" && key in user ==> user["registeredAt" := Instant(now)][key] == user[key]
    ensures user["registeredAt" := Instant(now)]["registeredAt"] == Instant(now)
  {
  }

  /** An update that does not name `id` keeps the record findable under the same id. */
  lemma UpdateKeepsId(r: Record, updates: Record)
    requires "id" !in updates
    ensures IdOf(r + updates) == IdOf(r)
  {
  }

  /** After a registration succeeds, looking up the id finds the record as it was stored. */
  lemma RegisteredIsFound(users: seq<Record>, user: Record, now: int)
    requires forall i :: 0 <= i < |users| ==> IdOf(users[i]) != IdOf(user)
    ensures Find(users + [user["registeredAt" := Instant(now)]], HasId(IdOf(user))) == Some(user["registeredAt" := Instant(now)])
  {
    var stored := user["registeredAt" := Instant(now)];
    assert IdOf(stored) == IdOf(user);
    assert (users + [stored])[|users|] == stored;
  }
}
