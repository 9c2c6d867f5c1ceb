/**
 * The conversation states of bot/utils/helpers.js: a map from user id to the last
 * state set for that user and the time it was set, read with a five-minute expiry
 * and swept of entries older than ten minutes; plus the assignment-format test.
 */
module Helpers {
  import Text
  import opened Wrappers

  const FIVE_MINUTES_MS: int := 300000
  const TEN_MINUTES_MS: int := 600000

  datatype StateEntry = StateEntry(state: string, timestamp: int)

  /** Whether an entry is older than it may be at a read. */
  predicate ExpiredAtRead(e: StateEntry, now: int) {
    now - e.timestamp > FIVE_MINUTES_MS
  }

  /** Whether the sweep deletes an entry. */
  predicate ExpiredAtSweep(e: StateEntry, now: int) {
    now - e.timestamp > TEN_MINUTES_MS
  }

  /**
   * What getUserState returns for a map: None for an absent or expired entry and for
   * an empty state (`state || null`), the state otherwise.
   */
  function LookupState(states: map<int, StateEntry>, userId: int, now: int): (r: Option<string>)
    ensures r.Some? <==> userId in states && !ExpiredAtRead(states[userId], now) && states[userId].state != ""
    ensures r.Some? ==> r.value == states[userId].state
  {
    if userId !in states || ExpiredAtRead(states[userId], now) || states[userId].state == "" then None
    else Some(states[userId].state)
  }

  /** The map after the sweep at `now`. */
  function Swept(states: map<int, StateEntry>, now: int): (r: map<int, StateEntry>)
    ensures forall k :: k in r <==> k in states && !ExpiredAtSweep(states[k], now)
    ensures forall k :: k in r ==> r[k] == states[k]
  {
    map k | k in states && !ExpiredAtSweep(states[k], now) :: states[k]
  }

  /** The sweep changes no answer of getUserState: what it deletes had already expired for reads. */
  lemma SweepPreservesLookups(states: map<int, StateEntry>, userId: int, now: int)
    ensures LookupState(Swept(states, now), userId, now) == LookupState(states, userId, now)
  {
  }

  /** An entry between five and ten minutes old survives the sweep but is invisible to reads. */
  lemma LingeringEntryIsInvisible(states: map<int, StateEntry>, userId: int, now: int)
    requires userId in states
    requires FIVE_MINUTES_MS < now - states[userId].timestamp <= TEN_MINUTES_MS
    ensures userId in Swept(states, now)
    ensures LookupState(Swept(states, now), userId, now).None?
  {
  }

  /** A state just set is read back unchanged for five minutes, if it is not empty. */
  lemma SetThenGet(states: map<int, StateEntry>, userId: int, state: string, setAt: int, now: int)
    requires setAt <= now <= setAt + FIVE_MINUTES_MS && state != ""
    ensures LookupState(states[userId := StateEntry(state, setAt)], userId, now) == Some(state)
  {
  }

  /** Proof aid for the `:|` pick in Sweep: a non-empty set of user ids has a member to choose. */
  lemma NonEmptyHasKey(s: set<int>)
    requires s != {}
    ensures exists x :: x in s
  {
    if forall x :: x !in s {
      assert false;
    }
  }

  class ConversationStates {
    var states: map<int, StateEntry>

    constructor ()
      ensures states == map[]
    {
      states := map[];
    }

    /** setUserState: the user's entry becomes the state stamped now; other users are untouched. */
    method SetUserState(userId: int, state: string, now: int)
      modifies this
      ensures states == old(states)[userId := StateEntry(state, now)]
    {
      states := states[userId := StateEntry(state, now)];
    }

    /** getUserState: an expired entry is deleted by the read itself. */
    method GetUserState(userId: int, now: int) returns (r: Option<string>)
      modifies this
      ensures r == LookupState(old(states), userId, now)
      ensures states == if userId in old(states) && ExpiredAtRead(old(states)[userId], now) then old(states) - {userId} else old(states)
    {
      if userId in states && now - states[userId].timestamp > FIVE_MINUTES_MS {
        states := states - {userId};
        return None;
      }
      if userId in states && states[userId].state != "" {
        r := Some(states[userId].state);
      } else {
        r := None;
      }
    }

    /** clearUserState: only this user's entry goes. */
    method ClearUserState(userId: int)
      modifies this
      ensures states == old(states) - {userId}
    {
      states := states - {userId};
    }

    /** The ten-minute interval's body: every entry older than ten minutes is deleted. */
    method Sweep(now: int)
      modifies this
      ensures states == Swept(old(states), now)
    {
      var pending := states.Keys;
      ghost var original := states;
      while pending != {}
        invariant pending <= original.Keys
        invariant forall k :: k in states <==> k in original && (k in pending || !ExpiredAtSweep(original[k], now))
        invariant forall k :: k in states ==> states[k] == original[k]
        decreases pending
      {
        NonEmptyHasKey(pending);
        var userId :| userId in pending;
        if now - states[userId].timestamp > TEN_MINUTES_MS {
          states := states - {userId};
        }
        pending := pending - {userId};
      }
      assert forall k :: k !in pending;
      assert forall k :: k in states <==> k in Swept(original, now);
      assert forall k :: k in states ==> states[k] == Swept(original, now)[k];
    }
  }

  /** getUserState after the sweep gives what it gave before. */
  lemma ReadsUnaffectedBySweep(states: map<int, StateEntry>, now: int)
    ensures forall userId :: LookupState(Swept(states, now), userId, now) == LookupState(states, userId, now)
  {
    forall userId
      ensures LookupState(Swept(states, now), userId, now) == LookupState(states, userId, now)
    {
      SweepPreservesLookups(states, userId, now);
    }
  }

  /** isAssignmentFormat: splitting at '|' gives at least three parts, that is, the text has two '|' or more. */
  function IsAssignmentFormat(text: string): (r: bool)
    ensures r <==> Text.CountChar(text, '|') >= 2
  {
    |Text.Split(text, '|')| >= 3
  }
}
