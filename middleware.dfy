/**
 * The aiogram middlewares of middleware.py. Each middleware either passes the event
 * on to the next handler or stops it, usually with a reply; the database is the
 * BotDatabase table, and the rate limiter keeps its per-user timestamp lists in a
 * field it reassigns.
 */
module Middleware {
  import opened Wrappers
  import opened Seqs
  import Text
  import BotDatabase

  datatype EventKind = MessageEvent | CallbackEvent

  /**
   * A Message or CallbackQuery: the sender's id (None without `from_user`), the text
   * (None without one) and `event.date` in whole seconds.
   */
  datatype Event = Event(kind: EventKind, fromUser: Option<int>, text: Option<string>, date: int)

  /** `isinstance(event, Message) and event.text`: a message with non-empty text. */
  predicate HasText(e: Event) {
    e.kind == MessageEvent && e.text.Some? && e.text.value != ""
  }

  /** What the middleware answers when it stops an event. */
  datatype Reply =
    | MutedNotice
    | MutedAlert
    | AdminOnly
    | SpamWarning(count: int, muted: bool)
    | TooManyMessages

  /** Passed: the next handler runs. Stopped: it does not. Failed: an exception escapes. */
  datatype Outcome = Passed | Stopped(reply: Reply) | Failed(error: PyError)

  /**
   * UserVerificationMiddleware: an event from a muted sender is stopped before the
   * handler; otherwise a text message is logged and the event passes. A sender id of
   * 0 is falsy and skips both checks.
   */
  method UserVerification(db: BotDatabase.Database, e: Event, now: int) returns (out: Outcome)
    modifies db
    ensures var checked := e.fromUser.Some? && e.fromUser.value != 0;
      && (out.Stopped? <==> checked && BotDatabase.MutedAnswer(old(db.users), e.fromUser.value, now))
      && (out.Stopped? ==> out.reply == if e.kind == MessageEvent then MutedNotice else MutedAlert)
      && (!out.Stopped? ==> out == Passed)
      && db.users == (if checked then BotDatabase.AfterMuteCheck(old(db.users), e.fromUser.value, now) else old(db.users))
      && db.messages == old(db.messages) +
           (if checked && !out.Stopped? && HasText(e) then [BotDatabase.LoggedMessage(e.fromUser.value, e.text.value, "text")] else [])
  {
    if e.fromUser.Some? && e.fromUser.value != 0 {
      var userId := e.fromUser.value;
      var muted := db.IsMuted(userId, now);
      if muted {
        if e.kind == MessageEvent {
          return Stopped(MutedNotice);
        }
        return Stopped(MutedAlert);
      }
      if HasText(e) {
        db.LogMessage(userId, e.text.value, "text");
      }
    }
    out := Passed;
  }

  const DEFAULT_ADMIN_COMMANDS: seq<string> := ["publish", "reminder", "stats", "quiz", "admin"]

  /** `admin_commands or [...]`: no list, or an empty one, gives the default commands. */
  function AdminCommands(given: Option<seq<string>>): (r: seq<string>)
    ensures given.None? || given == Some([]) ==> r == DEFAULT_ADMIN_COMMANDS
    ensures given.Some? && given.value != [] ==> r == given.value
  {
    if given.None? || given.value == [] then DEFAULT_ADMIN_COMMANDS else given.value
  }

  /** Whether the text starts with '/' and one of the commands: matching is by prefix. */
  predicate Gated(commands: seq<string>, text: string) {
    exists i :: 0 <= i < |commands| && Text.StartsWith(text, "/" + commands[i])
  }

  class AdminCheck {
    const commands: seq<string>

    constructor (given: Option<seq<string>>)
      ensures commands == AdminCommands(given)
    {
      commands := AdminCommands(given);
    }

    /**
     * AdminCheckMiddleware: a text that starts with a listed command stops unless the
     * sender is an admin; the scan ends at the first listed command that matches.
     * Anything else passes. A message without a sender fails on `from_user.id`.
     */
    method Check(db: BotDatabase.Database, e: Event) returns (out: Outcome)
      ensures out == Stopped(AdminOnly) <==>
        HasText(e) && Gated(commands, e.text.value) && e.fromUser.Some? && !db.IsAdmin(e.fromUser.value)
      ensures out == Failed(AttributeError) <==> HasText(e) && Gated(commands, e.text.value) && e.fromUser.None?
      ensures out == Passed || out == Stopped(AdminOnly) || out == Failed(AttributeError)
    {
      if HasText(e) {
        var text := e.text.value;
        var i := 0;
        while i < |commands|
          invariant 0 <= i <= |commands|
          invariant forall j :: 0 <= j < i ==> !Text.StartsWith(text, "/" + commands[j])
        {
          if Text.StartsWith(text, "/" + commands[i]) {
            if e.fromUser.None? {
              return Failed(AttributeError);
            }
            if !db.IsAdmin(e.fromUser.value) {
              return Stopped(AdminOnly);
            }
            break;
          }
          i := i + 1;
        }
      }
      out := Passed;
    }
  }

  /** The prefix match gates longer commands too: /quizzes and /administrator need an admin, /start does not. */
  lemma PrefixMatchGatesLongerCommands()
    ensures Gated(DEFAULT_ADMIN_COMMANDS, "/quizzes")
    ensures Gated(DEFAULT_ADMIN_COMMANDS, "/administrator")
    ensures !Gated(DEFAULT_ADMIN_COMMANDS, "/start")
  {
    assert Text.StartsWith("/quizzes", "/" + DEFAULT_ADMIN_COMMANDS[3]);
    assert Text.StartsWith("/administrator", "/" + DEFAULT_ADMIN_COMMANDS[4]);
    forall i | 0 <= i < |DEFAULT_ADMIN_COMMANDS|
      ensures !Text.StartsWith("/start", "/" + DEFAULT_ADMIN_COMMANDS[i])
    {
      var p := "/" + DEFAULT_ADMIN_COMMANDS[i];
      assert |p| > 6 || p[1] != 's' || p[4] != 'r';
    }
  }

  /** Whether some spam pattern finds a match in the text. */
  predicate AnyMatch(patterns: seq<string -> bool>, text: string) {
    exists i :: 0 <= i < |patterns| && patterns[i](text)
  }

  /**
   * MessageFilterMiddleware: commands pass unchecked; a text some spam pattern
   * matches earns its sender a warning and is stopped with the count (and a mute
   * notice from MAX_WARNINGS on); other texts pass. A pattern is `pattern.search`.
   */
  method MessageFilter(db: BotDatabase.Database, e: Event, patterns: seq<string -> bool>, now: int) returns (out: Outcome)
    modifies db
    ensures var flagged := HasText(e) && !Text.StartsWith(e.text.value, "/") && AnyMatch(patterns, e.text.value);
      && (out == Passed <==> !flagged)
      && (flagged && e.fromUser.None? ==> out == Failed(AttributeError) && db.users == old(db.users))
      && (flagged && e.fromUser.Some? && e.fromUser.value !in old(db.users) ==> out == Failed(TypeError) && db.users == old(db.users))
      && (flagged && e.fromUser.Some? && e.fromUser.value in old(db.users) ==>
           var count := old(db.users)[e.fromUser.value].warnings + 1;
           && out == Stopped(SpamWarning(count, count >= BotDatabase.MAX_WARNINGS))
           && db.users == old(db.users)[e.fromUser.value := BotDatabase.Warned(old(db.users)[e.fromUser.value], now)])
      && (!flagged ==> db.users == old(db.users))
      && db.messages == old(db.messages)
  {
    if HasText(e) {
      var text := e.text.value;
      if Text.StartsWith(text, "/") {
        return Passed;
      }
      var i := 0;
      while i < |patterns|
        invariant 0 <= i <= |patterns|
        invariant forall j :: 0 <= j < i ==> !patterns[j](text)
      {
        if patterns[i](text) {
          if e.fromUser.None? {
            return Failed(AttributeError);
          }
          var warnings := db.AddWarning(e.fromUser.value, now);
          if warnings.Raised? {
            return Failed(warnings.error);
          }
          return Stopped(SpamWarning(warnings.value, warnings.value >= BotDatabase.MAX_WARNINGS));
        }
        i := i + 1;
      }
    }
    out := Passed;
  }

  /** The test in the pruning comprehension: sent less than a minute before `now`. */
  function Recent(now: int): int -> bool {
    (t: int) => now - t < 60
  }

  class RateLimiter {
    var counts: map<int, seq<int>>
    const maxPerMinute: int

    /** No list holds more entries than the limit (none at all when the limit is negative). */
    predicate Valid()
      reads this
    {
      forall u :: u in counts ==> |counts[u]| <= (if maxPerMinute < 0 then 0 else maxPerMinute)
    }

    constructor (maxPerMinute: int)
      ensures this.maxPerMinute == maxPerMinute && counts == map[] && Valid()
    {
      this.maxPerMinute := maxPerMinute;
      counts := map[];
    }

    /**
     * RateLimitMiddleware: the sender's list is pruned to the last minute; a full list
     * stops the message without recording it, otherwise its time is appended and it
     * passes. Other users' lists are untouched; callback queries pass unrecorded.
     */
    method Call(e: Event) returns (out: Outcome)
      requires Valid()
      modifies this
      ensures Valid()
      ensures e.kind == MessageEvent && e.fromUser.Some? ==>
        var kept := Filter(if e.fromUser.value in old(counts) then old(counts)[e.fromUser.value] else [], Recent(e.date));
        && (out == Stopped(TooManyMessages) <==> |kept| >= maxPerMinute)
        && (out != Stopped(TooManyMessages) ==> out == Passed)
        && counts == old(counts)[e.fromUser.value := if out == Passed then kept + [e.date] else kept]
      ensures !(e.kind == MessageEvent && e.fromUser.Some?) ==> out == Passed && counts == old(counts)
      ensures e.kind == MessageEvent && e.fromUser.Some? ==>
        forall j :: 0 <= j < |counts[e.fromUser.value]| ==> e.date - counts[e.fromUser.value][j] < 60
    {
      if e.kind == MessageEvent && e.fromUser.Some? {
        var userId, current := e.fromUser.value, e.date;
        var previous := if userId in counts then counts[userId] else [];
        var kept := Filter(previous, Recent(current));
        counts := counts[userId := kept];
        if |kept| >= maxPerMinute {
          return Stopped(TooManyMessages);
        }
        counts := counts[userId := kept + [current]];
      }
      out := Passed;
    }
  }
}
