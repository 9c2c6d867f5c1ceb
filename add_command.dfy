/**
 * The /add command of bot/commands/add.js: the text after the command word is read
 * as `title | type | deadline`, and a well-formed request appends one assignment to
 * the assignment list. `parseDate` stands for `new Date(text)`: the instant in
 * milliseconds, or None where `getTime()` is NaN.
 */
module AddCommand {
  import opened Wrappers
  import Text
  import Helpers
  import opened AssignmentService

  /**
   * `text.split(' ').slice(1).join(' ')`: what follows the command word, that is the
   * text after the first space, and nothing when there is no space.
   */
  function CommandArgs(text: string): (r: string)
    ensures ' ' !in text ==> r == ""
    ensures ' ' in text ==> r == text[Text.IndexOf(text, ' ') + 1..]
  {
    var parts := Text.Split(text, ' ');
    if ' ' !in text then
      Text.SplitWithoutSeparator(text, ' ');
      Text.Join(parts[1..], ' ')
    else
      var i := Text.IndexOf(text, ' ');
      var before, after := text[..i], text[i + 1..];
      assert text == before + [' '] + after;
      Text.SplitAtFirst(before, after, ' ');
      assert parts[1..] == Text.Split(after, ' ');
      Text.JoinSplit(after, ' ');
      Text.Join(parts[1..], ' ')
  }

  /** The trimmed pieces of the arguments between the '|' separators. */
  function Fields(args: string): (r: seq<string>)
    ensures |r| == Text.CountChar(args, '|') + 1
  {
    Text.TrimAll(Text.Split(args, '|'), Text.Js)
  }

  /** The reply the command sends, with what it shows. */
  datatype AddOutcome =
    | Usage
    | MissingFields
    | InvalidDate
    | Added(assignment: Assignment, shownDeadline: string)

  /**
   * The command's decision for `text` sent by `sender` at `now`: the record it would
   * add, or the reason it refuses. The id is `Date.now().toString()`.
   */
  function ParseAdd(text: string, sender: int, now: nat, parseDate: string -> Option<int>): (r: AddOutcome)
    ensures r == Usage <==> CommandArgs(text) == ""
    ensures r == MissingFields <==> CommandArgs(text) != "" && !Helpers.IsAssignmentFormat(CommandArgs(text))
    ensures r == InvalidDate <==>
      CommandArgs(text) != "" && Helpers.IsAssignmentFormat(CommandArgs(text)) && parseDate(Fields(CommandArgs(text))[2]).None?
    ensures r.Added? ==>
      var f := Fields(CommandArgs(text));
      && |f| >= 3
      && r.assignment == Assignment(Text.NatToString(now), f[0], f[1], parseDate(f[2]), sender, now, [])
      && r.assignment.deadline.Some?
      && r.shownDeadline == f[2]
  {
    var args := CommandArgs(text);
    if args == "" then Usage
    else
      var parts := Fields(args);
      if |parts| < 3 then MissingFields
      else
        var title, kind, deadline := parts[0], parts[1], parts[2];
        match parseDate(deadline)
        case None => InvalidDate
        case Some(ms) => Added(Assignment(Text.NatToString(now), title, kind, Some(ms), sender, now, []), deadline)
  }

  /** After a command word without spaces and one space, the arguments are the rest of the text. */
  lemma ArgsAfterCommand(command: string, args: string)
    requires ' ' !in command
    ensures CommandArgs(command + " " + args) == args
  {
    var text := command + " " + args;
    assert text == command + [' '] + args;
    Text.IndexOfAfter(command, args, ' ');
  }

  /** The fields of joined pieces that carry no '|' and no surrounding white space are the pieces. */
  lemma FieldsOfJoin(pieces: seq<string>)
    requires |pieces| >= 1
    requires forall i :: 0 <= i < |pieces| ==> '|' !in pieces[i]
    ensures Fields(Text.Join(pieces, '|')) == Text.TrimAll(pieces, Text.Js)
  {
    Text.SplitJoin(pieces, '|');
  }

  /**
   * A request written as `/add title|type|deadline|...`, whose pieces carry no '|'
   * and whose first three carry no surrounding white space, adds exactly those
   * three fields; any further pieces are ignored.
   */
  lemma WellFormedRequestAdds(command: string, pieces: seq<string>, sender: int, now: nat, parseDate: string -> Option<int>, ms: int)
    requires ' ' !in command
    requires |pieces| >= 3
    requires forall i :: 0 <= i < |pieces| ==> '|' !in pieces[i]
    requires forall i :: 0 <= i < 3 ==> Text.Trim(pieces[i], Text.Js) == pieces[i]
    requires parseDate(pieces[2]) == Some(ms)
    ensures ParseAdd(command + " " + Text.Join(pieces, '|'), sender, now, parseDate)
         == Added(Assignment(Text.NatToString(now), pieces[0], pieces[1], Some(ms), sender, now, []), pieces[2])
  {
    var args := Text.Join(pieces, '|');
    ArgsAfterCommand(command, args);
    FieldsOfJoin(pieces);
    assert args != "" by {
      assert |Text.Split(args, '|')| == |pieces|;
    }
  }

  /**
   * The command as the bot runs it: the assignment list gains the new record, once,
   * exactly when the request is accepted; a refused request writes nothing.
   */
  method HandleAdd(store: AssignmentStore, text: string, sender: int, now: nat, parseDate: string -> Option<int>)
    returns (outcome: AddOutcome)
    modifies store
    ensures outcome == ParseAdd(text, sender, now, parseDate)
    ensures outcome.Added? ==> store.assignments == old(store.assignments) + [outcome.assignment] && store.writes == old(store.writes) + 1
    ensures !outcome.Added? ==> store.assignments == old(store.assignments) && store.writes == old(store.writes)
  {
    outcome := ParseAdd(text, sender, now, parseDate);
    if outcome.Added? {
      var _ := store.AddAssignment(outcome.assignment);
    }
  }
}
