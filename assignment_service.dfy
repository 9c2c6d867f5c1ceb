/**
 * The assignment list of bot/services/assignmentService.js: the assignments file
 * is the `assignments` field of an AssignmentStore, `writes` counts its writes.
 * Each operation reads the list, changes it in place and writes it back.
 */
module AssignmentService {
  import opened Wrappers
  import opened Seqs

  /**
   * An assignment record. `deadline` is what `new Date(assignment.deadline)` gives in
   * milliseconds, None for an invalid date.
   */
  datatype Assignment = Assignment(
    id: string,
    title: string,
    kind: string,
    deadline: Option<int>,
    createdBy: int,
    createdAt: int,
    completedBy: seq<int>)

  /** `deadline > now`; an invalid date is never in the future. */
  predicate IsActive(a: Assignment, now: int) {
    a.deadline.Some? && a.deadline.value > now
  }

  function ActiveAt(now: int): Assignment -> bool {
    (a: Assignment) => IsActive(a, now)
  }

  /** The first index of the assignment with id `id` (`findIndex(a => a.id === id)`). */
  function IndexOfAssignment(assignments: seq<Assignment>, id: string): (r: Option<nat>)
    ensures r.Some? ==> r.value < |assignments| && assignments[r.value].id == id && forall j :: 0 <= j < r.value ==> assignments[j].id != id
    ensures r.None? <==> forall j :: 0 <= j < |assignments| ==> assignments[j].id != id
  {
    FindIndex(assignments, (a: Assignment) => a.id == id)
  }

  datatype RemoveResult = AssignmentNotFound | NotCreator | Removed(assignment: Assignment)

  datatype DoneResult = DoneNotFound | AlreadyCompleted | Completed(assignment: Assignment)

  /** The record with `userId` added to its completers. */
  function Complete(a: Assignment, userId: int): (r: Assignment)
    ensures r.completedBy == a.completedBy + [userId] && r.id == a.id && r.deadline == a.deadline && r.createdBy == a.createdBy
  {
    a.(completedBy := a.completedBy + [userId])
  }

  /** Marking done never lets a user appear twice among the completers. */
  lemma CompleteKeepsNoDuplicates(a: Assignment, userId: int)
    requires NoDuplicates(a.completedBy) && userId !in a.completedBy
    ensures NoDuplicates(Complete(a, userId).completedBy)
  {
    AppendFreshKeepsNoDuplicates(a.completedBy, userId);
  }

  class AssignmentStore {
    var assignments: seq<Assignment>
    var writes: nat

    constructor (assignments: seq<Assignment>)
      ensures this.assignments == assignments && writes == 0
    {
      this.assignments := assignments;
      writes := 0;
    }

    /**
     * getActiveAssignments: the assignments whose deadline is still ahead, each as
     * often as the file holds it, in file order (ActiveAfterAdd).
     */
    function GetActiveAssignments(now: int): (r: seq<Assignment>)
      reads this
      ensures |r| <= |assignments|
      ensures forall i :: 0 <= i < |r| ==> r[i] in assignments && IsActive(r[i], now)
      ensures forall i :: 0 <= i < |assignments| && IsActive(assignments[i], now) ==> assignments[i] in r
      ensures forall a :: multiset(r)[a] == if IsActive(a, now) then multiset(assignments)[a] else 0
    {
      var r := Filter(assignments, ActiveAt(now));
      forall a
        ensures multiset(r)[a] == if IsActive(a, now) then multiset(assignments)[a] else 0
      {
        FilterMultiplicity(assignments, ActiveAt(now), a);
      }
      r
    }

    /** getPendingTasks: the same list as getActiveAssignments. */
    function GetPendingTasks(now: int): (r: seq<Assignment>)
      reads this
      ensures r == GetActiveAssignments(now)
    {
      GetActiveAssignments(now)
    }

    /** addAssignment: the record goes to the end, the others stay as they were. */
    method AddAssignment(a: Assignment) returns (r: Assignment)
      modifies this
      ensures assignments == old(assignments) + [a] && r == a
      ensures writes == old(writes) + 1
    {
      assignments := assignments + [a];
      writes := writes + 1;
      r := a;
    }

    /**
     * removeAssignment: only the creator may remove; the first assignment with the
     * id is taken out and the rest keep their order.
     */
    method RemoveAssignment(id: string, userId: int) returns (res: RemoveResult)
      modifies this
      ensures match IndexOfAssignment(old(assignments), id)
        case None => res == AssignmentNotFound && assignments == old(assignments) && writes == old(writes)
        case Some(i) =>
          if old(assignments)[i].createdBy != userId then
            res == NotCreator && assignments == old(assignments) && writes == old(writes)
          else
            res == Removed(old(assignments)[i]) && assignments == RemoveAt(old(assignments), i) && writes == old(writes) + 1
    {
      var index := IndexOfAssignment(assignments, id);
      if index.None? {
        return AssignmentNotFound;
      }
      var a := assignments[index.value];
      if a.createdBy != userId {
        return NotCreator;
      }
      assignments := RemoveAt(assignments, index.value);
      writes := writes + 1;
      res := Removed(a);
    }

    /**
     * markAssignmentAsDone: the first assignment with the id gets the user appended
     * to its completers, unless the user is already there.
     */
    method MarkAssignmentAsDone(id: string, userId: int) returns (res: DoneResult)
      modifies this
      ensures match IndexOfAssignment(old(assignments), id)
        case None => res == DoneNotFound && assignments == old(assignments) && writes == old(writes)
        case Some(i) =>
          if userId in old(assignments)[i].completedBy then
            res == AlreadyCompleted && assignments == old(assignments) && writes == old(writes)
          else
            && assignments == old(assignments)[i := Complete(old(assignments)[i], userId)]
            && res == Completed(Complete(old(assignments)[i], userId))
            && writes == old(writes) + 1
      ensures forall j :: 0 <= j < |old(assignments)| && NoDuplicates(old(assignments)[j].completedBy) ==>
        |assignments| == |old(assignments)| && NoDuplicates(assignments[j].completedBy)
    {
      var index := IndexOfAssignment(assignments, id);
      if index.None? {
        return DoneNotFound;
      }
      var a := assignments[index.value];
      if userId in a.completedBy {
        return AlreadyCompleted;
      }
      if NoDuplicates(a.completedBy) {
        CompleteKeepsNoDuplicates(a, userId);
      }
      var done := Complete(a, userId);
      assignments := assignments[index.value := done];
      writes := writes + 1;
      res := Completed(done);
    }
  }

  /** Removal takes out exactly the one element at `i`: the other elements stay, as many times as before. */
  lemma {:induction false} RemoveKeepsOthers(s: seq<Assignment>, i: nat)
    requires i < |s|
    ensures multiset(RemoveAt(s, i)) + multiset{s[i]} == multiset(s)
  {
    assert s == s[..i] + [s[i]] + s[i + 1..];
    assert multiset(s) == multiset(s[..i]) + multiset{s[i]} + multiset(s[i + 1..]);
  }

  /** The active list of a list with one more assignment at the end gains that assignment iff it is active. */
  lemma ActiveAfterAdd(s: seq<Assignment>, a: Assignment, now: int)
    ensures Filter(s + [a], ActiveAt(now)) == Filter(s, ActiveAt(now)) + (if IsActive(a, now) then [a] else [])
  {
    FilterSnoc(s, a, ActiveAt(now));
  }
}
