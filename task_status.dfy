/** The lifecycle states of a task: a string-backed enumeration whose backing
    values are what clients send and receive. */
module Enum {
  import opened Wrappers

  datatype TaskStatus = Todo | InProgress | Done {

    /** The backing string (`->value`). */
    function Value(): string {
      match this
      case Todo => "todo"
      case InProgress => "in_progress"
      case Done => "done"
    }
  }

  /** Every case of the enumeration, in declaration order. */
  const Cases: seq<TaskStatus> := [Todo, InProgress, Done]

  /** `TaskStatus::from`: the case whose backing string is `s`; `None` stands
      for the `ValueError` it throws on any other string. */
  function From(s: string): (r: Option<TaskStatus>)
    ensures r.Some? ==> r.value.Value() == s
    ensures r.None? ==> forall c :: c in Cases ==> c.Value() != s
  {
    if s == "todo" then Some(Todo)
    else if s == "in_progress" then Some(InProgress)
    else if s == "done" then Some(Done)
    else None
  }

  /** There are exactly three statuses, and their backing strings differ. */
  lemma ExactlyThreeCases()
    ensures forall s: TaskStatus :: s in Cases
    ensures |Cases| == 3
    ensures forall i, j :: 0 <= i < j < |Cases| ==> Cases[i].Value() != Cases[j].Value()
  {
    forall s: TaskStatus ensures s in Cases {
      match s
      case Todo => assert Cases[0] == s;
      case InProgress => assert Cases[1] == s;
      case Done => assert Cases[2] == s;
    }
  }

  /** Parsing the backing string of a status gives that status back. */
  lemma FromValue(s: TaskStatus)
    ensures From(s.Value()) == Some(s)
  {
  }

  /** A string parses exactly when it is one of the three backing strings. */
  lemma FromAccepts(s: string)
    ensures From(s).Some? <==> s in {"todo", "in_progress", "done"}
  {
  }

  /** A string that is not a backing value, such as "INVALID_STATUS", is
      rejected. */
  lemma FromRejectsUnknown()
    ensures From("INVALID_STATUS") == None
    ensures From("TODO") == None
  {
  }
}
