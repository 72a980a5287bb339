/** The volatile task store: one insertion-ordered map from the RFC 4122
    text of a task's id to the task, changed in place. */
module Repository {
  import opened Wrappers
  import opened OrderedMaps
  import opened Enum
  import opened Entity

  /** The key a task is stored under (`$task->getId()->toRfc4122()`). */
  function KeyOf(t: Task): string {
    t.id.rfc4122
  }

  /** Two tasks are stored under the same key exactly when they have the
      same id. */
  lemma SameKeyIffSameId(a: Task, b: Task)
    ensures KeyOf(a) == KeyOf(b) <==> a.id == b.id
  {
  }

  class InMemoryTaskRepository {
    /** `$tasks`: the stored tasks, oldest first. */
    var tasks: OrderedMap<string, Task>

    /** Every key occurs once and is the key of the task stored under it. */
    ghost predicate Valid()
      reads this
    {
      && UniqueKeys(tasks)
      && forall e :: e in tasks ==> e.key == KeyOf(e.value)
    }

    constructor ()
      ensures Valid() && tasks == []
    {
      tasks := [];
    }

    /** `find`: the task with id `id`, or `None` (null) when there is none;
        a missing id is not an error. */
    function Find(id: Uuid): (r: Option<Task>)
      reads this
      requires Valid()
      ensures r.Some? ==> r.value.id == id && r.value in FindAll()
      ensures r.None? ==> forall t :: t in FindAll() ==> t.id != id
    {
      var r := Get(tasks, id.rfc4122);
      assert r.Some? ==> Entry(id.rfc4122, r.value) in tasks;
      assert r.None? ==> forall e :: e in tasks ==> e.value.id != id by {
        if r.None? {
          forall e | e in tasks ensures e.value.id != id {
            var i :| 0 <= i < |tasks| && tasks[i] == e;
          }
        }
      }
      r
    }

    /** `findAll`: every stored task exactly once, in insertion order. */
    function FindAll(): (r: seq<Task>)
      reads this
      requires Valid()
      ensures |r| == |tasks|
      ensures forall i :: 0 <= i < |tasks| ==> r[i] == tasks[i].value
      ensures forall i, j :: 0 <= i < j < |r| ==> r[i].id != r[j].id
    {
      assert forall i :: 0 <= i < |tasks| ==> tasks[i].key == KeyOf(tasks[i].value) by {
        forall i | 0 <= i < |tasks| ensures tasks[i].key == KeyOf(tasks[i].value) {
          assert tasks[i] in tasks;
        }
      }
      Values(tasks)
    }

    /** `findByStatus`: the stored tasks whose status is `status`, in stored
        order; each occurs as often as in `findAll` (once), others not at all. */
    function FindByStatus(status: TaskStatus): (r: seq<Task>)
      reads this
      requires Valid()
      ensures forall t :: t in r ==> t.status == status
      ensures forall t :: multiset(r)[t] == if t.status == status then multiset(FindAll())[t] else 0
    {
      var keep := (t: Task) => t.status == status;
      var r := Values(Filter(tasks, keep));
      forall t ensures multiset(r)[t] == if t.status == status then multiset(FindAll())[t] else 0 {
        FilterMultiplicity(tasks, keep, t);
      }
      r
    }

    /** `findByAssignee`: the stored tasks whose assignee is exactly
        `assigneeId` (strict comparison, so unassigned tasks never match), in
        stored order, each as often as in `findAll`. */
    function FindByAssignee(assigneeId: string): (r: seq<Task>)
      reads this
      requires Valid()
      ensures forall t :: t in r ==> t.assigneeId == Some(assigneeId)
      ensures forall t :: multiset(r)[t] == if t.assigneeId == Some(assigneeId) then multiset(FindAll())[t] else 0
    {
      var keep := (t: Task) => t.assigneeId == Some(assigneeId);
      var r := Values(Filter(tasks, keep));
      forall t ensures multiset(r)[t] == if t.assigneeId == Some(assigneeId) then multiset(FindAll())[t] else 0 {
        FilterMultiplicity(tasks, keep, t);
      }
      r
    }

    /** `save`: store `task` under its id, last write wins. A new id is
        appended; a stored id is overwritten where it stands. */
    method Save(task: Task)
      requires Valid()
      modifies this
      ensures Valid()
      ensures tasks == Put(old(tasks), KeyOf(task), task)
      ensures Find(task.id) == Some(task)
      ensures forall id :: id != task.id ==> Find(id) == old(Find(id))
      ensures old(Find(task.id)).None? ==> FindAll() == old(FindAll()) + [task]
      ensures old(Find(task.id)).Some? ==> |FindAll()| == old(|FindAll()|)
    {
      WriteEffect(task);
      tasks := Put(tasks, KeyOf(task), task);
    }

    /** `update`: the same assignment as `save`. */
    method Update(task: Task)
      requires Valid()
      modifies this
      ensures Valid()
      ensures tasks == Put(old(tasks), KeyOf(task), task)
      ensures Find(task.id) == Some(task)
      ensures forall id :: id != task.id ==> Find(id) == old(Find(id))
      ensures old(Find(task.id)).None? ==> FindAll() == old(FindAll()) + [task]
      ensures old(Find(task.id)).Some? ==> |FindAll()| == old(|FindAll()|)
    {
      WriteEffect(task);
      tasks := Put(tasks, KeyOf(task), task);
    }

    /** `delete`: drop the entry under `task`'s id (whatever task is stored
        there); every other entry keeps its value and its order. */
    method Delete(task: Task)
      requires Valid()
      modifies this
      ensures Valid()
      ensures tasks == Remove(old(tasks), KeyOf(task))
      ensures Find(task.id) == None
      ensures forall id :: id != task.id ==> Find(id) == old(Find(id))
    {
      RemoveKeepsUniqueKeys(tasks, KeyOf(task));
      RemoveSubset(tasks, KeyOf(task));
      forall id: Uuid ensures Get(Remove(tasks, KeyOf(task)), id.rfc4122) == if id == task.id then None else Get(tasks, id.rfc4122) {
        GetRemove(tasks, KeyOf(task), id.rfc4122);
      }
      tasks := Remove(tasks, KeyOf(task));
    }

    /** What writing `task` does to the store, as `save` and `update` rely on. */
    lemma WriteEffect(task: Task)
      requires Valid()
      ensures var m := Put(tasks, KeyOf(task), task);
        && UniqueKeys(m)
        && (forall e :: e in m ==> e.key == KeyOf(e.value))
        && (forall id: Uuid :: Get(m, id.rfc4122) == if id == task.id then Some(task) else Get(tasks, id.rfc4122))
        && (Find(task.id).None? ==> Values(m) == FindAll() + [task])
        && (Find(task.id).Some? ==> |m| == |tasks|)
    {
      var m := Put(tasks, KeyOf(task), task);
      PutKeepsUniqueKeys(tasks, KeyOf(task), task);
      forall id: Uuid ensures Get(m, id.rfc4122) == if id == task.id then Some(task) else Get(tasks, id.rfc4122) {
        GetPut(tasks, KeyOf(task), task, id.rfc4122);
      }
      WriteListing(task);
    }

    /** Writing a new id appends `task` to the listing; writing a stored id
        keeps the number of entries. */
    lemma WriteListing(task: Task)
      requires Valid()
      ensures var m := Put(tasks, KeyOf(task), task);
        && (Find(task.id).None? ==> Values(m) == FindAll() + [task])
        && (Find(task.id).Some? ==> |m| == |tasks|)
    {
      if HasKey(tasks, KeyOf(task)) {
        var i :| 0 <= i < |tasks| && tasks[i].key == KeyOf(task);
        PutExisting(tasks, KeyOf(task), task, i);
      } else {
        ValuesAppend(tasks, [Entry(KeyOf(task), task)]);
      }
    }

    /** `findAll` and `find` agree: a task is listed exactly when looking up
        its id finds it. */
    lemma StoredIffFound(t: Task)
      requires Valid()
      ensures t in FindAll() <==> Find(t.id) == Some(t)
    {
      var all := FindAll();
      if t in all {
        var i :| 0 <= i < |all| && all[i] == t;
        assert tasks[i] in tasks;
        GetStored(tasks, i);
      }
    }

    /** `findByStatus` is `findAll` with the tasks of other statuses taken
        out: the tasks it returns keep their stored order. */
    lemma FindByStatusInOrder(status: TaskStatus)
      requires Valid()
      ensures FindByStatus(status) == Select(FindAll(), (t: Task) => t.status == status)
    {
      ValuesFilter(tasks, (t: Task) => t.status == status);
    }

    /** `findByAssignee` is `findAll` with the tasks of other assignees, and
        the unassigned ones, taken out, in stored order. */
    lemma FindByAssigneeInOrder(assigneeId: string)
      requires Valid()
      ensures FindByAssignee(assigneeId) == Select(FindAll(), (t: Task) => t.assigneeId == Some(assigneeId))
    {
      ValuesFilter(tasks, (t: Task) => t.assigneeId == Some(assigneeId));
    }

    /** The three status filters partition the store: every stored task is
        returned for exactly one status, and nothing else is returned. */
    lemma StatusFiltersPartition()
      requires Valid()
      ensures multiset(FindByStatus(Todo)) + multiset(FindByStatus(InProgress)) + multiset(FindByStatus(Done))
              == multiset(FindAll())
      ensures |FindByStatus(Todo)| + |FindByStatus(InProgress)| + |FindByStatus(Done)| == |FindAll()|
    {
      PartitionByStatus(FindAll(), FindByStatus(Todo), FindByStatus(InProgress), FindByStatus(Done));
    }
  }

  /** Three sequences that each keep the tasks of one status, as often as
      `all` holds them, together hold `all` exactly. */
  lemma PartitionByStatus(all: seq<Task>, todo: seq<Task>, inProgress: seq<Task>, done: seq<Task>)
    requires forall t :: multiset(todo)[t] == if t.status == Todo then multiset(all)[t] else 0
    requires forall t :: multiset(inProgress)[t] == if t.status == InProgress then multiset(all)[t] else 0
    requires forall t :: multiset(done)[t] == if t.status == Done then multiset(all)[t] else 0
    ensures multiset(todo) + multiset(inProgress) + multiset(done) == multiset(all)
    ensures |todo| + |inProgress| + |done| == |all|
  {
    var sum := multiset(todo) + multiset(inProgress) + multiset(done);
    assert sum == multiset(all) by {
      forall t ensures sum[t] == multiset(all)[t] {
        match t.status
        case Todo =>
        case InProgress =>
        case Done =>
      }
    }
    assert |sum| == |todo| + |inProgress| + |done|;
  }
}
