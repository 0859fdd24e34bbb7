/** The task store of src/hooks/useTasks.ts: the `tasks` and `loading` state of the hook and the
    operations that replace them. Each call to the hosted data service is an input: the reply it
    gave, `Ok(payload)` or `Failed`. */
module UseTasks {
  import opened Outcomes
  import opened Seqs
  import opened Tasks

  /** Lookup by id: the first task with that id, if any. */
  function FindById(tasks: seq<Task>, id: string): (r: Option<Task>)
    ensures r.None? <==> forall i :: 0 <= i < |tasks| ==> tasks[i].id != id
    ensures r.Some? ==> exists i :: 0 <= i < |tasks| && tasks[i] == r.value && r.value.id == id
                                     && forall j :: 0 <= j < i ==> tasks[j].id != id
  {
    if tasks == [] then None
    else if tasks[0].id == id then Some(tasks[0])
    else
      var r := FindById(tasks[1..], id);
      assert r.Some? ==> exists i :: 0 <= i < |tasks[1..]| && tasks[1..][i] == r.value && r.value.id == id
                                     && forall j :: 0 <= j < i ==> tasks[1..][j].id != id;
      if r.Some? then
        var i :| 0 <= i < |tasks[1..]| && tasks[1..][i] == r.value && r.value.id == id
                 && forall j :: 0 <= j < i ==> tasks[1..][j].id != id;
        assert tasks[i + 1] == r.value && forall j :: 0 <= j < i + 1 ==> tasks[j].id != id;
        r
      else
        r
  }

  /** The list after an update: every task with the id is replaced by the returned row, the
      others stay where they are. */
  function ReplaceById(tasks: seq<Task>, id: string, data: Task): (r: seq<Task>)
    ensures |r| == |tasks|
  {
    if tasks == [] then []
    else
      var last := tasks[|tasks| - 1];
      ReplaceById(tasks[..|tasks| - 1], id, data) + [if last.id == id then data else last]
  }

  /** The list after a delete: the tasks with another id, in their order. */
  function RemoveById(tasks: seq<Task>, id: string): (r: seq<Task>)
    ensures |r| <= |tasks|
  {
    FilterLength(tasks, OtherId(id));
    Filter(tasks, OtherId(id))
  }

  function OtherId(id: string): Task -> bool {
    (t: Task) => t.id != id
  }

  /** The update sent by `toggleTaskComplete`: only `completed`, negated. */
  function TogglePatch(t: Task): (u: UpdateTaskData)
    ensures u.completed == Value(!t.completed)
    ensures u.title.Absent? && u.description.Absent? && u.priority.Absent?
            && u.dueDate.Absent? && u.category.Absent?
  {
    UpdateTaskData(Absent, Absent, Value(!t.completed), Absent, Absent, Absent)
  }

  /** The row sent by `createTask`: the form's fields and the signed-in user's id. */
  datatype InsertRequest = InsertRequest(data: CreateTaskData, userId: string)

  /** The hook's state. */
  class TaskStore {
    var tasks: seq<Task>
    var loading: bool

    constructor()
      ensures tasks == [] && loading
    {
      tasks := [];
      loading := true;
    }

    /** `fetchTasks`: the rows returned (none for a null reply), or no change on an error; the loading
        flag is cleared either way. */
    method FetchTasks(reply: Remote<Option<seq<Task>>>)
      modifies this
      ensures reply.Ok? ==> tasks == reply.value.GetOr([])
      ensures reply.Failed? ==> tasks == old(tasks)
      ensures !loading
    {
      match reply {
        case Ok(data) => tasks := data.GetOr([]);
        case Failed =>
      }
      loading := false;
    }

    /** `createTask`: without a signed-in user nothing is sent and the call throws; otherwise the
        row is inserted and, if the service returns it, put in front of the list. */
    method CreateTask(user: Option<string>, taskData: CreateTaskData, reply: Remote<Task>)
      returns (sent: Option<InsertRequest>, outcome: Outcome)
      modifies this
      ensures user.None? ==> sent.None? && outcome == Threw(NotAuthenticated) && tasks == old(tasks)
      ensures user.Some? ==> sent == Some(InsertRequest(taskData, user.value))
      ensures user.Some? && reply.Ok? ==> outcome == Done && tasks == [reply.value] + old(tasks)
      ensures user.Some? && reply.Failed? ==> outcome == Threw(WriteFailed) && tasks == old(tasks)
      ensures loading == old(loading)
    {
      if user.None? {
        return None, Threw(NotAuthenticated);
      }
      sent := Some(InsertRequest(taskData, user.value));
      match reply {
        case Ok(data) =>
          tasks := [data] + tasks;
          outcome := Done;
        case Failed =>
          outcome := Threw(WriteFailed);
      }
    }

    /** `updateTask`: on success every task with the id is replaced by the returned row. */
    method UpdateTask(id: string, updates: UpdateTaskData, reply: Remote<Task>) returns (outcome: Outcome)
      modifies this
      ensures reply.Ok? ==> outcome == Done && tasks == ReplaceById(old(tasks), id, reply.value)
      ensures reply.Failed? ==> outcome == Threw(WriteFailed) && tasks == old(tasks)
      ensures loading == old(loading)
    {
      match reply {
        case Ok(data) =>
          tasks := ReplaceById(tasks, id, data);
          outcome := Done;
        case Failed =>
          outcome := Threw(WriteFailed);
      }
    }

    /** `deleteTask`: on success every task with the id is dropped. */
    method DeleteTask(id: string, reply: Remote<()>) returns (outcome: Outcome)
      modifies this
      ensures reply.Ok? ==> outcome == Done && tasks == RemoveById(old(tasks), id)
      ensures reply.Failed? ==> outcome == Threw(WriteFailed) && tasks == old(tasks)
      ensures loading == old(loading)
    {
      match reply {
        case Ok(_) =>
          tasks := RemoveById(tasks, id);
          outcome := Done;
        case Failed =>
          outcome := Threw(WriteFailed);
      }
    }

    /** `toggleTaskComplete`: an unknown id returns without a call; otherwise the update with
        `completed` negated is sent. */
    method ToggleTaskComplete(id: string, reply: Remote<Task>)
      returns (sent: Option<UpdateTaskData>, outcome: Outcome)
      modifies this
      ensures FindById(old(tasks), id).None? ==> sent.None? && outcome == Done && tasks == old(tasks)
      ensures FindById(old(tasks), id).Some? ==> sent == Some(TogglePatch(FindById(old(tasks), id).value))
      ensures FindById(old(tasks), id).Some? && reply.Ok? ==>
                outcome == Done && tasks == ReplaceById(old(tasks), id, reply.value)
      ensures FindById(old(tasks), id).Some? && reply.Failed? ==>
                outcome == Threw(WriteFailed) && tasks == old(tasks)
      ensures loading == old(loading)
    {
      var task := FindById(tasks, id);
      if task.None? {
        return None, Done;
      }
      sent := Some(TogglePatch(task.value));
      outcome := UpdateTask(id, sent.value, reply);
    }
  }

  // ---------------------------------------------------------------------------------------
  // What the operations do to the list

  /** Update keeps length and order: each position keeps its task unless its id matches, and a
      matching position holds the returned row. */
  lemma {:induction false} ReplaceByIdPointwise(tasks: seq<Task>, id: string, data: Task)
    ensures |ReplaceById(tasks, id, data)| == |tasks|
    ensures forall i :: 0 <= i < |tasks| ==>
              ReplaceById(tasks, id, data)[i] == (if tasks[i].id == id then data else tasks[i])
  {
    if tasks != [] {
      ReplaceByIdPointwise(tasks[..|tasks| - 1], id, data);
    }
  }

  /** Replacing an id that is not present changes nothing. */
  lemma ReplaceAbsentId(tasks: seq<Task>, id: string, data: Task)
    requires FindById(tasks, id).None?
    ensures ReplaceById(tasks, id, data) == tasks
  {
    ReplaceByIdPointwise(tasks, id, data);
  }

  /** After a successful update of a task in the list, looking the id up finds the returned row. */
  lemma FindAfterReplace(tasks: seq<Task>, id: string, data: Task)
    requires FindById(tasks, id).Some? && data.id == id
    ensures FindById(ReplaceById(tasks, id, data), id) == Some(data)
  {
    ReplaceByIdPointwise(tasks, id, data);
    var r := ReplaceById(tasks, id, data);
    var i :| 0 <= i < |tasks| && tasks[i].id == id && forall j :: 0 <= j < i ==> tasks[j].id != id;
    assert forall j :: 0 <= j < i ==> r[j] == tasks[j];
    FindFirstMatch(r, id, i);
  }

  /** The lookup returns the task at the first index holding the id. */
  lemma FindFirstMatch(tasks: seq<Task>, id: string, i: nat)
    requires i < |tasks| && tasks[i].id == id
    requires forall j :: 0 <= j < i ==> tasks[j].id != id
    ensures FindById(tasks, id) == Some(tasks[i])
  {
    var k :| 0 <= k < |tasks| && tasks[k] == FindById(tasks, id).value && tasks[k].id == id
             && forall j :: 0 <= j < k ==> tasks[j].id != id;
    assert k == i;
  }

  /** Only the tasks with the id are touched: the others are the same, in the same order. */
  lemma {:induction false} ReplaceLeavesOthers(tasks: seq<Task>, id: string, data: Task)
    requires data.id == id
    ensures RemoveById(ReplaceById(tasks, id, data), id) == RemoveById(tasks, id)
  {
    if tasks != [] {
      var init := tasks[..|tasks| - 1];
      var last := tasks[|tasks| - 1];
      var swapped := if last.id == id then data else last;
      ReplaceLeavesOthers(init, id, data);
      FilterAppend(ReplaceById(init, id, data), [swapped], OtherId(id));
      FilterAppend(init, [last], OtherId(id));
      assert tasks == init + [last];
      assert [swapped][..0] == [] && [last][..0] == [];
    }
  }

  /** Delete drops exactly the tasks with the id and keeps the others in order. */
  lemma RemoveByIdSpec(tasks: seq<Task>, id: string)
    ensures forall t :: t in RemoveById(tasks, id) <==> t in tasks && t.id != id
    ensures IsSubsequence(RemoveById(tasks, id), tasks)
    ensures FindById(RemoveById(tasks, id), id).None?
  {
    FilterAll(tasks, OtherId(id));
    FilterIsSubsequence(tasks, OtherId(id));
    var r := RemoveById(tasks, id);
    assert forall i :: 0 <= i < |r| ==> r[i] in r;
  }

  /** Deleting twice is deleting once. */
  lemma RemoveByIdIdempotent(tasks: seq<Task>, id: string)
    ensures RemoveById(RemoveById(tasks, id), id) == RemoveById(tasks, id)
  {
    FilterAll(tasks, OtherId(id));
    FilterTrue(RemoveById(tasks, id), OtherId(id));
  }

  /** Deleting an id that is not present changes nothing. */
  lemma RemoveAbsentId(tasks: seq<Task>, id: string)
    requires FindById(tasks, id).None?
    ensures RemoveById(tasks, id) == tasks
  {
    assert forall t :: t in tasks ==> t.id != id;
    FilterTrue(tasks, OtherId(id));
  }

  /** Creating a task with a new id and then deleting it gives back the list. */
  lemma CreateThenDelete(tasks: seq<Task>, created: Task)
    requires FindById(tasks, created.id).None?
    ensures RemoveById([created] + tasks, created.id) == tasks
  {
    RemoveAbsentId(tasks, created.id);
    FilterAppend([created], tasks, OtherId(created.id));
    assert [created][..0] == [];
  }

  /** Create, then a successful update of the created row, then delete of its id: the list is
      back to what it was, so in particular its length is unchanged. */
  lemma CreateUpdateDeleteRoundTrip(tasks: seq<Task>, created: Task, updated: Task)
    requires FindById(tasks, created.id).None?
    requires updated.id == created.id
    ensures RemoveById(ReplaceById([created] + tasks, created.id, updated), created.id) == tasks
    ensures |RemoveById(ReplaceById([created] + tasks, created.id, updated), created.id)| == |tasks|
  {
    ReplaceLeavesOthers([created] + tasks, created.id, updated);
    CreateThenDelete(tasks, created);
  }

  /** The service applied an update patch: same row, and `completed` as sent (or kept). */
  predicate Honours(before: Task, patch: UpdateTaskData, after: Task) {
    after.id == before.id
    && after.completed == (if patch.completed.Value? then patch.completed.value else before.completed)
  }

  /** Two honoured toggles of the same task restore its completion flag. */
  lemma ToggleTwiceRestores(tasks: seq<Task>, id: string, first: Task, second: Task)
    requires FindById(tasks, id).Some?
    requires Honours(FindById(tasks, id).value, TogglePatch(FindById(tasks, id).value), first)
    requires Honours(first, TogglePatch(first), second)
    ensures FindById(ReplaceById(tasks, id, first), id) == Some(first)
    ensures FindById(ReplaceById(ReplaceById(tasks, id, first), id, second), id) == Some(second)
    ensures second.completed == FindById(tasks, id).value.completed
  {
    FindAfterReplace(tasks, id, first);
    FindAfterReplace(ReplaceById(tasks, id, first), id, second);
  }
}
