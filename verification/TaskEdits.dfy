/** updateTask with any closure: exactly which edits keep the hierarchy and completion invariant. The id of a task is
    a constant; nothing is reconciled. */
module TaskEdits {
  import opened Prelude
  import opened TaskModel
  import opened TaskHierarchy

  /** updateTask, for a closure that turns the task into edited. */
  function EditTask(ts: seq<Task>, id: Id, edited: Task, now: Date): seq<Task> {
    var i := IndexOf(ts, id);
    if i == |ts| then ts else ts[i := edited.(id := ts[i].id, updatedAt := now)]
  }

  /** What matters to a parent when the task at i is edited to t. */
  predicate HasOthers(ts: seq<Task>, i: nat, pid: Id) {
    exists k :: 0 <= k < |ts| && k != i && ts[k].parentTaskId == Some(pid)
  }

  predicate OthersDone(ts: seq<Task>, i: nat, pid: Id) {
    forall k :: 0 <= k < |ts| && k != i && ts[k].parentTaskId == Some(pid) ==> ts[k].completedAt.Some?
  }

  predicate ParentFits(ts: seq<Task>, i: nat, t: Task, p: Task) {
    var has := HasOthers(ts, i, p.id) || t.parentTaskId == Some(p.id);
    var done := OthersDone(ts, i, p.id) && (t.parentTaskId == Some(p.id) ==> t.completedAt.Some?);
    (has && done ==> p.completedAt.Some? || p.parentManualReopenAt.Some?) && (p.parentManualReopenAt.Some? ==> has)
  }

  /** An edit may go below a top-level task when the task has no subtasks, must leave the task itself within the rules,
      and its old and new parent too, since nothing is reconciled. */
  predicate EditFits(ts: seq<Task>, i: nat, t: Task)
    requires i < |ts|
  {
    && (t.parentTaskId.Some? ==>
          TopLevel(ts, t.parentTaskId.value) && t.parentTaskId.value != t.id && !HasSubtasks(ts, t.id))
    && CompletionOk(ts, t)
    && (forall j :: 0 <= j < |ts| && j != i && ts[j].id in Named(ts[i].parentTaskId) + Named(t.parentTaskId) ==>
          ParentFits(ts, i, t, ts[j]))
  }

  lemma OthersFrame(ts: seq<Task>, i: nat, t: Task, x: Id)
    requires i < |ts|
    ensures HasSubtasks(ts[i := t], x) <==> HasOthers(ts, i, x) || t.parentTaskId == Some(x)
    ensures AllSubtasksCompleted(ts[i := t], x) <==>
              OthersDone(ts, i, x) && (t.parentTaskId == Some(x) ==> t.completedAt.Some?)
  {
    var ts' := ts[i := t];
    assert ts'[i] == t && forall k :: 0 <= k < |ts| && k != i ==> ts'[k] == ts[k];
  }

  lemma TopLevelIs(ts: seq<Task>, j: nat)
    requires UniqueIds(ts) && j < |ts| && TopLevel(ts, ts[j].id)
    ensures ts[j].parentTaskId.None?
  {
  }

  /** Another task of the list after the edit. */
  lemma OtherFits(ts: seq<Task>, i: nat, t: Task, j: nat)
    requires Inv(ts) && i < |ts| && j < |ts| && j != i && t.id == ts[i].id
    requires t.parentTaskId.Some? ==> TopLevel(ts, t.parentTaskId.value) && t.parentTaskId.value != t.id
    ensures CompletionOk(ts[i := t], ts[j]) <==>
            (ts[j].id in Named(ts[i].parentTaskId) + Named(t.parentTaskId) ==> ParentFits(ts, i, t, ts[j]))
  {
    assert CompletionOk(ts, ts[j]) && LinkOk(ts, ts[i]);
    hide TopLevel, HasSubtasks, AllSubtasksCompleted, HasOthers, OthersDone;
    if ts[j].id in Named(ts[i].parentTaskId) + Named(t.parentTaskId) {
      OthersFrame(ts, i, t, ts[j].id);
      TopLevelIs(ts, j);
    } else {
      EditFrame(ts, i, t, ts[j].id);
    }
  }

  predicate LinksOk(ts: seq<Task>) {
    forall j :: 0 <= j < |ts| ==> LinkOk(ts, ts[j])
  }

  lemma EditedLinks(ts: seq<Task>, i: nat, t: Task)
    requires Inv(ts) && i < |ts| && t.id == ts[i].id
    ensures LinksOk(ts[i := t])
       <==> (t.parentTaskId.Some? ==>
               TopLevel(ts, t.parentTaskId.value) && t.parentTaskId.value != t.id && !HasSubtasks(ts, t.id))
  {
    var ts' := ts[i := t];
    if t.parentTaskId.Some? && HasSubtasks(ts, t.id) {
      var k :| 0 <= k < |ts| && ts[k].parentTaskId == Some(t.id);
      assert LinkOk(ts, ts[k]);
      assert ts'[k] == ts[k] && !TopLevel(ts', t.id);
      assert !LinkOk(ts', ts'[k]);
    } else {
      if t.parentTaskId.Some? { EditFrame(ts, i, t, t.parentTaskId.value); }
      forall j | 0 <= j < |ts| && j != i ensures LinkOk(ts', ts'[j]) {
        assert LinkOk(ts, ts[j]) && ts'[j] == ts[j];
        if ts[j].parentTaskId.Some? { EditFrame(ts, i, t, ts[j].parentTaskId.value); }
      }
      assert ts'[i] == t;
    }
  }

  /** Whatever the edit does to the task, the rules survive exactly when it fits. */
  lemma EditKeepsInvIff(ts: seq<Task>, i: nat, t: Task)
    requires Inv(ts) && i < |ts| && t.id == ts[i].id
    ensures Inv(ts[i := t]) <==> EditFits(ts, i, t)
  {
    var ts' := ts[i := t];
    assert UniqueIds(ts');
    EditedLinks(ts, i, t);
    hide TopLevel, HasSubtasks, AllSubtasksCompleted, ParentFits, CompletionOk, LinkOk;
    if t.parentTaskId.Some? ==>
         TopLevel(ts, t.parentTaskId.value) && t.parentTaskId.value != t.id && !HasSubtasks(ts, t.id)
    {
      OwnFits(ts, i, t);
      assert ts'[i] == t;
      forall j | 0 <= j < |ts| && j != i
        ensures CompletionOk(ts', ts'[j]) <==>
                (ts[j].id in Named(ts[i].parentTaskId) + Named(t.parentTaskId) ==> ParentFits(ts, i, t, ts[j]))
      {
        OtherFits(ts, i, t, j);
      }
    }
  }

  lemma OwnFits(ts: seq<Task>, i: nat, t: Task)
    requires Inv(ts) && i < |ts| && t.id == ts[i].id && t.parentTaskId != Some(t.id)
    ensures CompletionOk(ts[i := t], t) <==> CompletionOk(ts, t)
  {
    assert LinkOk(ts, ts[i]);
    EditFrame(ts, i, t, t.id);
  }
}
