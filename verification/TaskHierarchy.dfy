/** The one-level task hierarchy and completion propagation of LocalStore, as functions
    from task list to task list, and the invariant that every local operation keeps. */
module TaskHierarchy {
  import opened Prelude
  import opened TaskModel

  // -------------------------------------------------------------- invariant

  predicate TopLevel(ts: seq<Task>, id: Id) {
    exists i :: 0 <= i < |ts| && ts[i].id == id && ts[i].parentTaskId.None?
  }

  predicate HasSubtasks(ts: seq<Task>, id: Id) {
    exists i :: 0 <= i < |ts| && ts[i].parentTaskId == Some(id)
  }

  predicate AllSubtasksCompleted(ts: seq<Task>, id: Id) {
    forall i :: 0 <= i < |ts| && ts[i].parentTaskId == Some(id) ==> ts[i].completedAt.Some?
  }

  /** A parent reference names an existing top-level task other than the task itself. */
  predicate LinkOk(ts: seq<Task>, t: Task) {
    t.parentTaskId.Some? ==> TopLevel(ts, t.parentTaskId.value) && t.parentTaskId.value != t.id
  }

  /** A parent whose subtasks are all complete is complete, unless it was reopened by hand;
      the reopen mark is only on open top-level tasks that have a subtask. */
  predicate CompletionOk(ts: seq<Task>, t: Task) {
    && (t.parentTaskId.None? && HasSubtasks(ts, t.id) && AllSubtasksCompleted(ts, t.id) ==>
          t.completedAt.Some? || t.parentManualReopenAt.Some?)
    && (t.parentManualReopenAt.Some? ==>
          t.parentTaskId.None? && t.completedAt.None? && HasSubtasks(ts, t.id))
  }

  /** The invariant, with the completion of some tasks still to be reconciled. */
  predicate InvBut(ts: seq<Task>, loose: set<Id>) {
    && UniqueIds(ts)
    && (forall i :: 0 <= i < |ts| ==> LinkOk(ts, ts[i]))
    && (forall i :: 0 <= i < |ts| && ts[i].id !in loose ==> CompletionOk(ts, ts[i]))
  }

  predicate Inv(ts: seq<Task>) {
    InvBut(ts, {})
  }

  // ------------------------------------------------------------- operations

  /** Index of the first top-level task with this id, or |ts|. */
  function TopIndex(ts: seq<Task>, id: Id): (i: nat)
    ensures i <= |ts|
    ensures i < |ts| ==> ts[i].id == id && ts[i].parentTaskId.None?
    ensures forall j :: 0 <= j < i ==> !(ts[j].id == id && ts[j].parentTaskId.None?)
  {
    if ts == [] || (ts[0].id == id && ts[0].parentTaskId.None?) then 0 else 1 + TopIndex(ts[1..], id)
  }

  /** What reconciling makes of a parent. */
  function ReconciledParent(parent: Task, hasSubtasks: bool, allDone: bool, reset: bool, now: Date): Task {
    if !hasSubtasks then
      if parent.parentManualReopenAt.Some? then parent.(parentManualReopenAt := None, updatedAt := now) else parent
    else
      var p := if reset then parent.(parentManualReopenAt := None) else parent;
      if allDone then
        if p.parentManualReopenAt.None? && p.completedAt.None?
        then p.(completedAt := Some(now), updatedAt := now) else p
      else
        (if p.completedAt.Some? then p.(completedAt := None, updatedAt := now) else p).(parentManualReopenAt := None)
  }

  /** reconcileParentCompletion. */
  function Reconcile(ts: seq<Task>, pid: Id, reset: bool, now: Date): (r: seq<Task>)
    ensures |r| == |ts|
  {
    var i := TopIndex(ts, pid);
    if i == |ts| then ts
    else ts[i := ReconciledParent(ts[i], HasSubtasks(ts, pid), AllSubtasksCompleted(ts, pid), reset, now)]
  }

  function ReconcileIf(ts: seq<Task>, pid: Option<Id>, reset: bool, now: Date): (r: seq<Task>)
    ensures |r| == |ts|
  {
    if pid.Some? then Reconcile(ts, pid.value, reset, now) else ts
  }

  /** The task as addTask appends it. */
  function PreparedTask(ts: seq<Task>, task: Task, nowMs: int): Task {
    var t := if task.orderIndex.None? then task.(orderIndex := Some(nowMs)) else task;
    match t.parentTaskId
    case None => t.(parentManualReopenAt := None)
    case Some(pid) =>
      var i := TopIndex(ts, pid);
      if i == |ts| then t.(parentTaskId := None)
      else if t.categories == [] then t.(categories := ts[i].categories)
      else t
  }

  function AddTask(ts: seq<Task>, task: Task, nowMs: int, now: Date): seq<Task> {
    var t := PreparedTask(ts, task, nowMs);
    ReconcileIf(ts + [t], t.parentTaskId, true, now)
  }

  /** Would setParent go through? */
  predicate SetParentAllowed(ts: seq<Task>, id: Id, parentId: Option<Id>) {
    && Has(ts, id)
    && parentId != Some(id)
    && (parentId.Some? ==> !HasSubtasks(ts, id) && TopIndex(ts, parentId.value) < |ts|)
  }

  /** The task as setParent leaves it. */
  function Reparented(ts: seq<Task>, t: Task, parentId: Option<Id>, now: Date): Task {
    var t1 := t.(parentTaskId := parentId, updatedAt := now);
    if parentId.None? then t1
    else
      var t2 := t1.(parentManualReopenAt := None);
      var j := IndexOf(ts, parentId.value);
      if t2.categories == [] && j < |ts| then t2.(categories := ts[j].categories) else t2
  }

  function SetParent(ts: seq<Task>, id: Id, parentId: Option<Id>, now: Date): seq<Task> {
    if !SetParentAllowed(ts, id, parentId) then ts
    else
      var i := IndexOf(ts, id);
      var ts1 := ts[i := Reparented(ts, ts[i], parentId, now)];
      ReconcileIf(ReconcileIf(ts1, ts[i].parentTaskId, true, now), parentId, true, now)
  }

  function DeleteTask(ts: seq<Task>, id: Id, now: Date): seq<Task> {
    var i := IndexOf(ts, id);
    ReconcileIf(Drop(ts, {id}), if i < |ts| then ts[i].parentTaskId else None, true, now)
  }

  function CompletedTask(t: Task, now: Date): Task {
    t.(completedAt := Some(now), reminderDate := None, reminderNotificationId := None, parentManualReopenAt := None)
  }

  function CompleteTask(ts: seq<Task>, id: Id, now: Date): seq<Task> {
    var i := IndexOf(ts, id);
    if i == |ts| then ts
    else ReconcileIf(ts[i := CompletedTask(ts[i], now)], ts[i].parentTaskId, false, now)
  }

  function RestoredTask(ts: seq<Task>, t: Task, now: Date): Task {
    var t1 := t.(completedAt := None);
    var t2 := if HasSubtasks(ts, t.id) then t1.(parentManualReopenAt := Some(now)) else t1;
    if t.reminderDate.Some? && t.reminderNotificationId.Some? && t.reminderDate.value <= now
    then t2.(reminderDate := None, reminderNotificationId := None) else t2
  }

  function RestoreTask(ts: seq<Task>, id: Id, now: Date): seq<Task> {
    var i := IndexOf(ts, id);
    if i == |ts| then ts
    else ReconcileIf(ts[i := RestoredTask(ts, ts[i], now)], ts[i].parentTaskId, true, now)
  }

  // -------------------------------------------------- how edits change facts

  lemma TopIndexFinds(ts: seq<Task>, id: Id)
    ensures TopIndex(ts, id) < |ts| <==> TopLevel(ts, id)
  {
  }

  /** Editing one task matters only to the parents it had and has. */
  lemma EditFrame(ts: seq<Task>, i: nat, t: Task, x: Id)
    requires i < |ts| && t.id == ts[i].id
    ensures (ts[i].parentTaskId.None? <==> t.parentTaskId.None?) || x != t.id ==>
              (TopLevel(ts[i := t], x) <==> TopLevel(ts, x))
    ensures ts[i].parentTaskId == t.parentTaskId || (ts[i].parentTaskId != Some(x) && t.parentTaskId != Some(x)) ==>
              (HasSubtasks(ts[i := t], x) <==> HasSubtasks(ts, x))
    ensures (ts[i].parentTaskId == t.parentTaskId && ts[i].completedAt.Some? == t.completedAt.Some?)
            || (ts[i].parentTaskId != Some(x) && t.parentTaskId != Some(x)) ==>
              (AllSubtasksCompleted(ts[i := t], x) <==> AllSubtasksCompleted(ts, x))
  {
    var ts' := ts[i := t];
    forall j | 0 <= j < |ts| && j != i ensures ts'[j] == ts[j] {}
    assert ts'[i] == t;
    assert forall j :: 0 <= j < |ts| ==> ts'[j].id == ts[j].id;
  }

  /** Reconciling restores the invariant of the parent it is called for. */
  lemma ReconcileSettles(ts: seq<Task>, pid: Id, reset: bool, now: Date, loose: set<Id>)
    requires InvBut(ts, loose + {pid}) && TopLevel(ts, pid)
    requires reset || forall i :: 0 <= i < |ts| && ts[i].id == pid && ts[i].parentManualReopenAt.Some? ==>
                        ts[i].completedAt.None?
    ensures InvBut(Reconcile(ts, pid, reset, now), loose)
  {
    TopIndexFinds(ts, pid);
    var i := TopIndex(ts, pid);
    var ts' := Reconcile(ts, pid, reset, now);
    forall x ensures
        (TopLevel(ts', x) <==> TopLevel(ts, x)) && (HasSubtasks(ts', x) <==> HasSubtasks(ts, x)) &&
        (AllSubtasksCompleted(ts', x) <==> AllSubtasksCompleted(ts, x))
    {
      EditFrame(ts, i, ts'[i], x);
      assert ts'[i].parentTaskId.None?;
      assert (AllSubtasksCompleted(ts', x) <==> AllSubtasksCompleted(ts, x));
    }
    assert forall j :: 0 <= j < |ts| ==> ts'[j].id == ts[j].id && ts'[j].parentTaskId == ts[j].parentTaskId;
    forall j | 0 <= j < |ts'| ensures LinkOk(ts', ts'[j]) {
      assert LinkOk(ts, ts[j]);
    }
    forall j | 0 <= j < |ts'| && ts'[j].id !in loose ensures CompletionOk(ts', ts'[j]) {
      if j != i {
        assert ts[j].id != pid;
        assert CompletionOk(ts, ts[j]);
      }
    }
  }

  /** Editing one task leaves only its old and new parent to be reconciled. */
  lemma EditLoosens(ts: seq<Task>, i: nat, t: Task)
    requires Inv(ts) && i < |ts| && t.id == ts[i].id
    requires t.parentTaskId.Some? ==>
               TopLevel(ts, t.parentTaskId.value) && t.parentTaskId.value != t.id && !HasSubtasks(ts, t.id)
    requires CompletionOk(ts, t)
    ensures InvBut(ts[i := t], Named(ts[i].parentTaskId) + Named(t.parentTaskId))
  {
    var ts' := ts[i := t];
    var loose := Named(ts[i].parentTaskId) + Named(t.parentTaskId);
    assert forall j :: 0 <= j < |ts| ==> ts'[j].id == ts[j].id;
    forall j | 0 <= j < |ts| ensures LinkOk(ts', ts'[j]) {
      assert LinkOk(ts, ts[j]);
      if ts'[j].parentTaskId.Some? {
        var p := ts'[j].parentTaskId.value;
        EditFrame(ts, i, t, p);
      }
    }
    forall j | 0 <= j < |ts| && ts'[j].id !in loose ensures CompletionOk(ts', ts'[j]) {
      assert CompletionOk(ts, ts[j]);
      EditFrame(ts, i, t, ts'[j].id);
    }
  }

  function Named(pid: Option<Id>): set<Id> {
    if pid.Some? then {pid.value} else {}
  }

  lemma ReconcileIfSettles(ts: seq<Task>, pid: Option<Id>, reset: bool, now: Date, loose: set<Id>)
    requires InvBut(ts, loose + Named(pid)) && (pid.Some? ==> TopLevel(ts, pid.value))
    requires reset || forall i :: 0 <= i < |ts| && Some(ts[i].id) == pid && ts[i].parentManualReopenAt.Some? ==>
                        ts[i].completedAt.None?
    ensures InvBut(ReconcileIf(ts, pid, reset, now), loose)
    ensures forall x :: TopLevel(ts, x) ==> TopLevel(ReconcileIf(ts, pid, reset, now), x)
  {
    if pid.Some? {
      ReconcileSettles(ts, pid.value, reset, now, loose);
      var ts' := Reconcile(ts, pid.value, reset, now);
      forall x | TopLevel(ts, x) ensures TopLevel(ts', x) {
        var i :| 0 <= i < |ts| && ts[i].id == x && ts[i].parentTaskId.None?;
        assert ts'[i].id == x && ts'[i].parentTaskId.None?;
      }
    } else {
      assert loose + Named(pid) == loose;
    }
  }

  // ------------------------------------------------ every operation keeps it

  /** Appending a task whose id is new. */
  lemma AppendFrame(ts: seq<Task>, t: Task, x: Id)
    ensures TopLevel(ts + [t], x) <==> TopLevel(ts, x) || (t.id == x && t.parentTaskId.None?)
    ensures HasSubtasks(ts + [t], x) <==> HasSubtasks(ts, x) || t.parentTaskId == Some(x)
    ensures AllSubtasksCompleted(ts + [t], x) <==>
              AllSubtasksCompleted(ts, x) && (t.parentTaskId == Some(x) ==> t.completedAt.Some?)
  {
    var ts' := ts + [t];
    assert ts'[|ts|] == t;
    assert forall i :: 0 <= i < |ts| ==> ts'[i] == ts[i];
  }

  lemma FreshIsUnreferenced(ts: seq<Task>, id: Id)
    requires Inv(ts) && !Has(ts, id)
    ensures !HasSubtasks(ts, id) && !TopLevel(ts, id)
  {
    forall i | 0 <= i < |ts| ensures ts[i].parentTaskId != Some(id) {
      assert LinkOk(ts, ts[i]);
    }
  }

  /** A new task keeps the invariant, unless it brings a reopen mark and a parent reference. */
  lemma AddKeepsInv(ts: seq<Task>, task: Task, nowMs: int, now: Date)
    requires Inv(ts) && !Has(ts, task.id)
    ensures Inv(AddTask(ts, task, nowMs, now)) <==> task.parentManualReopenAt.None? || task.parentTaskId.None?
  {
    var t := PreparedTask(ts, task, nowMs);
    var ts' := ts + [t];
    assert t.id == task.id;
    FreshIsUnreferenced(ts, t.id);
    if task.parentTaskId.Some? {
      TopIndexFinds(ts, task.parentTaskId.value);
    }
    AppendedLinks(ts, t);
    AppendFrame(ts, t, t.id);
    if task.parentManualReopenAt.Some? && task.parentTaskId.Some? {
      AddedMarkBreaks(ts, t, now);
    } else {
      AppendedLoose(ts, t);
      assert {} + Named(t.parentTaskId) == Named(t.parentTaskId);
      if t.parentTaskId.Some? {
        AppendFrame(ts, t, t.parentTaskId.value);
      }
      ReconcileIfSettles(ts', t.parentTaskId, true, now, {});
    }
  }

  lemma AppendedLinks(ts: seq<Task>, t: Task)
    requires Inv(ts) && !Has(ts, t.id) && (t.parentTaskId.Some? ==> TopLevel(ts, t.parentTaskId.value))
    ensures UniqueIds(ts + [t]) && forall i :: 0 <= i < |ts| + 1 ==> LinkOk(ts + [t], (ts + [t])[i])
  {
    var ts' := ts + [t];
    FreshIsUnreferenced(ts, t.id);
    forall i | 0 <= i < |ts'| ensures LinkOk(ts', ts'[i]) {
      if i < |ts| {
        assert LinkOk(ts, ts[i]);
      }
      if ts'[i].parentTaskId.Some? {
        AppendFrame(ts, t, ts'[i].parentTaskId.value);
      }
    }
  }

  /** Only the parent of an unmarked new task is left to be reconciled. */
  lemma AppendedLoose(ts: seq<Task>, t: Task)
    requires Inv(ts) && !Has(ts, t.id) && t.parentManualReopenAt.None?
    requires t.parentTaskId.Some? ==> TopLevel(ts, t.parentTaskId.value)
    ensures InvBut(ts + [t], Named(t.parentTaskId))
  {
    var ts' := ts + [t];
    AppendedLinks(ts, t);
    FreshIsUnreferenced(ts, t.id);
    forall i | 0 <= i < |ts'| && ts'[i].id !in Named(t.parentTaskId) ensures CompletionOk(ts', ts'[i]) {
      AppendFrame(ts, t, ts'[i].id);
      if i < |ts| {
        assert CompletionOk(ts, ts[i]);
      }
    }
  }

  /** A marked task without subtasks violates the invariant, and reconciling its parent does not help. */
  lemma AddedMarkBreaks(ts: seq<Task>, t: Task, now: Date)
    requires t.parentManualReopenAt.Some? && !HasSubtasks(ts + [t], t.id)
    requires t.parentTaskId.Some? ==> t.parentTaskId.value != t.id
    ensures !Inv(ReconcileIf(ts + [t], t.parentTaskId, true, now))
  {
    var ts' := ts + [t];
    var r := ReconcileIf(ts', t.parentTaskId, true, now);
    assert forall i :: 0 <= i < |r| ==> r[i].parentTaskId == ts'[i].parentTaskId;
    assert r[|ts|] == t;
    assert !HasSubtasks(r, t.id);
    assert !CompletionOk(r, r[|ts|]);
  }

  lemma SetParentKeepsInv(ts: seq<Task>, id: Id, parentId: Option<Id>, now: Date)
    requires Inv(ts)
    ensures Inv(SetParent(ts, id, parentId, now))
  {
    if SetParentAllowed(ts, id, parentId) {
      var i := IndexOf(ts, id);
      var t := Reparented(ts, ts[i], parentId, now);
      var ts' := ts[i := t];
      var from := ts[i].parentTaskId;
      assert LinkOk(ts, ts[i]) && CompletionOk(ts, ts[i]);
      if parentId.Some? {
        TopIndexFinds(ts, parentId.value);
        EditFrame(ts, i, t, parentId.value);
      }
      if from.Some? {
        EditFrame(ts, i, t, from.value);
        SubtaskHasNoSubtasks(ts, i);
      }
      EditLoosens(ts, i, t);
      assert Named(ts[i].parentTaskId) + Named(t.parentTaskId) == Named(parentId) + Named(from);
      ReconcileIfSettles(ts', from, true, now, Named(parentId));
      assert {} + Named(parentId) == Named(parentId);
      ReconcileIfSettles(ReconcileIf(ts', from, true, now), parentId, true, now, {});
    }
  }

  lemma SubtaskHasNoSubtasks(ts: seq<Task>, i: nat)
    requires Inv(ts) && i < |ts| && ts[i].parentTaskId.Some?
    ensures !HasSubtasks(ts, ts[i].id)
  {
    forall j | 0 <= j < |ts| ensures ts[j].parentTaskId != Some(ts[i].id) {
      assert LinkOk(ts, ts[j]);
    }
  }

  /** Completing a task, also a parent with open subtasks. */
  lemma CompleteKeepsInv(ts: seq<Task>, id: Id, now: Date)
    requires Inv(ts)
    ensures Inv(CompleteTask(ts, id, now))
  {
    var i := IndexOf(ts, id);
    if i < |ts| {
      var t := CompletedTask(ts[i], now);
      EditKeepsInv(ts, i, t, false, now);
    }
  }

  lemma RestoreKeepsInv(ts: seq<Task>, id: Id, now: Date)
    requires Inv(ts)
    ensures Inv(RestoreTask(ts, id, now))
  {
    var i := IndexOf(ts, id);
    if i < |ts| {
      var t := RestoredTask(ts, ts[i], now);
      assert CompletionOk(ts, ts[i]);
      if HasSubtasks(ts, id) && ts[i].parentTaskId.Some? {
        SubtaskHasNoSubtasks(ts, i);
      }
      EditKeepsInv(ts, i, t, true, now);
    }
  }

  /** An edit that stays under the same parent, followed by the parent's reconciliation. */
  lemma EditKeepsInv(ts: seq<Task>, i: nat, t: Task, reset: bool, now: Date)
    requires Inv(ts) && i < |ts| && t.id == ts[i].id && t.parentTaskId == ts[i].parentTaskId
    requires CompletionOk(ts, t)
    ensures Inv(ReconcileIf(ts[i := t], t.parentTaskId, reset, now))
  {
    var ts' := ts[i := t];
    assert LinkOk(ts, ts[i]);
    if t.parentTaskId.Some? {
      SubtaskHasNoSubtasks(ts, i);
      EditFrame(ts, i, t, t.parentTaskId.value);
    }
    EditLoosens(ts, i, t);
    assert Named(ts[i].parentTaskId) + Named(t.parentTaskId) == {} + Named(t.parentTaskId);
    forall j | 0 <= j < |ts'| && Some(ts'[j].id) == t.parentTaskId && ts'[j].parentManualReopenAt.Some?
      ensures ts'[j].completedAt.None?
    {
      assert ts'[j] == ts[j] && CompletionOk(ts, ts[j]);
    }
    ReconcileIfSettles(ts', t.parentTaskId, reset, now, {});
  }

  lemma {:induction false} DropFrame(ts: seq<Task>, ids: set<Id>, x: Id)
    ensures HasSubtasks(Drop(ts, ids), x) <==>
              exists i :: 0 <= i < |ts| && ts[i].parentTaskId == Some(x) && ts[i].id !in ids
    ensures AllSubtasksCompleted(Drop(ts, ids), x) <==>
              forall i :: 0 <= i < |ts| && ts[i].parentTaskId == Some(x) && ts[i].id !in ids ==> ts[i].completedAt.Some?
    ensures TopLevel(Drop(ts, ids), x) <==> x !in ids && TopLevel(ts, x)
  {
    var r := Drop(ts, ids);
    forall i | 0 <= i < |r| ensures r[i] in ts && r[i].id !in ids {
      DropMember(ts, ids, r[i]);
    }
    forall i | 0 <= i < |ts| && ts[i].id !in ids ensures ts[i] in r {
      DropMember(ts, ids, ts[i]);
    }
    if HasSubtasks(r, x) {
      var i :| 0 <= i < |r| && r[i].parentTaskId == Some(x);
      assert r[i] in ts;
    }
    if i :| 0 <= i < |ts| && ts[i].parentTaskId == Some(x) && ts[i].id !in ids {
      assert ts[i] in r;
    }
  }

  lemma DropKeepsLink(ts: seq<Task>, id: Id, t: Task)
    requires Inv(ts) && !HasSubtasks(ts, id) && t in Drop(ts, {id})
    ensures LinkOk(Drop(ts, {id}), t)
  {
    DropMember(ts, {id}, t);
    var k :| 0 <= k < |ts| && ts[k] == t;
    assert LinkOk(ts, ts[k]);
    if t.parentTaskId.Some? {
      DropFrame(ts, {id}, t.parentTaskId.value);
    }
  }

  lemma DropKeepsCompletion(ts: seq<Task>, i: nat, t: Task)
    requires Inv(ts) && i < |ts| && t in Drop(ts, {ts[i].id}) && ts[i].parentTaskId != Some(t.id)
    ensures CompletionOk(Drop(ts, {ts[i].id}), t)
  {
    DropMember(ts, {ts[i].id}, t);
    var k :| 0 <= k < |ts| && ts[k] == t;
    assert CompletionOk(ts, ts[k]);
    DropFrame(ts, {ts[i].id}, t.id);
    assert forall m :: 0 <= m < |ts| && ts[m].id == ts[i].id ==> m == i;
  }

  /** Deleting a task keeps the invariant exactly when the task has no subtasks. */
  lemma DeleteKeepsInv(ts: seq<Task>, id: Id, now: Date)
    requires Inv(ts)
    ensures Inv(DeleteTask(ts, id, now)) <==> !HasSubtasks(ts, id)
  {
    var i := IndexOf(ts, id);
    var r := Drop(ts, {id});
    if HasSubtasks(ts, id) {
      DeletedParentLeavesOrphan(ts, id, now);
    } else if i == |ts| {
      DropNone(ts, {id});
    } else {
      var pid := ts[i].parentTaskId;
      DropUnique(ts, {id});
      forall j | 0 <= j < |r| ensures LinkOk(r, r[j]) {
        DropKeepsLink(ts, id, r[j]);
      }
      forall j | 0 <= j < |r| && r[j].id !in Named(pid) ensures CompletionOk(r, r[j]) {
        DropKeepsCompletion(ts, i, r[j]);
      }
      assert LinkOk(ts, ts[i]);
      if pid.Some? {
        DropFrame(ts, {id}, pid.value);
      }
      assert {} + Named(pid) == Named(pid);
      ReconcileIfSettles(r, pid, true, now, {});
    }
  }

  lemma DeletedParentLeavesOrphan(ts: seq<Task>, id: Id, now: Date)
    requires Inv(ts) && HasSubtasks(ts, id)
    ensures !Inv(DeleteTask(ts, id, now))
  {
    var k :| 0 <= k < |ts| && ts[k].parentTaskId == Some(id);
    assert LinkOk(ts, ts[k]);
    var j :| 0 <= j < |ts| && ts[j].id == id && ts[j].parentTaskId.None?;
    assert IndexOf(ts, id) == j;
    var r := Drop(ts, {id});
    DropMember(ts, {id}, ts[k]);
    var m :| 0 <= m < |r| && r[m] == ts[k];
    DropFrame(ts, {id}, id);
    assert !LinkOk(r, r[m]);
  }

  // --------------------------------------- lists with the same hierarchy data

  /** The fields that the invariant speaks of agree. */
  predicate SameHierarchy(t: Task, u: Task) {
    && t.id == u.id && t.parentTaskId == u.parentTaskId
    && t.completedAt == u.completedAt && t.parentManualReopenAt == u.parentManualReopenAt
  }

  predicate Covers(a: seq<Task>, b: seq<Task>) {
    forall t :: t in a ==> exists u :: u in b && SameHierarchy(t, u)
  }

  lemma CarriedOver(a: seq<Task>, b: seq<Task>, x: Id)
    requires Covers(a, b)
    ensures TopLevel(a, x) ==> TopLevel(b, x)
    ensures HasSubtasks(a, x) ==> HasSubtasks(b, x)
    ensures AllSubtasksCompleted(b, x) ==> AllSubtasksCompleted(a, x)
  {
    forall i | 0 <= i < |a| ensures exists u :: u in b && SameHierarchy(a[i], u) {
      assert a[i] in a;
    }
    if i :| 0 <= i < |a| && a[i].id == x && a[i].parentTaskId.None? {
      var u :| u in b && SameHierarchy(a[i], u);
    }
    if i :| 0 <= i < |a| && a[i].parentTaskId == Some(x) {
      var u :| u in b && SameHierarchy(a[i], u);
    }
    if AllSubtasksCompleted(b, x) {
      forall i | 0 <= i < |a| && a[i].parentTaskId == Some(x) ensures a[i].completedAt.Some? {
        var u :| u in b && SameHierarchy(a[i], u);
      }
    }
  }

  lemma SameHierarchyTask(a: seq<Task>, b: seq<Task>, t: Task, u: Task)
    requires Covers(a, b) && Covers(b, a) && SameHierarchy(t, u)
    requires LinkOk(a, t) && CompletionOk(a, t)
    ensures LinkOk(b, u) && CompletionOk(b, u)
  {
    CarriedOver(a, b, t.id);
    CarriedOver(b, a, t.id);
    if t.parentTaskId.Some? {
      CarriedOver(a, b, t.parentTaskId.value);
    }
  }

  lemma SameHierarchyInv(a: seq<Task>, b: seq<Task>)
    requires Inv(a) && UniqueIds(b) && Covers(a, b) && Covers(b, a)
    ensures Inv(b)
  {
    forall i | 0 <= i < |b| ensures LinkOk(b, b[i]) && CompletionOk(b, b[i]) {
      assert b[i] in b;
      var t :| t in a && SameHierarchy(b[i], t);
      var j :| 0 <= j < |a| && a[j] == t;
      assert LinkOk(a, a[j]) && CompletionOk(a, a[j]);
      SameHierarchyTask(a, b, t, b[i]);
    }
  }

  /** Edits that leave the hierarchy fields alone keep the invariant. */
  lemma FieldEditsKeepInv(a: seq<Task>, b: seq<Task>)
    requires Inv(a) && |a| == |b| && forall i :: 0 <= i < |a| ==> SameHierarchy(a[i], b[i])
    ensures Inv(b)
  {
    PointwiseCovers(a, b);
    SameHierarchyInv(a, b);
  }

  lemma PointwiseCovers(a: seq<Task>, b: seq<Task>)
    requires |a| == |b| && forall i :: 0 <= i < |a| ==> SameHierarchy(a[i], b[i])
    ensures Covers(a, b) && Covers(b, a) && (UniqueIds(a) ==> UniqueIds(b))
  {
    forall t | t in a ensures exists u :: u in b && SameHierarchy(t, u) {
      var i :| 0 <= i < |a| && a[i] == t;
      assert b[i] in b;
    }
    forall u | u in b ensures exists t :: t in a && SameHierarchy(u, t) {
      var i :| 0 <= i < |b| && b[i] == u;
      assert a[i] in a && SameHierarchy(b[i], a[i]);
    }
  }
}
