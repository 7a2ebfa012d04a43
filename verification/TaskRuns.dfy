/** Whole runs of local operations on the task list keep the hierarchy and completion
    invariant; loading and remote updates restore its one-level part from any task list. */
module TaskRuns {
  import opened Prelude
  import opened Lists
  import opened TaskModel
  import opened TaskHierarchy
  import opened TaskDeletion
  import opened TaskEdits
  import opened TaskImport
  import opened TaskReorder

  // ----------------------------------------------------- the other operations

  function WithoutCategory(cats: seq<string>, cat: string): (r: seq<string>)
    ensures cat !in r
    ensures forall c :: c in r <==> c in cats && c != cat
  {
    if cats == [] then []
    else if cats[0] == cat then WithoutCategory(cats[1..], cat)
    else [cats[0]] + WithoutCategory(cats[1..], cat)
  }

  function RecategorizedTask(t: Task, cat: string, replacement: Option<string>, now: Date): Task {
    if cat !in t.categories then t
    else
      var cats := WithoutCategory(t.categories, cat);
      t.(categories := if replacement.Some? && replacement.value !in cats then cats + [replacement.value] else cats,
         updatedAt := now)
  }

  /** updateTasksForCategoryRemoval. */
  function RemoveCategory(ts: seq<Task>, cat: string, replacement: Option<string>, now: Date): (r: seq<Task>)
    ensures |r| == |ts|
  {
    seq(|ts|, i requires 0 <= i < |ts| => RecategorizedTask(ts[i], cat, replacement, now))
  }

  // -------------------------------------------------------------------- runs

  datatype Op =
    | Add(task: Task, nowMs: int)
    | Edit(id: Id, edited: Task)
    | Reparent(id: Id, parentId: Option<Id>)
    | Delete(id: Id)
    | DeleteParent(id: Id, strategy: Strategy)
    | Complete(id: Id)
    | Restore(id: Id)
    | Reorder(ids: seq<Id>, nowBase: int)
    | DropOnSubtasks(id: Id, pid: Id, target: Target, done: bool, nowBase: int)
    | DeleteCategory(category: string, replacement: Option<string>)
    | Import(batch: seq<Task>, baseOrder: int)

  function Apply(ts: seq<Task>, op: Op, now: Date): seq<Task> {
    match op
    case Add(task, nowMs) => AddTask(ts, task, nowMs, now)
    case Edit(id, edited) => EditTask(ts, id, edited, now)
    case Reparent(id, parentId) => SetParent(ts, id, parentId, now)
    case Delete(id) => DeleteTask(ts, id, now)
    case DeleteParent(id, strategy) => DeleteParentTask(ts, id, strategy, now)
    case Complete(id) => CompleteTask(ts, id, now)
    case Restore(id) => RestoreTask(ts, id, now)
    case Reorder(ids, nowBase) => ReorderTasks(ts, ids, nowBase, now)
    case DropOnSubtasks(id, pid, target, done, nowBase) => SubtaskDrop(ts, id, pid, target, done, nowBase, now)
    case DeleteCategory(category, replacement) => RemoveCategory(ts, category, replacement, now)
    case Import(batch, baseOrder) => ImportTasks(ts, batch, baseOrder)
  }

  /** reorderTasks traps on an id that occurs twice. */
  predicate Callable(op: Op) {
    op.Reorder? ==> Distinct(op.ids)
  }

  /** The calls that keep the rules. The app does not make only these: with the hierarchy switched off its lists and
      its editor call deleteTask on a parent as on any task; TaskLoose says what survives that. */
  predicate Fits(ts: seq<Task>, op: Op) {
    match op
    case Add(task, _) => !Has(ts, task.id) && (task.parentManualReopenAt.None? || task.parentTaskId.None?)
    case Edit(id, edited) => Has(ts, id) ==> EditFits(ts, IndexOf(ts, id), edited.(id := id))
    case Delete(id) => !HasSubtasks(ts, id)
    case Import(batch, _) => UniqueIds(ts + batch) && ImportOk(ts, batch)
    case _ => true
  }

  /** A run of any calls, each on what the one before it left. */
  predicate IsRun(states: seq<seq<Task>>, ops: seq<(Op, Date)>) {
    && |states| == |ops| + 1
    && forall i :: 0 <= i < |ops| ==>
         Callable(ops[i].0) && states[i + 1] == Apply(states[i], ops[i].0, ops[i].1)
  }

  lemma EditTaskKeepsInv(ts: seq<Task>, id: Id, edited: Task, now: Date)
    requires Inv(ts)
    ensures Inv(EditTask(ts, id, edited, now)) <==> Fits(ts, Edit(id, edited))
  {
    var i := IndexOf(ts, id);
    if i < |ts| {
      EditKeepsInvIff(ts, i, edited.(id := id, updatedAt := now));
      EditFitsStamped(ts, i, edited.(id := id), now);
    }
  }

  /** The time of the edit does not matter. */
  lemma EditFitsStamped(ts: seq<Task>, i: nat, t: Task, now: Date)
    requires i < |ts|
    ensures EditFits(ts, i, t.(updatedAt := now)) <==> EditFits(ts, i, t)
  {
  }

  /** An id that is taken stays twice in the list. */
  lemma AddedTwice(ts: seq<Task>, task: Task, nowMs: int, now: Date)
    requires Has(ts, task.id)
    ensures !Inv(AddTask(ts, task, nowMs, now))
  {
    var i := IndexOf(ts, task.id);
    var r := AddTask(ts, task, nowMs, now);
    assert r[i].id == ts[i].id && r[|ts|].id == task.id;
  }

  lemma ImportedTwice(ts: seq<Task>, batch: seq<Task>, baseOrder: int)
    requires !UniqueIds(ts + batch)
    ensures !Inv(ImportTasks(ts, batch, baseOrder))
  {
    hide PreparedBatch;
    var r, plain := ImportTasks(ts, batch, baseOrder), ts + batch;
    forall i | 0 <= i < |r| ensures r[i].id == plain[i].id {
      if i >= |ts| { BatchLinks(ts, batch, baseOrder, i - |ts|); }
    }
    var i, j :| 0 <= i < j < |plain| && plain[i].id == plain[j].id;
    assert r[i].id == r[j].id;
  }

  lemma SubtaskDropKeepsInv(ts: seq<Task>, d: Id, pid: Id, target: Target, done: bool, nowBase: int, now: Date)
    requires Inv(ts)
    ensures Inv(SubtaskDrop(ts, d, pid, target, done, nowBase, now))
  {
    if d != pid {
      var ts1 := SetParent(ts, d, Some(pid), now);
      SetParentKeepsInv(ts, d, Some(pid), now);
      ListedUnique(ts1, pid, done);
      OrderIds(Listed(ts1, pid, done));
      MovedDistinct(Ids(SubtaskList(ts1, pid, done)), d, target);
      ReorderKeepsInv(ts1, Moved(Ids(SubtaskList(ts1, pid, done)), d, target), nowBase, now);
    }
  }

  /** Every call keeps the rules exactly when it fits. */
  lemma StepKeepsInv(ts: seq<Task>, op: Op, now: Date)
    requires Inv(ts) && Callable(op)
    ensures Inv(Apply(ts, op, now)) <==> Fits(ts, op)
  {
    hide Inv, EditFits, ImportOk;
    match op {
      case Add(task, nowMs) =>
        if Has(ts, task.id) { AddedTwice(ts, task, nowMs, now); } else { AddKeepsInv(ts, task, nowMs, now); }
      case Edit(id, edited) => EditTaskKeepsInv(ts, id, edited, now);
      case Reparent(id, parentId) => SetParentKeepsInv(ts, id, parentId, now);
      case Delete(id) => DeleteKeepsInv(ts, id, now);
      case DeleteParent(id, strategy) => DeleteParentKeepsInv(ts, id, strategy, now);
      case Complete(id) => CompleteKeepsInv(ts, id, now);
      case Restore(id) => RestoreKeepsInv(ts, id, now);
      case Reorder(ids, nowBase) => ReorderKeepsInv(ts, ids, nowBase, now);
      case DropOnSubtasks(id, pid, target, done, nowBase) =>
        SubtaskDropKeepsInv(ts, id, pid, target, done, nowBase, now);
      case DeleteCategory(category, replacement) =>
        RemoveCategoryKeepsInv(ts, category, replacement, now);
      case Import(batch, baseOrder) =>
        if UniqueIds(ts + batch) { ImportKeepsInv(ts, batch, baseOrder); } else { ImportedTwice(ts, batch, baseOrder); }
    }
  }

  lemma RemoveCategoryKeepsInv(ts: seq<Task>, category: string, replacement: Option<string>, now: Date)
    requires Inv(ts)
    ensures Inv(RemoveCategory(ts, category, replacement, now))
  {
    FieldEditsKeepInv(ts, RemoveCategory(ts, category, replacement, now));
  }

  lemma {:induction false} FitsSoFar(states: seq<seq<Task>>, ops: seq<(Op, Date)>, n: nat)
    requires IsRun(states, ops) && Inv(states[0]) && n < |states|
    requires forall i :: 0 <= i < n ==> Fits(states[i], ops[i].0)
    ensures Inv(states[n])
  {
    hide Inv, Fits, Callable;
    if n > 0 {
      FitsSoFar(states, ops, n - 1);
      StepKeepsInv(states[n - 1], ops[n - 1].0, ops[n - 1].1);
    }
  }

  /** Over any run of calls the rules (one-level links, propagated completion, sound reopen marks) hold in every state
      exactly when every call fits the state it is made in. */
  lemma RunKeepsInv(states: seq<seq<Task>>, ops: seq<(Op, Date)>)
    requires IsRun(states, ops) && Inv(states[0])
    ensures (forall n :: 0 <= n < |states| ==> Inv(states[n]))
       <==> (forall i :: 0 <= i < |ops| ==> Fits(states[i], ops[i].0))
  {
    hide Inv, Fits, Callable;
    if forall i :: 0 <= i < |ops| ==> Fits(states[i], ops[i].0) {
      forall n | 0 <= n < |states| ensures Inv(states[n]) {
        FitsSoFar(states, ops, n);
      }
    }
    if forall n :: 0 <= n < |states| ==> Inv(states[n]) {
      forall i | 0 <= i < |ops| ensures Fits(states[i], ops[i].0) {
        assert Inv(states[i + 1]);
        StepKeepsInv(states[i], ops[i].0, ops[i].1);
      }
    }
  }

  // ----------------------------------------------- repairing arbitrary lists

  /** One task as sanitizeHierarchy leaves it; the lookup is in the list as it was. */
  function SanitizedTask(ts: seq<Task>, t: Task): Task {
    var kept :=
      match t.parentTaskId
      case None => t
      case Some(pid) =>
        var i := IndexOf(ts, pid);
        if pid == t.id || i == |ts| || ts[i].parentTaskId.Some? then t.(parentTaskId := None) else t;
    if kept.parentTaskId.Some? then kept.(parentManualReopenAt := None) else kept
  }

  /** sanitizeHierarchy. */
  function Sanitize(ts: seq<Task>): (r: seq<Task>)
    ensures |r| == |ts|
  {
    seq(|ts|, i requires 0 <= i < |ts| => SanitizedTask(ts, ts[i]))
  }

  /** A reference survives exactly when it was valid, whatever the graph: chains, cycles,
      self references and dangling ones included. */
  lemma SanitizeKeepsExactlyValid(ts: seq<Task>, i: nat)
    requires UniqueIds(ts) && i < |ts|
    ensures Sanitize(ts)[i].parentTaskId == if LinkOk(ts, ts[i]) then ts[i].parentTaskId else None
    ensures Sanitize(ts)[i] == ts[i].(parentTaskId := Sanitize(ts)[i].parentTaskId,
                                      parentManualReopenAt := Sanitize(ts)[i].parentManualReopenAt)
    ensures Sanitize(ts)[i].parentManualReopenAt ==
            if Sanitize(ts)[i].parentTaskId.Some? then None else ts[i].parentManualReopenAt
  {
    var t := ts[i];
    if t.parentTaskId.Some? && TopLevel(ts, t.parentTaskId.value) {
      var j :| 0 <= j < |ts| && ts[j].id == t.parentTaskId.value && ts[j].parentTaskId.None?;
      assert IndexOf(ts, t.parentTaskId.value) == j;
    }
  }

  /** The result always has one level. */
  lemma SanitizeEnforcesOneLevel(ts: seq<Task>)
    requires UniqueIds(ts)
    ensures UniqueIds(Sanitize(ts))
    ensures forall t :: t in Sanitize(ts) ==>
              LinkOk(Sanitize(ts), t) && (t.parentTaskId.Some? ==> t.parentManualReopenAt.None?)
  {
    var r := Sanitize(ts);
    forall i | 0 <= i < |r| ensures LinkOk(r, r[i]) && (r[i].parentTaskId.Some? ==> r[i].parentManualReopenAt.None?) {
      SanitizeKeepsExactlyValid(ts, i);
      if r[i].parentTaskId.Some? {
        var j :| 0 <= j < |ts| && ts[j].id == ts[i].parentTaskId.value && ts[j].parentTaskId.None?;
        SanitizeKeepsExactlyValid(ts, j);
        assert r[j].id == r[i].parentTaskId.value && r[j].parentTaskId.None?;
      }
    }
  }

  /** A second application changes nothing. */
  lemma SanitizeIdempotent(ts: seq<Task>)
    requires UniqueIds(ts)
    ensures Sanitize(Sanitize(ts)) == Sanitize(ts)
  {
    var r := Sanitize(ts);
    SanitizeEnforcesOneLevel(ts);
    forall i | 0 <= i < |r| ensures Sanitize(r)[i] == r[i] {
      assert r[i] in r;
      SanitizeKeepsExactlyValid(r, i);
    }
  }
}
