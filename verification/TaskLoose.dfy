/** What survives when a parent is deleted as if it were a plain task, and the deletion perhaps undone: links
    name a top-level task or nothing, and marks stay on open parents. Cleaning the list restores all rules but
    the completion of parents, and that exactly where no open parent is left above complete subtasks. */
module TaskLoose {
  import opened Prelude
  import opened Lists
  import opened TaskModel
  import opened TaskHierarchy
  import opened TaskDeletion
  import opened TaskEdits
  import opened TaskImport
  import opened TaskReorder
  import opened TaskRuns

  // ------------------------------------------------------------ looser invariant

  /** A parent reference names a top-level task other than the task itself, or nothing. */
  predicate LinkLoose(ts: seq<Task>, t: Task) {
    t.parentTaskId.Some? ==>
      t.parentTaskId.value != t.id && (TopLevel(ts, t.parentTaskId.value) || !Has(ts, t.parentTaskId.value))
  }

  /** A reopen mark is only on an open top-level task. */
  predicate MarkShape(t: Task) {
    t.parentManualReopenAt.Some? ==> t.parentTaskId.None? && t.completedAt.None?
  }

  predicate MarkOk(ts: seq<Task>, t: Task) {
    t.parentManualReopenAt.Some? ==> HasSubtasks(ts, t.id)
  }

  /** The loose invariant, with the marks of some tasks still to be reconciled. */
  predicate LooseBut(ts: seq<Task>, slack: set<Id>) {
    && UniqueIds(ts)
    && (forall i :: 0 <= i < |ts| ==> LinkLoose(ts, ts[i]) && MarkShape(ts[i]))
    && (forall i :: 0 <= i < |ts| && ts[i].id !in slack ==> MarkOk(ts, ts[i]))
  }

  predicate LooseInv(ts: seq<Task>) {
    LooseBut(ts, {})
  }

  lemma InvIsLoose(ts: seq<Task>)
    requires Inv(ts)
    ensures LooseInv(ts)
  {
    forall i | 0 <= i < |ts| ensures LinkLoose(ts, ts[i]) && MarkShape(ts[i]) && MarkOk(ts, ts[i]) {
      assert LinkOk(ts, ts[i]) && CompletionOk(ts, ts[i]);
    }
  }

  // --------------------------------------------------------- parts of operations

  lemma HasIff(ts: seq<Task>, x: Id)
    ensures Has(ts, x) <==> exists i :: 0 <= i < |ts| && ts[i].id == x
  {
  }

  /** Replacing a task by one of the same id. */
  lemma HasEdited(ts: seq<Task>, i: nat, t: Task, x: Id)
    requires i < |ts| && t.id == ts[i].id
    ensures Has(ts[i := t], x) <==> Has(ts, x)
  {
    var ts' := ts[i := t];
    HasIff(ts, x);
    HasIff(ts', x);
    assert forall j :: 0 <= j < |ts| ==> ts'[j].id == ts[j].id;
  }

  /** A task that keeps its place in the hierarchy leaves the others as they were. */
  lemma SamePlace(ts: seq<Task>, i: nat, t: Task, slack: set<Id>, slack': set<Id>)
    requires LooseBut(ts, slack) && i < |ts| && t.id == ts[i].id && t.parentTaskId == ts[i].parentTaskId
    requires MarkShape(t) && (t.id !in slack' ==> MarkOk(ts, t)) && slack <= slack' + {t.id}
    ensures LooseBut(ts[i := t], slack')
  {
    var ts' := ts[i := t];
    forall j | 0 <= j < |ts'|
      ensures LinkLoose(ts', ts'[j]) && MarkShape(ts'[j]) && (ts'[j].id !in slack' ==> MarkOk(ts', ts'[j]))
    {
      assert LinkLoose(ts, ts[j]) && MarkShape(ts[j]);
      EditFrame(ts, i, t, ts'[j].id);
      if ts'[j].parentTaskId.Some? {
        EditFrame(ts, i, t, ts'[j].parentTaskId.value);
        HasEdited(ts, i, t, ts'[j].parentTaskId.value);
      }
    }
  }

  lemma ReconciledMark(p: Task, hasSubtasks: bool, allDone: bool, reset: bool, now: Date)
    requires MarkShape(p) && p.parentTaskId.None?
    ensures var q := ReconciledParent(p, hasSubtasks, allDone, reset, now);
            && q.id == p.id && q.parentTaskId == p.parentTaskId && MarkShape(q)
            && (q.parentManualReopenAt.Some? ==> hasSubtasks)
  {
  }

  /** Reconciling a parent settles its mark. */
  lemma ReconcileLoose(ts: seq<Task>, pid: Id, reset: bool, now: Date, slack: set<Id>)
    requires LooseBut(ts, slack + {pid})
    ensures LooseBut(Reconcile(ts, pid, reset, now), slack)
  {
    var i := TopIndex(ts, pid);
    if i == |ts| {
      forall j | 0 <= j < |ts| && ts[j].id !in slack ensures MarkOk(ts, ts[j]) {
        assert MarkShape(ts[j]);
      }
    } else {
      assert MarkShape(ts[i]);
      ReconciledMark(ts[i], HasSubtasks(ts, pid), AllSubtasksCompleted(ts, pid), reset, now);
      var q := ReconciledParent(ts[i], HasSubtasks(ts, pid), AllSubtasksCompleted(ts, pid), reset, now);
      SamePlace(ts, i, q, slack + {pid}, slack);
    }
  }

  lemma ReconcileIfLoose(ts: seq<Task>, pid: Option<Id>, reset: bool, now: Date, slack: set<Id>)
    requires LooseBut(ts, slack + Named(pid))
    ensures LooseBut(ReconcileIf(ts, pid, reset, now), slack)
  {
    if pid.Some? {
      ReconcileLoose(ts, pid.value, reset, now, slack);
    } else {
      assert slack + {} == slack;
    }
  }

  lemma LessSlack(ts: seq<Task>, slack: set<Id>, more: set<Id>)
    requires LooseBut(ts, slack) && slack <= more
    ensures LooseBut(ts, more)
  {
  }

  // ------------------------------------------------------ every operation keeps it

  lemma AddKeepsLoose(ts: seq<Task>, task: Task, nowMs: int, now: Date)
    requires LooseInv(ts) && !Has(ts, task.id) && (task.parentManualReopenAt.None? || task.parentTaskId.None?)
    requires HasSubtasks(ts, task.id) ==> task.parentTaskId.None?
    ensures LooseInv(AddTask(ts, task, nowMs, now))
  {
    var t := PreparedTask(ts, task, nowMs);
    PreparedLink(ts, task, nowMs);
    AppendLoose(ts, t);
    LessSlack(ts + [t], {}, {} + Named(t.parentTaskId));
    ReconcileIfLoose(ts + [t], t.parentTaskId, true, now, {});
  }

  /** A new task, unmarked, below a top-level task or, when others refer to its id, on the top level. */
  lemma AppendLoose(ts: seq<Task>, t: Task)
    requires LooseInv(ts) && !Has(ts, t.id) && t.parentManualReopenAt.None?
    requires t.parentTaskId.Some? ==> TopLevel(ts, t.parentTaskId.value) && !HasSubtasks(ts, t.id)
    ensures LooseInv(ts + [t])
  {
    var ts' := ts + [t];
    HasIff(ts, t.id);
    assert ts'[|ts|] == t && forall j :: 0 <= j < |ts| ==> ts'[j] == ts[j];
    forall j | 0 <= j < |ts'| ensures LinkLoose(ts', ts'[j]) && MarkShape(ts'[j]) && MarkOk(ts', ts'[j]) {
      AppendFrame(ts, t, ts'[j].id);
      if j < |ts| { assert LinkLoose(ts, ts[j]) && MarkShape(ts[j]) && MarkOk(ts, ts[j]); }
      if ts'[j].parentTaskId.Some? {
        var p := ts'[j].parentTaskId.value;
        AppendFrame(ts, t, p);
        HasIff(ts, p);
        HasIff(ts', p);
        if p == t.id && j < |ts| { assert HasSubtasks(ts, t.id); }
        if j == |ts| {
          var k :| 0 <= k < |ts| && ts[k].id == p && ts[k].parentTaskId.None?;
        }
      }
    }
  }

  /** A subtask has no subtasks of its own. */
  lemma NoGrandchildren(ts: seq<Task>, i: nat)
    requires LooseInv(ts) && i < |ts| && ts[i].parentTaskId.Some?
    ensures !HasSubtasks(ts, ts[i].id)
  {
    HasIff(ts, ts[i].id);
    assert !TopLevel(ts, ts[i].id);
    forall j | 0 <= j < |ts| ensures ts[j].parentTaskId != Some(ts[i].id) {
      assert LinkLoose(ts, ts[j]);
    }
  }

  lemma SetParentKeepsLoose(ts: seq<Task>, id: Id, parentId: Option<Id>, now: Date)
    requires LooseInv(ts)
    ensures LooseInv(SetParent(ts, id, parentId, now))
  {
    if SetParentAllowed(ts, id, parentId) {
      var i := IndexOf(ts, id);
      var t := Reparented(ts, ts[i], parentId, now);
      var from := ts[i].parentTaskId;
      MovedLoose(ts, i, t);
      var all := {} + Named(parentId) + Named(from);
      LessSlack(ts[i := t], Named(from), all);
      ReconcileIfLoose(ts[i := t], from, true, now, {} + Named(parentId));
      ReconcileIfLoose(ReconcileIf(ts[i := t], from, true, now), parentId, true, now, {});
    }
  }

  /** A task moves; only the mark of its old parent may have lost its reason. */
  lemma MovedLoose(ts: seq<Task>, i: nat, t: Task)
    requires LooseInv(ts) && i < |ts| && t.id == ts[i].id
    requires t.parentTaskId.Some? ==>
               t.parentTaskId.value != t.id && TopLevel(ts, t.parentTaskId.value) && !HasSubtasks(ts, t.id)
               && t.parentManualReopenAt.None?
    requires t.parentTaskId.None? ==>
               t.parentManualReopenAt == ts[i].parentManualReopenAt && t.completedAt == ts[i].completedAt
    ensures LooseBut(ts[i := t], Named(ts[i].parentTaskId))
  {
    var ts' := ts[i := t];
    if ts[i].parentTaskId.Some? { NoGrandchildren(ts, i); }
    forall j | 0 <= j < |ts'|
      ensures LinkLoose(ts', ts'[j]) && MarkShape(ts'[j])
      ensures ts'[j].id !in Named(ts[i].parentTaskId) ==> MarkOk(ts', ts'[j])
    {
      assert LinkLoose(ts, ts[j]) && MarkShape(ts[j]) && MarkOk(ts, ts[j]);
      assert MarkShape(ts[i]) && MarkOk(ts, ts[i]);
      EditFrame(ts, i, t, ts'[j].id);
      StillParent(ts, i, t, ts'[j].id);
      if ts'[j].parentTaskId.Some? {
        var p := ts'[j].parentTaskId.value;
        EditFrame(ts, i, t, p);
        HasEdited(ts, i, t, p);
        if j != i && p == t.id { assert HasSubtasks(ts, t.id); }
      }
    }
  }

  /** Whoever had subtasks still has some, but for the old parent of the task that moved. */
  lemma StillParent(ts: seq<Task>, i: nat, t: Task, x: Id)
    requires i < |ts|
    ensures HasSubtasks(ts, x) && ts[i].parentTaskId != Some(x) ==> HasSubtasks(ts[i := t], x)
  {
    if HasSubtasks(ts, x) && ts[i].parentTaskId != Some(x) {
      var k :| 0 <= k < |ts| && ts[k].parentTaskId == Some(x);
      assert ts[i := t][k] == ts[k];
    }
  }

  lemma DeleteKeepsLoose(ts: seq<Task>, id: Id, now: Date)
    requires LooseInv(ts)
    ensures LooseInv(DeleteTask(ts, id, now))
  {
    var i := IndexOf(ts, id);
    var r := Drop(ts, {id});
    var pid := if i < |ts| then ts[i].parentTaskId else None;
    DropUnique(ts, {id});
    forall j | 0 <= j < |r|
      ensures LinkLoose(r, r[j]) && MarkShape(r[j]) && (r[j].id !in Named(pid) ==> MarkOk(r, r[j]))
    {
      DroppedLoose(ts, id, r[j]);
    }
    LessSlack(r, Named(pid), {} + Named(pid));
    ReconcileIfLoose(r, pid, true, now, {});
  }

  lemma HasDropped(ts: seq<Task>, id: Id, x: Id)
    ensures Has(Drop(ts, {id}), x) ==> Has(ts, x)
    ensures !Has(Drop(ts, {id}), id)
  {
    var r := Drop(ts, {id});
    HasIff(ts, x);
    HasIff(r, x);
    HasIff(r, id);
    forall j | 0 <= j < |r| ensures r[j] in ts && r[j].id != id {
      DropMember(ts, {id}, r[j]);
    }
  }

  lemma DroppedLoose(ts: seq<Task>, id: Id, t: Task)
    requires LooseInv(ts) && t in Drop(ts, {id})
    ensures var i := IndexOf(ts, id);
            var pid := if i < |ts| then ts[i].parentTaskId else None;
            LinkLoose(Drop(ts, {id}), t) && MarkShape(t) && (t.id !in Named(pid) ==> MarkOk(Drop(ts, {id}), t))
  {
    DropMember(ts, {id}, t);
    var k :| 0 <= k < |ts| && ts[k] == t;
    assert LinkLoose(ts, ts[k]) && MarkShape(ts[k]) && MarkOk(ts, ts[k]);
    DropFrame(ts, {id}, t.id);
    if t.parentTaskId.Some? {
      DropFrame(ts, {id}, t.parentTaskId.value);
      HasDropped(ts, id, t.parentTaskId.value);
    }
    if t.parentManualReopenAt.Some? {
      var c :| 0 <= c < |ts| && ts[c].parentTaskId == Some(t.id);
      HasIff(ts, id);
      if ts[c].id == id { assert IndexOf(ts, id) == c; }
    }
  }

  lemma StayKeepsLoose(ts: seq<Task>, i: nat, t: Task, reset: bool, now: Date)
    requires LooseInv(ts) && i < |ts| && t.id == ts[i].id && t.parentTaskId == ts[i].parentTaskId
    requires MarkShape(t) && MarkOk(ts, t)
    ensures LooseInv(ReconcileIf(ts[i := t], t.parentTaskId, reset, now))
  {
    SamePlace(ts, i, t, {}, {});
    LessSlack(ts[i := t], {}, {} + Named(t.parentTaskId));
    ReconcileIfLoose(ts[i := t], t.parentTaskId, reset, now, {});
  }

  lemma CompleteKeepsLoose(ts: seq<Task>, id: Id, now: Date)
    requires LooseInv(ts)
    ensures LooseInv(CompleteTask(ts, id, now))
  {
    var i := IndexOf(ts, id);
    if i < |ts| { StayKeepsLoose(ts, i, CompletedTask(ts[i], now), false, now); }
  }

  lemma RestoreKeepsLoose(ts: seq<Task>, id: Id, now: Date)
    requires LooseInv(ts)
    ensures LooseInv(RestoreTask(ts, id, now))
  {
    var i := IndexOf(ts, id);
    if i < |ts| {
      assert MarkShape(ts[i]) && MarkOk(ts, ts[i]);
      if ts[i].parentTaskId.Some? { NoGrandchildren(ts, i); }
      StayKeepsLoose(ts, i, RestoredTask(ts, ts[i], now), true, now);
    }
  }

  lemma {:induction false} DeleteAllKeepsLoose(ts: seq<Task>, ids: seq<Id>, now: Date)
    requires LooseInv(ts)
    ensures LooseInv(DeleteAll(ts, ids, now))
    decreases |ids|
  {
    if ids != [] {
      DeleteKeepsLoose(ts, ids[0], now);
      DeleteAllKeepsLoose(DeleteTask(ts, ids[0], now), ids[1..], now);
    }
  }

  lemma {:induction false} DetachAllKeepsLoose(ts: seq<Task>, ids: seq<Id>, now: Date)
    requires LooseInv(ts)
    ensures LooseInv(DetachAll(ts, ids, now))
    decreases |ids|
  {
    if ids != [] {
      SetParentKeepsLoose(ts, ids[0], None, now);
      DetachAllKeepsLoose(SetParent(ts, ids[0], None, now), ids[1..], now);
    }
  }

  lemma DeleteParentKeepsLoose(ts: seq<Task>, id: Id, strategy: Strategy, now: Date)
    requires LooseInv(ts)
    ensures LooseInv(DeleteParentTask(ts, id, strategy, now))
  {
    var ids := Ids(Subtasks(ts, id));
    if !HasSubtasks(ts, id) {
      DeleteKeepsLoose(ts, id, now);
    } else if strategy.DeleteSubtasks? {
      DeleteAllKeepsLoose(ts, ids, now);
      DeleteKeepsLoose(DeleteAll(ts, ids, now), id, now);
    } else {
      DetachAllKeepsLoose(ts, ids, now);
      DeleteKeepsLoose(DetachAll(ts, ids, now), id, now);
    }
  }

  lemma CoversHas(a: seq<Task>, b: seq<Task>, x: Id)
    requires Covers(a, b) && Has(a, x)
    ensures Has(b, x)
  {
    HasIff(a, x);
    HasIff(b, x);
    var i :| 0 <= i < |a| && a[i].id == x;
    assert a[i] in a;
    var u :| u in b && SameHierarchy(a[i], u);
  }

  lemma CoveredTask(a: seq<Task>, b: seq<Task>, t: Task, u: Task)
    requires Covers(a, b) && Covers(b, a) && SameHierarchy(u, t)
    requires LinkLoose(a, t) && MarkShape(t) && MarkOk(a, t)
    ensures LinkLoose(b, u) && MarkShape(u) && MarkOk(b, u)
  {
    hide Covers, TopLevel, HasSubtasks, AllSubtasksCompleted, Has;
    CarriedOver(a, b, t.id);
    if t.parentTaskId.Some? {
      CarriedOver(a, b, t.parentTaskId.value);
      if Has(b, t.parentTaskId.value) { CoversHas(b, a, t.parentTaskId.value); }
    }
  }

  /** Lists with the same hierarchy data. */
  lemma CoveredLoose(a: seq<Task>, b: seq<Task>)
    requires LooseInv(a) && UniqueIds(b) && Covers(a, b) && Covers(b, a)
    ensures LooseInv(b)
  {
    hide LinkLoose, MarkShape, MarkOk;
    forall i | 0 <= i < |b| ensures LinkLoose(b, b[i]) && MarkShape(b[i]) && MarkOk(b, b[i]) {
      assert b[i] in b;
      var t :| t in a && SameHierarchy(b[i], t);
      var j :| 0 <= j < |a| && a[j] == t;
      assert LinkLoose(a, a[j]) && MarkShape(a[j]) && MarkOk(a, a[j]);
      CoveredTask(a, b, t, b[i]);
    }
  }

  lemma FieldEditsKeepLoose(a: seq<Task>, b: seq<Task>)
    requires LooseInv(a) && |a| == |b| && forall i :: 0 <= i < |a| ==> SameHierarchy(a[i], b[i])
    ensures LooseInv(b)
  {
    PointwiseCovers(a, b);
    CoveredLoose(a, b);
  }

  lemma ReorderKeepsLoose(ts: seq<Task>, ids: seq<Id>, nowBase: int, now: Date)
    requires LooseInv(ts) && Distinct(ids)
    ensures LooseInv(ReorderTasks(ts, ids, nowBase, now))
  {
    ReorderCovers(ts, ids, nowBase, now);
    CoveredLoose(ts, ReorderTasks(ts, ids, nowBase, now));
  }

  lemma SubtaskDropKeepsLoose(ts: seq<Task>, d: Id, pid: Id, target: Target, done: bool, nowBase: int, now: Date)
    requires LooseInv(ts)
    ensures LooseInv(SubtaskDrop(ts, d, pid, target, done, nowBase, now))
  {
    if d != pid {
      var ts1 := SetParent(ts, d, Some(pid), now);
      SetParentKeepsLoose(ts, d, Some(pid), now);
      ListedUnique(ts1, pid, done);
      OrderIds(Listed(ts1, pid, done));
      MovedDistinct(Ids(SubtaskList(ts1, pid, done)), d, target);
      ReorderKeepsLoose(ts1, Moved(Ids(SubtaskList(ts1, pid, done)), d, target), nowBase, now);
    }
  }

  /** Imported tasks with new ids that nothing refers to, and no mark along with a parent. */
  predicate ImportLoose(ts: seq<Task>, batch: seq<Task>) {
    && UniqueIds(ts + batch)
    && forall i :: 0 <= i < |batch| ==>
         !HasSubtasks(ts, batch[i].id) && (batch[i].parentTaskId.Some? ==> batch[i].parentManualReopenAt.None?)
  }

  lemma ImportKeepsLoose(ts: seq<Task>, batch: seq<Task>, baseOrder: int)
    requires LooseInv(ts) && ImportLoose(ts, batch)
    ensures LooseInv(ImportTasks(ts, batch, baseOrder))
  {
    var r, added := ImportTasks(ts, batch, baseOrder), PreparedBatch(ts, batch, baseOrder);
    ImportUnique(ts, batch, baseOrder);
    forall i | 0 <= i < |r| ensures LinkLoose(r, r[i]) && MarkShape(r[i]) && MarkOk(r, r[i]) {
      if i < |ts| {
        OldStaysLoose(ts, batch, baseOrder, i);
      } else {
        NewIsLoose(ts, batch, baseOrder, i - |ts|);
      }
    }
  }

  lemma OldStaysLoose(ts: seq<Task>, batch: seq<Task>, baseOrder: int, i: nat)
    requires LooseInv(ts) && ImportLoose(ts, batch) && i < |ts|
    ensures var r := ImportTasks(ts, batch, baseOrder);
            LinkLoose(r, ts[i]) && MarkShape(ts[i]) && MarkOk(r, ts[i])
  {
    hide PreparedBatch;
    var r := ImportTasks(ts, batch, baseOrder);
    assert LinkLoose(ts, ts[i]) && MarkShape(ts[i]) && MarkOk(ts, ts[i]);
    ImportFrame(ts, batch, baseOrder, ts[i].id);
    if ts[i].parentTaskId.Some? {
      var p := ts[i].parentTaskId.value;
      ImportFrame(ts, batch, baseOrder, p);
      HasIff(ts, p);
      HasIff(r, p);
      forall k | 0 <= k < |batch| ensures PreparedBatch(ts, batch, baseOrder)[k].id != p {
        BatchLinks(ts, batch, baseOrder, k);
        assert HasSubtasks(ts, p) && !HasSubtasks(ts, batch[k].id);
      }
    }
  }

  lemma NewIsLoose(ts: seq<Task>, batch: seq<Task>, baseOrder: int, k: nat)
    requires LooseInv(ts) && ImportLoose(ts, batch) && k < |batch|
    ensures var r, t := ImportTasks(ts, batch, baseOrder), PreparedBatch(ts, batch, baseOrder)[k];
            LinkLoose(r, t) && MarkShape(t) && MarkOk(r, t)
  {
    hide PreparedBatch;
    var t := PreparedBatch(ts, batch, baseOrder)[k];
    BatchLinks(ts, batch, baseOrder, k);
    if t.parentTaskId.Some? {
      var p := t.parentTaskId.value;
      ImportFrame(ts, batch, baseOrder, p);
      var j :| 0 <= j < |ts| && ts[j].id == p && ts[j].parentTaskId.None?;
      assert (ts + batch)[j] == ts[j] && (ts + batch)[|ts| + k] == batch[k];
    }
  }

  // -------------------------------------------------------------------- runs

  /** Every call but these: an id that is taken, a mark along with a parent, an edit of the hierarchy fields, and
      a new subtask under an id that other tasks still refer to. Deleting is not restricted. */
  predicate LooseEnabled(ts: seq<Task>, op: Op) {
    match op
    case Add(task, _) =>
      && !Has(ts, task.id) && (task.parentManualReopenAt.None? || task.parentTaskId.None?)
      && (HasSubtasks(ts, task.id) ==> task.parentTaskId.None?)
    case Edit(id, edited) => Has(ts, id) ==> SameHierarchy(ts[IndexOf(ts, id)], edited)
    case Reorder(ids, _) => Distinct(ids)
    case Import(batch, _) => ImportLoose(ts, batch)
    case _ => true
  }

  predicate IsLooseRun(states: seq<seq<Task>>, ops: seq<(Op, Date)>) {
    && |states| == |ops| + 1
    && forall i :: 0 <= i < |ops| ==>
         LooseEnabled(states[i], ops[i].0) && states[i + 1] == Apply(states[i], ops[i].0, ops[i].1)
  }

  lemma StepKeepsLoose(ts: seq<Task>, op: Op, now: Date)
    requires LooseInv(ts) && LooseEnabled(ts, op)
    ensures LooseInv(Apply(ts, op, now))
  {
    hide LooseInv;
    match op {
      case Add(task, nowMs) => AddKeepsLoose(ts, task, nowMs, now);
      case Edit(id, edited) => FieldEditsKeepLoose(ts, EditTask(ts, id, edited, now));
      case Reparent(id, parentId) => SetParentKeepsLoose(ts, id, parentId, now);
      case Delete(id) => DeleteKeepsLoose(ts, id, now);
      case DeleteParent(id, strategy) => DeleteParentKeepsLoose(ts, id, strategy, now);
      case Complete(id) => CompleteKeepsLoose(ts, id, now);
      case Restore(id) => RestoreKeepsLoose(ts, id, now);
      case Reorder(ids, nowBase) => ReorderKeepsLoose(ts, ids, nowBase, now);
      case DropOnSubtasks(id, pid, target, done, nowBase) =>
        SubtaskDropKeepsLoose(ts, id, pid, target, done, nowBase, now);
      case DeleteCategory(category, replacement) =>
        FieldEditsKeepLoose(ts, RemoveCategory(ts, category, replacement, now));
      case Import(batch, baseOrder) => ImportKeepsLoose(ts, batch, baseOrder);
    }
  }

  /** Over every run, deletions of parents and their undoing included: a reference names a top-level task or
      nothing, never the task itself, and a mark implies top-level, open and at least one subtask. */
  lemma {:induction false} RunKeepsLoose(states: seq<seq<Task>>, ops: seq<(Op, Date)>, n: nat)
    requires IsLooseRun(states, ops) && LooseInv(states[0]) && n < |states|
    ensures LooseInv(states[n])
  {
    hide LooseInv, LooseEnabled;
    if n > 0 {
      RunKeepsLoose(states, ops, n - 1);
      StepKeepsLoose(states[n - 1], ops[n - 1].0, ops[n - 1].1);
    }
  }

  // ------------------------------------------------------------------- repair

  /** An open, unmarked parent above subtasks that are all complete. */
  predicate Overlooked(ts: seq<Task>, t: Task) {
    && t.parentTaskId.None? && t.completedAt.None? && t.parentManualReopenAt.None?
    && HasSubtasks(ts, t.id) && AllSubtasksCompleted(ts, t.id)
  }

  /** Cleaning leaves a top-level task its subtasks. */
  lemma SanitizeKeepsChildren(ts: seq<Task>, x: Id)
    requires LooseInv(ts) && TopLevel(ts, x)
    ensures HasSubtasks(Sanitize(ts), x) <==> HasSubtasks(ts, x)
    ensures AllSubtasksCompleted(Sanitize(ts), x) <==> AllSubtasksCompleted(ts, x)
  {
    var r := Sanitize(ts);
    forall i | 0 <= i < |ts|
      ensures (r[i].parentTaskId == Some(x) <==> ts[i].parentTaskId == Some(x)) && r[i].completedAt == ts[i].completedAt
    {
      assert LinkLoose(ts, ts[i]);
      SanitizeKeepsExactlyValid(ts, i);
    }
    hide Sanitize;
    if HasSubtasks(ts, x) {
      var i :| 0 <= i < |ts| && ts[i].parentTaskId == Some(x);
      assert r[i].parentTaskId == Some(x);
    }
  }

  /** Nothing refers to a subtask. */
  lemma SubtaskIsNoParent(ts: seq<Task>, i: nat)
    requires LooseInv(ts) && i < |ts| && ts[i].parentTaskId.Some?
    ensures !HasSubtasks(ts, ts[i].id)
  {
    forall j | 0 <= j < |ts| ensures ts[j].parentTaskId != Some(ts[i].id) {
      assert LinkLoose(ts, ts[j]);
      HasIff(ts, ts[i].id);
    }
  }

  /** An overlooked parent stays one, and cleaning makes no new ones. */
  lemma SanitizeOverlooks(ts: seq<Task>, i: nat)
    requires LooseInv(ts) && i < |ts|
    ensures Overlooked(Sanitize(ts), Sanitize(ts)[i]) <==> Overlooked(ts, ts[i])
  {
    var r := Sanitize(ts);
    SanitizeKeepsExactlyValid(ts, i);
    hide Sanitize;
    if ts[i].parentTaskId.None? {
      assert TopLevel(ts, ts[i].id);
      SanitizeKeepsChildren(ts, ts[i].id);
    } else if HasSubtasks(r, ts[i].id) {
      var j :| 0 <= j < |r| && r[j].parentTaskId == Some(ts[i].id);
      SanitizeKeepsExactlyValid(ts, j);
      SubtaskIsNoParent(ts, i);
    }
  }

  /** Cleaning such a list restores all rules exactly when the list has no open unmarked parent above subtasks that
      are all complete. */
  lemma SanitizeRepairs(ts: seq<Task>)
    requires LooseInv(ts)
    ensures Inv(Sanitize(ts)) <==> forall i :: 0 <= i < |ts| ==> !Overlooked(ts, ts[i])
  {
    var r := Sanitize(ts);
    SanitizeEnforcesOneLevel(ts);
    forall i | 0 <= i < |r| ensures LinkOk(r, r[i]) && (CompletionOk(r, r[i]) <==> !Overlooked(ts, ts[i])) {
      assert r[i] in r;
      assert LinkLoose(ts, ts[i]) && MarkShape(ts[i]) && MarkOk(ts, ts[i]);
      SanitizeKeepsExactlyValid(ts, i);
      SanitizeOverlooks(ts, i);
      if ts[i].parentManualReopenAt.Some? {
        assert TopLevel(ts, ts[i].id);
        SanitizeKeepsChildren(ts, ts[i].id);
      }
    }
  }

  /** Whatever was deleted and undone along a run that began with all rules in force: cleaning the list it ends with
      brings them all back exactly when that list has no open unmarked parent above complete subtasks. */
  lemma RunRepaired(states: seq<seq<Task>>, ops: seq<(Op, Date)>)
    requires IsLooseRun(states, ops) && Inv(states[0])
    ensures var last := states[|ops|];
            Inv(Sanitize(last)) <==> forall i :: 0 <= i < |last| ==> !Overlooked(last, last[i])
  {
    hide LooseInv, LooseEnabled, Inv, Overlooked, Sanitize;
    InvIsLoose(states[0]);
    RunKeepsLoose(states, ops, |ops|);
    SanitizeRepairs(states[|ops|]);
  }
}
