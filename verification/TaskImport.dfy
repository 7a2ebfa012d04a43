/** The task half of applySharedImports: imported tasks are appended without reconciling their parents, and
    exactly when that keeps the hierarchy and completion invariant. */
module TaskImport {
  import opened Prelude
  import opened TaskModel
  import opened TaskHierarchy

  /** The batch as it is appended; parents are looked up in the list as it was. */
  function PreparedBatch(ts: seq<Task>, batch: seq<Task>, baseOrder: int): (r: seq<Task>)
    ensures |r| == |batch|
  {
    seq(|batch|, i requires 0 <= i < |batch| => PreparedTask(ts, batch[i], baseOrder + i))
  }

  function ImportTasks(ts: seq<Task>, batch: seq<Task>, baseOrder: int): seq<Task> {
    ts + PreparedBatch(ts, batch, baseOrder)
  }

  /** An open, unmarked task on the top level that has no subtasks yet. */
  predicate Waiting(ts: seq<Task>, t: Task) {
    && t.parentTaskId.None? && t.completedAt.None? && t.parentManualReopenAt.None?
    && !HasSubtasks(ts, t.id)
  }

  /** The batch brings subtasks for this parent, all of them complete. */
  predicate OnlyComplete(batch: seq<Task>, pid: Id) {
    HasSubtasks(batch, pid) && AllSubtasksCompleted(batch, pid)
  }

  /** No task brings a reopen mark along with a parent, and no parent gets its first subtasks complete. */
  predicate ImportOk(ts: seq<Task>, batch: seq<Task>) {
    && (forall i :: 0 <= i < |batch| && batch[i].parentTaskId.Some? ==> batch[i].parentManualReopenAt.None?)
    && (forall i :: 0 <= i < |ts| && Waiting(ts, ts[i]) ==> !OnlyComplete(batch, ts[i].id))
  }

  lemma PreparedLink(ts: seq<Task>, t: Task, nowMs: int)
    ensures var p := PreparedTask(ts, t, nowMs);
            && p.id == t.id && p.completedAt == t.completedAt
            && p.parentTaskId ==
                (if t.parentTaskId.Some? && TopLevel(ts, t.parentTaskId.value) then t.parentTaskId else None)
            && p.parentManualReopenAt == if t.parentTaskId.None? then None else t.parentManualReopenAt
  {
    if t.parentTaskId.Some? { TopIndexFinds(ts, t.parentTaskId.value); }
  }

  lemma BatchLinks(ts: seq<Task>, batch: seq<Task>, baseOrder: int, k: nat)
    requires k < |batch|
    ensures var p := PreparedBatch(ts, batch, baseOrder)[k];
            && p.id == batch[k].id && p.completedAt == batch[k].completedAt
            && (forall x :: p.parentTaskId == Some(x) <==> batch[k].parentTaskId == Some(x) && TopLevel(ts, x))
            && p.parentManualReopenAt == if batch[k].parentTaskId.None? then None else batch[k].parentManualReopenAt
  {
    PreparedLink(ts, batch[k], baseOrder + k);
  }

  /** What the appended tasks change for a parent. */
  lemma ImportFrame(ts: seq<Task>, batch: seq<Task>, baseOrder: int, x: Id)
    ensures var r := ImportTasks(ts, batch, baseOrder);
            && (TopLevel(ts, x) ==> TopLevel(r, x))
            && (HasSubtasks(r, x) <==> HasSubtasks(ts, x) || (TopLevel(ts, x) && HasSubtasks(batch, x)))
            && (AllSubtasksCompleted(r, x)
                <==> AllSubtasksCompleted(ts, x) && (TopLevel(ts, x) ==> AllSubtasksCompleted(batch, x)))
  {
    hide PreparedBatch, TopLevel;
    var added := PreparedBatch(ts, batch, baseOrder);
    forall k | 0 <= k < |batch|
      ensures added[k].completedAt == batch[k].completedAt
           && (added[k].parentTaskId == Some(x) <==> batch[k].parentTaskId == Some(x) && TopLevel(ts, x))
    {
      BatchLinks(ts, batch, baseOrder, k);
    }
    AppendedFrame(ts, added, x);
    if HasSubtasks(batch, x) && TopLevel(ts, x) {
      var k :| 0 <= k < |batch| && batch[k].parentTaskId == Some(x);
      assert added[k].parentTaskId == Some(x);
    }
    if HasSubtasks(added, x) {
      var k :| 0 <= k < |added| && added[k].parentTaskId == Some(x);
      assert batch[k].parentTaskId == Some(x);
    }
  }

  lemma AppendedFrame(a: seq<Task>, b: seq<Task>, x: Id)
    ensures TopLevel(a + b, x) <==> TopLevel(a, x) || TopLevel(b, x)
    ensures HasSubtasks(a + b, x) <==> HasSubtasks(a, x) || HasSubtasks(b, x)
    ensures AllSubtasksCompleted(a + b, x) <==> AllSubtasksCompleted(a, x) && AllSubtasksCompleted(b, x)
  {
    var r := a + b;
    assert forall i :: 0 <= i < |a| ==> r[i] == a[i];
    assert forall i :: 0 <= i < |b| ==> r[|a| + i] == b[i];
    if TopLevel(b, x) {
      var i :| 0 <= i < |b| && b[i].id == x && b[i].parentTaskId.None?;
      assert r[|a| + i] == b[i];
    }
    if HasSubtasks(b, x) {
      var i :| 0 <= i < |b| && b[i].parentTaskId == Some(x);
      assert r[|a| + i] == b[i];
    }
  }

  /** A new id is nobody's parent, before and after. */
  lemma NewIsUnreferenced(ts: seq<Task>, batch: seq<Task>, baseOrder: int, k: nat)
    requires Inv(ts) && UniqueIds(ts + batch) && k < |batch|
    ensures !HasSubtasks(ImportTasks(ts, batch, baseOrder), batch[k].id)
  {
    var id := batch[k].id;
    assert (ts + batch)[|ts| + k] == batch[k];
    forall i | 0 <= i < |ts| ensures ts[i].id != id {
      assert (ts + batch)[i] == ts[i];
    }
    assert IndexOf(ts, id) == |ts|;
    FreshIsUnreferenced(ts, id);
    ImportFrame(ts, batch, baseOrder, id);
  }

  /** The rules for an old task afterwards. */
  lemma OldCompletion(ts: seq<Task>, batch: seq<Task>, baseOrder: int, i: nat)
    requires Inv(ts) && i < |ts|
    ensures CompletionOk(ImportTasks(ts, batch, baseOrder), ts[i])
       <==> !(Waiting(ts, ts[i]) && OnlyComplete(batch, ts[i].id))
  {
    assert CompletionOk(ts, ts[i]);
    ImportFrame(ts, batch, baseOrder, ts[i].id);
    if ts[i].parentTaskId.None? { assert TopLevel(ts, ts[i].id); }
    if !HasSubtasks(ts, ts[i].id) { assert AllSubtasksCompleted(ts, ts[i].id); }
  }

  lemma NewCompletion(ts: seq<Task>, batch: seq<Task>, baseOrder: int, k: nat)
    requires Inv(ts) && UniqueIds(ts + batch) && k < |batch|
    ensures CompletionOk(ImportTasks(ts, batch, baseOrder), PreparedBatch(ts, batch, baseOrder)[k])
       <==> batch[k].parentTaskId.None? || batch[k].parentManualReopenAt.None?
  {
    NewIsUnreferenced(ts, batch, baseOrder, k);
    BatchLinks(ts, batch, baseOrder, k);
  }

  lemma ImportedLinks(ts: seq<Task>, batch: seq<Task>, baseOrder: int, t: Task)
    requires Inv(ts) && UniqueIds(ts + batch) && t in ImportTasks(ts, batch, baseOrder)
    ensures LinkOk(ImportTasks(ts, batch, baseOrder), t)
  {
    var r := ImportTasks(ts, batch, baseOrder);
    var i :| 0 <= i < |r| && r[i] == t;
    if i < |ts| {
      assert LinkOk(ts, ts[i]);
    } else {
      BatchLinks(ts, batch, baseOrder, i - |ts|);
      assert (ts + batch)[i] == batch[i - |ts|];
      if t.parentTaskId.Some? {
        var j :| 0 <= j < |ts| && ts[j].id == t.parentTaskId.value && ts[j].parentTaskId.None?;
        assert (ts + batch)[j] == ts[j];
      }
    }
    if t.parentTaskId.Some? { ImportFrame(ts, batch, baseOrder, t.parentTaskId.value); }
  }

  lemma ImportUnique(ts: seq<Task>, batch: seq<Task>, baseOrder: int)
    requires UniqueIds(ts + batch)
    ensures UniqueIds(ImportTasks(ts, batch, baseOrder))
  {
    hide PreparedBatch;
    var r, plain := ImportTasks(ts, batch, baseOrder), ts + batch;
    forall i | 0 <= i < |r| ensures r[i].id == plain[i].id {
      if i >= |ts| { BatchLinks(ts, batch, baseOrder, i - |ts|); }
    }
  }

  /** Importing tasks with new ids keeps the invariant exactly when no reopen mark comes along with a parent and
      no waiting parent gets its first subtasks complete; nothing reconciles such a parent. */
  lemma ImportKeepsInv(ts: seq<Task>, batch: seq<Task>, baseOrder: int)
    requires Inv(ts) && UniqueIds(ts + batch)
    ensures Inv(ImportTasks(ts, batch, baseOrder)) <==> ImportOk(ts, batch)
  {
    hide HasSubtasks, AllSubtasksCompleted, Waiting, OnlyComplete, LinkOk, CompletionOk, PreparedBatch;
    var r, added := ImportTasks(ts, batch, baseOrder), PreparedBatch(ts, batch, baseOrder);
    ImportUnique(ts, batch, baseOrder);
    forall i | 0 <= i < |r| ensures LinkOk(r, r[i]) {
      ImportedLinks(ts, batch, baseOrder, r[i]);
    }
    forall i | 0 <= i < |ts|
      ensures CompletionOk(r, r[i]) <==> !(Waiting(ts, ts[i]) && OnlyComplete(batch, ts[i].id))
    {
      OldCompletion(ts, batch, baseOrder, i);
    }
    if ImportOk(ts, batch) {
      forall i | 0 <= i < |r| ensures CompletionOk(r, r[i]) {
        if i >= |ts| { NewCompletion(ts, batch, baseOrder, i - |ts|); }
      }
    }
    if Inv(r) {
      forall k | 0 <= k < |batch| && batch[k].parentTaskId.Some? ensures batch[k].parentManualReopenAt.None? {
        assert r[|ts| + k] == added[k];
        assert CompletionOk(r, r[|ts| + k]);
        NewCompletion(ts, batch, baseOrder, k);
      }
      forall i | 0 <= i < |ts| && Waiting(ts, ts[i]) ensures !OnlyComplete(batch, ts[i].id) {
        assert CompletionOk(r, r[i]);
      }
    }
  }

  predicate Parentless(batch: seq<Task>) {
    forall i :: 0 <= i < |batch| ==> batch[i].parentTaskId.None?
  }

  /** Tasks without a parent, as the share extension makes them, always keep it. */
  lemma ParentlessImportOk(ts: seq<Task>, batch: seq<Task>)
    requires Parentless(batch)
    ensures ImportOk(ts, batch)
  {
  }
}
