/** What the share queue imports, as tasks of the store: the two accounts of applySharedImports agree, and shared
    items never break the hierarchy. */
module SharedTasks {
  import opened Prelude
  import opened Lists
  import opened TaskModel
  import opened TaskHierarchy
  import opened TaskImport
  import SharedImport

  /** The task that Task.init makes, with a fresh id, at this time. */
  function AsTask(t: SharedImport.NewTask, id: Id, now: Date): Task {
    Task(id, t.title, t.categories, t.priority, t.dueDate, None, t.taskNotes, now, now, t.orderIndex, t.reminderDate,
         None, None, None)
  }

  function AsTasks(tasks: seq<SharedImport.NewTask>, ids: seq<Id>, now: Date): (r: seq<Task>)
    requires |ids| == |tasks|
    ensures |r| == |tasks|
  {
    seq(|tasks|, i requires 0 <= i < |tasks| => AsTask(tasks[i], ids[i], now))
  }

  /** Without parents the loop does nothing but number the tasks. */
  lemma ImportsAgree(ts: seq<Task>, tasks: seq<SharedImport.NewTask>, ids: seq<Id>, base: int, now: Date)
    requires |ids| == |tasks|
    ensures ImportTasks(ts, AsTasks(tasks, ids, now), base) ==
            ts + AsTasks(SharedImport.Prepared(tasks, base), ids, now)
  {
    var batch := AsTasks(tasks, ids, now);
    forall i | 0 <= i < |batch|
      ensures PreparedTask(ts, batch[i], base + i) == AsTasks(SharedImport.Prepared(tasks, base), ids, now)[i]
    {
    }
    assert PreparedBatch(ts, batch, base) == AsTasks(SharedImport.Prepared(tasks, base), ids, now);
  }

  /** Whatever is shared, importing it under fresh ids keeps the rules. */
  lemma ImportsKeepInv(ts: seq<Task>, tasks: seq<SharedImport.NewTask>, ids: seq<Id>, base: int, now: Date)
    requires Inv(ts) && |ids| == |tasks| && Distinct(ids) && forall id :: id in ids ==> !Has(ts, id)
    ensures Inv(ts + AsTasks(SharedImport.Prepared(tasks, base), ids, now))
  {
    var batch := AsTasks(tasks, ids, now);
    ImportsAgree(ts, tasks, ids, base, now);
    assert UniqueIds(ts + batch) by {
      forall i, j | 0 <= i < j < |ts + batch| ensures (ts + batch)[i].id != (ts + batch)[j].id {
        if j >= |ts| { assert ids[j - |ts|] in ids; }
      }
    }
    ParentlessImportOk(ts, batch);
    ImportKeepsInv(ts, batch, base);
  }
}
