/** Deleting a task and undoing the deletion: exactly when every task comes back as it was, and exactly when all rules
    hold again. */
module TaskUndo {
  import opened Prelude
  import opened TaskModel
  import opened TaskHierarchy
  import opened TaskRuns
  import opened TaskLoose

  /** deleteTask, and addTask with the task as it was before, which is what the undo manager is given. */
  function Undone(ts: seq<Task>, i: nat, now: Date, nowMs: int, later: Date): seq<Task>
    requires i < |ts|
  {
    AddTask(DeleteTask(ts, ts[i].id, now), ts[i], nowMs, later)
  }

  /** Both lists have the same tasks in the same places of the hierarchy, with the same completion and marks. */
  predicate SameTasks(a: seq<Task>, b: seq<Task>) {
    Covers(a, b) && Covers(b, a)
  }

  /** What stays of a list when task i is taken out. */
  lemma TakenOut(ts: seq<Task>, i: nat)
    requires UniqueIds(ts) && i < |ts|
    ensures UniqueIds(Drop(ts, {ts[i].id}))
    ensures forall t :: t in Drop(ts, {ts[i].id}) <==> t in ts && t != ts[i]
    ensures forall t :: t in Drop(ts, {ts[i].id}) ==> t.id != ts[i].id
    ensures IndexOf(ts, ts[i].id) == i
  {
    var id := ts[i].id;
    DropUnique(ts, {id});
    forall t ensures t in Drop(ts, {id}) <==> t in ts && t.id != id {
      DropMember(ts, {id}, t);
    }
    forall t | t in ts && t.id == id ensures t == ts[i] {
      var j :| 0 <= j < |ts| && ts[j] == t;
    }
  }

  // ------------------------------------------------------------- top-level tasks

  /** A top-level task comes back at the end of the list, without its mark. */
  lemma UndoneTop(ts: seq<Task>, i: nat, now: Date, nowMs: int, later: Date)
    requires UniqueIds(ts) && i < |ts| && ts[i].parentTaskId.None?
    ensures var t := PreparedTask(DeleteTask(ts, ts[i].id, now), ts[i], nowMs);
            && Undone(ts, i, now, nowMs, later) == Drop(ts, {ts[i].id}) + [t]
            && SameHierarchy(t, ts[i].(parentManualReopenAt := None))
  {
    TakenOut(ts, i);
  }

  /** The list with the mark of task i taken off. */
  function Unmarked(ts: seq<Task>, i: nat): seq<Task>
    requires i < |ts|
  {
    ts[i := ts[i].(parentManualReopenAt := None)]
  }

  lemma UndoneTopCovers(ts: seq<Task>, i: nat, now: Date, nowMs: int, later: Date)
    requires UniqueIds(ts) && i < |ts| && ts[i].parentTaskId.None?
    ensures var u := Undone(ts, i, now, nowMs, later);
            UniqueIds(u) && UniqueIds(Unmarked(ts, i)) && SameTasks(u, Unmarked(ts, i))
  {
    hide DeleteTask, PreparedTask, Drop, AddTask, Undone, Unmarked;
    TakenOut(ts, i);
    UndoneTop(ts, i, now, nowMs, later);
    MarkOff(ts, i);
    var t := PreparedTask(DeleteTask(ts, ts[i].id, now), ts[i], nowMs);
    MovedLast(ts, Drop(ts, {ts[i].id}), i, t, Unmarked(ts, i));
  }

  lemma MarkOff(ts: seq<Task>, i: nat)
    requires i < |ts|
    ensures var m := Unmarked(ts, i); |m| == |ts| && m == ts[i := m[i]] && m[i] == ts[i].(parentManualReopenAt := None)
  {
  }

  /** Taking a task out, changing it and appending it gives the tasks of the list with the task changed. */
  lemma MovedLast(ts: seq<Task>, rest: seq<Task>, i: nat, t: Task, m: seq<Task>)
    requires UniqueIds(ts) && i < |ts| && UniqueIds(rest) && forall x :: x in rest <==> x in ts && x != ts[i]
    requires forall x :: x in rest ==> x.id != ts[i].id
    requires |m| == |ts| && m == ts[i := m[i]] && m[i].id == ts[i].id && SameHierarchy(t, m[i])
    ensures UniqueIds(rest + [t]) && UniqueIds(m) && SameTasks(rest + [t], m)
  {
    var u := rest + [t];
    forall x | x in u ensures exists y :: y in m && SameHierarchy(x, y) {
      if x == t {
        assert m[i] in m;
      } else {
        var j :| 0 <= j < |ts| && ts[j] == x;
        assert m[j] == x && SameHierarchy(x, x);
      }
    }
    forall y | y in m ensures exists x :: x in u && SameHierarchy(y, x) {
      var j :| 0 <= j < |m| && m[j] == y;
      if j == i {
        assert t in u && SameHierarchy(y, t);
      } else {
        assert y == ts[j] && y in rest && y in u && SameHierarchy(y, y);
      }
    }
  }

  /** Taking a mark off breaks the rules exactly when it stood above complete subtasks only. */
  lemma UnmarkedInv(ts: seq<Task>, i: nat)
    requires Inv(ts) && i < |ts| && ts[i].parentTaskId.None?
    ensures Inv(Unmarked(ts, i)) <==> !(ts[i].parentManualReopenAt.Some? && AllSubtasksCompleted(ts, ts[i].id))
  {
    var m := Unmarked(ts, i);
    forall x ensures (TopLevel(m, x) <==> TopLevel(ts, x)) && (HasSubtasks(m, x) <==> HasSubtasks(ts, x)) &&
                     (AllSubtasksCompleted(m, x) <==> AllSubtasksCompleted(ts, x))
    {
      EditFrame(ts, i, m[i], x);
    }
    hide TopLevel, HasSubtasks, AllSubtasksCompleted;
    forall j | 0 <= j < |m| ensures LinkOk(m, m[j]) && (j != i ==> CompletionOk(m, m[j])) {
      assert LinkOk(ts, ts[j]) && CompletionOk(ts, ts[j]);
    }
    assert CompletionOk(ts, ts[i]);
  }

  // ------------------------------------------------------------------- subtasks

  /** The parent of a subtask after the deletion and after its undoing. */
  function Reset(p: Task, others: bool, othersDone: bool, allDone: bool, now: Date, later: Date): Task {
    ReconciledParent(ReconciledParent(p, others, othersDone, true, now), true, allDone, true, later)
  }

  /** Whether the parent ends as it began. */
  lemma ResetKeeps(p: Task, others: bool, othersDone: bool, allDone: bool, now: Date, later: Date)
    requires p.parentManualReopenAt.Some? ==> p.completedAt.None?
    requires allDone ==> othersDone && (p.completedAt.Some? || p.parentManualReopenAt.Some?)
    requires !others ==> othersDone
    ensures SameHierarchy(Reset(p, others, othersDone, allDone, now, later), p)
       <==> p.parentManualReopenAt.None? && (p.completedAt.Some? ==> allDone)
    ensures Reset(p, others, othersDone, allDone, now, later).id == p.id
  {
  }

  /** A subtask comes back at the end of the list, and its parent has been reconciled twice. */
  lemma UndoneSub(ts: seq<Task>, i: nat, now: Date, nowMs: int, later: Date) returns (k: nat, t: Task)
    requires Inv(ts) && i < |ts| && ts[i].parentTaskId.Some?
    ensures var pid := ts[i].parentTaskId.value; var rest := Drop(ts, {ts[i].id});
            && k < |rest| && rest[k].id == pid && rest[k].parentTaskId.None? && SameHierarchy(t, ts[i])
            && Undone(ts, i, now, nowMs, later) ==
               (rest + [t])[k := Reset(rest[k], HasSubtasks(rest, pid), AllSubtasksCompleted(rest, pid),
                                       AllSubtasksCompleted(ts, pid), now, later)]
  {
    hide Drop, DeleteTask, AddTask, HasSubtasks, AllSubtasksCompleted, ReconciledParent, TopIndex, PreparedTask, Inv;
    var pid := ts[i].parentTaskId.value;
    var rest := Drop(ts, {ts[i].id});
    k := DeletedSub(ts, i, now);
    var d := DeleteTask(ts, ts[i].id, now);
    t := AddedBack(d, ts[i], k, nowMs, later);
    SubtasksAgain(ts, i, d, t, k, d[k]);
    ReplaceAppend(rest, k, d[k], t, Reset(rest[k], HasSubtasks(rest, pid), AllSubtasksCompleted(rest, pid),
                                          AllSubtasksCompleted(ts, pid), now, later));
  }

  lemma ReplaceAppend(rest: seq<Task>, k: nat, p: Task, t: Task, q: Task)
    requires k < |rest|
    ensures (rest[k := p] + [t])[k := q] == (rest + [t])[k := q]
  {
  }

  /** The list after the deletion: the parent has been reconciled with the other subtasks. */
  lemma DeletedSub(ts: seq<Task>, i: nat, now: Date) returns (k: nat)
    requires Inv(ts) && i < |ts| && ts[i].parentTaskId.Some?
    ensures var pid := ts[i].parentTaskId.value; var rest := Drop(ts, {ts[i].id});
            var d := DeleteTask(ts, ts[i].id, now);
            && k < |rest| && rest[k].id == pid && rest[k].parentTaskId.None?
            && d == rest[k := ReconciledParent(rest[k], HasSubtasks(rest, pid), AllSubtasksCompleted(rest, pid), true,
                                               now)]
            && d[k].id == pid && d[k].parentTaskId.None? && TopIndex(d, pid) == k
  {
    hide Drop, HasSubtasks, AllSubtasksCompleted;
    var pid := ts[i].parentTaskId.value;
    var rest := Drop(ts, {ts[i].id});
    TakenOut(ts, i);
    k := TopIndexOfParent(ts, i);
    var p := ReconciledParent(rest[k], HasSubtasks(rest, pid), AllSubtasksCompleted(rest, pid), true, now);
    assert DeleteTask(ts, ts[i].id, now) == rest[k := p];
    SamePlaceTopIndex(rest, k, p, pid);
  }

  /** A subtask is appended below the parent at k, which is reconciled. */
  lemma AddedBack(d: seq<Task>, task: Task, k: nat, nowMs: int, later: Date) returns (t: Task)
    requires task.parentTaskId.Some? && k == TopIndex(d, task.parentTaskId.value) < |d|
    ensures SameHierarchy(t, task)
    ensures var pid := task.parentTaskId.value;
            AddTask(d, task, nowMs, later) ==
              (d + [t])[k := ReconciledParent(d[k], HasSubtasks(d + [t], pid), AllSubtasksCompleted(d + [t], pid), true,
                                              later)]
  {
    hide HasSubtasks, AllSubtasksCompleted, ReconciledParent;
    t := PreparedTask(d, task, nowMs);
    AppendTopIndex(d, t, task.parentTaskId.value);
  }

  lemma TopIndexOfParent(ts: seq<Task>, i: nat) returns (k: nat)
    requires Inv(ts) && i < |ts| && ts[i].parentTaskId.Some?
    ensures var pid := ts[i].parentTaskId.value; var rest := Drop(ts, {ts[i].id});
            k == TopIndex(rest, pid) < |rest| && rest[k].id == pid && rest[k].parentTaskId.None?
  {
    var pid := ts[i].parentTaskId.value;
    var rest := Drop(ts, {ts[i].id});
    assert LinkOk(ts, ts[i]);
    DropFrame(ts, {ts[i].id}, pid);
    TopIndexFinds(rest, pid);
    k := TopIndex(rest, pid);
  }

  /** The subtasks after the deletion, with the parent p reconciled, and the task appended again. */
  lemma SubtasksAgain(ts: seq<Task>, i: nat, d: seq<Task>, t: Task, k: nat, p: Task)
    requires Inv(ts) && i < |ts| && ts[i].parentTaskId.Some? && SameHierarchy(t, ts[i])
    requires var rest := Drop(ts, {ts[i].id});
             k < |rest| && d == rest[k := p] && p.id == rest[k].id && p.parentTaskId.None? && rest[k].parentTaskId.None?
    ensures var pid := ts[i].parentTaskId.value;
            HasSubtasks(d + [t], pid) && (AllSubtasksCompleted(d + [t], pid) <==> AllSubtasksCompleted(ts, pid))
  {
    var pid := ts[i].parentTaskId.value;
    var rest := Drop(ts, {ts[i].id});
    hide Drop;
    EditFrame(rest, k, p, pid);
    AppendFrame(d, t, pid);
    AllDoneAgain(ts, i, rest, pid);
  }

  lemma SamePlaceTopIndex(ts: seq<Task>, k: nat, p: Task, pid: Id)
    requires k == TopIndex(ts, pid) < |ts| && p.id == pid && p.parentTaskId.None?
    ensures TopIndex(ts[k := p], pid) == k
  {
    var ts' := ts[k := p];
    assert forall j :: 0 <= j < k ==> ts'[j] == ts[j];
    assert ts'[k] == p;
  }

  lemma AppendTopIndex(ts: seq<Task>, t: Task, pid: Id)
    requires TopIndex(ts, pid) < |ts|
    ensures TopIndex(ts + [t], pid) == TopIndex(ts, pid)
  {
    var k := TopIndex(ts, pid);
    assert (ts + [t])[k] == ts[k];
    assert forall j :: 0 <= j < k ==> (ts + [t])[j] == ts[j];
  }

  /** All subtasks are complete when task i and the others are. */
  lemma AllDoneAgain(ts: seq<Task>, i: nat, rest: seq<Task>, pid: Id)
    requires UniqueIds(ts) && i < |ts| && rest == Drop(ts, {ts[i].id}) && ts[i].parentTaskId == Some(pid)
    ensures AllSubtasksCompleted(ts, pid) <==> AllSubtasksCompleted(rest, pid) && ts[i].completedAt.Some?
  {
    DropFrame(ts, {ts[i].id}, pid);
  }

  // --------------------------------------------------------------------- results

  /** Undoing a deletion restores all rules exactly when the task was not a parent that was reopened by hand above
      subtasks that are all complete. */
  lemma UndoneInvIff(ts: seq<Task>, i: nat, now: Date, nowMs: int, later: Date)
    requires Inv(ts) && i < |ts|
    ensures Inv(Undone(ts, i, now, nowMs, later))
       <==> !(ts[i].parentManualReopenAt.Some? && AllSubtasksCompleted(ts, ts[i].id))
  {
    assert LinkOk(ts, ts[i]) && CompletionOk(ts, ts[i]);
    if ts[i].parentTaskId.None? {
      var u, m := Undone(ts, i, now, nowMs, later), Unmarked(ts, i);
      UndoneTopCovers(ts, i, now, nowMs, later);
      UnmarkedInv(ts, i);
      hide Undone, Unmarked, Covers, InvBut, UniqueIds;
      if Inv(u) { SameHierarchyInv(u, m); }
      if Inv(m) { SameHierarchyInv(m, u); }
    } else {
      var d := DeleteTask(ts, ts[i].id, now);
      SubtaskHasNoSubtasks(ts, i);
      DeleteKeepsInv(ts, ts[i].id, now);
      TakenOut(ts, i);
      assert !Has(d, ts[i].id) by { GoneAfter(ts, i, now); }
      AddKeepsInv(d, ts[i], nowMs, later);
    }
  }

  lemma GoneAfter(ts: seq<Task>, i: nat, now: Date)
    requires UniqueIds(ts) && i < |ts|
    ensures !Has(DeleteTask(ts, ts[i].id, now), ts[i].id)
  {
    TakenOut(ts, i);
    var rest, d := Drop(ts, {ts[i].id}), DeleteTask(ts, ts[i].id, now);
    assert forall j :: 0 <= j < |d| ==> d[j].id == rest[j].id && rest[j] in rest;
  }

  lemma UndoneLoose(ts: seq<Task>, i: nat, now: Date, nowMs: int, later: Date)
    requires Inv(ts) && i < |ts|
    ensures LooseInv(Undone(ts, i, now, nowMs, later))
  {
    assert LinkOk(ts, ts[i]) && CompletionOk(ts, ts[i]);
    InvIsLoose(ts);
    DeleteKeepsLoose(ts, ts[i].id, now);
    GoneAfter(ts, i, now);
    if ts[i].parentTaskId.Some? {
      SubtaskHasNoSubtasks(ts, i);
      DeleteKeepsInv(ts, ts[i].id, now);
      FreshIsUnreferenced(DeleteTask(ts, ts[i].id, now), ts[i].id);
    }
    hide LooseInv, DeleteTask;
    AddKeepsLoose(DeleteTask(ts, ts[i].id, now), ts[i], nowMs, later);
  }

  /** The parent that came back without its mark, above complete subtasks. */
  lemma UndoneOverlooked(ts: seq<Task>, i: nat, now: Date, nowMs: int, later: Date)
    requires Inv(ts) && i < |ts| && ts[i].parentManualReopenAt.Some? && AllSubtasksCompleted(ts, ts[i].id)
    ensures var u := Undone(ts, i, now, nowMs, later); |u| > 0 && Overlooked(u, u[|u| - 1])
  {
    assert CompletionOk(ts, ts[i]);
    var u, m := Undone(ts, i, now, nowMs, later), Unmarked(ts, i);
    UndoneTop(ts, i, now, nowMs, later);
    UndoneTopCovers(ts, i, now, nowMs, later);
    EditFrame(ts, i, m[i], ts[i].id);
    hide Undone, Unmarked, HasSubtasks, AllSubtasksCompleted, Covers;
    CarriedOver(m, u, ts[i].id);
    CarriedOver(u, m, ts[i].id);
  }

  /** Cleaning the list afterwards does not help: it restores the rules only where undoing already did. */
  lemma CleanedUndoIff(ts: seq<Task>, i: nat, now: Date, nowMs: int, later: Date)
    requires Inv(ts) && i < |ts|
    ensures Inv(Sanitize(Undone(ts, i, now, nowMs, later)))
       <==> !(ts[i].parentManualReopenAt.Some? && AllSubtasksCompleted(ts, ts[i].id))
  {
    hide Undone, AllSubtasksCompleted, Sanitize, LooseInv;
    var u := Undone(ts, i, now, nowMs, later);
    UndoneLoose(ts, i, now, nowMs, later);
    UndoneInvIff(ts, i, now, nowMs, later);
    SanitizeRepairs(u);
    if ts[i].parentManualReopenAt.Some? && AllSubtasksCompleted(ts, ts[i].id) {
      UndoneOverlooked(ts, i, now, nowMs, later);
    } else {
      forall j | 0 <= j < |u| ensures !Overlooked(u, u[j]) {
        assert CompletionOk(u, u[j]);
      }
    }
  }

  /** Would undoing the deletion of task i bring everything back? A mark is lost, on the task itself or on its parent,
      and a parent that was completed above an open subtask is reopened. */
  predicate UndoIsFaithful(ts: seq<Task>, i: nat)
    requires i < |ts|
  {
    match ts[i].parentTaskId
    case None => ts[i].parentManualReopenAt.None?
    case Some(pid) =>
      forall j :: 0 <= j < |ts| && ts[j].id == pid ==>
        ts[j].parentManualReopenAt.None? && (ts[j].completedAt.Some? ==> AllSubtasksCompleted(ts, pid))
  }

  /** Undoing brings every task back to its place, with its completion and its mark, exactly then. */
  lemma UndoneSameIff(ts: seq<Task>, i: nat, now: Date, nowMs: int, later: Date)
    requires Inv(ts) && i < |ts|
    ensures SameTasks(Undone(ts, i, now, nowMs, later), ts) <==> UndoIsFaithful(ts, i)
  {
    if ts[i].parentTaskId.None? {
      SameTopIff(ts, i, now, nowMs, later);
    } else {
      SameSubIff(ts, i, now, nowMs, later);
    }
  }

  lemma SameTopIff(ts: seq<Task>, i: nat, now: Date, nowMs: int, later: Date)
    requires Inv(ts) && i < |ts| && ts[i].parentTaskId.None?
    ensures SameTasks(Undone(ts, i, now, nowMs, later), ts) <==> ts[i].parentManualReopenAt.None?
  {
    hide Undone, Unmarked, SameTasks, Drop;
    UndoneTopCovers(ts, i, now, nowMs, later);
    MarkOff(ts, i);
    MarkLost(Undone(ts, i, now, nowMs, later), ts, i, Unmarked(ts, i));
  }

  lemma MarkLost(u: seq<Task>, ts: seq<Task>, i: nat, m: seq<Task>)
    requires UniqueIds(ts) && i < |ts| && SameTasks(u, m) && |m| == |ts| && m == ts[i := m[i]]
    requires m[i] == ts[i].(parentManualReopenAt := None)
    ensures SameTasks(u, ts) <==> ts[i].parentManualReopenAt.None?
  {
    if ts[i].parentManualReopenAt.None? {
      assert m == ts;
    } else {
      assert m[i] in m;
      var x :| x in u && SameHierarchy(m[i], x);
      hide UniqueIds, Covers;
      forall y | y in ts ensures !SameHierarchy(x, y) {
        NoTwin(ts, i, y);
      }
      NotCovered(u, ts, x);
    }
  }

  lemma NotCovered(a: seq<Task>, b: seq<Task>, x: Task)
    requires x in a && forall y :: y in b ==> !SameHierarchy(x, y)
    ensures !Covers(a, b)
  {
  }

  lemma NoTwin(ts: seq<Task>, i: nat, y: Task)
    requires UniqueIds(ts) && i < |ts| && y in ts
    ensures y.id == ts[i].id ==> y == ts[i]
  {
    var j :| 0 <= j < |ts| && ts[j] == y;
  }

  lemma SameSubIff(ts: seq<Task>, i: nat, now: Date, nowMs: int, later: Date)
    requires Inv(ts) && i < |ts| && ts[i].parentTaskId.Some?
    ensures SameTasks(Undone(ts, i, now, nowMs, later), ts) <==> UndoIsFaithful(ts, i)
  {
    hide Undone, Reset, Drop, HasSubtasks, AllSubtasksCompleted, SameTasks;
    var pid := ts[i].parentTaskId.value;
    var rest := Drop(ts, {ts[i].id});
    var k, t := UndoneSub(ts, i, now, nowMs, later);
    TakenOut(ts, i);
    assert rest[k] in rest;
    var j :| 0 <= j < |ts| && ts[j] == rest[k];
    ParentKept(ts, i, j, now, later);
    SameButOne(ts, rest, i, j, k, t, Undone(ts, i, now, nowMs, later));
  }

  /** Whether the parent at j ends as it began. */
  lemma ParentKept(ts: seq<Task>, i: nat, j: nat, now: Date, later: Date)
    requires Inv(ts) && i < |ts| && ts[i].parentTaskId.Some? && j < |ts|
    requires ts[j].id == ts[i].parentTaskId.value && ts[j].parentTaskId.None?
    ensures var pid := ts[j].id; var rest := Drop(ts, {ts[i].id});
            var p := Reset(ts[j], HasSubtasks(rest, pid), AllSubtasksCompleted(rest, pid),
                           AllSubtasksCompleted(ts, pid), now, later);
            (SameHierarchy(p, ts[j]) <==> UndoIsFaithful(ts, i)) && p.id == pid
  {
    hide Drop, Reset, Inv, UndoIsFaithful, AllSubtasksCompleted, HasSubtasks, SameHierarchy;
    var pid := ts[j].id;
    var rest := Drop(ts, {ts[i].id});
    ParentFacts(ts, i, j, rest);
    ResetKeeps(ts[j], HasSubtasks(rest, pid), AllSubtasksCompleted(rest, pid), AllSubtasksCompleted(ts, pid), now,
               later);
  }

  lemma ParentFacts(ts: seq<Task>, i: nat, j: nat, rest: seq<Task>)
    requires Inv(ts) && i < |ts| && ts[i].parentTaskId.Some? && j < |ts| && rest == Drop(ts, {ts[i].id})
    requires ts[j].id == ts[i].parentTaskId.value && ts[j].parentTaskId.None?
    ensures AllSubtasksCompleted(ts, ts[j].id) ==>
              AllSubtasksCompleted(rest, ts[j].id) && (ts[j].completedAt.Some? || ts[j].parentManualReopenAt.Some?)
    ensures !HasSubtasks(rest, ts[j].id) ==> AllSubtasksCompleted(rest, ts[j].id)
    ensures ts[j].parentManualReopenAt.Some? ==> ts[j].completedAt.None?
    ensures UndoIsFaithful(ts, i) <==> ts[j].parentManualReopenAt.None? &&
                                       (ts[j].completedAt.Some? ==> AllSubtasksCompleted(ts, ts[j].id))
  {
    hide Drop;
    AllDoneAgain(ts, i, rest, ts[j].id);
    assert CompletionOk(ts, ts[j]);
    assert ts[i].parentTaskId == Some(ts[j].id);
    hide AllSubtasksCompleted;
    assert forall m :: 0 <= m < |ts| && ts[m].id == ts[j].id ==> m == j;
  }

  /** A list with task i moved to the end and the task at k replaced has the same tasks exactly when the replacement
      has the hierarchy fields of what it replaces. */
  lemma SameButOne(ts: seq<Task>, rest: seq<Task>, i: nat, j: nat, k: nat, t: Task, u: seq<Task>)
    requires UniqueIds(ts) && i < |ts| && j < |ts| && k < |rest| && rest[k] == ts[j] && UniqueIds(rest)
    requires forall x :: x in rest <==> x in ts && x != ts[i]
    requires SameHierarchy(t, ts[i]) && |u| == |rest| + 1 && u == (rest + [t])[k := u[k]] && u[k].id == ts[j].id
    ensures SameTasks(u, ts) <==> SameHierarchy(u[k], ts[j])
  {
    if SameHierarchy(u[k], ts[j]) {
      forall x | x in u ensures exists y :: y in ts && SameHierarchy(x, y) {
        var n :| 0 <= n < |u| && u[n] == x;
        if n == k {
          assert ts[j] in ts;
        } else if n == |rest| {
          assert ts[i] in ts;
        } else {
          assert rest[n] in rest && SameHierarchy(x, rest[n]);
        }
      }
      forall y | y in ts ensures exists x :: x in u && SameHierarchy(y, x) {
        if y == ts[i] {
          assert u[|rest|] in u;
        } else {
          var n :| 0 <= n < |rest| && rest[n] == y;
          assert u[n] in u;
        }
      }
    } else {
      assert u[k] in u;
      forall y | y in ts ensures !SameHierarchy(u[k], y) {
        var n :| 0 <= n < |ts| && ts[n] == y;
      }
    }
  }
}
