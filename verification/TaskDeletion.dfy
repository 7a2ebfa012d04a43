/** Deleting a parent task with its subtasks, or detaching them: which tasks survive, and
    what changes on the survivors, although every step of the loop reconciles the parent. */
module TaskDeletion {
  import opened Prelude
  import opened TaskModel
  import opened TaskHierarchy

  datatype Strategy = DeleteSubtasks | DetachSubtasks

  function DeleteAll(ts: seq<Task>, ids: seq<Id>, now: Date): seq<Task>
    decreases |ids|
  {
    if ids == [] then ts else DeleteAll(DeleteTask(ts, ids[0], now), ids[1..], now)
  }

  function DetachAll(ts: seq<Task>, ids: seq<Id>, now: Date): seq<Task>
    decreases |ids|
  {
    if ids == [] then ts else DetachAll(SetParent(ts, ids[0], None, now), ids[1..], now)
  }

  /** deleteParentTask. */
  function DeleteParentTask(ts: seq<Task>, id: Id, strategy: Strategy, now: Date): seq<Task> {
    if !HasSubtasks(ts, id) then DeleteTask(ts, id, now)
    else
      var childIds := Ids(Subtasks(ts, id));
      match strategy
      case DeleteSubtasks => DeleteTask(DeleteAll(ts, childIds, now), id, now)
      case DetachSubtasks => DeleteTask(DetachAll(ts, childIds, now), id, now)
  }

  // ----------------------------------------------------------- what is meant

  /** The tasks that are neither the parent nor below it. */
  function Outside(ts: seq<Task>, pid: Id): seq<Task> {
    if ts == [] then []
    else if ts[0].id == pid || ts[0].parentTaskId == Some(pid) then Outside(ts[1..], pid)
    else [ts[0]] + Outside(ts[1..], pid)
  }

  function Loosened(t: Task, now: Date): Task {
    t.(parentTaskId := None, updatedAt := now)
  }

  /** All tasks but the parent, its subtasks made top-level. */
  function Freed(ts: seq<Task>, pid: Id, now: Date): seq<Task> {
    if ts == [] then []
    else if ts[0].id == pid then Freed(ts[1..], pid, now)
    else [if ts[0].parentTaskId == Some(pid) then Loosened(ts[0], now) else ts[0]] + Freed(ts[1..], pid, now)
  }

  // ------------------------------------------------------------------ proofs

  /** The ids are distinct and belong to subtasks of pid, which is a top-level task. */
  predicate Below(ts: seq<Task>, pid: Id, ids: seq<Id>) {
    && UniqueIds(ts) && TopLevel(ts, pid)
    && (forall i, j :: 0 <= i < j < |ids| ==> ids[i] != ids[j])
    && (forall i :: 0 <= i < |ids| ==> IsChild(ts, ids[i], pid))
  }

  predicate IsChild(ts: seq<Task>, id: Id, pid: Id) {
    exists t :: t in ts && t.id == id && t.parentTaskId == Some(pid)
  }

  lemma ChildIndex(ts: seq<Task>, id: Id, pid: Id)
    requires UniqueIds(ts) && IsChild(ts, id, pid)
    ensures IndexOf(ts, id) < |ts| && ts[IndexOf(ts, id)].parentTaskId == Some(pid)
  {
    var t :| t in ts && t.id == id && t.parentTaskId == Some(pid);
    var i :| 0 <= i < |ts| && ts[i] == t;
  }

  /** Reconciling the parent changes only the parent. */
  lemma ReconcileFrame(ts: seq<Task>, pid: Id, ids: seq<Id>, now: Date)
    requires Below(ts, pid, ids) && pid !in ids
    ensures Below(Reconcile(ts, pid, true, now), pid, ids)
    ensures Drop(Reconcile(ts, pid, true, now), {pid}) == Drop(ts, {pid})
  {
    TopIndexFinds(ts, pid);
    var i := TopIndex(ts, pid);
    var r := Reconcile(ts, pid, true, now);
    DropEdited(ts, i, r[i], {pid});
    assert r[i].id == pid && r[i].parentTaskId.None?;
    forall k | 0 <= k < |ids| ensures IsChild(r, ids[k], pid) {
      var t :| t in ts && t.id == ids[k] && t.parentTaskId == Some(pid);
      var j :| 0 <= j < |ts| && ts[j] == t;
      assert r[j] == t;
    }
  }

  lemma DropChild(ts: seq<Task>, pid: Id, ids: seq<Id>)
    requires Below(ts, pid, ids) && ids != [] && pid !in ids
    ensures Below(Drop(ts, {ids[0]}), pid, ids[1..])
  {
    var r := Drop(ts, {ids[0]});
    DropUnique(ts, {ids[0]});
    DropFrame(ts, {ids[0]}, pid);
    forall k | 0 <= k < |ids[1..]| ensures IsChild(r, ids[1..][k], pid) {
      assert ids[1..][k] == ids[k + 1];
      var t :| t in ts && t.id == ids[k + 1] && t.parentTaskId == Some(pid);
      DropMember(ts, {ids[0]}, t);
    }
  }

  lemma DeleteOneChild(ts: seq<Task>, pid: Id, ids: seq<Id>, now: Date)
    requires Below(ts, pid, ids) && ids != [] && pid !in ids
    ensures Below(DeleteTask(ts, ids[0], now), pid, ids[1..])
    ensures Drop(DeleteTask(ts, ids[0], now), {pid}) == Drop(ts, {pid, ids[0]})
  {
    var c := ids[0];
    assert IsChild(ts, c, pid);
    ChildIndex(ts, c, pid);
    DropChild(ts, pid, ids);
    ReconcileFrame(Drop(ts, {c}), pid, ids[1..], now);
    DropDrop(ts, {c}, {pid});
    assert {c} + {pid} == {pid, c};
  }

  lemma {:induction false} DeleteAllDrops(ts: seq<Task>, pid: Id, ids: seq<Id>, now: Date)
    requires Below(ts, pid, ids) && pid !in ids
    ensures Below(DeleteAll(ts, ids, now), pid, [])
    ensures Drop(DeleteAll(ts, ids, now), {pid}) == Drop(ts, {pid} + IdSet(ids))
    decreases |ids|
  {
    if ids == [] {
      assert {pid} + IdSet(ids) == {pid};
    } else {
      var ts' := DeleteTask(ts, ids[0], now);
      var rest := IdSet(ids[1..]);
      DeleteOneChild(ts, pid, ids, now);
      DeleteAllDrops(ts', pid, ids[1..], now);
      DropDrop(ts', {pid}, rest);
      DropDrop(ts, {pid, ids[0]}, rest);
      IdSetSplit(ids);
      assert {pid, ids[0]} + rest == {pid} + IdSet(ids);
    }
  }

  /** The tasks with these ids made top-level. */
  function Detached(ts: seq<Task>, ids: set<Id>, now: Date): (r: seq<Task>)
    ensures |r| == |ts|
  {
    if ts == [] then []
    else [if ts[0].id in ids then Loosened(ts[0], now) else ts[0]] + Detached(ts[1..], ids, now)
  }

  lemma {:induction false} DetachedAt(ts: seq<Task>, ids: set<Id>, now: Date, i: nat)
    requires i < |ts|
    ensures Detached(ts, ids, now)[i] == if ts[i].id in ids then Loosened(ts[i], now) else ts[i]
  {
    if i > 0 {
      DetachedAt(ts[1..], ids, now, i - 1);
    }
  }

  lemma {:induction false} DropDetached(ts: seq<Task>, ids: set<Id>, gone: set<Id>, now: Date)
    ensures Drop(Detached(ts, ids, now), gone) == Detached(Drop(ts, gone), ids, now)
  {
    if ts != [] {
      DropDetached(ts[1..], ids, gone, now);
      var rest := Drop(ts[1..], gone);
      assert Detached(ts, ids, now)[1..] == Detached(ts[1..], ids, now);
      if ts[0].id in gone {
        assert Drop(ts, gone) == rest;
      } else {
        assert Drop(ts, gone)[1..] == rest;
      }
    }
  }

  lemma {:induction false} DetachedTwice(ts: seq<Task>, a: set<Id>, b: set<Id>, now: Date)
    ensures Detached(Detached(ts, a, now), b, now) == Detached(ts, a + b, now)
  {
    if ts != [] {
      DetachedTwice(ts[1..], a, b, now);
      assert Detached(ts, a, now)[1..] == Detached(ts[1..], a, now);
    }
  }

  lemma {:induction false} DetachedNone(ts: seq<Task>, now: Date)
    ensures Detached(ts, {}, now) == ts
  {
    if ts != [] {
      DetachedNone(ts[1..], now);
    }
  }

  lemma DetachChild(ts: seq<Task>, pid: Id, ids: seq<Id>, i: nat, now: Date)
    requires Below(ts, pid, ids) && ids != [] && pid !in ids && i < |ts| && ts[i].id == ids[0]
    ensures var r := ts[i := Loosened(ts[i], now)];
            r == Detached(ts, {ids[0]}, now) && Below(r, pid, ids[1..])
  {
    var r := ts[i := Loosened(ts[i], now)];
    forall j | 0 <= j < |ts| ensures r[j] == Detached(ts, {ids[0]}, now)[j] {
      DetachedAt(ts, {ids[0]}, now, j);
    }
    assert r == Detached(ts, {ids[0]}, now);
    var p :| 0 <= p < |ts| && ts[p].id == pid && ts[p].parentTaskId.None?;
    assert r[p] == ts[p];
    forall k | 0 <= k < |ids[1..]| ensures IsChild(r, ids[1..][k], pid) {
      assert ids[1..][k] == ids[k + 1];
      var t :| t in ts && t.id == ids[k + 1] && t.parentTaskId == Some(pid);
      var j :| 0 <= j < |ts| && ts[j] == t;
      assert r[j] == t;
    }
  }

  lemma DetachOneChild(ts: seq<Task>, pid: Id, ids: seq<Id>, now: Date)
    requires Below(ts, pid, ids) && ids != [] && pid !in ids
    ensures Below(SetParent(ts, ids[0], None, now), pid, ids[1..])
    ensures Drop(SetParent(ts, ids[0], None, now), {pid}) == Detached(Drop(ts, {pid}), {ids[0]}, now)
  {
    var c := ids[0];
    assert IsChild(ts, c, pid);
    ChildIndex(ts, c, pid);
    var i := IndexOf(ts, c);
    DetachChild(ts, pid, ids, i, now);
    ReconcileFrame(ts[i := Loosened(ts[i], now)], pid, ids[1..], now);
    DropDetached(ts, {c}, {pid}, now);
  }

  lemma {:induction false} DetachAllFrees(ts: seq<Task>, pid: Id, ids: seq<Id>, now: Date)
    requires Below(ts, pid, ids) && pid !in ids
    ensures Below(DetachAll(ts, ids, now), pid, [])
    ensures Drop(DetachAll(ts, ids, now), {pid}) == Detached(Drop(ts, {pid}), IdSet(ids), now)
    decreases |ids|
  {
    if ids == [] {
      assert IdSet(ids) == {};
      DetachedNone(Drop(ts, {pid}), now);
    } else {
      var rest := IdSet(ids[1..]);
      DetachOneChild(ts, pid, ids, now);
      DetachAllFrees(SetParent(ts, ids[0], None, now), pid, ids[1..], now);
      DetachedTwice(Drop(ts, {pid}), {ids[0]}, rest, now);
      IdSetSplit(ids);
    }
  }

  lemma IdSetSplit(ids: seq<Id>)
    requires ids != []
    ensures {ids[0]} + IdSet(ids[1..]) == IdSet(ids)
  {
    assert ids == [ids[0]] + ids[1..];
  }

  lemma SubtasksAreChildren(ts: seq<Task>, pid: Id, t: Task)
    ensures t in Subtasks(ts, pid) <==> t in ts && t.parentTaskId == Some(pid)
  {
    SortDescMember(Children(ts, pid), t);
    ChildrenMember(ts, pid, t);
  }

  lemma ChildIdsAreBelow(ts: seq<Task>, pid: Id)
    requires Inv(ts) && HasSubtasks(ts, pid)
    ensures Below(ts, pid, Ids(Subtasks(ts, pid))) && pid !in Ids(Subtasks(ts, pid))
  {
    var sorted := Subtasks(ts, pid);
    var ids := Ids(sorted);
    var k :| 0 <= k < |ts| && ts[k].parentTaskId == Some(pid);
    assert LinkOk(ts, ts[k]);
    forall i | 0 <= i < |ids| ensures IsChild(ts, ids[i], pid) && ids[i] != pid {
      SubtasksAreChildren(ts, pid, sorted[i]);
      var j :| 0 <= j < |ts| && ts[j] == sorted[i];
      assert LinkOk(ts, ts[j]);
    }
    ChildrenUnique(ts, pid);
    SortDescSorts(Children(ts, pid));
    DistinctSorted(Children(ts, pid), sorted);
  }

  lemma ChildIdsExactly(ts: seq<Task>, pid: Id, t: Task)
    requires UniqueIds(ts) && t in ts
    ensures t.id in IdSet(Ids(Subtasks(ts, pid))) <==> t.parentTaskId == Some(pid)
  {
    var sorted := Subtasks(ts, pid);
    var ids := Ids(sorted);
    SubtasksAreChildren(ts, pid, t);
    if t.parentTaskId == Some(pid) {
      var i :| 0 <= i < |sorted| && sorted[i] == t;
      assert ids[i] == t.id;
    }
    if t.id in ids {
      var i :| 0 <= i < |ids| && ids[i] == t.id;
      SubtasksAreChildren(ts, pid, sorted[i]);
    }
  }

  lemma {:induction false} ChildrenUnique(ts: seq<Task>, pid: Id)
    requires UniqueIds(ts)
    ensures UniqueIds(Children(ts, pid))
  {
    if ts != [] {
      ChildrenUnique(ts[1..], pid);
      forall t | t in Children(ts[1..], pid) ensures t.id != ts[0].id {
        ChildrenMember(ts[1..], pid, t);
      }
    }
  }

  lemma {:induction false} OutsideIsDrop(ts: seq<Task>, pid: Id, ids: set<Id>)
    requires forall t :: t in ts ==> (t.id in ids <==> t.id == pid || t.parentTaskId == Some(pid))
    ensures Outside(ts, pid) == Drop(ts, ids)
  {
    if ts != [] {
      OutsideIsDrop(ts[1..], pid, ids);
    }
  }

  lemma {:induction false} FreedIsDetached(ts: seq<Task>, pid: Id, ids: set<Id>, now: Date)
    requires forall t :: t in ts ==> (t.id in ids <==> t.parentTaskId == Some(pid))
    ensures Freed(ts, pid, now) == Detached(Drop(ts, {pid}), ids, now)
  {
    if ts != [] {
      FreedIsDetached(ts[1..], pid, ids, now);
      var rest := Drop(ts[1..], {pid});
      if ts[0].id != pid {
        assert Drop(ts, {pid})[1..] == rest;
      } else {
        assert Drop(ts, {pid}) == rest;
      }
    }
  }

  lemma LastStep(ts: seq<Task>, pid: Id, now: Date)
    requires UniqueIds(ts) && TopLevel(ts, pid)
    ensures DeleteTask(ts, pid, now) == Drop(ts, {pid})
  {
    var p :| 0 <= p < |ts| && ts[p].id == pid && ts[p].parentTaskId.None?;
    assert IndexOf(ts, pid) == p;
  }

  /** "Delete subtasks" removes exactly the parent and its subtasks; every other task keeps
      its place and all its fields. "Detach" removes exactly the parent; its subtasks become
      top-level, and nothing else about any survivor changes but their update time. */
  lemma ParentDeletionConserves(ts: seq<Task>, pid: Id, now: Date)
    requires Inv(ts) && HasSubtasks(ts, pid)
    ensures DeleteParentTask(ts, pid, DeleteSubtasks, now) == Outside(ts, pid)
    ensures DeleteParentTask(ts, pid, DetachSubtasks, now) == Freed(ts, pid, now)
  {
    var ids := Ids(Subtasks(ts, pid));
    var idSet := IdSet(ids);
    ChildIdsAreBelow(ts, pid);
    forall t | t in ts ensures t.id in idSet <==> t.parentTaskId == Some(pid) {
      ChildIdsExactly(ts, pid, t);
    }
    DeleteAllDrops(ts, pid, ids, now);
    LastStep(DeleteAll(ts, ids, now), pid, now);
    OutsideIsDrop(ts, pid, {pid} + idSet);
    DetachAllFrees(ts, pid, ids, now);
    LastStep(DetachAll(ts, ids, now), pid, now);
    FreedIsDetached(ts, pid, idSet, now);
  }

  // --------------------------------------------------------------- invariant

  lemma {:induction false} DeleteAllKeepsInv(ts: seq<Task>, pid: Id, ids: seq<Id>, now: Date)
    requires Inv(ts) && Below(ts, pid, ids) && pid !in ids
    ensures Inv(DeleteAll(ts, ids, now))
    decreases |ids|
  {
    if ids != [] {
      assert IsChild(ts, ids[0], pid);
      ChildIndex(ts, ids[0], pid);
      SubtaskHasNoSubtasks(ts, IndexOf(ts, ids[0]));
      DeleteKeepsInv(ts, ids[0], now);
      DeleteOneChild(ts, pid, ids, now);
      DeleteAllKeepsInv(DeleteTask(ts, ids[0], now), pid, ids[1..], now);
    }
  }

  lemma {:induction false} DetachAllKeepsInv(ts: seq<Task>, ids: seq<Id>, now: Date)
    requires Inv(ts)
    ensures Inv(DetachAll(ts, ids, now))
    decreases |ids|
  {
    if ids != [] {
      SetParentKeepsInv(ts, ids[0], None, now);
      DetachAllKeepsInv(SetParent(ts, ids[0], None, now), ids[1..], now);
    }
  }

  lemma {:induction false} OutsideHasNoSubtasks(ts: seq<Task>, pid: Id)
    ensures !HasSubtasks(Outside(ts, pid), pid)
  {
    if ts != [] {
      OutsideHasNoSubtasks(ts[1..], pid);
    }
  }

  lemma {:induction false} FreedHasNoSubtasks(ts: seq<Task>, pid: Id, now: Date)
    ensures !HasSubtasks(Freed(ts, pid, now), pid)
  {
    if ts != [] {
      FreedHasNoSubtasks(ts[1..], pid, now);
    }
  }

  /** Deleting any task through deleteParentTask keeps the invariant. */
  lemma DeleteParentKeepsInv(ts: seq<Task>, id: Id, strategy: Strategy, now: Date)
    requires Inv(ts)
    ensures Inv(DeleteParentTask(ts, id, strategy, now))
  {
    if HasSubtasks(ts, id) {
      var ids := Ids(Subtasks(ts, id));
      ChildIdsAreBelow(ts, id);
      ParentDeletionConserves(ts, id, now);
      var before := if strategy.DeleteSubtasks? then DeleteAll(ts, ids, now) else DetachAll(ts, ids, now);
      if strategy.DeleteSubtasks? {
        DeleteAllKeepsInv(ts, id, ids, now);
        DeleteAllDrops(ts, id, ids, now);
        OutsideHasNoSubtasks(ts, id);
      } else {
        DetachAllKeepsInv(ts, ids, now);
        DetachAllFrees(ts, id, ids, now);
        FreedHasNoSubtasks(ts, id, now);
      }
      LastStep(before, id, now);
      NoSubtasksLeft(before, id);
      DeleteKeepsInv(before, id, now);
    } else {
      DeleteKeepsInv(ts, id, now);
    }
  }

  lemma NoSubtasksLeft(ts: seq<Task>, pid: Id)
    requires UniqueIds(ts) && TopLevel(ts, pid) && !HasSubtasks(Drop(ts, {pid}), pid)
    ensures !HasSubtasks(ts, pid)
  {
    DropFrame(ts, {pid}, pid);
    var p :| 0 <= p < |ts| && ts[p].id == pid && ts[p].parentTaskId.None?;
  }
}
