/** What every operation on the task list does to the fields of its tasks, and which tasks it leaves alone. */
module TaskEffects {
  import opened Prelude
  import opened TaskModel
  import opened TaskHierarchy
  import opened TaskEdits
  import opened TaskImport
  import opened TaskReorder
  import opened TaskRuns

  // ------------------------------------------------------------------ the parent

  /** What becomes of a parent p when the list is otherwise ts. Without subtasks it only loses its mark. When all
      subtasks are complete it is completed, unless a mark stands that may stay. When one is open it is reopened and
      loses its mark. */
  predicate ParentSettled(ts: seq<Task>, p: Task, q: Task, reset: bool, now: Date) {
    && q == p.(completedAt := q.completedAt, parentManualReopenAt := q.parentManualReopenAt, updatedAt := q.updatedAt)
    && (!HasSubtasks(ts, p.id) ==>
          && q.completedAt == p.completedAt && q.parentManualReopenAt == None
          && q.updatedAt == if p.parentManualReopenAt.Some? then now else p.updatedAt)
    && (HasSubtasks(ts, p.id) && AllSubtasksCompleted(ts, p.id) && !reset && p.parentManualReopenAt.Some? ==> q == p)
    && (HasSubtasks(ts, p.id) && AllSubtasksCompleted(ts, p.id) && (reset || p.parentManualReopenAt.None?) ==>
          && q.parentManualReopenAt == None
          && q.completedAt == (if p.completedAt.Some? then p.completedAt else Some(now))
          && q.updatedAt == if p.completedAt.Some? then p.updatedAt else now)
    && (HasSubtasks(ts, p.id) && !AllSubtasksCompleted(ts, p.id) ==>
          && q.completedAt == None && q.parentManualReopenAt == None
          && q.updatedAt == if p.completedAt.Some? then now else p.updatedAt)
  }

  /** One list comes from another by settling the tasks with this id and leaving all others as they are. */
  predicate OnlySettles(ts: seq<Task>, r: seq<Task>, pid: Option<Id>, reset: bool, now: Date) {
    && |r| == |ts|
    && (forall j :: 0 <= j < |ts| && Some(ts[j].id) != pid ==> r[j] == ts[j])
    && (forall j :: 0 <= j < |ts| && Some(ts[j].id) == pid ==> ParentSettled(ts, ts[j], r[j], reset, now))
  }

  lemma ReconcileEffect(ts: seq<Task>, pid: Option<Id>, reset: bool, now: Date)
    requires UniqueIds(ts) && (pid.Some? ==> TopLevel(ts, pid.value))
    ensures OnlySettles(ts, ReconcileIf(ts, pid, reset, now), pid, reset, now)
  {
    if pid.Some? {
      hide ParentSettled, ReconciledParent, HasSubtasks, AllSubtasksCompleted;
      TopIndexFinds(ts, pid.value);
      var i := TopIndex(ts, pid.value);
      assert forall j :: 0 <= j < |ts| && ts[j].id == pid.value ==> j == i;
      SettledIs(ts, ts[i], reset, now);
    }
  }

  lemma SettledIs(ts: seq<Task>, p: Task, reset: bool, now: Date)
    ensures var q := ReconciledParent(p, HasSubtasks(ts, p.id), AllSubtasksCompleted(ts, p.id), reset, now);
            ParentSettled(ts, p, q, reset, now)
  {
    hide HasSubtasks, AllSubtasksCompleted;
  }

  // ------------------------------------------------------------------ completing

  lemma CompleteEffect(ts: seq<Task>, id: Id, now: Date)
    requires Inv(ts)
    ensures !Has(ts, id) ==> CompleteTask(ts, id, now) == ts
    ensures Has(ts, id) ==>
              var i := IndexOf(ts, id);
              var done := ts[i].(completedAt := Some(now), reminderDate := None, reminderNotificationId := None,
                                 parentManualReopenAt := None);
              && CompleteTask(ts, id, now)[i] == done
              && OnlySettles(ts[i := done], CompleteTask(ts, id, now), ts[i].parentTaskId, false, now)
  {
    if Has(ts, id) {
      var i := IndexOf(ts, id);
      assert LinkOk(ts, ts[i]);
      var done := ts[i].(completedAt := Some(now), reminderDate := None, reminderNotificationId := None,
                         parentManualReopenAt := None);
      EditedParent(ts, i, done, ts[i].parentTaskId);
      ReconcileEffect(ts[i := done], ts[i].parentTaskId, false, now);
    }
  }

  lemma EditedParent(ts: seq<Task>, i: nat, t: Task, pid: Option<Id>)
    requires Inv(ts) && i < |ts| && t.id == ts[i].id && (t.parentTaskId.Some? ==> t.parentTaskId.value != t.id)
    requires pid.Some? ==> TopLevel(ts, pid.value) && pid.value != t.id
    ensures UniqueIds(ts[i := t]) && (pid.Some? ==> TopLevel(ts[i := t], pid.value))
  {
    if pid.Some? { EditFrame(ts, i, t, pid.value); }
  }

  /** When the last open subtask is completed its parent is completed with it, but a parent that was reopened by hand
      keeps its mark and stays open. */
  lemma LastSubtaskCompleted(ts: seq<Task>, i: nat, j: nat, now: Date)
    requires Inv(ts) && i < |ts| && j < |ts| && ts[i].parentTaskId == Some(ts[j].id)
    requires forall k :: 0 <= k < |ts| && k != i && ts[k].parentTaskId == Some(ts[j].id) ==> ts[k].completedAt.Some?
    ensures CompleteTask(ts, ts[i].id, now)[j] ==
              if ts[j].parentManualReopenAt.Some? || ts[j].completedAt.Some? then ts[j]
              else ts[j].(completedAt := Some(now), updatedAt := now)
    ensures ts[j].parentManualReopenAt.Some? ==> CompleteTask(ts, ts[i].id, now)[j].completedAt == None
  {
    CompleteEffect(ts, ts[i].id, now);
    assert IndexOf(ts, ts[i].id) == i;
    assert LinkOk(ts, ts[i]) && CompletionOk(ts, ts[j]);
    var done := ts[i].(completedAt := Some(now), reminderDate := None, reminderNotificationId := None,
                       parentManualReopenAt := None);
    var e := ts[i := done];
    assert e[i].parentTaskId == Some(ts[j].id);
    assert j != i && e[j] == ts[j];
  }

  // ------------------------------------------------------------------- reopening

  /** The task itself: marked when it has subtasks, and without a reminder that is past. */
  predicate OpenedAgain(ts: seq<Task>, t: Task, u: Task, now: Date) {
    var past := t.reminderNotificationId.Some? && t.reminderDate.Some? && t.reminderDate.value <= now;
    u == t.(completedAt := None,
            parentManualReopenAt := if HasSubtasks(ts, t.id) then Some(now) else t.parentManualReopenAt,
            reminderDate := if past then None else t.reminderDate,
            reminderNotificationId := if past then None else t.reminderNotificationId)
  }

  /** Reopening changes the task so, and its parent is open and unmarked afterwards. */
  lemma RestoreEffect(ts: seq<Task>, id: Id, now: Date)
    requires Inv(ts)
    ensures !Has(ts, id) ==> RestoreTask(ts, id, now) == ts
    ensures Has(ts, id) ==>
              var i, r := IndexOf(ts, id), RestoreTask(ts, id, now);
              && |r| == |ts| && OpenedAgain(ts, ts[i], r[i], now)
              && OnlySettles(ts[i := r[i]], r, ts[i].parentTaskId, true, now)
              && forall j :: 0 <= j < |ts| && Some(ts[j].id) == ts[i].parentTaskId ==>
                   r[j].completedAt == None && r[j].parentManualReopenAt == None
  {
    if Has(ts, id) {
      var i := IndexOf(ts, id);
      var open := RestoredTask(ts, ts[i], now);
      assert LinkOk(ts, ts[i]);
      EditedParent(ts, i, open, ts[i].parentTaskId);
      ReconcileEffect(ts[i := open], ts[i].parentTaskId, true, now);
      OpenBelow(ts[i := open], i);
      hide ReconcileIf, HasSubtasks, AllSubtasksCompleted, Inv;
    }
  }

  lemma OpenBelow(ts: seq<Task>, i: nat)
    requires i < |ts| && ts[i].completedAt.None?
    ensures ts[i].parentTaskId.Some? ==>
              HasSubtasks(ts, ts[i].parentTaskId.value) && !AllSubtasksCompleted(ts, ts[i].parentTaskId.value)
  {
  }

  // ----------------------------------------------------------------- reparenting

  /** A task goes below another one only when that is a top-level task, not the task itself, and the task has no
      subtasks; otherwise nothing changes. It loses its mark there, and takes the categories of its parent when it has
      none. The parents it leaves and joins are settled. */
  lemma SetParentEffect(ts: seq<Task>, id: Id, parentId: Option<Id>, now: Date)
    requires Inv(ts)
    ensures var r := SetParent(ts, id, parentId, now);
            if !Has(ts, id) || parentId == Some(id)
               || (parentId.Some? && (HasSubtasks(ts, id) || !TopLevel(ts, parentId.value)))
            then r == ts
            else
              var i := IndexOf(ts, id);
              && |r| == |ts|
              && r[i] == ts[i].(
                   parentTaskId := parentId, updatedAt := now,
                   parentManualReopenAt := if parentId.Some? then None else ts[i].parentManualReopenAt,
                   categories := if parentId.Some? && ts[i].categories == []
                                 then ts[IndexOf(ts, parentId.value)].categories else ts[i].categories)
              && forall j :: 0 <= j < |ts| && j != i ==>
                   if Some(ts[j].id) == parentId || Some(ts[j].id) == ts[i].parentTaskId
                   then ParentSettled(ts[i := r[i]], ts[j], r[j], true, now) else r[j] == ts[j]
  {
    if parentId.Some? { TopIndexFinds(ts, parentId.value); }
    if SetParentAllowed(ts, id, parentId) {
      var i := IndexOf(ts, id);
      var t := Reparented(ts, ts[i], parentId, now);
      var from := ts[i].parentTaskId;
      assert LinkOk(ts, ts[i]);
      var ts1 := ts[i := t];
      EditedParent(ts, i, t, from);
      EditedParent(ts, i, t, parentId);
      ReconcileEffect(ts1, from, true, now);
      var ts2 := ReconcileIf(ts1, from, true, now);
      SettledTwice(ts1, ts2, from, parentId, now);
      assert ts1[i] == t;
      if parentId.Some? {
        var k :| 0 <= k < |ts| && ts[k].id == parentId.value && ts[k].parentTaskId.None?;
        assert IndexOf(ts, parentId.value) == k;
      }
    }
  }

  /** Settling one parent and then another, or the same one again. */
  lemma SettledTwice(ts: seq<Task>, ts2: seq<Task>, from: Option<Id>, to: Option<Id>, now: Date)
    requires UniqueIds(ts) && (to.Some? ==> TopLevel(ts, to.value)) && OnlySettles(ts, ts2, from, true, now)
    requires from.Some? ==> TopLevel(ts, from.value)
    ensures var r := ReconcileIf(ts2, to, true, now);
            |r| == |ts| && forall j :: 0 <= j < |ts| ==>
              if Some(ts[j].id) == to || Some(ts[j].id) == from then ParentSettled(ts, ts[j], r[j], true, now)
              else r[j] == ts[j]
  {
    forall j | 0 <= j < |ts| ensures ts2[j].id == ts[j].id && ts2[j].parentTaskId == ts[j].parentTaskId {
      assert if Some(ts[j].id) == from then ParentSettled(ts, ts[j], ts2[j], true, now) else ts2[j] == ts[j];
    }
    if to.Some? { SubtasksStay(ts, ts2, from, to.value, now); }
    ReconcileEffect(ts2, to, true, now);
    var r := ReconcileIf(ts2, to, true, now);
    forall j | 0 <= j < |ts|
      ensures if Some(ts[j].id) == to || Some(ts[j].id) == from then ParentSettled(ts, ts[j], r[j], true, now)
              else r[j] == ts[j]
    {
      assert if Some(ts[j].id) == from then ParentSettled(ts, ts[j], ts2[j], true, now) else ts2[j] == ts[j];
      assert if Some(ts[j].id) == to then ParentSettled(ts2, ts2[j], r[j], true, now) else r[j] == ts2[j];
    }
  }

  lemma SubtasksStay(ts: seq<Task>, ts2: seq<Task>, from: Option<Id>, x: Id, now: Date)
    requires UniqueIds(ts) && TopLevel(ts, x) && OnlySettles(ts, ts2, from, true, now)
    requires from.Some? ==> TopLevel(ts, from.value)
    requires forall j :: 0 <= j < |ts| ==> ts2[j].id == ts[j].id && ts2[j].parentTaskId == ts[j].parentTaskId
    ensures UniqueIds(ts2) && TopLevel(ts2, x) && (HasSubtasks(ts2, x) <==> HasSubtasks(ts, x))
    ensures AllSubtasksCompleted(ts2, x) <==> AllSubtasksCompleted(ts, x)
  {
    var k :| 0 <= k < |ts| && ts[k].id == x && ts[k].parentTaskId.None?;
    assert ts2[k].id == x && ts2[k].parentTaskId.None?;
    forall j | 0 <= j < |ts| && Some(ts[j].id) == from ensures ts[j].parentTaskId.None? {
      TopLevelIs(ts, j);
    }
  }

  // ---------------------------------------------------------- adding and deleting

  /** A new task comes last, with an order index; below its parent when that is a top-level task, with the parent's
      categories when it has none; and without a mark when it names no parent. */
  lemma AddEffect(ts: seq<Task>, task: Task, nowMs: int, now: Date)
    requires Inv(ts) && !Has(ts, task.id)
    ensures var r := AddTask(ts, task, nowMs, now);
            var below := task.parentTaskId.Some? && TopLevel(ts, task.parentTaskId.value);
            var t := task.(
              orderIndex := if task.orderIndex.Some? then task.orderIndex else Some(nowMs),
              parentTaskId := if below then task.parentTaskId else None,
              parentManualReopenAt := if task.parentTaskId.Some? then task.parentManualReopenAt else None,
              categories := if below && task.categories == []
                            then ts[IndexOf(ts, task.parentTaskId.value)].categories else task.categories);
            && |r| == |ts| + 1 && r[|ts|] == t
            && OnlySettles(ts + [t], r, t.parentTaskId, true, now)
  {
    hide PreparedTask, OnlySettles, ReconcileIf, TopLevel;
    var t := PreparedTask(ts, task, nowMs);
    PreparedIs(ts, task, nowMs);
    AddedIsUnique(ts, t);
    if t.parentTaskId.Some? {
      AppendFrame(ts, t, t.parentTaskId.value);
    }
    ReconcileEffect(ts + [t], t.parentTaskId, true, now);
    LastIsSettled(ts, t, ReconcileIf(ts + [t], t.parentTaskId, true, now), true, now);
  }

  lemma PreparedIs(ts: seq<Task>, task: Task, nowMs: int)
    requires UniqueIds(ts) && !Has(ts, task.id)
    ensures var below := task.parentTaskId.Some? && TopLevel(ts, task.parentTaskId.value);
            PreparedTask(ts, task, nowMs) == task.(
              orderIndex := if task.orderIndex.Some? then task.orderIndex else Some(nowMs),
              parentTaskId := if below then task.parentTaskId else None,
              parentManualReopenAt := if task.parentTaskId.Some? then task.parentManualReopenAt else None,
              categories := if below && task.categories == []
                            then ts[IndexOf(ts, task.parentTaskId.value)].categories else task.categories)
    ensures task.parentTaskId.Some? && TopLevel(ts, task.parentTaskId.value) ==> task.parentTaskId.value != task.id
  {
    if task.parentTaskId.Some? {
      TopIndexFinds(ts, task.parentTaskId.value);
      if TopLevel(ts, task.parentTaskId.value) {
        var k :| 0 <= k < |ts| && ts[k].id == task.parentTaskId.value && ts[k].parentTaskId.None?;
        assert IndexOf(ts, task.parentTaskId.value) == k;
      }
    }
  }

  lemma AddedIsUnique(ts: seq<Task>, t: Task)
    requires UniqueIds(ts) && !Has(ts, t.id)
    ensures UniqueIds(ts + [t])
  {
  }

  lemma LastIsSettled(ts: seq<Task>, t: Task, r: seq<Task>, reset: bool, now: Date)
    requires OnlySettles(ts + [t], r, t.parentTaskId, reset, now) && t.parentTaskId != Some(t.id)
    ensures |r| == |ts| + 1 && r[|ts|] == t
  {
    assert (ts + [t])[|ts|] == t;
  }

  /** The task is gone, the others keep their order, and its parent is settled. */
  lemma DeleteEffect(ts: seq<Task>, id: Id, now: Date)
    requires Inv(ts)
    ensures !Has(ts, id) ==> DeleteTask(ts, id, now) == ts
    ensures Has(ts, id) ==>
              var i := IndexOf(ts, id);
              OnlySettles(ts[..i] + ts[i + 1..], DeleteTask(ts, id, now), ts[i].parentTaskId, true, now)
  {
    if Has(ts, id) {
      DeleteKnown(ts, id, now);
    } else {
      DropNone(ts, {id});
    }
  }

  lemma DeleteKnown(ts: seq<Task>, id: Id, now: Date)
    requires Inv(ts) && Has(ts, id)
    ensures var i := IndexOf(ts, id);
            OnlySettles(ts[..i] + ts[i + 1..], DeleteTask(ts, id, now), ts[i].parentTaskId, true, now)
  {
    hide OnlySettles, ReconcileIf, Drop, LinkOk;
    var i := IndexOf(ts, id);
    DropOne(ts, i);
    DroppedParent(ts, i);
    ReconcileEffect(ts[..i] + ts[i + 1..], ts[i].parentTaskId, true, now);
  }

  lemma DroppedParent(ts: seq<Task>, i: nat)
    requires Inv(ts) && i < |ts|
    ensures var rest := Drop(ts, {ts[i].id});
            UniqueIds(rest) && (ts[i].parentTaskId.Some? ==> TopLevel(rest, ts[i].parentTaskId.value))
  {
    assert LinkOk(ts, ts[i]);
    DropUnique(ts, {ts[i].id});
    if ts[i].parentTaskId.Some? { DropFrame(ts, {ts[i].id}, ts[i].parentTaskId.value); }
  }

  lemma {:induction false} DropOne(ts: seq<Task>, i: nat)
    requires UniqueIds(ts) && i < |ts|
    ensures Drop(ts, {ts[i].id}) == ts[..i] + ts[i + 1..]
  {
    if i == 0 {
      DropNone(ts[1..], {ts[0].id});
    } else {
      DropOne(ts[1..], i - 1);
      assert ts[..i] + ts[i + 1..] == [ts[0]] + (ts[1..][..i - 1] + ts[1..][i..]);
    }
  }

  // ------------------------------------------------------------------ reordering

  function ById(ts: seq<Task>, id: Id): (t: Task)
    requires Has(ts, id)
    ensures t.id == id
  {
    ts[IndexOf(ts, id)]
  }

  /** The named tasks come first, in the order of their names, numbered downwards from the given index and stamped. */
  lemma ReorderedFirst(ts: seq<Task>, ids: seq<Id>, nowBase: int, now: Date, k: nat)
    requires (forall i :: 0 <= i < |ids| ==> Has(ts, ids[i])) && k < |ids|
    ensures var r := ReorderTasks(ts, ids, nowBase, now);
            |r| >= |ids| && r[k] == ById(ts, ids[k]).(orderIndex := Some(nowBase - k), updatedAt := now)
  {
    hide Drop;
    PickAt(ts, ids, k);
  }

  /** The others follow as they were, in their old order. */
  lemma ReorderedRest(ts: seq<Task>, ids: seq<Id>, nowBase: int, now: Date)
    requires UniqueIds(ts) && forall i :: 0 <= i < |ids| ==> Has(ts, ids[i])
    ensures |ReorderTasks(ts, ids, nowBase, now)| >= |ids|
    ensures var rest := ReorderTasks(ts, ids, nowBase, now)[|ids|..];
            && (forall t :: t in rest <==> t in ts && t.id !in ids)
            && (forall i, j :: 0 <= i < j < |ts| && ts[i].id !in ids && ts[j].id !in ids ==>
                  IndexOf(rest, ts[i].id) < IndexOf(rest, ts[j].id) < |rest|)
  {
    var rest := Drop(ts, IdSet(ids));
    PickIds(ts, ids);
    assert ReorderTasks(ts, ids, nowBase, now)[|ids|..] == rest;
    hide Drop, ReorderTasks, IdSet;
    forall t ensures t in rest <==> t in ts && t.id !in ids { RestMember(ts, ids, t); }
    forall i, j | 0 <= i < j < |ts| && ts[i].id !in ids && ts[j].id !in ids
      ensures IndexOf(rest, ts[i].id) < IndexOf(rest, ts[j].id) < |rest|
    {
      RestOrder(ts, ids, i, j);
    }
  }

  lemma RestMember(ts: seq<Task>, ids: seq<Id>, t: Task)
    ensures t in Drop(ts, IdSet(ids)) <==> t in ts && t.id !in ids
  {
    DropMember(ts, IdSet(ids), t);
  }

  lemma RestOrder(ts: seq<Task>, ids: seq<Id>, i: nat, j: nat)
    requires UniqueIds(ts) && i < j < |ts| && ts[i].id !in ids && ts[j].id !in ids
    ensures var rest := Drop(ts, IdSet(ids)); IndexOf(rest, ts[i].id) < IndexOf(rest, ts[j].id) < |rest|
  {
    DropKeepsOrder(ts, IdSet(ids), i, j);
  }

  lemma {:induction false} PickAt(ts: seq<Task>, ids: seq<Id>, k: nat)
    requires (forall i :: 0 <= i < |ids| ==> Has(ts, ids[i])) && k < |ids|
    ensures |Pick(ts, ids)| == |ids| && Pick(ts, ids)[k] == ById(ts, ids[k])
  {
    assert Has(ts, ids[0]);
    PickIds(ts, ids);
    PickIds(ts, ids[1..]);
    if k > 0 { PickAt(ts, ids[1..], k - 1); }
  }

  lemma {:induction false} DropKeepsOrder(ts: seq<Task>, ids: set<Id>, i: nat, j: nat)
    requires UniqueIds(ts) && i < j < |ts| && ts[i].id !in ids && ts[j].id !in ids
    ensures IndexOf(Drop(ts, ids), ts[i].id) < IndexOf(Drop(ts, ids), ts[j].id) < |Drop(ts, ids)|
  {
    if i > 0 {
      DropKeepsOrder(ts[1..], ids, i - 1, j - 1);
    } else {
      hide UniqueIds;
      assert ts[j].id != ts[0].id by { ApartIds(ts, 0, j); }
      assert ts[j] in ts[1..] by { assert ts[1..][j - 1] == ts[j]; }
      DropMember(ts[1..], ids, ts[j]);
      HeadIsFirst(ts[0], Drop(ts[1..], ids), ts[j]);
    }
  }

  lemma ApartIds(ts: seq<Task>, i: nat, j: nat)
    requires UniqueIds(ts) && i < j < |ts|
    ensures ts[i].id != ts[j].id
  {
  }

  lemma HeadIsFirst(t: Task, rest: seq<Task>, u: Task)
    requires u in rest && u.id != t.id
    ensures IndexOf([t] + rest, t.id) < IndexOf([t] + rest, u.id) < |[t] + rest|
  {
    InIndex(rest, u);
    assert ([t] + rest)[1..] == rest;
  }

  lemma InIndex(ts: seq<Task>, t: Task)
    requires t in ts
    ensures IndexOf(ts, t.id) < |ts|
  {
    var i :| 0 <= i < |ts| && ts[i] == t;
  }

  /** Lists are sorted by their order index, one that is missing counting as 0, the largest first. */
  lemma SortEffect(ts: seq<Task>, i: nat, j: nat)
    requires i < j < |ts|
    ensures var s := SortDesc(ts);
            && multiset(s) == multiset(ts)
            && (match s[i].orderIndex case Some(n) => n case None => 0)
               >= (match s[j].orderIndex case Some(n) => n case None => 0)
  {
    SortDescSorts(ts);
  }

  // ------------------------------------------------------------------ categories

  /** Where the category was, all its occurrences are gone, the replacement comes last unless it is there already, and
      the task is stamped; other tasks stay. */
  lemma RemoveCategoryEffect(ts: seq<Task>, cat: string, replacement: Option<string>, now: Date, i: nat)
    requires i < |ts|
    ensures var r := RemoveCategory(ts, cat, replacement, now);
            && |r| == |ts|
            && (cat !in ts[i].categories ==> r[i] == ts[i])
            && (cat in ts[i].categories ==>
                  var kept := WithoutCategory(ts[i].categories, cat);
                  r[i] == ts[i].(
                    categories := kept + (if replacement.Some? && replacement.value !in kept then [replacement.value]
                                          else []),
                    updatedAt := now))
  {
    var kept := WithoutCategory(ts[i].categories, cat);
    assert kept + [] == kept;
  }

  /** Leaving a category out keeps everything else, in order. */
  lemma {:induction false} WithoutIsFilter(a: seq<string>, b: seq<string>, x: string, cat: string)
    ensures WithoutCategory([], cat) == [] && WithoutCategory([x], cat) == if x == cat then [] else [x]
    ensures WithoutCategory(a + b, cat) == WithoutCategory(a, cat) + WithoutCategory(b, cat)
    decreases |a|
  {
    assert [x][1..] == [];
    if a == [] {
      assert a + b == b;
    } else {
      WithoutIsFilter(a[1..], b, x, cat);
      assert (a + b)[1..] == a[1..] + b;
    }
  }

  // --------------------------------------------------------------------- imports

  /** Imported tasks come last, in order, missing order indices counted up from the base, each below its parent when
      that is a top-level task of the old list, with the parent's categories when it has none. */
  lemma ImportEffect(ts: seq<Task>, batch: seq<Task>, base: int, k: nat)
    requires UniqueIds(ts) && k < |batch|
    ensures var r := ImportTasks(ts, batch, base); var task := batch[k];
            var below := task.parentTaskId.Some? && TopLevel(ts, task.parentTaskId.value);
            && |r| == |ts| + |batch| && r[..|ts|] == ts
            && r[|ts| + k] == task.(
                 orderIndex := if task.orderIndex.Some? then task.orderIndex else Some(base + k),
                 parentTaskId := if below then task.parentTaskId else None,
                 parentManualReopenAt := if task.parentTaskId.Some? then task.parentManualReopenAt else None,
                 categories := if below && task.categories == []
                               then ts[IndexOf(ts, task.parentTaskId.value)].categories else task.categories)
  {
    var task := batch[k];
    assert ImportTasks(ts, batch, base)[|ts| + k] == PreparedTask(ts, task, base + k);
    if task.parentTaskId.Some? {
      TopIndexFinds(ts, task.parentTaskId.value);
      if TopLevel(ts, task.parentTaskId.value) {
        var j :| 0 <= j < |ts| && ts[j].id == task.parentTaskId.value && ts[j].parentTaskId.None?;
        assert IndexOf(ts, task.parentTaskId.value) == j;
      }
    }
  }

  // ----------------------------------------------------------------------- edits

  /** An edit replaces the task, but for its id, and stamps it; other tasks stay, and nothing is settled. */
  lemma EditEffect(ts: seq<Task>, id: Id, edited: Task, now: Date)
    ensures EditTask(ts, id, edited, now) ==
              if Has(ts, id) then ts[IndexOf(ts, id) := edited.(id := id, updatedAt := now)] else ts
  {
  }
}
