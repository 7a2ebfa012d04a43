/** Tasks, and the list operations that the store and the list views perform on them. */
module TaskModel {
  import opened Prelude
  import opened Lists
  import opened Sorting

  /** The text of a UUID. */
  datatype Id = Id(text: string)

  type Date = int

  datatype Priority = High | Medium | Low | Deferred

  datatype Task = Task(
    id: Id,
    title: string,
    categories: seq<string>,
    priority: Priority,
    dueDate: Option<Date>,
    completedAt: Option<Date>,
    taskNotes: Option<string>,
    createdAt: Date,
    updatedAt: Date,
    orderIndex: Option<int>,
    reminderDate: Option<Date>,
    reminderNotificationId: Option<string>,
    parentTaskId: Option<Id>,
    parentManualReopenAt: Option<Date>)

  /** Ids identify tasks. */
  predicate UniqueIds(ts: seq<Task>) {
    forall i, j :: 0 <= i < j < |ts| ==> ts[i].id != ts[j].id
  }

  function Ids(ts: seq<Task>): (ids: seq<Id>)
    ensures |ids| == |ts|
  {
    seq(|ts|, i requires 0 <= i < |ts| => ts[i].id)
  }

  function IdSet(ids: seq<Id>): set<Id> {
    set x | x in ids
  }

  /** Index of the first task with this id, or |ts|. */
  function IndexOf(ts: seq<Task>, id: Id): (i: nat)
    ensures i <= |ts|
    ensures i < |ts| ==> ts[i].id == id
    ensures forall j :: 0 <= j < i ==> ts[j].id != id
  {
    if ts == [] || ts[0].id == id then 0 else 1 + IndexOf(ts[1..], id)
  }

  predicate Has(ts: seq<Task>, id: Id) {
    IndexOf(ts, id) < |ts|
  }

  /** The tasks whose id is not in the set, in order. */
  function Drop(ts: seq<Task>, ids: set<Id>): (r: seq<Task>) {
    if ts == [] then []
    else if ts[0].id in ids then Drop(ts[1..], ids)
    else [ts[0]] + Drop(ts[1..], ids)
  }

  /** The tasks below this parent, in array order. */
  function Children(ts: seq<Task>, pid: Id): (r: seq<Task>) {
    if ts == [] then []
    else if ts[0].parentTaskId == Some(pid) then [ts[0]] + Children(ts[1..], pid)
    else Children(ts[1..], pid)
  }

  lemma {:induction false} DropMember(ts: seq<Task>, ids: set<Id>, t: Task)
    ensures t in Drop(ts, ids) <==> t in ts && t.id !in ids
  {
    if ts != [] {
      DropMember(ts[1..], ids, t);
    }
  }

  lemma {:induction false} ChildrenMember(ts: seq<Task>, pid: Id, t: Task)
    ensures t in Children(ts, pid) <==> t in ts && t.parentTaskId == Some(pid)
  {
    if ts != [] {
      ChildrenMember(ts[1..], pid, t);
    }
  }

  lemma {:induction false} DropUnique(ts: seq<Task>, ids: set<Id>)
    requires UniqueIds(ts)
    ensures UniqueIds(Drop(ts, ids))
  {
    if ts != [] {
      DropUnique(ts[1..], ids);
      var rest := Drop(ts[1..], ids);
      forall t | t in rest ensures t.id != ts[0].id {
        DropMember(ts[1..], ids, t);
      }
    }
  }

  lemma {:induction false} DropDrop(ts: seq<Task>, a: set<Id>, b: set<Id>)
    ensures Drop(Drop(ts, a), b) == Drop(ts, a + b)
  {
    if ts != [] {
      DropDrop(ts[1..], a, b);
      var rest := Drop(ts[1..], a);
      if ts[0].id in a {
        assert Drop(ts, a) == rest;
      } else {
        assert Drop(ts, a)[1..] == rest;
      }
    }
  }

  lemma {:induction false} DropNone(ts: seq<Task>, ids: set<Id>)
    requires forall t :: t in ts ==> t.id !in ids
    ensures Drop(ts, ids) == ts
  {
    if ts != [] {
      DropNone(ts[1..], ids);
    }
  }

  /** An edit of a task that is dropped anyway does not show. */
  lemma {:induction false} DropEdited(ts: seq<Task>, i: nat, t: Task, ids: set<Id>)
    requires i < |ts| && t.id == ts[i].id && t.id in ids
    ensures Drop(ts[i := t], ids) == Drop(ts, ids)
  {
    if i > 0 {
      DropEdited(ts[1..], i - 1, t, ids);
      assert ts[i := t][1..] == ts[1..][i - 1 := t];
    } else {
      assert ts[i := t][1..] == ts[1..];
    }
  }

  /** Rearranging tasks with distinct ids leaves the ids distinct. */
  lemma DistinctSorted(a: seq<Task>, b: seq<Task>)
    requires UniqueIds(a) && multiset(a) == multiset(b)
    ensures UniqueIds(b)
  {
    forall i, j | 0 <= i < j < |b| ensures b[i].id != b[j].id {
      if b[i].id == b[j].id {
        assert b[i] in multiset(a) && b[j] in multiset(a);
        var p :| 0 <= p < |a| && a[p] == b[i];
        var q :| 0 <= q < |a| && a[q] == b[j];
        assert p == q;
        OccursTwice(b, i, j);
        OccursOnce(a, p);
      }
    }
  }

  // ----------------------------------------------------------- display order

  function OrderKey(t: Task): int {
    if t.orderIndex.Some? then t.orderIndex.value else 0
  }

  predicate Descending(ts: seq<Task>) {
    forall i, j :: 0 <= i < j < |ts| ==> OrderKey(ts[i]) >= OrderKey(ts[j])
  }

  /** The task may stand above the other. */
  predicate Above(t: Task, u: Task) {
    OrderKey(t) >= OrderKey(u)
  }

  /** sortedByOrderIndexDesc: tasks by descending order index, ties in their old order. */
  function SortDesc(ts: seq<Task>): (r: seq<Task>)
    ensures |r| == |ts|
  {
    Sort(ts, Above)
  }

  lemma SortDescSorts(ts: seq<Task>)
    ensures Descending(SortDesc(ts)) && multiset(SortDesc(ts)) == multiset(ts)
  {
    SortInOrder(ts, Above);
    SortKeeps(ts, Above);
    var r := SortDesc(ts);
    forall i, j | 0 <= i < j < |r| ensures OrderKey(r[i]) >= OrderKey(r[j]) {
      PairInOrder(r, Above, i, j);
    }
  }

  lemma SortDescMember(ts: seq<Task>, t: Task)
    ensures t in SortDesc(ts) <==> t in ts
  {
    SortMember(ts, Above, t);
  }

  /** subtasks(for:), without its completion filter. */
  function Subtasks(ts: seq<Task>, pid: Id): (r: seq<Task>) {
    SortDesc(Children(ts, pid))
  }
}
