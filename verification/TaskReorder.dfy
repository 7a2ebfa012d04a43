/** Reordering tasks, and the drag and drop of the list views: re-sorting a group after a
    drop shows the old order with only the dragged task moved. */
module TaskReorder {
  import opened Prelude
  import opened Sorting
  import opened TaskModel
  import opened TaskHierarchy
  import opened Lists

  /** The tasks with these ids, in the order of the ids; unknown ids are skipped. */
  function Pick(ts: seq<Task>, ids: seq<Id>): (r: seq<Task>) {
    if ids == [] then []
    else
      var i := IndexOf(ts, ids[0]);
      if i < |ts| then [ts[i]] + Pick(ts, ids[1..]) else Pick(ts, ids[1..])
  }

  function Numbered(ts: seq<Task>, nowBase: int, now: Date): (r: seq<Task>)
    ensures |r| == |ts|
  {
    seq(|ts|, i requires 0 <= i < |ts| => ts[i].(orderIndex := Some(nowBase - i), updatedAt := now))
  }

  /** reorderTasks. */
  function ReorderTasks(ts: seq<Task>, ids: seq<Id>, nowBase: int, now: Date): seq<Task> {
    Numbered(Pick(ts, ids), nowBase, now) + Drop(ts, IdSet(ids))
  }

  /** Where a drop lands: before a task, in the end slot, or on the group itself. */
  datatype Target = Before(id: Id) | End | Top

  /** The id list that a drop handler builds from the displayed order. */
  function Moved(order: seq<Id>, dragged: Id, target: Target): seq<Id> {
    var rest := Remove(order, dragged);
    InsertAt(rest, Slot(rest, target), dragged)
  }

  function Slot(rest: seq<Id>, target: Target): (i: nat)
    ensures i <= |rest|
  {
    match target
    case End => |rest|
    case Top => 0
    case Before(t) => if Find(rest, t) < |rest| then Find(rest, t) else 0
  }

  /** reorderWithinSameGroup, for a group of the store's tasks. */
  function ListDrop(ts: seq<Task>, group: seq<Task>, dragged: Id, target: Target, nowBase: int, now: Date): seq<Task> {
    ReorderTasks(ts, Moved(Ids(SortDesc(group)), dragged, target), nowBase, now)
  }

  /** The filter of subtasks(for:includeCompleted:). */
  function Listed(ts: seq<Task>, pid: Id, done: bool): seq<Task> {
    if ts == [] then []
    else if ts[0].parentTaskId == Some(pid) && ts[0].completedAt.Some? == done then [ts[0]] + Listed(ts[1..], pid, done)
    else Listed(ts[1..], pid, done)
  }

  function SubtaskList(ts: seq<Task>, pid: Id, done: bool): seq<Task> {
    SortDesc(Listed(ts, pid, done))
  }

  /** applySubtaskDrop. */
  function SubtaskDrop(ts: seq<Task>, dragged: Id, pid: Id, target: Target, done: bool, nowBase: int,
                       now: Date): seq<Task> {
    if dragged == pid then ts
    else
      var ts1 := SetParent(ts, dragged, Some(pid), now);
      ReorderTasks(ts1, Moved(Ids(SubtaskList(ts1, pid, done)), dragged, target), nowBase, now)
  }

  // ------------------------------------------------------- reordering proper

  lemma {:induction false} PickMember(ts: seq<Task>, ids: seq<Id>, t: Task)
    requires UniqueIds(ts)
    ensures t in Pick(ts, ids) <==> t in ts && t.id in ids
  {
    if ids != [] {
      PickMember(ts, ids[1..], t);
      var i := IndexOf(ts, ids[0]);
      if t in ts {
        var j :| 0 <= j < |ts| && ts[j] == t;
        assert t.id == ids[0] ==> i == j;
      }
    }
  }

  lemma {:induction false} PickUnique(ts: seq<Task>, ids: seq<Id>)
    requires UniqueIds(ts) && Distinct(ids)
    ensures UniqueIds(Pick(ts, ids))
  {
    if ids != [] {
      var rest := Pick(ts, ids[1..]);
      PickUnique(ts, ids[1..]);
      forall t | t in rest ensures t.id != ids[0] {
        PickMember(ts, ids[1..], t);
      }
    }
  }

  lemma {:induction false} PickIds(ts: seq<Task>, ids: seq<Id>)
    requires forall i :: 0 <= i < |ids| ==> Has(ts, ids[i])
    ensures |Pick(ts, ids)| == |ids| && Ids(Pick(ts, ids)) == ids
  {
    if ids != [] {
      PickIds(ts, ids[1..]);
      assert Has(ts, ids[0]);
      assert Pick(ts, ids) == [ts[IndexOf(ts, ids[0])]] + Pick(ts, ids[1..]);
    }
  }

  /** The task without the two fields that a reorder writes. */
  function Plain(t: Task): Task {
    t.(orderIndex := None, updatedAt := 0)
  }

  lemma {:induction false} SplitLength(ts: seq<Task>, ids: set<Id>)
    ensures |Drop(ts, ids)| + |Kept(ts, ids)| == |ts|
  {
    if ts != [] {
      SplitLength(ts[1..], ids);
    }
  }

  /** The tasks whose id is in the set, in array order. */
  function Kept(ts: seq<Task>, ids: set<Id>): seq<Task> {
    if ts == [] then []
    else if ts[0].id in ids then [ts[0]] + Kept(ts[1..], ids)
    else Kept(ts[1..], ids)
  }

  lemma {:induction false} KeptMember(ts: seq<Task>, ids: set<Id>, t: Task)
    ensures t in Kept(ts, ids) <==> t in ts && t.id in ids
  {
    if ts != [] {
      KeptMember(ts[1..], ids, t);
    }
  }

  lemma {:induction false} KeptUnique(ts: seq<Task>, ids: set<Id>)
    requires UniqueIds(ts)
    ensures UniqueIds(Kept(ts, ids))
  {
    if ts != [] {
      KeptUnique(ts[1..], ids);
      forall t | t in Kept(ts[1..], ids) ensures t.id != ts[0].id {
        KeptMember(ts[1..], ids, t);
      }
    }
  }

  /** Two lists of tasks with distinct ids and the same members have the same length. */
  lemma {:induction false} SameMembersSameLength(a: seq<Task>, b: seq<Task>)
    requires UniqueIds(a) && UniqueIds(b) && forall t :: t in a <==> t in b
    ensures |a| == |b|
  {
    var sa, sb := set t | t in a, set t | t in b;
    CardinalityOfMembers(a);
    CardinalityOfMembers(b);
    assert sa == sb;
  }

  lemma {:induction false} CardinalityOfMembers(a: seq<Task>)
    requires UniqueIds(a)
    ensures |set t | t in a| == |a|
  {
    if a != [] {
      CardinalityOfMembers(a[1..]);
      assert (set t | t in a) == {a[0]} + set t | t in a[1..];
      assert a[0] !in a[1..];
    }
  }

  /** A reorder permutes the task array: no task is lost or duplicated, and only order index
      and update time change, and only on the tasks it names. */
  lemma ReorderPermutes(ts: seq<Task>, ids: seq<Id>, nowBase: int, now: Date)
    requires UniqueIds(ts) && Distinct(ids)
    ensures var r := ReorderTasks(ts, ids, nowBase, now);
            |r| == |ts| && UniqueIds(r)
            && (forall t :: t in ts && t.id !in ids ==> t in r)
            && (forall u :: u in r ==> exists t :: t in ts && Plain(t) == Plain(u))
            && (forall t :: t in ts ==> exists u :: u in r && Plain(t) == Plain(u))
  {
    var picked, numbered, rest := Pick(ts, ids), Numbered(Pick(ts, ids), nowBase, now), Drop(ts, IdSet(ids));
    var r := ReorderTasks(ts, ids, nowBase, now);
    PickUnique(ts, ids);
    DropUnique(ts, IdSet(ids));
    KeptUnique(ts, IdSet(ids));
    forall t ensures
      (t in picked <==> t in ts && t.id in ids) && (t in rest <==> t in ts && t.id !in ids)
      && (t in Kept(ts, IdSet(ids)) <==> t in ts && t.id in ids)
    {
      PickMember(ts, ids, t);
      DropMember(ts, IdSet(ids), t);
      KeptMember(ts, IdSet(ids), t);
    }
    SameMembersSameLength(picked, Kept(ts, IdSet(ids)));
    SplitLength(ts, IdSet(ids));
    forall i, j | 0 <= i < j < |r| ensures r[i].id != r[j].id {
      if i < |picked| {
        assert picked[i] in picked;
      }
      if j >= |picked| {
        assert r[j] in rest;
      }
    }
    forall u | u in r ensures exists t :: t in ts && Plain(t) == Plain(u) {
      var i :| 0 <= i < |r| && r[i] == u;
      if i < |picked| {
        assert picked[i] in picked && Plain(picked[i]) == Plain(u);
      } else {
        assert u in rest;
      }
    }
    forall t | t in ts ensures exists u :: u in r && Plain(t) == Plain(u) {
      if t.id in ids {
        var i :| 0 <= i < |picked| && picked[i] == t;
        assert r[i] in r && Plain(r[i]) == Plain(t);
      } else {
        assert t in r;
      }
    }
  }

  // ------------------------------------------------------- the moved id list

  /** The place of the dragged task in the new list: the start, unless there is another place to go to. */
  predicate Placed(order: seq<Id>, moved: seq<Id>, dragged: Id, target: Target) {
    match target
    case End => moved != [] && moved[|moved| - 1] == dragged
    case Before(t) =>
      if t in order && t != dragged
      then exists i :: 0 <= i && i + 1 < |moved| && moved[i] == dragged && moved[i + 1] == t
      else moved != [] && moved[0] == dragged
    case Top => moved != [] && moved[0] == dragged
  }

  lemma MovedDistinct(order: seq<Id>, dragged: Id, target: Target)
    requires Distinct(order)
    ensures Distinct(Moved(order, dragged, target))
  {
    var rest := Remove(order, dragged);
    RemoveDistinct(order, dragged);
    RemoveMember(order, dragged, dragged);
    InsertDistinct(rest, Slot(rest, target), dragged);
  }

  /** A drop moves the dragged task to just before the target and keeps everything else in order. */
  lemma MovedOnlyMoves(order: seq<Id>, dragged: Id, target: Target)
    requires Distinct(order)
    ensures var m := Moved(order, dragged, target);
            Distinct(m) && (forall x :: x in m <==> x in order || x == dragged)
            && Remove(m, dragged) == Remove(order, dragged) && Placed(order, m, dragged, target)
  {
    var rest := Remove(order, dragged);
    var i := Slot(rest, target);
    var m := Moved(order, dragged, target);
    MovedDistinct(order, dragged, target);
    forall x ensures x in m <==> x in order || x == dragged {
      RemoveMember(order, dragged, x);
      InsertMember(rest, i, dragged, x);
    }
    RemoveMember(order, dragged, dragged);
    RemoveInserted(rest, i, dragged);
    MovedIsPlaced(order, dragged, target);
  }

  lemma MovedIsPlaced(order: seq<Id>, dragged: Id, target: Target)
    ensures Placed(order, Moved(order, dragged, target), dragged, target)
  {
    var rest := Remove(order, dragged);
    var i := Slot(rest, target);
    if target.Before? {
      RemoveMember(order, dragged, target.id);
      if target.id in rest {
        InsertedElements(rest, i, dragged, i);
      }
    }
  }

  // ------------------------------------------------------ re-sorting a group

  lemma {:induction false} IncreasingFromBelow(f: seq<nat>, i: nat)
    requires i < |f| && forall j, k :: 0 <= j < k < |f| ==> f[j] < f[k]
    ensures f[i] >= i
  {
    if i > 0 {
      IncreasingFromBelow(f, i - 1);
    }
  }

  lemma {:induction false} IncreasingFromAbove(f: seq<nat>, i: nat)
    requires i < |f| && (forall j, k :: 0 <= j < k < |f| ==> f[j] < f[k]) && forall j :: 0 <= j < |f| ==> f[j] < |f|
    ensures f[i] <= i
    decreases |f| - i
  {
    if i + 1 < |f| {
      IncreasingFromAbove(f, i + 1);
    }
  }

  /** Tasks that carry the numbers a reorder gave them sort into the order of the ids. */
  lemma ResortShows(g: seq<Task>, ids: seq<Id>, nowBase: int)
    requires UniqueIds(g) && |g| == |ids| && Distinct(ids)
    requires forall t :: t in g ==> t.id in ids && OrderKey(t) == nowBase - Find(ids, t.id)
    ensures Ids(SortDesc(g)) == ids
  {
    var s := SortDesc(g);
    SortDescSorts(g);
    DistinctSorted(g, s);
    forall i | 0 <= i < |s| ensures s[i].id in ids && OrderKey(s[i]) == nowBase - Find(ids, s[i].id) {
      SortDescMember(g, s[i]);
    }
    forall i | 0 <= i < |s| ensures s[i].id == ids[i] {
      NumberedInPlace(s, ids, nowBase, i);
    }
  }

  lemma NumberedInPlace(s: seq<Task>, ids: seq<Id>, nowBase: int, i: nat)
    requires UniqueIds(s) && Descending(s) && |s| == |ids| && i < |s|
    requires forall j :: 0 <= j < |s| ==> s[j].id in ids && OrderKey(s[j]) == nowBase - Find(ids, s[j].id)
    ensures s[i].id == ids[i]
  {
    var f: seq<nat> := seq(|s|, j requires 0 <= j < |s| => Find(ids, s[j].id));
    forall j | 0 <= j < |f| ensures f[j] < |f| && ids[f[j]] == s[j].id {}
    forall j, k | 0 <= j < k < |f| ensures f[j] < f[k] {
      assert OrderKey(s[j]) >= OrderKey(s[k]);
    }
    IncreasingFromBelow(f, i);
    IncreasingFromAbove(f, i);
  }

  /** After reorderTasks, any view of the named tasks sorts into the given order. */
  lemma ReorderShows(ts: seq<Task>, ids: seq<Id>, nowBase: int, now: Date, g: seq<Task>)
    requires UniqueIds(ts) && Distinct(ids) && forall i :: 0 <= i < |ids| ==> Has(ts, ids[i])
    requires UniqueIds(g) && forall t :: t in g <==> t in ReorderTasks(ts, ids, nowBase, now) && t.id in ids
    ensures Ids(SortDesc(g)) == ids
  {
    var numbered := Numbered(Pick(ts, ids), nowBase, now);
    NumberedIds(ts, ids, nowBase, now);
    forall t ensures t in g <==> t in numbered {
      ReorderedNamed(ts, ids, nowBase, now, t);
    }
    hide Numbered, Pick, ReorderTasks, SortDesc;
    SameMembersSameLength(g, numbered);
    ResortShows(g, ids, nowBase);
  }

  /** The tasks that a reorder numbers. */
  lemma NumberedIds(ts: seq<Task>, ids: seq<Id>, nowBase: int, now: Date)
    requires UniqueIds(ts) && Distinct(ids) && forall i :: 0 <= i < |ids| ==> Has(ts, ids[i])
    ensures var numbered := Numbered(Pick(ts, ids), nowBase, now);
            && |numbered| == |ids| && UniqueIds(numbered) && (forall t :: t in numbered ==> t.id in ids)
            && forall t :: t in numbered ==> OrderKey(t) == nowBase - Find(ids, t.id)
  {
    hide Numbered, Has, Pick;
    var numbered := Numbered(Pick(ts, ids), nowBase, now);
    NumberedAt(ts, ids, nowBase, now);
    forall t | t in numbered ensures t.id in ids && OrderKey(t) == nowBase - Find(ids, t.id) {
      var i :| 0 <= i < |numbered| && numbered[i] == t;
      assert ids[Find(ids, t.id)] == ids[i];
    }
  }

  lemma NumberedAt(ts: seq<Task>, ids: seq<Id>, nowBase: int, now: Date)
    requires UniqueIds(ts) && Distinct(ids) && forall i :: 0 <= i < |ids| ==> Has(ts, ids[i])
    ensures var numbered := Numbered(Pick(ts, ids), nowBase, now);
            && |numbered| == |ids|
            && forall i :: 0 <= i < |ids| ==> numbered[i].id == ids[i] && OrderKey(numbered[i]) == nowBase - i
  {
    PickIds(ts, ids);
    hide Pick, Has;
    var picked := Pick(ts, ids);
    assert forall i :: 0 <= i < |ids| ==> Ids(picked)[i] == ids[i];
  }

  /** Of the reordered list the tasks that were named are those that were numbered. */
  lemma ReorderedNamed(ts: seq<Task>, ids: seq<Id>, nowBase: int, now: Date, t: Task)
    requires UniqueIds(ts) && Distinct(ids) && forall i :: 0 <= i < |ids| ==> Has(ts, ids[i])
    ensures t in ReorderTasks(ts, ids, nowBase, now) && t.id in ids <==> t in Numbered(Pick(ts, ids), nowBase, now)
  {
    NumberedIds(ts, ids, nowBase, now);
    DropMember(ts, IdSet(ids), t);
  }

  /** List drop: re-sorting the group gives the old order with only the dragged task moved. */
  lemma ListDropShows(ts: seq<Task>, group: seq<Task>, dragged: Id, target: Target, nowBase: int, now: Date,
                      g: seq<Task>)
    requires UniqueIds(ts) && UniqueIds(group) && forall t :: t in group ==> t in ts
    requires dragged in Ids(group)
    requires UniqueIds(g)
    requires forall t :: t in g <==> t in ListDrop(ts, group, dragged, target, nowBase, now) && t.id in Ids(group)
    ensures Ids(SortDesc(g)) == Moved(Ids(SortDesc(group)), dragged, target)
  {
    hide Ids, SortDesc, ReorderTasks, Moved, UniqueIds;
    DroppedIds(ts, group, dragged, target);
    ReorderShows(ts, Moved(Ids(SortDesc(group)), dragged, target), nowBase, now, g);
  }

  /** The ids that a list drop asks for are those of the group. */
  lemma DroppedIds(ts: seq<Task>, group: seq<Task>, dragged: Id, target: Target)
    requires UniqueIds(group) && forall t :: t in group ==> t in ts
    requires dragged in Ids(group)
    ensures var ids := Moved(Ids(SortDesc(group)), dragged, target);
            && Distinct(ids) && (forall x :: x in ids <==> x in Ids(group))
            && forall i :: 0 <= i < |ids| ==> Has(ts, ids[i])
  {
    hide SortDesc, Moved;
    var order := Ids(SortDesc(group));
    var ids := Moved(order, dragged, target);
    OrderIds(group);
    MovedOnlyMoves(order, dragged, target);
    forall i | 0 <= i < |ids| ensures Has(ts, ids[i]) {
      assert ids[i] in ids;
      var j :| 0 <= j < |group| && Ids(group)[j] == ids[i];
      assert group[j] in ts;
      MemberIsFound(ts, group[j]);
    }
  }

  lemma MemberIsFound(ts: seq<Task>, t: Task)
    requires t in ts
    ensures Has(ts, t.id)
  {
    var i :| 0 <= i < |ts| && ts[i] == t;
  }

  /** Sorting keeps the ids. */
  lemma OrderIds(group: seq<Task>)
    requires UniqueIds(group)
    ensures Distinct(Ids(SortDesc(group)))
    ensures forall x :: x in Ids(SortDesc(group)) <==> x in Ids(group)
  {
    var s := SortDesc(group);
    SortDescSorts(group);
    DistinctSorted(group, s);
    forall x | x in Ids(s) ensures x in Ids(group) {
      var i :| 0 <= i < |s| && Ids(s)[i] == x;
      SortDescMember(group, s[i]);
      var j :| 0 <= j < |group| && group[j] == s[i];
      assert Ids(group)[j] == x;
    }
    forall x | x in Ids(group) ensures x in Ids(s) {
      var i :| 0 <= i < |group| && Ids(group)[i] == x;
      SortDescMember(group, group[i]);
      var j :| 0 <= j < |s| && s[j] == group[i];
      assert Ids(s)[j] == x;
    }
  }

  // ------------------------------------------------------------ subtask drop

  /** Reconciling changes at most one task, and that one is top-level before and after. */
  lemma ReconcilePointwise(ts: seq<Task>, pid: Option<Id>, now: Date, i: nat)
    requires i < |ts|
    ensures var t := ReconcileIf(ts, pid, true, now)[i];
            t.id == ts[i].id && (t == ts[i] || (t.parentTaskId.None? && ts[i].parentTaskId.None?))
  {
  }

  /** Apart from the moved task, setParent touches only top-level tasks. */
  lemma SetParentPointwise(ts: seq<Task>, d: Id, pid: Id, now: Date, i: nat)
    requires SetParentAllowed(ts, d, Some(pid)) && i < |ts| && UniqueIds(ts)
    ensures |SetParent(ts, d, Some(pid), now)| == |ts|
    ensures var t := SetParent(ts, d, Some(pid), now)[i];
            t.id == ts[i].id
            && (ts[i].id != d ==> t == ts[i] || (t.parentTaskId.None? && ts[i].parentTaskId.None?))
            && (ts[i].id == d ==> t.parentTaskId == Some(pid) && t.completedAt == ts[i].completedAt)
  {
    var k := IndexOf(ts, d);
    var ts1 := ts[k := Reparented(ts, ts[k], Some(pid), now)];
    var ts2 := ReconcileIf(ts1, ts[k].parentTaskId, true, now);
    ReconcilePointwise(ts1, ts[k].parentTaskId, now, i);
    ReconcilePointwise(ts2, Some(pid), now, i);
  }

  lemma {:induction false} ListedMember(ts: seq<Task>, pid: Id, done: bool, t: Task)
    ensures t in Listed(ts, pid, done) <==> t in ts && t.parentTaskId == Some(pid) && t.completedAt.Some? == done
  {
    if ts != [] {
      ListedMember(ts[1..], pid, done, t);
    }
  }

  lemma {:induction false} ListedUnique(ts: seq<Task>, pid: Id, done: bool)
    requires UniqueIds(ts)
    ensures UniqueIds(Listed(ts, pid, done))
  {
    if ts != [] {
      ListedUnique(ts[1..], pid, done);
      forall t | t in Listed(ts[1..], pid, done) ensures t.id != ts[0].id {
        ListedMember(ts[1..], pid, done, t);
      }
    }
  }

  lemma {:induction false} ListedButOne(a: seq<Task>, b: seq<Task>, d: Id, pid: Id, done: bool)
    requires |a| == |b| && forall i :: 0 <= i < |a| ==>
               a[i].id == b[i].id &&
               (a[i].id != d ==> a[i] == b[i] || (a[i].parentTaskId.None? && b[i].parentTaskId.None?))
    ensures Drop(Listed(a, pid, done), {d}) == Drop(Listed(b, pid, done), {d})
  {
    if a != [] {
      ListedButOne(a[1..], b[1..], d, pid, done);
      DropHead(a, d, pid, done);
      DropHead(b, d, pid, done);
    }
  }

  lemma DropHead(a: seq<Task>, d: Id, pid: Id, done: bool)
    requires a != []
    ensures Drop(Listed(a, pid, done), {d}) ==
            if a[0].parentTaskId == Some(pid) && a[0].completedAt.Some? == done && a[0].id != d
            then [a[0]] + Drop(Listed(a[1..], pid, done), {d}) else Drop(Listed(a[1..], pid, done), {d})
  {
    var rest := Listed(a[1..], pid, done);
    assert ([a[0]] + rest)[1..] == rest;
  }

  lemma {:induction false} DropInserted(t: Task, ts: seq<Task>, d: Id)
    requires Descending(ts)
    ensures Drop(Insert(t, ts, Above), {d}) == if t.id == d then Drop(ts, {d}) else Insert(t, Drop(ts, {d}), Above)
  {
    if ts == [] || OrderKey(t) >= OrderKey(ts[0]) {
      assert ([t] + ts)[1..] == ts;
      if Drop(ts, {d}) != [] {
        DropMember(ts, {d}, Drop(ts, {d})[0]);
      }
    } else {
      var rest := Insert(t, ts[1..], Above);
      DropInserted(t, ts[1..], d);
      assert ([ts[0]] + rest)[1..] == rest;
      if ts[0].id != d {
        assert Drop(ts, {d})[1..] == Drop(ts[1..], {d});
      }
    }
  }

  /** The sort is stable: dropping a task before or after it makes no difference. */
  lemma {:induction false} DropSorted(g: seq<Task>, d: Id)
    ensures Drop(SortDesc(g), {d}) == SortDesc(Drop(g, {d}))
  {
    if g != [] {
      DropSorted(g[1..], d);
      SortDescSorts(g[1..]);
      DropInserted(g[0], SortDesc(g[1..]), d);
      if g[0].id != d {
        assert Drop(g, {d})[1..] == Drop(g[1..], {d});
      }
    }
  }

  lemma {:induction false} RemoveIds(s: seq<Task>, d: Id)
    ensures Remove(Ids(s), d) == Ids(Drop(s, {d}))
  {
    if s != [] {
      RemoveIds(s[1..], d);
      assert Ids(s)[1..] == Ids(s[1..]);
      if s[0].id != d {
        assert Ids([s[0]] + Drop(s[1..], {d})) == [s[0].id] + Ids(Drop(s[1..], {d}));
      }
    }
  }

  /** Apart from the dragged task, setParent does not change what the subtask list shows. */
  lemma SetParentKeepsOrder(ts: seq<Task>, d: Id, pid: Id, done: bool, now: Date)
    requires Inv(ts) && SetParentAllowed(ts, d, Some(pid))
    ensures var ts1 := SetParent(ts, d, Some(pid), now);
            Remove(Ids(SubtaskList(ts1, pid, done)), d) == Remove(Ids(SubtaskList(ts, pid, done)), d)
  {
    var ts1 := SetParent(ts, d, Some(pid), now);
    forall i | 0 <= i < |ts| ensures |ts1| == |ts| && ts1[i].id == ts[i].id
        && (ts1[i].id != d ==> ts1[i] == ts[i] || (ts1[i].parentTaskId.None? && ts[i].parentTaskId.None?))
    {
      SetParentPointwise(ts, d, pid, now, i);
    }
    SetParentPointwise(ts, d, pid, now, IndexOf(ts, d));
    ListedButOne(ts1, ts, d, pid, done);
    DropSorted(Listed(ts1, pid, done), d);
    DropSorted(Listed(ts, pid, done), d);
    RemoveIds(SubtaskList(ts1, pid, done), d);
    RemoveIds(SubtaskList(ts, pid, done), d);
  }

  lemma ListedIds(ts: seq<Task>, pid: Id, done: bool, t: Task)
    requires UniqueIds(ts) && t in ts
    ensures t.id in Ids(SubtaskList(ts, pid, done)) <==> t in Listed(ts, pid, done)
  {
    var g := Listed(ts, pid, done);
    ListedUnique(ts, pid, done);
    OrderIds(g);
    if t.id in Ids(g) {
      var i :| 0 <= i < |g| && Ids(g)[i] == t.id;
      ListedMember(ts, pid, done, g[i]);
      var j :| 0 <= j < |ts| && ts[j] == g[i];
      var k :| 0 <= k < |ts| && ts[k] == t;
      assert j == k;
    }
    if t in g {
      var i :| 0 <= i < |g| && g[i] == t;
      assert Ids(g)[i] == t.id;
    }
  }

  /** A reorder does not change what a subtask list contains. */
  lemma ReorderedSubtasks(ts: seq<Task>, ids: seq<Id>, nowBase: int, now: Date, pid: Id, done: bool)
    requires UniqueIds(ts) && Distinct(ids)
    requires forall t :: t in ts ==> (t.id in ids <==> t in Listed(ts, pid, done))
    ensures var r := ReorderTasks(ts, ids, nowBase, now);
            UniqueIds(Listed(r, pid, done))
            && forall t :: t in Listed(r, pid, done) <==> t in r && t.id in ids
  {
    var r := ReorderTasks(ts, ids, nowBase, now);
    ReorderPermutes(ts, ids, nowBase, now);
    ListedUnique(r, pid, done);
    forall t ensures t in Listed(r, pid, done) <==> t in r && t.id in ids {
      ListedMember(r, pid, done, t);
      if t in r {
        var t0 :| t0 in ts && Plain(t0) == Plain(t);
        assert t0.id == Plain(t0).id && t0.parentTaskId == Plain(t0).parentTaskId;
        assert t0.completedAt == Plain(t0).completedAt;
        assert t.id == Plain(t).id && t.parentTaskId == Plain(t).parentTaskId && t.completedAt == Plain(t).completedAt;
        ListedMember(ts, pid, done, t0);
      }
    }
  }

  /** Subtask drop: an accepted drop of a task that the list shows leaves the list in its old
      order with only the dragged task moved. */
  lemma SubtaskDropShows(ts: seq<Task>, d: Id, pid: Id, target: Target, done: bool, nowBase: int, now: Date)
    requires Inv(ts) && SetParentAllowed(ts, d, Some(pid))
    requires ts[IndexOf(ts, d)].completedAt.Some? == done
    ensures Ids(SubtaskList(SubtaskDrop(ts, d, pid, target, done, nowBase, now), pid, done))
            == Moved(Ids(SubtaskList(ts, pid, done)), d, target)
  {
    var ts1 := SetParent(ts, d, Some(pid), now);
    var k := IndexOf(ts, d);
    var order := Ids(SubtaskList(ts1, pid, done));
    var ids := Moved(order, d, target);
    SetParentKeepsInv(ts, d, Some(pid), now);
    SetParentKeepsOrder(ts, d, pid, done, now);
    SetParentPointwise(ts, d, pid, now, k);
    ListedUnique(ts1, pid, done);
    OrderIds(Listed(ts1, pid, done));
    if target.Before? {
      RemoveMember(order, d, target.id);
      RemoveMember(Ids(SubtaskList(ts, pid, done)), d, target.id);
    }
    MovedOnlyMoves(order, d, target);
    forall t | t in ts1 ensures t.id in ids <==> t in Listed(ts1, pid, done) {
      ListedIds(ts1, pid, done, t);
      ListedMember(ts1, pid, done, t);
      if t.id == d {
        var j :| 0 <= j < |ts1| && ts1[j] == t;
        assert ts1[k].id == d;
        assert j == k;
      }
    }
    forall i | 0 <= i < |ids| ensures Has(ts1, ids[i]) {
      IdIsKnown(ts1, ids[i], d, k, pid, done);
    }
    ReorderedSubtasks(ts1, ids, nowBase, now, pid, done);
    ReorderShows(ts1, ids, nowBase, now, Listed(ReorderTasks(ts1, ids, nowBase, now), pid, done));
  }

  lemma IdIsKnown(ts: seq<Task>, x: Id, d: Id, k: nat, pid: Id, done: bool)
    requires UniqueIds(ts) && k < |ts| && ts[k].id == d
    requires x in Ids(SubtaskList(ts, pid, done)) || x == d
    ensures Has(ts, x)
  {
    if x == d {
      MemberIsFound(ts, ts[k]);
    } else {
      var s := SubtaskList(ts, pid, done);
      var i :| 0 <= i < |s| && Ids(s)[i] == x;
      SortDescMember(Listed(ts, pid, done), s[i]);
      ListedMember(ts, pid, done, s[i]);
      MemberIsFound(ts, s[i]);
    }
  }

  // --------------------------------------------------------------- invariant

  /** A reorder keeps the hierarchy and completion invariant. */
  lemma ReorderKeepsInv(ts: seq<Task>, ids: seq<Id>, nowBase: int, now: Date)
    requires Inv(ts) && Distinct(ids)
    ensures Inv(ReorderTasks(ts, ids, nowBase, now))
  {
    ReorderCovers(ts, ids, nowBase, now);
    SameHierarchyInv(ts, ReorderTasks(ts, ids, nowBase, now));
  }

  /** The same tasks before and after, as far as the hierarchy goes. */
  lemma ReorderCovers(ts: seq<Task>, ids: seq<Id>, nowBase: int, now: Date)
    requires UniqueIds(ts) && Distinct(ids)
    ensures var r := ReorderTasks(ts, ids, nowBase, now); UniqueIds(r) && Covers(ts, r) && Covers(r, ts)
  {
    var r := ReorderTasks(ts, ids, nowBase, now);
    ReorderPermutes(ts, ids, nowBase, now);
    forall u | u in r ensures exists t :: t in ts && SameHierarchy(u, t) {
      var t :| t in ts && Plain(t) == Plain(u);
      PlainSame(u, t);
    }
    forall t | t in ts ensures exists u :: u in r && SameHierarchy(t, u) {
      var u :| u in r && Plain(t) == Plain(u);
      PlainSame(t, u);
    }
  }

  lemma PlainSame(t: Task, u: Task)
    requires Plain(t) == Plain(u)
    ensures SameHierarchy(t, u)
  {
    assert SameHierarchy(t, Plain(t)) && SameHierarchy(Plain(u), u);
  }
}
