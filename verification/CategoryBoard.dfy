/** The ordered category list of LocalStore with its interleaved "Uncategorized" slot: what
    adding, deleting and dragging a group does to the order on screen. */
module CategoryBoard {
  import opened Prelude
  import opened Lists
  import opened Sorting

  /** A category id, or the key of the "Uncategorized" group. */
  datatype Key = Key(text: string)

  const UNCATEGORIZED := Key("uncategorized")

  datatype Look = Look(name: string, icon: string, color: string)

  datatype Category = Category(id: Key, look: Look, order: int)

  // ---------------------------------------------------------- sorted categories

  /** categorySort: by order, then by id. */
  predicate CategoryLess(a: Category, b: Category) {
    a.order < b.order || (a.order == b.order && StrLess(a.id.text, b.id.text))
  }

  predicate Sorted(cs: seq<Category>) {
    forall i, j :: 0 <= i < j < |cs| ==> CategoryLess(cs[i], cs[j])
  }

  predicate UniqueIds(cs: seq<Category>) {
    forall i, j :: 0 <= i < j < |cs| ==> cs[i].id != cs[j].id
  }

  lemma LessTotal(a: Category, b: Category)
    ensures a.id != b.id ==> CategoryLess(a, b) || CategoryLess(b, a)
    ensures !(CategoryLess(a, b) && CategoryLess(b, a)) && !CategoryLess(a, a)
  {
    StrLessTotal(a.id.text, b.id.text);
    StrLessTotal(a.id.text, a.id.text);
  }

  /** The category may come first. */
  predicate NotAfter(a: Category, b: Category) {
    !CategoryLess(b, a)
  }

  lemma NotAfterOrders()
    ensures Total(NotAfter) && Transitive(NotAfter)
  {
    forall a: Category, b: Category ensures NotAfter(a, b) || NotAfter(b, a) {
      LessTotal(a, b);
    }
    forall a: Category, b: Category, c: Category | NotAfter(a, b) && NotAfter(b, c) ensures NotAfter(a, c) {
      NotAfterTransitive(a, b, c);
    }
  }

  lemma NotAfterTransitive(a: Category, b: Category, c: Category)
    requires NotAfter(a, b) && NotAfter(b, c)
    ensures NotAfter(a, c)
  {
    StrLessTotal(a.id.text, b.id.text);
    StrLessTotal(b.id.text, c.id.text);
    StrLessTotal(a.id.text, c.id.text);
    if CategoryLess(c, a) && a.order == c.order && a.id.text != b.id.text && b.id.text != c.id.text {
      StrLessTransitive(a.id.text, b.id.text, c.id.text);
    }
  }

  /** categories.sorted(by: categorySort). */
  function SortCategories(cs: seq<Category>): (r: seq<Category>)
    ensures |r| == |cs|
  {
    Sort(cs, NotAfter)
  }

  lemma SortMember(cs: seq<Category>, x: Category)
    ensures x in SortCategories(cs) <==> x in cs
  {
    Sorting.SortMember(cs, NotAfter, x);
  }

  lemma SortUnique(cs: seq<Category>)
    requires UniqueIds(cs)
    ensures UniqueIds(SortCategories(cs))
  {
    var s := SortCategories(cs);
    SortKeeps(cs, NotAfter);
    forall i, j | 0 <= i < j < |s| ensures s[i].id != s[j].id {
      SortMember(cs, s[i]);
      SortMember(cs, s[j]);
      var p :| 0 <= p < |cs| && cs[p] == s[i];
      var q :| 0 <= q < |cs| && cs[q] == s[j];
      if p == q {
        OccursTwice(s, i, j);
        OccursOnce(cs, p);
      }
    }
  }

  lemma SortSorts(cs: seq<Category>)
    requires UniqueIds(cs)
    ensures Sorted(SortCategories(cs))
  {
    var s := SortCategories(cs);
    SortUnique(cs);
    NotAfterOrders();
    SortInOrder(cs, NotAfter);
    hide CategoryLess, Sort;
    forall i, j | 0 <= i < j < |s| ensures CategoryLess(s[i], s[j]) {
      PairInOrder(s, NotAfter, i, j);
      LessTotal(s[i], s[j]);
    }
  }

  /** There is only one way to sort. */
  lemma {:induction false} SortedUnique(a: seq<Category>, b: seq<Category>)
    requires Sorted(a) && Sorted(b) && forall x :: x in a <==> x in b
    ensures a == b
    decreases |a|
  {
    assert b != [] ==> b[0] in b;
    if a != [] {
      assert a[0] in b;
      assert b != [] && b[0] in a;
      LessTotal(a[0], b[0]);
      assert a[0] == b[0];
      forall x ensures x in a[1..] <==> x in b[1..] {
        TailMember(a, x);
        TailMember(b, x);
      }
      SortedUnique(a[1..], b[1..]);
      assert a == [a[0]] + a[1..] && b == [b[0]] + b[1..];
    }
  }

  lemma TailMember(a: seq<Category>, x: Category)
    requires Sorted(a) && a != []
    ensures x in a[1..] <==> x in a && x != a[0]
  {
    LessTotal(a[0], a[0]);
  }

  lemma SortIs(cs: seq<Category>, b: seq<Category>)
    requires UniqueIds(cs) && Sorted(b) && forall x :: x in cs <==> x in b
    ensures SortCategories(cs) == b
  {
    SortSorts(cs);
    forall x ensures x in SortCategories(cs) <==> x in b {
      SortMember(cs, x);
    }
    SortedUnique(SortCategories(cs), b);
  }

  function Keys(cs: seq<Category>): (r: seq<Key>)
    ensures |r| == |cs|
    ensures forall i :: 0 <= i < |cs| ==> r[i] == cs[i].id
  {
    if cs == [] then [] else [cs[0].id] + Keys(cs[1..])
  }

  lemma SortedIdsDistinct(cs: seq<Category>)
    requires UniqueIds(cs)
    ensures UniqueIds(SortCategories(cs)) && Distinct(Keys(SortCategories(cs)))
  {
    SortUnique(cs);
  }

  // ------------------------------------------------------------------- display

  /** clampUncategorizedPosition. */
  function Clamp(position: int, count: nat): (r: nat)
    ensures r <= count
  {
    if position < 0 then 0 else if position > count then count else position
  }

  /** The group keys in the order on screen. */
  function Display(cs: seq<Category>, position: int): seq<Key> {
    var ids := Keys(SortCategories(cs));
    InsertAt(ids, Clamp(position, |ids|), UNCATEGORIZED)
  }

  /** Unique ids, none of them the reserved key; orders from 0 up; the slot within the list. */
  predicate BoardInv(cs: seq<Category>, position: int) {
    && UniqueIds(cs)
    && (forall i :: 0 <= i < |cs| ==> cs[i].id != UNCATEGORIZED && cs[i].order >= 0)
    && 0 <= position <= |cs|
  }

  /** Renumbered from 0 in list order. */
  function Numbered(cs: seq<Category>): (r: seq<Category>)
    ensures |r| == |cs|
  {
    seq(|cs|, i requires 0 <= i < |cs| => cs[i].(order := i))
  }

  lemma NumberedSorts(cs: seq<Category>)
    requires UniqueIds(cs)
    ensures SortCategories(Numbered(cs)) == Numbered(cs)
  {
    SortIs(Numbered(cs), Numbered(cs));
  }

  // ----------------------------------------------------------------- operations

  function Shifted(cs: seq<Category>): (r: seq<Category>)
    ensures |r| == |cs|
    ensures forall i :: 0 <= i < |cs| ==> r[i] == cs[i].(order := cs[i].order + 1)
  {
    if cs == [] then [] else [cs[0].(order := cs[0].order + 1)] + Shifted(cs[1..])
  }

  /** addCategory: the categories and the position afterwards. */
  function AddCategory(cs: seq<Category>, position: int, c: Category): (seq<Category>, int) {
    var cs' := SortCategories(Shifted(cs) + [c.(order := 0)]);
    (cs', Clamp(position + 1, |cs'|))
  }

  /** All categories but the one with this id, in order. */
  function Without(cs: seq<Category>, id: Key): (r: seq<Category>)
    ensures |r| <= |cs|
  {
    if cs == [] then []
    else if cs[0].id == id then Without(cs[1..], id)
    else [cs[0]] + Without(cs[1..], id)
  }

  /** deleteCategory, apart from the tasks. */
  function DeleteCategory(cs: seq<Category>, position: int, id: Key): (seq<Category>, int) {
    var removedIndex := Find(Keys(SortCategories(cs)), id);
    var cs' := Numbered(SortCategories(Without(cs, id)));
    (cs', Clamp(if removedIndex < |cs| && removedIndex < position then position - 1 else position, |cs'|))
  }

  function IndexOf(cs: seq<Category>, id: Key): (i: nat)
    ensures i <= |cs|
    ensures i < |cs| ==> cs[i].id == id
    ensures i == |cs| ==> forall j :: 0 <= j < |cs| ==> cs[j].id != id
  {
    if cs == [] || cs[0].id == id then 0 else 1 + IndexOf(cs[1..], id)
  }

  /** The named categories, each numbered with its place in the id list; unknown ids are skipped. */
  function Reordered(cs: seq<Category>, ids: seq<Key>, from: nat): seq<Category>
    decreases |ids|
  {
    if ids == [] then []
    else
      var i := IndexOf(cs, ids[0]);
      if i < |cs| then [cs[i].(order := from)] + Reordered(cs, ids[1..], from + 1)
      else Reordered(cs, ids[1..], from + 1)
  }

  /** The categories not named, numbered from the given number on. */
  function Remaining(cs: seq<Category>, ids: seq<Key>, from: nat): seq<Category> {
    if cs == [] then []
    else if cs[0].id in ids then Remaining(cs[1..], ids, from)
    else [cs[0].(order := from)] + Remaining(cs[1..], ids, from + 1)
  }

  /** reorderCategories. */
  function ReorderCategories(cs: seq<Category>, ids: seq<Key>): seq<Category> {
    var reordered := Reordered(cs, ids, 0);
    SortCategories(reordered + Remaining(cs, ids, |reordered|))
  }

  /** The list of group keys after a drag; with no target, or one that is gone, to the end. */
  function DraggedTo(groups: seq<Key>, dragged: Key, before: Option<Key>): seq<Key> {
    var rest := Remove(groups, dragged);
    var i := if before.Some? then Find(rest, before.value) else |rest|;
    InsertAt(rest, i, dragged)
  }

  /** applyCategoryGroupReorder. */
  function DragGroup(cs: seq<Category>, position: int, dragged: Key, before: Option<Key>): (seq<Category>, int) {
    var groups := Display(cs, position);
    if dragged !in groups then (cs, position)
    else
      var groups' := DraggedTo(groups, dragged, before);
      (ReorderCategories(cs, Remove(groups', UNCATEGORIZED)), Clamp(Find(groups', UNCATEGORIZED), |cs|))
  }

  // ----------------------------------------------------------------- adding

  /** A new category appears on top; everything else, the slot included, keeps its order. */
  lemma AddShows(cs: seq<Category>, position: int, c: Category)
    requires BoardInv(cs, position) && c.id != UNCATEGORIZED
    requires forall i :: 0 <= i < |cs| ==> cs[i].id != c.id
    ensures var (cs', position') := AddCategory(cs, position, c);
            Display(cs', position') == [c.id] + Display(cs, position) && BoardInv(cs', position') && |cs'| == |cs| + 1
  {
    var c0 := c.(order := 0);
    var s, all := SortCategories(cs), Shifted(cs) + [c0];
    AddSorted(cs, c0);
    var top := [c0] + Shifted(s);
    SortedIdsDistinct(all);
    SortIs(top, top);
    AddKeepsBounds(cs, c0);
    assert Keys(top) == [c.id] + Keys(s);
    assert Keys(top)[1..] == Keys(s);
  }

  lemma AddKeepsBounds(cs: seq<Category>, c: Category)
    requires BoardInv(cs, 0) && c.order == 0 && c.id != UNCATEGORIZED
    ensures var top := [c] + Shifted(SortCategories(cs));
            forall i :: 0 <= i < |top| ==> top[i].id != UNCATEGORIZED && top[i].order >= 0
  {
    var s := SortCategories(cs);
    forall i | 0 <= i < |s| ensures s[i].id != UNCATEGORIZED && s[i].order >= 0 {
      SortMember(cs, s[i]);
    }
  }

  lemma ShiftedMember(cs: seq<Category>, x: Category)
    ensures x in Shifted(cs) <==> x.(order := x.order - 1) in cs
  {
    if x in Shifted(cs) {
      var i :| 0 <= i < |cs| && Shifted(cs)[i] == x;
      assert cs[i] == x.(order := x.order - 1);
    }
    if x.(order := x.order - 1) in cs {
      var i :| 0 <= i < |cs| && cs[i] == x.(order := x.order - 1);
      assert Shifted(cs)[i] == x;
    }
  }

  lemma ShiftedSorted(s: seq<Category>)
    requires Sorted(s)
    ensures Sorted(Shifted(s))
  {
    var moved := Shifted(s);
    forall i, j | 0 <= i < j < |moved| ensures CategoryLess(moved[i], moved[j]) {
      ShiftLess(s[i], s[j]);
    }
  }

  lemma ConsSorted(c: Category, t: seq<Category>)
    requires Sorted(t) && forall x :: x in t ==> CategoryLess(c, x)
    ensures Sorted([c] + t)
  {
  }

  lemma TopSorted(s: seq<Category>, c: Category)
    requires Sorted(s) && c.order == 0 && forall i :: 0 <= i < |s| ==> s[i].order >= 0
    ensures Sorted([c] + Shifted(s))
  {
    ShiftedSorted(s);
    forall x | x in Shifted(s) ensures CategoryLess(c, x) {
      ShiftedMember(s, x);
    }
    ConsSorted(c, Shifted(s));
  }

  lemma ShiftLess(a: Category, b: Category)
    requires CategoryLess(a, b)
    ensures CategoryLess(a.(order := a.order + 1), b.(order := b.order + 1))
  {
  }

  lemma AddMember(cs: seq<Category>, c: Category, x: Category)
    ensures x in Shifted(cs) + [c] <==> x in [c] + Shifted(SortCategories(cs))
  {
    ShiftedMember(cs, x);
    ShiftedMember(SortCategories(cs), x);
    SortMember(cs, x.(order := x.order - 1));
  }

  lemma AddUnique(cs: seq<Category>, c: Category)
    requires UniqueIds(cs) && forall i :: 0 <= i < |cs| ==> cs[i].id != c.id
    ensures UniqueIds(cs + [c])
  {
  }

  lemma AddSorted(cs: seq<Category>, c: Category)
    requires BoardInv(cs, 0) && c.order == 0 && forall i :: 0 <= i < |cs| ==> cs[i].id != c.id
    ensures UniqueIds(Shifted(cs) + [c])
    ensures SortCategories(Shifted(cs) + [c]) == [c] + Shifted(SortCategories(cs))
    ensures Sorted([c] + Shifted(SortCategories(cs)))
  {
    var s := SortCategories(cs);
    AddUnique(Shifted(cs), c);
    SortSorts(cs);
    forall i | 0 <= i < |s| ensures s[i].order >= 0 {
      SortMember(cs, s[i]);
    }
    TopSorted(s, c);
    forall x ensures x in Shifted(cs) + [c] <==> x in [c] + Shifted(s) {
      AddMember(cs, c, x);
    }
    SortIs(Shifted(cs) + [c], [c] + Shifted(s));
  }

  // --------------------------------------------------------------- deleting

  lemma {:induction false} WithoutMember(cs: seq<Category>, id: Key, x: Category)
    ensures x in Without(cs, id) <==> x in cs && x.id != id
  {
    if cs != [] {
      WithoutMember(cs[1..], id, x);
    }
  }

  lemma {:induction false} WithoutUnique(cs: seq<Category>, id: Key)
    requires UniqueIds(cs)
    ensures UniqueIds(Without(cs, id))
  {
    if cs != [] {
      WithoutUnique(cs[1..], id);
      forall x | x in Without(cs[1..], id) ensures x.id != cs[0].id {
        WithoutMember(cs[1..], id, x);
      }
    }
  }

  lemma {:induction false} WithoutSorted(cs: seq<Category>, id: Key)
    requires Sorted(cs)
    ensures Sorted(Without(cs, id))
  {
    if cs != [] {
      WithoutSorted(cs[1..], id);
      forall x | x in Without(cs[1..], id) ensures CategoryLess(cs[0], x) {
        WithoutMember(cs[1..], id, x);
      }
    }
  }

  lemma {:induction false} WithoutKeys(cs: seq<Category>, id: Key)
    ensures Keys(Without(cs, id)) == Remove(Keys(cs), id)
  {
    if cs != [] {
      WithoutKeys(cs[1..], id);
      assert Keys(cs)[1..] == Keys(cs[1..]);
      if cs[0].id != id {
        assert Keys([cs[0]] + Without(cs[1..], id)) == [cs[0].id] + Keys(Without(cs[1..], id));
      }
    }
  }

  lemma SortWithout(cs: seq<Category>, id: Key)
    requires UniqueIds(cs)
    ensures SortCategories(Without(cs, id)) == Without(SortCategories(cs), id)
    ensures UniqueIds(Without(SortCategories(cs), id))
  {
    var s := SortCategories(cs);
    SortSorts(cs);
    SortedIdsDistinct(cs);
    WithoutSorted(s, id);
    WithoutUnique(cs, id);
    WithoutUnique(s, id);
    forall x ensures x in Without(cs, id) <==> x in Without(s, id) {
      WithoutMember(cs, id, x);
      WithoutMember(s, id, x);
      SortMember(cs, x);
    }
    SortIs(Without(cs, id), Without(s, id));
  }

  lemma DisplayDistinct(cs: seq<Category>, position: int)
    requires BoardInv(cs, position)
    ensures Distinct(Display(cs, position)) && Distinct(Keys(SortCategories(cs)))
    ensures UNCATEGORIZED !in Keys(SortCategories(cs))
    ensures forall x :: x in Display(cs, position) <==> x == UNCATEGORIZED || x in Keys(SortCategories(cs))
  {
    var s := SortCategories(cs);
    SortedIdsDistinct(cs);
    forall i | 0 <= i < |s| ensures s[i].id != UNCATEGORIZED {
      SortMember(cs, s[i]);
    }
    InsertDistinct(Keys(s), position, UNCATEGORIZED);
    forall x ensures x in Display(cs, position) <==> x == UNCATEGORIZED || x in Keys(s) {
      InsertMember(Keys(s), position, UNCATEGORIZED, x);
    }
  }

  lemma DeleteKeepsInv(cs: seq<Category>, position: int, id: Key)
    requires BoardInv(cs, position) && id != UNCATEGORIZED
    ensures var (cs', position') := DeleteCategory(cs, position, id);
            cs' == Numbered(Without(SortCategories(cs), id)) && BoardInv(cs', position')
  {
    var kept := Without(SortCategories(cs), id);
    SortWithout(cs, id);
    forall i | 0 <= i < |kept| ensures kept[i].id != UNCATEGORIZED {
      WithoutMember(SortCategories(cs), id, kept[i]);
      SortMember(cs, kept[i]);
    }
  }

  /** Deleting a category takes exactly its group off the screen. */
  lemma DeleteShows(cs: seq<Category>, position: int, id: Key)
    requires BoardInv(cs, position) && id != UNCATEGORIZED
    ensures var (cs', position') := DeleteCategory(cs, position, id);
            Display(cs', position') == Remove(Display(cs, position), id) && BoardInv(cs', position')
  {
    var s := SortCategories(cs);
    DeleteKeepsInv(cs, position, id);
    SortWithout(cs, id);
    NumberedSorts(Without(s, id));
    WithoutKeys(s, id);
    DisplayDistinct(cs, position);
    assert position <= |Keys(s)|;
    hide BoardInv, Sorted, UniqueIds, SortCategories, Without;
    assert Keys(Numbered(Without(s, id))) == Remove(Keys(s), id);
    hide Keys, Numbered;
    RemoveAroundSlot(Keys(s), position, id, UNCATEGORIZED);
  }

  // --------------------------------------------------------------- dragging

  lemma {:induction false} ReorderedProps(cs: seq<Category>, ids: seq<Key>, from: nat)
    requires forall i :: 0 <= i < |ids| ==> IndexOf(cs, ids[i]) < |cs|
    ensures var r := Reordered(cs, ids, from);
            |r| == |ids| && forall i :: 0 <= i < |r| ==> r[i].id == ids[i] && r[i].order == from + i
    decreases |ids|
  {
    if ids != [] {
      ReorderedProps(cs, ids[1..], from + 1);
      assert IndexOf(cs, ids[0]) < |cs|;
    }
  }

  lemma {:induction false} RemainingNone(cs: seq<Category>, ids: seq<Key>, from: nat)
    requires forall i :: 0 <= i < |cs| ==> cs[i].id in ids
    ensures Remaining(cs, ids, from) == []
  {
    if cs != [] {
      assert cs[0].id in ids;
      RemainingNone(cs[1..], ids, from);
    }
  }

  /** Reordering by a list of all ids puts the categories into that order. */
  lemma ReorderAll(cs: seq<Category>, ids: seq<Key>)
    requires Distinct(ids) && forall x :: x in ids <==> x in Keys(cs)
    ensures var r := ReorderCategories(cs, ids);
            Keys(r) == ids && Keys(SortCategories(r)) == ids && UniqueIds(r)
            && forall i :: 0 <= i < |r| ==> r[i].order == i
  {
    forall i | 0 <= i < |ids| ensures IndexOf(cs, ids[i]) < |cs| {
      KeyIndex(cs, ids[i]);
    }
    forall i | 0 <= i < |cs| ensures cs[i].id in ids {
      assert Keys(cs)[i] in Keys(cs);
    }
    var r := Reordered(cs, ids, 0);
    ReorderedProps(cs, ids, 0);
    RemainingNone(cs, ids, |r|);
    assert r + [] == r;
    CountedSorts(r);
    SameKeys(r, ids);
  }

  lemma KeyIndex(cs: seq<Category>, id: Key)
    requires id in Keys(cs)
    ensures IndexOf(cs, id) < |cs|
  {
    var j :| 0 <= j < |cs| && Keys(cs)[j] == id;
  }

  lemma SameKeys(r: seq<Category>, ids: seq<Key>)
    requires |r| == |ids| && forall i :: 0 <= i < |r| ==> r[i].id == ids[i]
    ensures Keys(r) == ids
  {
  }

  lemma CountedSorts(r: seq<Category>)
    requires (forall i, j :: 0 <= i < j < |r| ==> r[i].id != r[j].id) && forall i :: 0 <= i < |r| ==> r[i].order == i
    ensures SortCategories(r) == r
  {
    SortIs(r, r);
  }

  lemma KeysOfSorted(cs: seq<Category>, x: Key)
    ensures x in Keys(SortCategories(cs)) <==> x in Keys(cs)
  {
    var s := SortCategories(cs);
    if x in Keys(s) {
      var i :| 0 <= i < |s| && Keys(s)[i] == x;
      SortMember(cs, s[i]);
      var j :| 0 <= j < |cs| && cs[j] == s[i];
      assert Keys(cs)[j] == x;
    }
    if x in Keys(cs) {
      var i :| 0 <= i < |cs| && Keys(cs)[i] == x;
      SortMember(cs, cs[i]);
      var j :| 0 <= j < |s| && s[j] == cs[i];
      assert Keys(s)[j] == x;
    }
  }

  lemma {:induction false} SameKeysSameLength(a: seq<Key>, b: seq<Key>)
    requires Distinct(a) && Distinct(b) && forall x :: x in a <==> x in b
    ensures |a| == |b|
    decreases |a|
  {
    assert b != [] ==> b[0] in b;
    if a != [] {
      assert a[0] in b;
      var k :| 0 <= k < |b| && b[k] == a[0];
      var b' := b[..k] + b[k + 1..];
      forall x ensures x in a[1..] <==> x in b' {
        assert x in b <==> x in b' || x == b[k] by {
          assert b == b[..k] + [b[k]] + b[k + 1..];
        }
      }
      SameKeysSameLength(a[1..], b');
    }
  }

  /** A drag permutes the keys. */
  lemma DraggedKeys(groups: seq<Key>, dragged: Key, before: Option<Key>)
    requires Distinct(groups) && dragged in groups
    ensures Distinct(DraggedTo(groups, dragged, before))
    ensures forall x :: x in DraggedTo(groups, dragged, before) <==> x in groups
  {
    var rest := Remove(groups, dragged);
    var i := if before.Some? then Find(rest, before.value) else |rest|;
    RemoveDistinct(groups, dragged);
    RemoveMember(groups, dragged, dragged);
    InsertDistinct(rest, i, dragged);
    forall x ensures x in DraggedTo(groups, dragged, before) <==> x in groups {
      RemoveMember(groups, dragged, x);
      InsertMember(rest, i, dragged, x);
    }
  }

  lemma DragIds(cs: seq<Category>, position: int, dragged: Key, before: Option<Key>, x: Key)
    requires BoardInv(cs, position) && dragged in Display(cs, position)
    ensures x in Remove(DraggedTo(Display(cs, position), dragged, before), UNCATEGORIZED) <==> x in Keys(cs)
  {
    var groups := Display(cs, position);
    DisplayDistinct(cs, position);
    DraggedKeys(groups, dragged, before);
    RemoveMember(DraggedTo(groups, dragged, before), UNCATEGORIZED, x);
    KeysOfSorted(cs, x);
  }

  lemma DragBoard(cs: seq<Category>, position: int, dragged: Key, before: Option<Key>)
    requires BoardInv(cs, position) && dragged in Display(cs, position)
    ensures var ids := Remove(DraggedTo(Display(cs, position), dragged, before), UNCATEGORIZED);
            var cs' := ReorderCategories(cs, ids);
            Keys(SortCategories(cs')) == ids && |ids| == |cs| && BoardInv(cs', position)
  {
    var groups' := DraggedTo(Display(cs, position), dragged, before);
    var ids := Remove(groups', UNCATEGORIZED);
    DisplayDistinct(cs, position);
    DraggedKeys(Display(cs, position), dragged, before);
    RemoveDistinct(groups', UNCATEGORIZED);
    forall x ensures x in ids <==> x in Keys(cs) {
      DragIds(cs, position, dragged, before, x);
    }
    ReorderAll(cs, ids);
    SameKeysSameLength(ids, Keys(cs));
    RemoveMember(groups', UNCATEGORIZED, UNCATEGORIZED);
    var cs' := ReorderCategories(cs, ids);
    forall j | 0 <= j < |cs'| ensures cs'[j].id != UNCATEGORIZED {
      assert Keys(cs')[j] in ids;
    }
  }

  /** Dragging a group, the slot included, shows it where it was dropped. */
  lemma DragShows(cs: seq<Category>, position: int, dragged: Key, before: Option<Key>)
    requires BoardInv(cs, position) && dragged in Display(cs, position)
    ensures var (cs', position') := DragGroup(cs, position, dragged, before);
            Display(cs', position') == DraggedTo(Display(cs, position), dragged, before) && BoardInv(cs', position')
  {
    var groups' := DraggedTo(Display(cs, position), dragged, before);
    DisplayDistinct(cs, position);
    DraggedKeys(Display(cs, position), dragged, before);
    DragBoard(cs, position, dragged, before);
    InsertRemoved(groups', UNCATEGORIZED);
  }

  // -------------------------------------------------------------------- runs

  datatype BoardOp = AddOp(category: Category) | DeleteOp(id: Key) | DragOp(dragged: Key, before: Option<Key>)

  /** The same operation on the list of keys on screen. */
  function OnScreen(shown: seq<Key>, op: BoardOp): seq<Key> {
    match op
    case AddOp(c) => [c.id] + shown
    case DeleteOp(id) => Remove(shown, id)
    case DragOp(dragged, before) => if dragged in shown then DraggedTo(shown, dragged, before) else shown
  }

  function OnBoard(cs: seq<Category>, position: int, op: BoardOp): (seq<Category>, int) {
    match op
    case AddOp(c) => AddCategory(cs, position, c)
    case DeleteOp(id) => DeleteCategory(cs, position, id)
    case DragOp(dragged, before) => DragGroup(cs, position, dragged, before)
  }

  /** New categories have new ids; the reserved key is neither added nor deleted. */
  predicate Allowed(shown: seq<Key>, op: BoardOp) {
    match op
    case AddOp(c) => c.id !in shown
    case DeleteOp(id) => id != UNCATEGORIZED
    case DragOp(_, _) => true
  }

  function RunBoard(cs: seq<Category>, position: int, ops: seq<BoardOp>): (seq<Category>, int)
    decreases |ops|
  {
    if ops == [] then (cs, position)
    else var (cs', position') := OnBoard(cs, position, ops[0]); RunBoard(cs', position', ops[1..])
  }

  function RunScreen(shown: seq<Key>, ops: seq<BoardOp>): seq<Key>
    decreases |ops|
  {
    if ops == [] then shown else RunScreen(OnScreen(shown, ops[0]), ops[1..])
  }

  predicate AllowedRun(shown: seq<Key>, ops: seq<BoardOp>)
    decreases |ops|
  {
    ops == [] || (Allowed(shown, ops[0]) && AllowedRun(OnScreen(shown, ops[0]), ops[1..]))
  }

  lemma StepSimulates(cs: seq<Category>, position: int, op: BoardOp)
    requires BoardInv(cs, position) && Allowed(Display(cs, position), op)
    ensures var (cs', position') := OnBoard(cs, position, op);
            Display(cs', position') == OnScreen(Display(cs, position), op) && BoardInv(cs', position')
  {
    match op {
      case AddOp(c) =>
        DisplayDistinct(cs, position);
        forall i | 0 <= i < |cs| ensures cs[i].id != c.id {
          KeysOfSorted(cs, cs[i].id);
          assert Keys(cs)[i] in Keys(cs);
        }
        AddShows(cs, position, c);
      case DeleteOp(id) =>
        DeleteShows(cs, position, id);
      case DragOp(dragged, before) =>
        if dragged in Display(cs, position) {
          DragShows(cs, position, dragged, before);
        }
    }
  }

  /** Over any run the screen behaves like a plain list of keys, and the slot stays in range. */
  lemma {:induction false} RunSimulates(cs: seq<Category>, position: int, ops: seq<BoardOp>)
    requires BoardInv(cs, position) && AllowedRun(Display(cs, position), ops)
    ensures var (cs', position') := RunBoard(cs, position, ops);
            Display(cs', position') == RunScreen(Display(cs, position), ops) && BoardInv(cs', position')
    decreases |ops|
  {
    if ops != [] {
      StepSimulates(cs, position, ops[0]);
      var (cs', position') := OnBoard(cs, position, ops[0]);
      RunSimulates(cs', position', ops[1..]);
    }
  }
}
