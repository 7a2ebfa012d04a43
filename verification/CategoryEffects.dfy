/** What the operations on categories do to their fields: only orders change, and the list is always sorted by them. */
module CategoryEffects {
  import opened Prelude
  import opened Lists
  import opened CategoryBoard

  /** Sorting keeps the categories and puts them by order, and by the text of their ids where orders agree. */
  lemma SortedList(cs: seq<Category>, i: nat, j: nat)
    requires UniqueIds(cs) && i < j < |cs|
    ensures var s := SortCategories(cs);
            && multiset(s) == multiset(cs)
            && (s[i].order < s[j].order || (s[i].order == s[j].order && StrLess(s[i].id.text, s[j].id.text)))
  {
    SortSorts(cs);
    Sorting.SortKeeps(cs, NotAfter);
    assert CategoryLess(SortCategories(cs)[i], SortCategories(cs)[j]);
  }

  /** The screen: the ids of the sorted list with "uncategorized" in its slot. */
  lemma DisplayIs(cs: seq<Category>, position: int)
    requires 0 <= position <= |cs|
    ensures var ids := Keys(SortCategories(cs));
            Display(cs, position) == ids[..position] + [Key("uncategorized")] + ids[position..]
  {
    InsertIs(Keys(SortCategories(cs)), position, UNCATEGORIZED);
  }

  lemma {:induction false} InsertIs<T>(ids: seq<T>, i: nat, id: T)
    requires i <= |ids|
    ensures InsertAt(ids, i, id) == ids[..i] + [id] + ids[i..]
    decreases i
  {
    if i == 0 {
      assert ids[..0] + [id] + ids[0..] == [id] + ids;
    } else {
      InsertIs(ids[1..], i - 1, id);
      assert ids[..i] == [ids[0]] + ids[1..][..i - 1] && ids[i..] == ids[1..][i - 1..];
    }
  }

  /** A new category gets order 0 and the others one more each; the slot moves down by one. */
  lemma AddEffect(cs: seq<Category>, position: int, c: Category, x: Category)
    ensures var (cs', position') := AddCategory(cs, position, c);
            && |cs'| == |cs| + 1
            && (x in cs' <==> x == c.(order := 0) || exists y :: y in cs && x == y.(order := y.order + 1))
            && (0 <= position <= |cs| ==> position' == position + 1)
  {
    CategoryBoard.SortMember(Shifted(cs) + [c.(order := 0)], x);
    ShiftedMember(cs, x);
  }

  lemma ShiftedMember(cs: seq<Category>, x: Category)
    ensures x in Shifted(cs) <==> exists y :: y in cs && x == y.(order := y.order + 1)
  {
    var r := Shifted(cs);
    if x in r {
      var i :| 0 <= i < |r| && r[i] == x;
      assert cs[i] in cs;
    }
    if y :| y in cs && x == y.(order := y.order + 1) {
      var i :| 0 <= i < |cs| && cs[i] == y;
      assert r[i] == x;
    }
  }

  /** Deleting takes the category out of the sorted list and numbers the rest from 0; the slot moves up when the
      category stood above it. */
  lemma DeleteEffect(cs: seq<Category>, position: int, k: nat)
    requires UniqueIds(cs) && 0 <= position <= |cs| && k < |cs|
    ensures var s := SortCategories(cs); var (cs', position') := DeleteCategory(cs, position, s[k].id);
            && |cs'| == |cs| - 1 && position' == (if k < position then position - 1 else position)
            && forall i :: 0 <= i < |cs'| ==> cs'[i] == s[if i < k then i else i + 1].(order := i)
  {
    var s := SortCategories(cs);
    SortUnique(cs);
    SortWithoutIs(cs, s[k].id);
    TakenOut(s, k);
    FoundAt(s, k);
    hide SortCategories, Without, Find;
  }

  /** An unknown id only numbers the list. */
  lemma DeleteUnknown(cs: seq<Category>, position: int, id: Key)
    requires UniqueIds(cs) && 0 <= position <= |cs| && forall c :: c in cs ==> c.id != id
    ensures var s := SortCategories(cs); var (cs', position') := DeleteCategory(cs, position, id);
            && |cs'| == |cs| && position' == position
            && forall i :: 0 <= i < |cs'| ==> cs'[i] == s[i].(order := i)
  {
    var s := SortCategories(cs);
    forall i | 0 <= i < |s| ensures s[i].id != id { CategoryBoard.SortMember(cs, s[i]); }
    SortWithoutIs(cs, id);
    NotThere(s, id);
    hide SortCategories, Without, Find;
  }

  lemma SortWithoutIs(cs: seq<Category>, id: Key)
    requires UniqueIds(cs)
    ensures SortCategories(Without(cs, id)) == Without(SortCategories(cs), id)
  {
    SortWithout(cs, id);
  }

  lemma {:induction false} TakenOut(s: seq<Category>, k: nat)
    requires UniqueIds(s) && k < |s|
    ensures Without(s, s[k].id) == s[..k] + s[k + 1..]
  {
    if k == 0 {
      NotThere(s[1..], s[0].id);
    } else {
      TakenOut(s[1..], k - 1);
      assert s[..k] + s[k + 1..] == [s[0]] + (s[1..][..k - 1] + s[1..][k..]);
    }
  }

  lemma {:induction false} NotThere(s: seq<Category>, id: Key)
    requires forall i :: 0 <= i < |s| ==> s[i].id != id
    ensures Without(s, id) == s && Find(Keys(s), id) == |s|
  {
    if s != [] { NotThere(s[1..], id); }
  }

  lemma {:induction false} FoundAt(s: seq<Category>, k: nat)
    requires UniqueIds(s) && k < |s|
    ensures Find(Keys(s), s[k].id) == k
  {
    if k > 0 {
      FoundAt(s[1..], k - 1);
      assert Keys(s)[1..] == Keys(s[1..]);
    }
  }

  /** Reordering numbers every named category with its place in the id list, and the others behind as many as were
      named, in their old order. */
  lemma ReorderEffect(cs: seq<Category>, ids: seq<Key>, x: Category)
    requires Distinct(ids)
    ensures var named := Known(cs, ids);
            x in ReorderCategories(cs, ids) <==>
              || (exists k :: 0 <= k < |ids| && IndexOf(cs, ids[k]) < |cs| && x == cs[IndexOf(cs, ids[k])].(order := k))
              || (exists i :: 0 <= i < |cs| && cs[i].id !in ids && x == cs[i].(order := named + Unnamed(cs[..i], ids)))
  {
    var named := |Reordered(cs, ids, 0)|;
    NamedCount(cs, ids, 0);
    CategoryBoard.SortMember(Reordered(cs, ids, 0) + Remaining(cs, ids, named), x);
    ReorderedMember(cs, ids, 0, x);
    RemainingMember(cs, ids, named, x);
  }

  /** How many categories are not named. */
  function Unnamed(cs: seq<Category>, ids: seq<Key>): nat {
    if cs == [] then 0 else (if cs[0].id in ids then 0 else 1) + Unnamed(cs[1..], ids)
  }

  /** As many are named as ids are known. */
  function Known(cs: seq<Category>, ids: seq<Key>): nat {
    if ids == [] then 0 else (if IndexOf(cs, ids[0]) < |cs| then 1 else 0) + Known(cs, ids[1..])
  }

  lemma {:induction false} NamedCount(cs: seq<Category>, ids: seq<Key>, from: nat)
    ensures |Reordered(cs, ids, from)| == Known(cs, ids)
    decreases |ids|
  {
    if ids != [] { NamedCount(cs, ids[1..], from + 1); }
  }

  lemma {:induction false} ReorderedMember(cs: seq<Category>, ids: seq<Key>, from: nat, x: Category)
    ensures x in Reordered(cs, ids, from) <==>
            exists k :: 0 <= k < |ids| && IndexOf(cs, ids[k]) < |cs| && x == cs[IndexOf(cs, ids[k])].(order := from + k)
    decreases |ids|
  {
    if ids != [] {
      ReorderedMember(cs, ids[1..], from + 1, x);
      if k :| 0 <= k < |ids| && IndexOf(cs, ids[k]) < |cs| && x == cs[IndexOf(cs, ids[k])].(order := from + k) {
        if k > 0 { assert ids[1..][k - 1] == ids[k]; }
      }
      if x in Reordered(cs, ids[1..], from + 1) {
        var k :| 0 <= k < |ids[1..]| && IndexOf(cs, ids[1..][k]) < |cs|
                 && x == cs[IndexOf(cs, ids[1..][k])].(order := from + 1 + k);
        assert ids[k + 1] == ids[1..][k];
      }
    }
  }

  lemma {:induction false} RemainingMember(cs: seq<Category>, ids: seq<Key>, from: nat, x: Category)
    ensures x in Remaining(cs, ids, from) <==>
            exists i :: 0 <= i < |cs| && cs[i].id !in ids && x == cs[i].(order := from + Unnamed(cs[..i], ids))
    decreases |cs|
  {
    if cs != [] {
      var here := if cs[0].id in ids then 0 else 1;
      RemainingMember(cs[1..], ids, from + here, x);
      forall i | 0 < i <= |cs| ensures Unnamed(cs[..i], ids) == here + Unnamed(cs[1..][..i - 1], ids) {
        assert cs[..i][1..] == cs[1..][..i - 1];
      }
      if i :| 0 <= i < |cs| && cs[i].id !in ids && x == cs[i].(order := from + Unnamed(cs[..i], ids)) {
        if i > 0 { assert cs[1..][i - 1] == cs[i]; }
      }
      if i :| 0 <= i < |cs[1..]| && cs[1..][i].id !in ids
              && x == cs[1..][i].(order := from + here + Unnamed(cs[1..][..i], ids)) {
        assert cs[i + 1] == cs[1..][i];
      }
    }
  }
}
