/** The category half of LocalStore as an object whose methods update the list and the slot in place. */
module CategoryStore {
  import opened Prelude
  import opened Lists
  import opened CategoryBoard

  lemma {:induction false} RemoveAtFind(ids: seq<Key>, id: Key)
    requires Distinct(ids) && id in ids
    ensures Find(ids, id) < |ids|
    ensures ids[..Find(ids, id)] + ids[Find(ids, id) + 1..] == Remove(ids, id)
  {
    if ids[0] == id {
      RemoveNothing(ids[1..], id);
    } else {
      var i := Find(ids[1..], id);
      RemoveAtFind(ids[1..], id);
      assert ids[..i + 1] + ids[i + 2..] == [ids[0]] + (ids[1..][..i] + ids[1..][i + 1..]);
    }
  }

  lemma {:induction false} InsertAtSlices(ids: seq<Key>, i: nat, id: Key)
    requires i <= |ids|
    ensures InsertAt(ids, i, id) == ids[..i] + [id] + ids[i..]
  {
    if i > 0 {
      InsertAtSlices(ids[1..], i - 1, id);
      assert ids[..i] + [id] + ids[i..] == [ids[0]] + (ids[1..][..i - 1] + [id] + ids[1..][i - 1..]);
    }
  }

  class CategoryList {
    var categories: seq<Category>
    var uncategorizedPosition: int

    /** The invariant every change below keeps. */
    ghost predicate Valid()
      reads this
    {
      BoardInv(categories, uncategorizedPosition)
    }

    /** The group keys in the order on screen. */
    ghost function Shown(): seq<Key>
      reads this
    {
      Display(categories, uncategorizedPosition)
    }

    constructor (stored: seq<Category>, position: int)
      requires BoardInv(stored, 0)
      ensures Valid()
      ensures categories == stored && uncategorizedPosition == Clamp(position, |stored|)
    {
      categories := stored;
      uncategorizedPosition := Clamp(position, |stored|);
    }

    method SetUncategorizedPosition(position: int)
      modifies this`uncategorizedPosition
      ensures uncategorizedPosition == Clamp(position, |categories|)
    {
      uncategorizedPosition := Clamp(position, |categories|);
    }

    method ShiftOrders()
      modifies this`categories
      ensures categories == Shifted(old(categories))
    {
      for idx := 0 to |categories|
        invariant |categories| == |old(categories)|
        invariant forall k :: 0 <= k < idx ==>
                    categories[k] == old(categories)[k].(order := old(categories)[k].order + 1)
        invariant forall k :: idx <= k < |categories| ==> categories[k] == old(categories)[k]
      {
        categories := categories[idx := categories[idx].(order := categories[idx].order + 1)];
      }
    }

    method AddCategory(category: Category)
      requires Valid() && category.id !in Shown()
      modifies this
      ensures (categories, uncategorizedPosition)
           == CategoryBoard.AddCategory(old(categories), old(uncategorizedPosition), category)
      ensures Shown() == [category.id] + old(Shown()) && Valid()
    {
      StepSimulates(categories, uncategorizedPosition, AddOp(category));
      ShiftOrders();
      categories := SortCategories(categories + [category.(order := 0)]);
      SetUncategorizedPosition(uncategorizedPosition + 1);
    }

    method NormalizeCategoryOrder()
      modifies this`categories
      ensures categories == Numbered(SortCategories(old(categories)))
    {
      var sorted := SortCategories(categories);
      categories := seq(|sorted|, i requires 0 <= i < |sorted| => sorted[i].(order := i));
    }

    /** The tasks of the category are handled by TaskStore.UpdateTasksForCategoryRemoval. */
    method DeleteCategory(id: Key)
      requires Valid() && id != UNCATEGORIZED
      modifies this
      ensures (categories, uncategorizedPosition)
           == CategoryBoard.DeleteCategory(old(categories), old(uncategorizedPosition), id)
      ensures Shown() == Remove(old(Shown()), id) && Valid()
    {
      StepSimulates(categories, uncategorizedPosition, DeleteOp(id));
      var sortedIds := Keys(SortCategories(categories));
      var removedIndex := Find(sortedIds, id);
      categories := Without(categories, id);
      NormalizeCategoryOrder();
      if removedIndex < |sortedIds| && removedIndex < uncategorizedPosition {
        SetUncategorizedPosition(uncategorizedPosition - 1);
      } else {
        SetUncategorizedPosition(uncategorizedPosition);
      }
    }

    /** Unique ids are what Dictionary(uniqueKeysWithValues:) demands. */
    method ReorderCategories(orderedIds: seq<Key>)
      requires UniqueIds(categories)
      modifies this`categories
      ensures categories == CategoryBoard.ReorderCategories(old(categories), orderedIds)
    {
      var reordered := [];
      for index := 0 to |orderedIds|
        invariant categories == old(categories)
        invariant Reordered(categories, orderedIds, 0)
               == reordered + Reordered(categories, orderedIds[index..], index)
      {
        var i := IndexOf(categories, orderedIds[index]);
        assert orderedIds[index..][1..] == orderedIds[index + 1..] && orderedIds[index..][0] == orderedIds[index];
        if i < |categories| {
          ghost var rest := Reordered(categories, orderedIds[index + 1..], index + 1);
          assert reordered + ([categories[i].(order := index)] + rest) ==
                 (reordered + [categories[i].(order := index)]) + rest;
          reordered := reordered + [categories[i].(order := index)];
        }
      }
      assert reordered + [] == reordered;
      var remaining := Remaining(categories, orderedIds, |reordered|);
      categories := SortCategories(reordered + remaining);
    }

    /** The local edits of the drag handler; nothing when the key is not shown. */
    method DraggedGroups(groups: seq<Key>, dragged: Key, before: Option<Key>) returns (groupIds: Option<seq<Key>>)
      requires Distinct(groups)
      ensures groupIds == if dragged in groups then Some(DraggedTo(groups, dragged, before)) else None
    {
      var fromIndex := Find(groups, dragged);
      if fromIndex == |groups| { return None; }
      RemoveAtFind(groups, dragged);
      var rest := groups[..fromIndex] + groups[fromIndex + 1..];
      var toIndex := if before.Some? then Find(rest, before.value) else |rest|;
      InsertAtSlices(rest, toIndex, dragged);
      groupIds := Some(rest[..toIndex] + [dragged] + rest[toIndex..]);
    }

    method ApplyCategoryGroupReorder(dragged: Key, before: Option<Key>)
      requires Valid()
      modifies this
      ensures (categories, uncategorizedPosition)
           == DragGroup(old(categories), old(uncategorizedPosition), dragged, before)
      ensures Shown() == (if dragged in old(Shown()) then DraggedTo(old(Shown()), dragged, before) else old(Shown()))
      ensures Valid()
    {
      StepSimulates(categories, uncategorizedPosition, DragOp(dragged, before));
      DisplayDistinct(categories, uncategorizedPosition);
      var groupIds := Keys(SortCategories(categories));
      var slot := Clamp(uncategorizedPosition, |groupIds|);
      InsertAtSlices(groupIds, slot, UNCATEGORIZED);
      groupIds := groupIds[..slot] + [UNCATEGORIZED] + groupIds[slot..];
      assert groupIds == Display(categories, uncategorizedPosition);
      hide SortCategories, Keys, InsertAt, Remove, BoardInv, Display, DraggedTo, CategoryBoard.ReorderCategories;
      var moved := DraggedGroups(groupIds, dragged, before);
      if moved.Some? {
        SetUncategorizedPosition(Find(moved.value, UNCATEGORIZED));
        ReorderCategories(Remove(moved.value, UNCATEGORIZED));
      }
    }
  }
}
