/** Lists of distinct keys: finding, removing and inserting one of them. */
module Lists {

  predicate Distinct<T(==)>(ids: seq<T>) {
    forall i, j :: 0 <= i < j < |ids| ==> ids[i] != ids[j]
  }

  /** Array.removeAll of one key. */
  function Remove<T(==)>(ids: seq<T>, id: T): seq<T> {
    if ids == [] then []
    else if ids[0] == id then Remove(ids[1..], id)
    else [ids[0]] + Remove(ids[1..], id)
  }

  /** Array.firstIndex(of:); |ids| stands for nil. */
  function Find<T(==)>(ids: seq<T>, id: T): (i: nat)
    ensures i <= |ids|
    ensures i < |ids| ==> ids[i] == id
    ensures i == |ids| ==> id !in ids
  {
    if ids == [] || ids[0] == id then 0 else 1 + Find(ids[1..], id)
  }

  /** Array.insert(_:at:). */
  function InsertAt<T>(ids: seq<T>, i: nat, id: T): (r: seq<T>)
    requires i <= |ids|
    ensures |r| == |ids| + 1 && r[i] == id
  {
    if i == 0 then [id] + ids else [ids[0]] + InsertAt(ids[1..], i - 1, id)
  }

  lemma {:induction false} InsertedElements<T>(ids: seq<T>, i: nat, id: T, j: nat)
    requires i <= |ids| && j < |ids|
    ensures InsertAt(ids, i, id)[if j < i then j else j + 1] == ids[j]
  {
    if i > 0 && j > 0 {
      InsertedElements(ids[1..], i - 1, id, j - 1);
    }
  }

  lemma {:induction false} InsertMember<T>(ids: seq<T>, i: nat, id: T, x: T)
    requires i <= |ids|
    ensures x in InsertAt(ids, i, id) <==> x in ids || x == id
  {
    if i > 0 {
      InsertMember(ids[1..], i - 1, id, x);
    }
  }

  lemma {:induction false} InsertDistinct<T>(ids: seq<T>, i: nat, id: T)
    requires i <= |ids| && Distinct(ids) && id !in ids
    ensures Distinct(InsertAt(ids, i, id))
  {
    if i > 0 {
      var r := InsertAt(ids[1..], i - 1, id);
      InsertDistinct(ids[1..], i - 1, id);
      forall j | 0 <= j < |r| ensures r[j] != ids[0] {
        InsertMember(ids[1..], i - 1, id, r[j]);
      }
    }
  }

  lemma {:induction false} RemoveMember<T>(ids: seq<T>, id: T, x: T)
    ensures x in Remove(ids, id) <==> x in ids && x != id
  {
    if ids != [] {
      RemoveMember(ids[1..], id, x);
    }
  }

  lemma {:induction false} RemoveNothing<T>(ids: seq<T>, id: T)
    requires id !in ids
    ensures Remove(ids, id) == ids
  {
    if ids != [] {
      RemoveNothing(ids[1..], id);
    }
  }

  lemma {:induction false} RemoveDistinct<T>(ids: seq<T>, id: T)
    requires Distinct(ids)
    ensures Distinct(Remove(ids, id))
  {
    if ids != [] {
      RemoveDistinct(ids[1..], id);
      var rest := Remove(ids[1..], id);
      forall i | 0 <= i < |rest| ensures rest[i] != ids[0] {
        RemoveMember(ids[1..], id, rest[i]);
      }
    }
  }

  /** Removing what was inserted. */
  lemma {:induction false} RemoveInserted<T>(ids: seq<T>, i: nat, id: T)
    requires id !in ids && i <= |ids|
    ensures Remove(InsertAt(ids, i, id), id) == ids
  {
    if i == 0 {
      assert ([id] + ids)[1..] == ids;
      RemoveNothing(ids, id);
    } else {
      var rest := InsertAt(ids[1..], i - 1, id);
      assert InsertAt(ids, i, id) == [ids[0]] + rest && ([ids[0]] + rest)[1..] == rest;
      RemoveInserted(ids[1..], i - 1, id);
      hide InsertAt;
    }
  }

  /** Inserting what was removed, where it was. */
  lemma {:induction false} InsertRemoved<T>(ids: seq<T>, id: T)
    requires Distinct(ids) && id in ids
    ensures Find(ids, id) <= |Remove(ids, id)|
    ensures InsertAt(Remove(ids, id), Find(ids, id), id) == ids
  {
    if ids[0] == id {
      RemoveNothing(ids[1..], id);
    } else {
      var rest := Remove(ids[1..], id);
      InsertRemoved(ids[1..], id);
      assert ([ids[0]] + rest)[1..] == rest;
      assert InsertAt([ids[0]] + rest, Find(ids[1..], id) + 1, id) == [ids[0]] + ids[1..];
    }
  }

  /** Removing a key from a list with a slot at p: the slot moves up when the key was before it. */
  lemma {:induction false} RemoveAroundSlot<T>(ids: seq<T>, p: nat, id: T, slot: T)
    requires Distinct(ids) && p <= |ids| && id != slot
    ensures var k := Find(ids, id);
            var p' := if k < |ids| && k < p then p - 1 else p;
            p' <= |Remove(ids, id)| && Remove(InsertAt(ids, p, slot), id) == InsertAt(Remove(ids, id), p', slot)
  {
    if p > 0 {
      var rest := InsertAt(ids[1..], p - 1, slot);
      assert InsertAt(ids, p, slot)[1..] == rest;
      if ids[0] == id {
        RemoveNothing(ids[1..], id);
        InsertMember(ids[1..], p - 1, slot, id);
        RemoveNothing(rest, id);
      } else {
        RemoveAroundSlot(ids[1..], p - 1, id, slot);
      }
    } else {
      RemoveLength(ids, id);
      assert ([slot] + ids)[1..] == ids;
    }
  }

  lemma {:induction false} RemoveLength<T>(ids: seq<T>, id: T)
    requires Distinct(ids)
    ensures |Remove(ids, id)| == if id in ids then |ids| - 1 else |ids|
  {
    if ids != [] {
      RemoveLength(ids[1..], id);
    }
  }

  lemma Regroup<T>(a: seq<T>, b: seq<T>, c: seq<T>)
    ensures (a + b) + c == a + (b + c)
  {
  }

  // ------------------------------------------------------------ the same elements

  lemma TakeOut<T>(s: seq<T>, i: nat)
    requires i < |s|
    ensures multiset(s) == multiset{s[i]} + multiset(s[..i] + s[i + 1..])
  {
    assert s == s[..i] + ([s[i]] + s[i + 1..]);
  }

  lemma SameSum<T>(x: multiset<T>, a: multiset<T>, b: multiset<T>)
    requires x + a == x + b
    ensures a == b
  {
    assert a == (x + a) - x && b == (x + b) - x;
  }

  lemma SameRest<T>(a: seq<T>, b: seq<T>, i: nat)
    requires multiset(a) == multiset(b) && a != [] && i < |b| && b[i] == a[0]
    ensures multiset(a[1..]) == multiset(b[..i] + b[i + 1..])
  {
    TakeOut(b, i);
    var rest := b[..i] + b[i + 1..];
    assert a == [a[0]] + a[1..];
    assert multiset(a) == multiset{a[0]} + multiset(a[1..]);
    SameSum(multiset{a[0]}, multiset(a[1..]), multiset(rest));
  }

  lemma OccursTwice<T>(s: seq<T>, i: nat, j: nat)
    requires i < j < |s| && s[i] == s[j]
    ensures multiset(s)[s[i]] >= 2
  {
    TakeOut(s, i);
    assert (s[..i] + s[i + 1..])[j - 1] == s[j];
  }

  lemma OccursOnce<T>(s: seq<T>, i: nat)
    requires i < |s| && forall j :: 0 <= j < |s| && j != i ==> s[j] != s[i]
    ensures multiset(s)[s[i]] == 1
  {
    TakeOut(s, i);
    assert s[i] !in s[..i] + s[i + 1..];
  }
}
