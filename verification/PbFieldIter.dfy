/** The descriptor macros of pb.h and the field iterator of pb_common.c: relative offsets
    in the table add up to the true address of every struct member. */
module PbFieldIter {
  import opened Prelude
  import opened PbMessage

  datatype AType = Static | Pointer | Callback

  // ------------------------------------------------------------- C structs

  /** A struct member as the C compiler lays it out. size is that of the member itself;
      itemSize that of one array entry, or of the object a pointer points to. companion is
      the offset of its has_, _count or which_ member. */
  datatype Member = Member(
    tag: nat, htype: HType, atype: AType, extension: bool,
    offset: nat, size: nat, itemSize: nat, companion: Option<nat>)

  /** sizeMax is PB_SIZE_MAX, the largest pb_size_t; pointerSize is sizeof(void*). */
  datatype Layout = Layout(members: seq<Member>, sizeMax: nat, pointerSize: nat) {

    /** Are members k-1 and k in the same union? */
    predicate SameUnion(k: nat)
      requires 0 < k < |members|
    {
      members[k - 1].htype.OneOf? && members[k - 1].htype == members[k].htype
    }

    /** Bytes between the end of member k-1 and the start of member k. */
    function Gap(k: nat): int
      requires 0 < k < |members|
    {
      members[k].offset - members[k - 1].offset - members[k - 1].size
    }

    /** What C guarantees for a struct, and what generated code checks when it is compiled. */
    predicate Ok() {
      && sizeMax >= 255
      && (forall k :: 0 <= k < |members| ==> MemberOk(members[k]))
      && (forall k :: 0 < k < |members| && SameUnion(k) ==>
            members[k].offset == members[k - 1].offset && members[k].companion == members[k - 1].companion)
      && (forall k :: 0 < k < |members| && !SameUnion(k) ==> 0 <= Gap(k) <= sizeMax)
    }

    predicate MemberOk(m: Member) {
      && m.tag != 0
      && (m.atype.Pointer? ==> m.size == pointerSize)
      && (m.atype.Static? && m.htype.Repeated? ==> m.itemSize > 0 && m.size % m.itemSize == 0)
      && (m.htype.OneOf? ==> m.companion.Some? && !m.atype.Callback?)
    }

    /** Two unions in a row whose padding happens to equal the "same union" marker. */
    predicate MarkerClash(k: nat)
      requires 0 < k < |members|
    {
      !SameUnion(k) && members[k - 1].htype.OneOf? && members[k].htype.OneOf? && Gap(k) == sizeMax
    }

    // ------------------------------------------------------- descriptors

    /** PB_DATAOFFSET_FIRST, PB_DATAOFFSET_UNION and PB_DATAOFFSET_OTHER. */
    function DataOffset(k: nat): int
      requires k < |members|
    {
      if k == 0 then members[0].offset
      else if SameUnion(k) then sizeMax
      else Gap(k)
    }

    /** pb_delta to the companion, or 0. */
    function SizeOffset(k: nat): int
      requires k < |members|
    {
      match members[k].companion
      case None => 0
      case Some(c) => c - members[k].offset
    }

    /** The PB_..._STATIC, PB_..._POINTER and PB_..._CALLBACK macros. */
    function Describe(k: nat): PbField
      requires k < |members|
    {
      var m := members[k];
      var isArray := m.atype.Static? && m.htype.Repeated?;
      PbField(m.tag, m.htype, m.atype, m.extension, DataOffset(k), SizeOffset(k),
              if isArray || m.atype.Pointer? then m.itemSize else m.size,
              if isArray && m.itemSize > 0 then m.size / m.itemSize else 0)
    }

    /** The whole table, ending with PB_LAST_FIELD. */
    function Table(): (t: seq<PbField>)
      ensures |t| == |members| + 1
    {
      seq(|members|, k requires 0 <= k < |members| => Describe(k)) + [LAST_FIELD]
    }

    /** How far below the true address pData is at field k: what was not added where padding clashes
        with the marker. */
    function Lost(k: nat): int
      requires k < |members|
    {
      if k == 0 then 0
      else Lost(k - 1) + (if MarkerClash(k) then members[k].offset - members[k - 1].offset else 0)
    }

    /** The same for pSize, which is left alone where the marker is seen. */
    function LostSize(k: nat): int
      requires k < |members|
    {
      if k > 0 && MarkerClash(k) then LostSize(k - 1) + Companion(k) - Companion(k - 1)
      else if k > 0 && SameUnion(k) then LostSize(k - 1)
      else Lost(k)
    }

    /** The offset of the companion, or of the member itself when it has none. */
    function Companion(k: nat): int
      requires k < |members|
    {
      match members[k].companion
      case None => members[k].offset
      case Some(c) => c
    }

    function RequiredBefore(k: nat): nat
      requires k <= |members|
    {
      if k == 0 then 0 else RequiredBefore(k - 1) + (if members[k - 1].htype.Required? then 1 else 0)
    }
  }

  datatype PbField = PbField(
    tag: nat, htype: HType, atype: AType, extension: bool,
    dataOffset: int, sizeOffset: int, dataSize: nat, arraySize: nat)

  const LAST_FIELD := PbField(0, Required, Static, false, 0, 0, 0, 0)

  /** What a table entry says of its member: where its companion is, how large an entry is and how many fit. */
  lemma TableIs(l: Layout, k: nat)
    requires l.Ok() && k < |l.members|
    ensures var (m, f) := (l.members[k], l.Table()[k]);
            && (f.tag, f.htype, f.atype, f.extension) == (m.tag, m.htype, m.atype, m.extension)
            && m.offset + f.sizeOffset == (if m.companion.Some? then m.companion.value else m.offset)
            && (if m.atype.Static? && m.htype.Repeated?
                then f.dataSize == m.itemSize && f.dataSize * f.arraySize == m.size
                else f.arraySize == 0 && f.dataSize == if m.atype.Pointer? then m.itemSize else m.size)
    ensures l.Table()[|l.members|].tag == 0
  {
    var m := l.members[k];
    if m.atype.Static? && m.htype.Repeated? {
      MemberIsOk(l, k);
      assert m.size == m.size / m.itemSize * m.itemSize + m.size % m.itemSize;
    }
  }

  /** The required fields are counted, each once. */
  lemma {:induction false} RequiredAre(l: Layout, k: nat)
    requires k <= |l.members|
    ensures l.RequiredBefore(k) == |set i | 0 <= i < k && l.members[i].htype.Required?|
    decreases k
  {
    if k > 0 {
      RequiredAre(l, k - 1);
      var before := set i | 0 <= i < k - 1 && l.members[i].htype.Required?;
      assert (set i | 0 <= i < k && l.members[i].htype.Required?)
          == if l.members[k - 1].htype.Required? then before + {k - 1} else before;
    }
  }

  /** How far pb_field_iter_next moves pData from one field to the next. */
  function Advance(prev: PbField, next: PbField, sizeMax: nat, pointerSize: nat): int {
    if prev.htype.OneOf? && next.htype.OneOf? && next.dataOffset == sizeMax then 0
    else if prev.atype.Static? && prev.htype.Repeated? then prev.dataSize * prev.arraySize + next.dataOffset
    else if prev.atype.Pointer? then pointerSize + next.dataOffset
    else prev.dataSize + next.dataOffset
  }

  /** One step lands on the next member, except exactly where padding clashes with the marker. */
  lemma AdvanceLands(l: Layout, k: nat)
    requires l.Ok() && k + 1 < |l.members|
    ensures l.members[k].offset + Advance(l.Describe(k), l.Describe(k + 1), l.sizeMax, l.pointerSize)
            == l.members[k + 1].offset
            <==> !l.MarkerClash(k + 1)
  {
    var m := l.members[k];
    assert l.MemberOk(m) && l.MemberOk(l.members[k + 1]);
    if m.atype.Static? && m.htype.Repeated? {
      assert m.size == m.itemSize * (m.size / m.itemSize);
    }
  }

  /** The iterator sees the marker between fields k and k+1. */
  predicate MarkerSeen(l: Layout, k: nat)
    requires k + 1 < |l.members|
  {
    l.members[k].htype.OneOf? && l.members[k + 1].htype.OneOf? && l.DataOffset(k + 1) == l.sizeMax
  }

  /** What one step adds to either pointer, in terms of what was lost. */
  lemma StepLoses(l: Layout, k: nat)
    requires l.Ok() && k + 1 < |l.members|
    ensures l.members[k].offset - l.Lost(k) + Advance(l.Describe(k), l.Describe(k + 1), l.sizeMax, l.pointerSize)
            == l.members[k + 1].offset - l.Lost(k + 1)
    ensures if MarkerSeen(l, k) then l.Companion(k) - l.LostSize(k) == l.Companion(k + 1) - l.LostSize(k + 1)
            else l.LostSize(k + 1) == l.Lost(k + 1)
  {
    AdvanceLands(l, k);
    if MarkerSeen(l, k) {
      assert l.SameUnion(k + 1) || l.MarkerClash(k + 1);
    }
  }

  lemma MemberIsOk(l: Layout, k: nat)
    requires l.Ok() && k < |l.members|
    ensures l.MemberOk(l.members[k])
  {
  }

  lemma {:induction false} LostIsNonNegative(l: Layout, k: nat)
    requires l.Ok() && k < |l.members|
    ensures l.Lost(k) >= 0
    ensures forall j :: 0 < j <= k && l.MarkerClash(j) ==> l.Lost(k) > 0
  {
    if k > 0 {
      LostIsNonNegative(l, k - 1);
    }
  }

  lemma {:induction false} NothingLost(l: Layout, k: nat)
    requires k < |l.members| && forall j :: 0 < j <= k ==> !l.MarkerClash(j)
    ensures l.Lost(k) == 0 && l.LostSize(k) == 0
  {
    if k > 0 {
      NothingLost(l, k - 1);
    }
  }

  /** Both pointers are true at every field exactly when no padding clashes with the marker. */
  lemma AddressesTrueIff(l: Layout)
    requires l.Ok()
    ensures (forall k :: 0 <= k < |l.members| ==> l.Lost(k) == 0 && l.LostSize(k) == 0)
       <==> forall j :: 0 < j < |l.members| ==> !l.MarkerClash(j)
  {
    if forall j :: 0 < j < |l.members| ==> !l.MarkerClash(j) {
      forall k | 0 <= k < |l.members| ensures l.Lost(k) == 0 && l.LostSize(k) == 0 {
        NothingLost(l, k);
      }
    } else {
      var j :| 0 < j < |l.members| && l.MarkerClash(j);
      LostIsNonNegative(l, j);
    }
  }

  /** Two one-byte unions 255 bytes apart, under a one-byte pb_size_t: a struct that C allows, in which the
      iterator reports the second union at the address of the first. */
  lemma PaddingCanClash()
    ensures var first := Member(1, OneOf(0), Static, false, 2, 1, 1, Some(0));
            var second := Member(2, OneOf(1), Static, false, 258, 1, 1, Some(256));
            var l := Layout([first, second], 255, 8);
            l.Ok() && l.Lost(1) == second.offset - first.offset
  {
    var first := Member(1, OneOf(0), Static, false, 2, 1, 1, Some(0));
    var second := Member(2, OneOf(1), Static, false, 258, 1, 1, Some(256));
    var l := Layout([first, second], 255, 8);
    assert l.MarkerClash(1) && l.Lost(0) == 0;
  }

  // --------------------------------------------------------------- iterator

  /** pb_field_iter_t over a table that the macros built. A null destination is address 0. */
  class FieldIter {
    ghost const layout: Layout
    const start: seq<PbField>
    const sizeMax: nat
    const pointerSize: nat
    const destStruct: nat
    var pos: nat
    var pData: int
    var pSize: int
    var requiredFieldIndex: nat

    /** The table and the sizes are those of the layout. */
    ghost predicate Tabled() {
      && layout.Ok() && start == layout.Table()
      && sizeMax == layout.sizeMax && pointerSize == layout.pointerSize
    }

    /** Struct base plus the offset of field k, less what was lost on the way. */
    ghost function AddressOf(k: nat): int
      requires k < |layout.members|
    {
      destStruct + layout.members[k].offset - layout.Lost(k)
    }

    /** The iterator stands at field k, and both pointers are the true addresses less what was lost. */
    ghost predicate At(k: nat)
      reads this
    {
      && Tabled()
      && k < |start|
      && (k == |layout.members| ==> k == 0)
      && pos == k
      && requiredFieldIndex == layout.RequiredBefore(k)
      && (destStruct != 0 && k < |layout.members| ==>
            && pData == AddressOf(k)
            && pSize == destStruct + layout.Companion(k) - layout.LostSize(k))
    }

    lemma WhereAt(k: nat)
      requires At(k)
      ensures pos == k && (k < |layout.members| || (k == 0 && layout.members == []))
      ensures destStruct != 0 && k < |layout.members| ==> pData == AddressOf(k)
    {
    }

    constructor (l: Layout, dest: nat)
      requires l.Ok()
      ensures layout == l && destStruct == dest && At(0)
    {
      layout, start, sizeMax, pointerSize, destStruct := l, l.Table(), l.sizeMax, l.pointerSize, dest;
      pos, requiredFieldIndex := 0, 0;
      new;
      var _ := Begin();
    }

    /** pb_field_iter_begin: false for a message without fields. */
    method Begin() returns (ok: bool)
      requires Tabled()
      modifies this
      ensures At(0) && ok == (layout.members != [])
    {
      pos := 0;
      requiredFieldIndex := 0;
      if destStruct == 0 {
        pData, pSize := 0, 0;
      } else {
        pData := destStruct + start[0].dataOffset;
        pSize := pData + start[0].sizeOffset;
      }
      if |layout.members| > 0 {
        assert layout.MemberOk(layout.members[0]);
      }
      ok := start[pos].tag != 0;
    }

    /** pb_field_iter_next: to the next field, or around to the first one. */
    method Next(ghost k: nat) returns (ok: bool)
      requires At(k)
      modifies this
      ensures ok == (k + 1 < |layout.members|)
      ensures At(if k + 1 < |layout.members| then k + 1 else 0)
    {
      hide Layout.Ok, Layout.Lost, Layout.LostSize, Layout.DataOffset;
      var prev := start[pos];
      if k < |layout.members| { MemberIsOk(layout, k); }
      if prev.tag == 0 {
        return false;
      }
      pos := pos + 1;
      if k + 1 < |layout.members| {
        MemberIsOk(layout, k + 1);
        StepLoses(layout, k);
      }
      if start[pos].tag == 0 {
        var _ := Begin();
        return false;
      }
      var prevSize := prev.dataSize;
      if prev.htype.OneOf? && start[pos].htype.OneOf? && start[pos].dataOffset == sizeMax {
        return true;
      } else if prev.atype.Static? && prev.htype.Repeated? {
        prevSize := prevSize * prev.arraySize;
      } else if prev.atype.Pointer? {
        prevSize := pointerSize;
      }
      if prev.htype.Required? {
        requiredFieldIndex := requiredFieldIndex + 1;
      }
      pData := pData + prevSize + start[pos].dataOffset;
      pSize := pData + start[pos].sizeOffset;
      return true;
    }

    /** The field has this tag and is not an extension placeholder. */
    ghost predicate Matches(k: nat, tag: nat) {
      k < |layout.members| && layout.members[k].tag == tag && !layout.members[k].extension
    }

    /** pb_field_iter_find: searches once around, starting where the iterator stands. */
    method Find(ghost k: nat, tag: nat) returns (found: bool)
      requires At(k) && tag != 0
      modifies this
      ensures found <==> exists j :: Matches(j, tag)
      ensures found ==> At(pos) && Matches(pos, tag)
      ensures !found ==> At(k)
    {
      hide At, Passed, Matches;
      WhereAt(k);
      NothingPassed(k, tag);
      var first := pos;
      ghost var i := k;
      ghost var n := |layout.members|;
      ghost var steps := 0;
      while true
        invariant first == k && Passed(k, steps, tag) && i == Around(k, steps, n)
        invariant n > 0 ==> steps < n
        invariant n == 0 ==> steps == 0
        invariant At(i)
        decreases n - steps
      {
        WhereAt(i);
        found := CheckHere(i, tag);
        if found { return; }
        OnePassed(k, steps, tag);
        var _ := Next(i);
        if n > 0 {
          i := Around(k, steps + 1, n);
        }
        WhereAt(i);
        steps := steps + 1;
        if pos == first {
          break;
        }
      }
      NothingMatches(k, steps, tag);
    }

    /** The test in the loop: the current field has the tag and is no extension. */
    method CheckHere(ghost i: nat, tag: nat) returns (here: bool)
      requires At(i) && tag != 0
      ensures here == Matches(i, tag)
    {
      here := start[pos].tag == tag && !start[pos].extension;
    }

    /** The first steps fields from k on do not match. */
    ghost predicate Passed(k: nat, steps: nat, tag: nat) {
      forall s :: 0 <= s < steps ==> !Matches(Around(k, s, |layout.members|), tag)
    }

    lemma NothingPassed(k: nat, tag: nat)
      ensures Passed(k, 0, tag)
    {
    }

    lemma OnePassed(k: nat, steps: nat, tag: nat)
      requires Passed(k, steps, tag) && !Matches(Around(k, steps, |layout.members|), tag)
      ensures Passed(k, steps + 1, tag)
    {
    }

    /** Once around without a match means there is none. */
    lemma NothingMatches(k: nat, steps: nat, tag: nat)
      requires Passed(k, steps, tag) && steps >= |layout.members|
      requires k < |layout.members| || layout.members == []
      ensures !exists j :: Matches(j, tag)
    {
      if j :| Matches(j, tag) {
        AroundReaches(k, j, |layout.members|);
      }
    }

    /** The do/while loop that pb_encode runs over an iterator: every member once, in order, and all at their
        true addresses when no padding clashes with the marker. */
    method Walk() returns (addresses: seq<int>)
      requires At(0) && destStruct != 0
      modifies this
      ensures |addresses| == |layout.members| && At(0)
      ensures forall k :: 0 <= k < |addresses| ==> addresses[k] == AddressOf(k)
    {
      addresses := [];
      WhereAt(0);
      var more := Begin();
      hide At, AddressOf;
      ghost var k := 0;
      while more
        invariant At(k) && k <= |layout.members|
        invariant more ==> k < |layout.members| && |addresses| == k
        invariant !more ==> k == 0 && |addresses| == |layout.members|
        invariant forall j :: 0 <= j < |addresses| ==> addresses[j] == AddressOf(j)
        decreases if more then |layout.members| - k else -1
      {
        WhereAt(k);
        addresses := addresses + [pData];
        more := Next(k);
        k := if more then k + 1 else 0;
      }
    }
  }

  /** The index steps <= n places after k < n, going around. */
  function Around(k: nat, steps: nat, n: nat): nat {
    if n == 0 then 0 else if k + steps < n then k + steps else k + steps - n
  }

  /** Every index is reached from k within one round. */
  lemma AroundReaches(k: nat, j: nat, n: nat)
    requires k < n && j < n
    ensures var s := if j >= k then j - k else j + n - k; 0 <= s < n && Around(k, s, n) == j
  {
  }
}
