/** When proto3 default suppression agrees with the wire: a submessage counts as default
    exactly when encoding it produces no bytes, given selectors that name a member. */
module PbDefault {
  import opened PbMessage

  /** No which_ selector is set to a number that names no member of its union, and no
      fixed-length array has length zero. */
  predicate Settled(md: MsgDesc, msg: Msg) {
    forall k :: 0 <= k < |md.fields| && k < |msg.slots| ==> SettledField(md, msg, k)
  }

  predicate SettledField(md: MsgDesc, msg: Msg, k: nat)
    requires k < |md.fields| && k < |msg.slots|
  {
    var fd := md.fields[k];
    match fd.htype
    case OneOf(u) =>
      u < |msg.unions| &&
      (msg.unions[u].which == 0 ||
       exists j :: 0 <= j < |md.fields| && Selected(md, msg, j) && md.fields[j].htype.union == u)
    case Repeated => fd.sizeOffset || !msg.slots[k].Array? || msg.slots[k].elems != []
    case _ => true
  }

  lemma KeyNonEmpty(fd: FieldDesc)
    ensures |FieldKey(fd)| > 0
  {
  }

  lemma {:induction false} NoBytesAtAll(md: MsgDesc, msg: Msg, k: nat)
    requires k <= |md.fields|
    ensures EncFrom(md, msg, k) == [] <==> forall j :: k <= j < |md.fields| ==> EncField(md, msg, j) == []
    decreases |md.fields| - k
  {
    hide EncField;
    if k < |md.fields| {
      NoBytesAtAll(md, msg, k + 1);
      assert |EncFrom(md, msg, k)| == |EncField(md, msg, k)| + |EncFrom(md, msg, k + 1)|;
      assert EncFrom(md, msg, k) == [] <==> EncField(md, msg, k) == [] && EncFrom(md, msg, k + 1) == [];
    }
  }

  /** A field that counts as default writes nothing. */
  lemma DefaultFieldIsSilent(md: MsgDesc, msg: Msg, k: nat)
    requires DescOk(md) && TypedMsg(md, msg) && k < |md.fields| && IsDefaultField(md, msg, k)
    ensures EncField(md, msg, k) == []
  {
    assert FieldOk(md.fields[k]) && TypedSlot(md.fields[k], msg.slots[k]);
  }

  /** A selected member of a union is always sent. */
  lemma SelectedIsHeard(md: MsgDesc, msg: Msg, k: nat)
    requires DescOk(md) && TypedMsg(md, msg) && k < |md.fields| && Selected(md, msg, k)
    ensures EncField(md, msg, k) != []
  {
    assert FieldOk(md.fields[k]) && TypedSlot(md.fields[k], msg.slots[k]);
    KeyNonEmpty(md.fields[k]);
  }

  /** A silent field counts as default, unless a stray selector or an empty fixed array says otherwise. */
  lemma SilentFieldIsDefault(md: MsgDesc, msg: Msg, k: nat)
    requires DescOk(md) && TypedMsg(md, msg) && k < |md.fields| && Settled(md, msg)
    requires forall j :: 0 <= j < |md.fields| ==> EncField(md, msg, j) == []
    ensures IsDefaultField(md, msg, k)
  {
    var fd := md.fields[k];
    assert FieldOk(fd) && TypedSlot(fd, msg.slots[k]) && SettledField(md, msg, k);
    assert EncField(md, msg, k) == [];
    KeyNonEmpty(fd);
    match fd.htype {
      case OneOf(u) =>
        if msg.unions[u].which != 0 {
          var j :| 0 <= j < |md.fields| && Selected(md, msg, j) && md.fields[j].htype.union == u;
          SelectedIsHeard(md, msg, j);
        }
      case Repeated =>
        ArrayNonEmpty(fd, msg.slots[k].elems);
      case _ =>
    }
  }

  lemma ArrayNonEmpty(fd: FieldDesc, elems: seq<Value>)
    ensures elems != [] ==> EncArray(fd, elems) != []
  {
    KeyNonEmpty(fd);
  }

  /** Default suppression is exact. */
  lemma DefaultIffNoBytes(md: MsgDesc, msg: Msg)
    requires DescOk(md) && TypedMsg(md, msg)
    ensures IsDefaultMsg(md, msg) <==> Enc(md, msg) == [] && Settled(md, msg)
  {
    NoBytesAtAll(md, msg, 0);
    if IsDefaultMsg(md, msg) {
      forall k | 0 <= k < |md.fields|
        ensures EncField(md, msg, k) == [] && SettledField(md, msg, k)
      {
        assert IsDefaultField(md, msg, k);
        DefaultFieldIsSilent(md, msg, k);
      }
    }
    if Enc(md, msg) == [] && Settled(md, msg) {
      forall k | 0 <= k < |md.fields|
        ensures IsDefaultField(md, msg, k)
      {
        SilentFieldIsDefault(md, msg, k);
      }
    }
  }

  /** Without valid selectors it is not: a stray selector makes an empty submessage count as set. */
  lemma StraySelectorCountsAsSet()
    ensures exists md, msg ::
      DescOk(md) && TypedMsg(md, msg) && Enc(md, msg) == [] && !IsDefaultMsg(md, msg)
  {
    var fd := FieldDesc(1, LBool, OneOf(0), true, 1, 0, 1, MsgDesc([], 0));
    var md := MsgDesc([fd], 1);
    var msg := Msg([InUnion], [Union(7, Bool(false))]);
    assert EncField(md, msg, 0) == [];
    assert EncFrom(md, msg, 1) == [];
    assert !IsDefaultField(md, msg, 0);
    assert FieldOk(fd) && DescOk(md);
    assert TypedMsg(md, msg);
    assert Enc(md, msg) == [];
  }
}
