/** Reading what the encoder writes gives the message back, and a field is left out of
    the bytes only where the reader's zero-filled struct already holds it. */
module PbRoundTrip {
  import opened Prelude
  import opened PbWire
  import opened PbMessage
  import opened PbDecode

  // ------------------------------------------------------- what is recovered

  /** The stored value without what C ignores: the chars after a string's NUL. */
  function CanonValue(fd: FieldDesc, v: Value): Value
    decreases v, 0
  {
    match v
    case Bool(_) => v
    case Num(_) => v
    case Bytes(bs) =>
      if fd.ltype.LString? && |CString(bs)| <= fd.dataSize
      then Bytes(CString(bs) + Zeros(fd.dataSize - |CString(bs)|)) else v
    case Sub(msg) => Sub(CanonMsg(fd.sub, msg))
  }

  function CanonElems(fd: FieldDesc, elems: seq<Value>): (r: seq<Value>)
    ensures |r| == |elems|
    decreases elems
  {
    seq(|elems|, i requires 0 <= i < |elems| => CanonValue(fd, elems[i]))
  }

  /** The data of an optional field counts only while its has_ flag is set. */
  function CanonSlot(fd: FieldDesc, s: Slot): Slot
    decreases s, 0
  {
    match s
    case Single(has, v) =>
      if fd.htype.Optional? && fd.sizeOffset
      then if has then Single(true, CanonValue(fd, v)) else Single(false, DefaultValue(fd))
      else Single(false, CanonValue(fd, v))
    case Array(elems) => Array(CanonElems(fd, elems))
    case InUnion => InUnion
  }

  /** What union u holds, as far as the members among the first n fields can tell. */
  function CanonUnion(md: MsgDesc, msg: Msg, u: nat, n: nat): Union
    requires n <= |md.fields|
    decreases msg, 0, n
  {
    if n == 0 then NO_UNION
    else if Selected(md, msg, n - 1) && md.fields[n - 1].htype.union == u
    then Union(md.fields[n - 1].tag, CanonValue(md.fields[n - 1], msg.unions[md.fields[n - 1].htype.union].value))
    else CanonUnion(md, msg, u, n - 1)
  }

  function CanonMsg(md: MsgDesc, msg: Msg): Msg
    decreases msg, 1
  {
    Msg(seq(|msg.slots|, k requires 0 <= k < |msg.slots| =>
              if k < |md.fields| then CanonSlot(md.fields[k], msg.slots[k]) else msg.slots[k]),
        seq(|msg.unions|, u requires 0 <= u < |msg.unions| => CanonUnion(md, msg, u, |md.fields|)))
  }

  // ------------------------------------------------------------------ values

  /** The payload that the bytes of a value are read as. */
  function PayloadOf(fd: FieldDesc, v: Value): Payload {
    match v
    case Bool(b) => PVarint(if b then 1 else 0)
    case Num(n) =>
      (match fd.ltype
       case LSvarint => PVarint(ZigZag(n))
       case LFixed32 => PI32(n % U32)
       case LFixed64 => PI64(n % U64)
       case _ => PVarint(AsU64(n)))
    case Bytes(bs) => PLen(if fd.ltype.LString? then CString(bs) else bs)
    case Sub(msg) => PLen(Enc(fd.sub, msg))
  }

  lemma ReadsLenPrefixed(bs: seq<byte>, rest: seq<byte>)
    requires |bs| < U64
    ensures ReadPayload(WT_STRING, LenPrefixed(bs) + rest) == Some((PLen(bs), rest))
  {
    assert LenPrefixed(bs) + rest == Varint(|bs|) + (bs + rest);
    VarintRoundTrip(|bs|, bs + rest);
    assert (bs + rest)[..|bs|] == bs && (bs + rest)[|bs|..] == rest;
  }

  lemma ReadsValue(fd: FieldDesc, v: Value, rest: seq<byte>)
    requires TypedValue(fd, v) && GoodValue(fd, v) && |EncValue(fd, v)| < U64
    ensures ReadPayload(fd.ltype.WireType(), EncValue(fd, v) + rest) == Some((PayloadOf(fd, v), rest))
  {
    match v {
      case Bool(b) =>
        VarintRoundTrip(if b then 1 else 0, rest);
      case Num(n) =>
        ReadsNum(fd, n, rest);
      case Bytes(bs) =>
        ReadsLenPrefixed(if fd.ltype.LString? then CString(bs) else bs, rest);
      case Sub(msg) =>
        ReadsLenPrefixed(Enc(fd.sub, msg), rest);
    }
  }

  lemma ReadsNum(fd: FieldDesc, n: int, rest: seq<byte>)
    requires TypedValue(fd, Num(n)) && GoodValue(fd, Num(n))
    ensures ReadPayload(fd.ltype.WireType(), EncNum(fd.ltype, n) + rest) == Some((PayloadOf(fd, Num(n)), rest))
  {
    match fd.ltype {
      case LSvarint =>
        VarintRoundTrip(ZigZag(n), rest);
      case LFixed32 =>
        var bs := Fixed(n % U32, 4);
        Fixed32RoundTrip(n % U32);
        assert (bs + rest)[..4] == bs && (bs + rest)[4..] == rest;
      case LFixed64 =>
        var bs := Fixed(n % U64, 8);
        Fixed64RoundTrip(n % U64);
        assert (bs + rest)[..8] == bs && (bs + rest)[8..] == rest;
      case _ =>
        VarintRoundTrip(AsU64(n), rest);
    }
  }

  /** A sign-extended integer comes back from the low bits of its 64-bit pattern. */
  lemma SignExtension(n: int, size: nat)
    requires IntSize(size) && -HalfRange(size) <= n < HalfRange(size)
    ensures ToSigned(AsU64(n), size) == n
  {
    if n < 0 { LowBytes(n); }
    assert AsU64(n) == if n < 0 then n + U64 else n;
    hide AsU64;
  }

  /** The low 1, 2, 4 or 8 bytes of a negative number's 64-bit pattern. */
  lemma LowBytes(n: int)
    requires -U64 <= n < 0
    ensures -0x100 <= n ==> (n + U64) % 0x100 == n + 0x100
    ensures -0x1_0000 <= n ==> (n + U64) % 0x1_0000 == n + 0x1_0000
    ensures -U32 <= n ==> (n + U64) % U32 == n + U32
  {
  }

  lemma SmallRemainder(n: nat, m: nat)
    requires n < m
    ensures n % m == n
  {
  }

  lemma UnZigZags(n: int)
    ensures UnZigZag(ZigZag(n)) == n
  {
  }

  lemma DecodesNum(fd: FieldDesc, v: Value)
    requires fd.ltype.Packable() && TypedValue(fd, v) && GoodValue(fd, v)
    ensures DecodeNum(fd, PayloadOf(fd, v)) == Some(v)
  {
    hide ToSigned, AsU64, ZigZag, UnZigZag;
    match fd.ltype {
      case LVarint => SignExtension(v.n, fd.dataSize);
      case LUvarint => UnsignedPattern(v.n, fd.dataSize);
      case LSvarint => UnZigZags(v.n);
      case LFixed32 => SmallRemainder(v.n, U32);
      case LFixed64 => SmallRemainder(v.n, U64);
      case _ =>
    }
  }

  lemma UnsignedPattern(n: int, size: nat)
    requires IntSize(size) && 0 <= n < 2 * HalfRange(size)
    ensures AsU64(n) % (2 * HalfRange(size)) == n
  {
    SmallRemainder(n, U64);
    SmallRemainder(n, 2 * HalfRange(size));
  }

  lemma {:induction false} DecodesPacked(fd: FieldDesc, elems: seq<Value>)
    requires fd.ltype.Packable() && GoodElems(fd, elems)
    requires forall i :: 0 <= i < |elems| ==> TypedValue(fd, elems[i])
    requires |EncPacked(fd, elems)| < U64
    ensures DecodePacked(fd, EncPacked(fd, elems)) == Some(elems)
  {
    if elems != [] {
      var rest := EncPacked(fd, elems[1..]);
      ReadsValue(fd, elems[0], rest);
      DecodesNum(fd, elems[0]);
      DecodesPacked(fd, elems[1..]);
      EncValueNonEmpty(fd, elems[0]);
      assert [elems[0]] + elems[1..] == elems;
    }
  }

  lemma EncValueNonEmpty(fd: FieldDesc, v: Value)
    requires TypedValue(fd, v)
    ensures |EncValue(fd, v)| > 0
  {
  }

  // --------------------------------------------------- suppressed defaults

  lemma {:induction false} DefaultValueIsCanon(fd: FieldDesc, v: Value)
    requires FieldOk(fd) && TypedValue(fd, v) && IsDefaultValue(fd, v)
    ensures CanonValue(fd, v) == DefaultValue(fd)
    decreases v, 0
  {
    match v {
      case Bytes(bs) =>
        if fd.ltype.LString? {
          assert CString(bs) == [];
          assert [] + Zeros(fd.dataSize) == Zeros(fd.dataSize);
        } else if fd.ltype.LFixedBytes? {
          assert bs == Zeros(0);
        }
      case Sub(msg) =>
        DefaultMsgIsCanon(fd.sub, msg);
      case _ =>
    }
  }

  /** A message whose fields all count as "not set" is what a zero-filled struct means. */
  lemma {:induction false} DefaultMsgIsCanon(md: MsgDesc, msg: Msg)
    requires DescOk(md) && TypedMsg(md, msg) && IsDefaultMsg(md, msg)
    ensures CanonMsg(md, msg) == DefaultMsg(md)
    decreases msg, 1
  {
    forall k | 0 <= k < |md.fields|
      ensures CanonSlot(md.fields[k], msg.slots[k]) == DefaultSlot(md.fields[k])
    {
      var fd := md.fields[k];
      assert IsDefaultField(md, msg, k) && TypedSlot(fd, msg.slots[k]);
      if fd.htype.Optional? && !fd.sizeOffset {
        DefaultValueIsCanon(fd, msg.slots[k].value);
      }
    }
    forall u | 0 <= u < |msg.unions|
      ensures CanonUnion(md, msg, u, |md.fields|) == NO_UNION
    {
      forall k | 0 <= k < |md.fields|
        ensures !Selected(md, msg, k)
      {
        assert FieldOk(md.fields[k]) && IsDefaultField(md, msg, k);
      }
      NoneSelected(md, msg, u, |md.fields|);
    }
  }

  lemma {:induction false} NoneSelected(md: MsgDesc, msg: Msg, u: nat, n: nat)
    requires n <= |md.fields|
    requires forall k :: 0 <= k < n && Selected(md, msg, k) ==> md.fields[k].htype.union != u
    ensures CanonUnion(md, msg, u, n) == NO_UNION
    decreases n
  {
    if n > 0 {
      NoneSelected(md, msg, u, n - 1);
    }
  }

  // ----------------------------------------------------------------- records

  /** One record for field k, followed by anything. */
  lemma DecodesRecord(md: MsgDesc, acc: Msg, k: nat, wireType: nat, e: seq<byte>, p: Payload, rest: seq<byte>)
    requires DescOk(md) && k < |md.fields| && wireType < 8
    requires ReadPayload(wireType, e + rest) == Some((p, rest))
    ensures Decode(md, acc, Key(md.fields[k].tag, wireType) + e + rest) ==
            match Store(md, acc, k, wireType, p) { case None => None case Some(m) => Decode(md, m, rest) }
  {
    var tag := md.fields[k].tag;
    var bs := Key(tag, wireType) + e + rest;
    assert FieldOk(md.fields[k]);
    assert bs == Varint(tag * 8 + wireType) + (e + rest);
    VarintRoundTrip(tag * 8 + wireType, e + rest);
    assert (tag * 8 + wireType) / 8 == tag && (tag * 8 + wireType) % 8 == wireType;
    assert FindField(md, tag, 0) == k;
  }

  lemma {:induction false} DecodesValue(fd: FieldDesc, v: Value)
    requires FieldOk(fd) && TypedValue(fd, v) && GoodValue(fd, v) && |EncValue(fd, v)| < U64
    ensures DecodeValue(fd, PayloadOf(fd, v), DefaultValue(fd)) == Some(CanonValue(fd, v))
    decreases v, 0
  {
    if fd.ltype.Packable() {
      DecodesNum(fd, v);
    } else if fd.ltype.LSubmessage? {
      RoundTrip(fd.sub, v.msg);
    }
  }

  /** Key and value of a singular or oneof field, read into a struct that has not seen it. */
  lemma {:induction false} DecodesKeyed(md: MsgDesc, acc: Msg, k: nat, v: Value, rest: seq<byte>)
    requires DescOk(md) && k < |md.fields| && |acc.slots| == |md.fields| && |acc.unions| == md.unions
    requires TypedValue(md.fields[k], v) && GoodValue(md.fields[k], v) && |EncValue(md.fields[k], v)| < U64
    requires acc.slots[k] == DefaultSlot(md.fields[k]) && !md.fields[k].htype.Repeated?
    requires md.fields[k].htype.OneOf? ==>
               md.fields[k].htype.union < md.unions && acc.unions[md.fields[k].htype.union] == NO_UNION
    ensures Decode(md, acc, FieldKey(md.fields[k]) + EncValue(md.fields[k], v) + rest) ==
            Decode(md, if md.fields[k].htype.OneOf? then PutUnion(md, acc, k, CanonValue(md.fields[k], v))
                       else PutSingle(md, acc, k, CanonValue(md.fields[k], v)), rest)
    decreases v, 1
  {
    var fd := md.fields[k];
    assert FieldOk(fd);
    ReadsValue(fd, v, rest);
    DecodesRecord(md, acc, k, fd.ltype.WireType(), EncValue(fd, v), PayloadOf(fd, v), rest);
    DecodesValue(fd, v);
  }

  /** One more entry of an unpacked array. */
  lemma {:induction false} DecodesEntry(md: MsgDesc, acc: Msg, k: nat, pre: seq<Value>, v: Value, rest: seq<byte>)
    requires DescOk(md) && k < |md.fields| && |acc.slots| == |md.fields|
    requires acc.slots[k] == Array(pre) && |pre| < md.fields[k].arraySize && !md.fields[k].ltype.Packable()
    requires TypedValue(md.fields[k], v) && GoodValue(md.fields[k], v) && |EncValue(md.fields[k], v)| < U64
    ensures Decode(md, acc, FieldKey(md.fields[k]) + EncValue(md.fields[k], v) + rest) ==
            Decode(md, acc.(slots := acc.slots[k := Array(pre + [CanonValue(md.fields[k], v)])]), rest)
    decreases v, 1
  {
    var fd := md.fields[k];
    assert FieldOk(fd);
    ReadsValue(fd, v, rest);
    DecodesRecord(md, acc, k, fd.ltype.WireType(), EncValue(fd, v), PayloadOf(fd, v), rest);
    DecodesValue(fd, v);
  }

  /** An array, read into a struct that holds pre in that field. */
  lemma {:induction false} DecodesUnpacked(md: MsgDesc, acc: Msg, k: nat, pre: seq<Value>, elems: seq<Value>,
                                           rest: seq<byte>)
    requires DescOk(md) && k < |md.fields| && |acc.slots| == |md.fields|
    requires acc.slots[k] == Array(pre) && |pre| + |elems| <= md.fields[k].arraySize
    requires !md.fields[k].ltype.Packable() && GoodElems(md.fields[k], elems)
    requires forall i :: 0 <= i < |elems| ==> TypedValue(md.fields[k], elems[i])
    requires |EncUnpacked(md.fields[k], elems)| < U64
    ensures Decode(md, acc, EncUnpacked(md.fields[k], elems) + rest) ==
            Decode(md, acc.(slots := acc.slots[k := Array(pre + CanonElems(md.fields[k], elems))]), rest)
    decreases elems, 2
  {
    hide Decode, EncValue, CanonValue, FieldKey;
    var fd := md.fields[k];
    assert FieldOk(fd);
    if elems == [] {
      assert pre + CanonElems(fd, elems) == pre;
      assert acc.slots[k := Array(pre)] == acc.slots;
      assert EncUnpacked(fd, elems) + rest == rest;
    } else {
      var v := elems[0];
      var more := EncUnpacked(fd, elems[1..]) + rest;
      assert EncUnpacked(fd, elems) + rest == FieldKey(fd) + EncValue(fd, v) + more;
      DecodesEntry(md, acc, k, pre, v, more);
      var pre' := pre + [CanonValue(fd, v)];
      var acc' := acc.(slots := acc.slots[k := Array(pre')]);
      DecodesUnpacked(md, acc', k, pre', elems[1..], rest);
      assert pre' + CanonElems(fd, elems[1..]) == pre + CanonElems(fd, elems);
      assert acc'.slots[k := Array(pre + CanonElems(fd, elems))] == acc.slots[k := Array(pre + CanonElems(fd, elems))];
    }
  }

  lemma {:induction false} DecodesArray(md: MsgDesc, acc: Msg, k: nat, elems: seq<Value>, rest: seq<byte>)
    requires DescOk(md) && k < |md.fields| && |acc.slots| == |md.fields|
    requires acc.slots[k] == Array([]) && GoodArray(md.fields[k], elems)
    requires forall i :: 0 <= i < |elems| ==> TypedValue(md.fields[k], elems[i])
    requires |EncArray(md.fields[k], elems)| < U64
    ensures Decode(md, acc, EncArray(md.fields[k], elems) + rest) ==
            Decode(md, acc.(slots := acc.slots[k := Array(CanonElems(md.fields[k], elems))]), rest)
    decreases elems, 3
  {
    var fd := md.fields[k];
    assert FieldOk(fd);
    assert [] + CanonElems(fd, elems) == CanonElems(fd, elems);
    if elems == [] {
      assert acc.slots[k := Array(CanonElems(fd, elems))] == acc.slots;
      assert [] + rest == rest;
    } else if fd.ltype.Packable() {
      var payload := EncPacked(fd, elems);
      ReadsLenPrefixed(payload, rest);
      DecodesRecord(md, acc, k, WT_STRING, LenPrefixed(payload), PLen(payload), rest);
      DecodesPacked(fd, elems);
      assert CanonElems(fd, elems) == elems;
    } else {
      DecodesUnpacked(md, acc, k, [], elems, rest);
    }
  }

  // ---------------------------------------------------------------- messages

  /** The reader's struct once the first n fields have been read. */
  function Mid(md: MsgDesc, msg: Msg, n: nat): Msg
    requires n <= |md.fields| == |msg.slots|
  {
    Msg(seq(|md.fields|, k requires 0 <= k < |md.fields| =>
              if k < n then CanonSlot(md.fields[k], msg.slots[k]) else DefaultSlot(md.fields[k])),
        seq(md.unions, u requires 0 <= u < md.unions => CanonUnion(md, msg, u, n)))
  }

  lemma {:induction false} DecodesField(md: MsgDesc, msg: Msg, k: nat, rest: seq<byte>)
    requires DescOk(md) && TypedMsg(md, msg) && k < |md.fields|
    requires GoodField(md, msg, k) && |EncField(md, msg, k)| < U64
    ensures Decode(md, Mid(md, msg, k), EncField(md, msg, k) + rest) == Decode(md, Mid(md, msg, k + 1), rest)
    decreases msg, 1
  {
    hide Decode, EncValue, FieldKey, EncArray;
    var fd, slot := md.fields[k], msg.slots[k];
    var acc, next := Mid(md, msg, k), Mid(md, msg, k + 1);
    assert FieldOk(fd) && TypedSlot(fd, slot);
    assert [] + rest == rest;
    match fd.htype {
      case Repeated =>
        assert CanonSlot(fd, slot) == Array(CanonElems(fd, slot.elems));
        DecodesArray(md, acc, k, slot.elems, rest);
        assert next.slots == acc.slots[k := Array(CanonElems(fd, slot.elems))];
        assert next.unions == acc.unions;
      case OneOf(u) =>
        assert next.slots == acc.slots;
        if Selected(md, msg, k) {
          NoneSelected(md, msg, u, k);
          DecodesKeyed(md, acc, k, msg.unions[u].value, rest);
          assert next.unions == acc.unions[u := Union(fd.tag, CanonValue(fd, msg.unions[u].value))];
        } else {
          assert next.unions == acc.unions;
        }
      case Required =>
        DecodesKeyed(md, acc, k, slot.value, rest);
        assert next.unions == acc.unions;
        assert next.slots == acc.slots[k := Single(fd.sizeOffset, CanonValue(fd, slot.value))];
      case Optional =>
        assert next.unions == acc.unions;
        if Present(fd, slot.has, slot.value) {
          DecodesKeyed(md, acc, k, slot.value, rest);
          assert next.slots == acc.slots[k := Single(fd.sizeOffset, CanonValue(fd, slot.value))];
        } else {
          if !fd.sizeOffset {
            DefaultValueIsCanon(fd, slot.value);
          }
          assert next.slots == acc.slots;
        }
    }
  }

  lemma {:induction false} DecodesFrom(md: MsgDesc, msg: Msg, k: nat)
    requires DescOk(md) && TypedMsg(md, msg) && k <= |md.fields|
    requires GoodFrom(md, msg, k) && |EncFrom(md, msg, k)| < U64
    ensures Decode(md, Mid(md, msg, k), EncFrom(md, msg, k)) == Some(CanonMsg(md, msg))
    decreases msg, 2, |md.fields| - k
  {
    if k == |md.fields| {
      assert Mid(md, msg, k) == CanonMsg(md, msg);
    } else {
      DecodesField(md, msg, k, EncFrom(md, msg, k + 1));
      DecodesFrom(md, msg, k + 1);
    }
  }

  /** The wire round trip: every message that encodes without an error is recovered. */
  lemma {:induction false} RoundTrip(md: MsgDesc, msg: Msg)
    requires DescOk(md) && TypedMsg(md, msg) && GoodMsg(md, msg) && |Enc(md, msg)| < U64
    ensures Decode(md, DefaultMsg(md), Enc(md, msg)) == Some(CanonMsg(md, msg))
    decreases msg, 3
  {
    assert Mid(md, msg, 0) == DefaultMsg(md);
    DecodesFrom(md, msg, 0);
  }

  /** Messages with the same bytes differ only in what C ignores. */
  lemma SameBytesSameMessage(md: MsgDesc, a: Msg, b: Msg)
    requires DescOk(md) && TypedMsg(md, a) && TypedMsg(md, b) && GoodMsg(md, a) && GoodMsg(md, b)
    requires |Enc(md, a)| < U64
    ensures Enc(md, a) == Enc(md, b) ==> CanonMsg(md, a) == CanonMsg(md, b)
  {
    if Enc(md, a) == Enc(md, b) {
      RoundTrip(md, a);
      RoundTrip(md, b);
    }
  }
}
