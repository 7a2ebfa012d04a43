/** The encoders of pb_encode.c: scalars, strings, arrays, and the mutually recursive
    message encoder with its sizing pass. */
module PbEncode {
  import opened Prelude
  import opened PbWire
  import opened PbMessage
  import opened PbStream

  // ---------------------------------------------------------------- scalars

  /** The low seven bits. */
  function LowGroup(v: nat): (g: byte)
    ensures g < 0x80
  {
    v % 0x80
  }

  /** What is left after the low seven bits. */
  function Above(v: nat): (r: nat)
    ensures v > 0 ==> r < v
  {
    v / 0x80
  }

  /** One more group of a number of which done has been written. */
  lemma VarintStep(done: seq<byte>, v: nat, value: nat)
    requires v > 0 && done + Varint(v) == Varint(value)
    ensures Above(v) != 0 ==> done + [LowGroup(v) + 0x80] + Varint(Above(v)) == Varint(value)
    ensures Above(v) == 0 ==> done + [LowGroup(v)] == Varint(value)
    ensures |done| < |Varint(value)|
  {
    if v / 0x80 != 0 {
      assert done + Varint(v) == done + [v % 0x80 + 0x80] + Varint(v / 0x80);
    }
  }

  lemma ClearTopBit(g: byte)
    requires g < 0x80
    ensures LowGroup(g + 0x80) == g
  {
  }

  method PutByte(buffer: array<byte>, i: nat, g: byte)
    requires i < buffer.Length
    modifies buffer
    ensures buffer[..i + 1] == old(buffer[..i]) + [g]
  {
    buffer[i] := g;
  }

  /** The byte loop of pb_encode_varint, with the last top bit cleared. */
  method VarintBytes(value: nat) returns (bytes: seq<byte>)
    requires 0x7F < value < U64
    ensures bytes == Varint(value)
  {
    VarintFitsTenBytes(value);
    var buffer := new byte[10];
    var i := 0;
    var v := value;
    ghost var done: seq<byte>, last: byte := [], 0;
    assert done + Varint(v) == Varint(value);
    hide Varint, LowGroup, Above;
    while v != 0
      invariant |done| <= i <= 10
      invariant v != 0 ==> buffer[..i] == done && done + Varint(v) == Varint(value)
      invariant v == 0 ==> i == |done| + 1 && last < 0x80
      invariant v == 0 ==> buffer[..i] == done + [last + 0x80] && done + [last] == Varint(value)
      decreases v
    {
      VarintStep(done, v, value);
      PutByte(buffer, i, LowGroup(v) + 0x80);
      i := i + 1;
      if Above(v) != 0 { done := done + [LowGroup(v) + 0x80]; } else { last := LowGroup(v); }
      v := Above(v);
    }
    ClearTopBit(last);
    assert buffer[i - 1] == buffer[..i][i - 1] && buffer[..i - 1] == buffer[..i][..i - 1] == done;
    PutByte(buffer, i - 1, LowGroup(buffer[i - 1]));
    bytes := buffer[..i];
  }

  /** pb_encode_varint. */
  method EncodeVarint(stream: OStream, value: nat) returns (ok: bool)
    requires stream.Valid() && value < U64
    requires stream.bytesWritten + |Varint(value)| < SIZE_MOD
    modifies stream, stream.buf
    ensures stream.Valid()
    ensures Emits(old(stream.State()), stream.State(), Varint(value), true, ok)
  {
    hide Emits;
    if value <= 0x7F {
      ok := stream.Write([value], 1, Varint(value));
      return;
    }
    var buffer := VarintBytes(value);
    ok := stream.Write(buffer, |buffer|, Varint(value));
  }

  /** pb_encode_svarint: the shift and complement happen on 64-bit patterns. */
  method EncodeSvarint(stream: OStream, value: int) returns (ok: bool)
    requires stream.Valid() && -(U64 / 2) <= value < U64 / 2
    requires stream.bytesWritten + |Varint(ZigZag(value))| < SIZE_MOD
    modifies stream, stream.buf
    ensures stream.Valid()
    ensures Emits(old(stream.State()), stream.State(), Varint(ZigZag(value)), true, ok)
  {
    var shifted := AsU64(AsU64(value) * 2);
    var zigzagged := if value < 0 then U64 - 1 - shifted else shifted;
    ShiftIsZigZag(value);
    ok := EncodeVarint(stream, zigzagged);
  }

  lemma ShiftIsZigZag(value: int)
    requires -(U64 / 2) <= value < U64 / 2
    ensures ZigZag(value) == var shifted := AsU64(AsU64(value) * 2); if value < 0 then U64 - 1 - shifted else shifted
  {
    if value < 0 {
      assert AsU64(value) == value + U64;
      assert AsU64(AsU64(value) * 2) == 2 * value + U64;
    }
  }

  /** pb_encode_fixed32. */
  method EncodeFixed32(stream: OStream, val: nat) returns (ok: bool)
    requires stream.Valid() && val < U32
    requires stream.bytesWritten + 4 < SIZE_MOD
    modifies stream, stream.buf
    ensures stream.Valid()
    ensures Emits(old(stream.State()), stream.State(), Fixed(val, 4), true, ok)
  {
    var bytes: seq<byte> := [val % 256, val / 0x100 % 256, val / 0x1_0000 % 256, val / 0x100_0000 % 256];
    FixedBytes32(val);
    ok := stream.Write(bytes, 4, bytes);
  }

  lemma FixedBytes32(val: nat)
    ensures Fixed(val, 4) == [val % 256, val / 0x100 % 256, val / 0x1_0000 % 256, val / 0x100_0000 % 256]
  {
    var (v1, v2, v3) := (val / 0x100, val / 0x1_0000, val / 0x100_0000);
    assert v1 / 256 == v2 && v2 / 256 == v3;
    assert Fixed(v3, 1) == [v3 % 256] + Fixed(v3 / 256, 0);
    assert Fixed(v2, 2) == [v2 % 256] + Fixed(v3, 1);
    assert Fixed(v1, 3) == [v1 % 256] + Fixed(v2, 2);
  }

  /** pb_encode_fixed64. */
  method EncodeFixed64(stream: OStream, val: nat) returns (ok: bool)
    requires stream.Valid() && val < U64
    requires stream.bytesWritten + 8 < SIZE_MOD
    modifies stream, stream.buf
    ensures stream.Valid()
    ensures Emits(old(stream.State()), stream.State(), Fixed(val, 8), true, ok)
  {
    var bytes: seq<byte> := [
      val % 256, val / 0x100 % 256, val / 0x1_0000 % 256, val / 0x100_0000 % 256,
      val / 0x1_0000_0000 % 256, val / 0x100_0000_0000 % 256,
      val / 0x1_0000_0000_0000 % 256, val / 0x100_0000_0000_0000 % 256];
    FixedBytes64(val);
    ok := stream.Write(bytes, 8, bytes);
  }

  lemma FixedBytes64(val: nat)
    ensures Fixed(val, 8) == [
      val % 256, val / 0x100 % 256, val / 0x1_0000 % 256, val / 0x100_0000 % 256,
      val / 0x1_0000_0000 % 256, val / 0x100_0000_0000 % 256,
      val / 0x1_0000_0000_0000 % 256, val / 0x100_0000_0000_0000 % 256]
  {
    var v4 := val / 0x1_0000_0000;
    FixedBytes32(v4);
    var (v1, v2, v3) := (val / 0x100, val / 0x1_0000, val / 0x100_0000);
    assert v1 / 256 == v2 && v2 / 256 == v3 && v3 / 256 == v4;
    assert Fixed(v3, 5) == [v3 % 256] + Fixed(v4, 4);
    assert Fixed(v2, 6) == [v2 % 256] + Fixed(v3, 5);
    assert Fixed(v1, 7) == [v1 % 256] + Fixed(v2, 6);
    assert Fixed(val, 8) == [val % 256] + Fixed(v1, 7);
    assert v4 / 0x100 == val / 0x100_0000_0000;
    assert v4 / 0x1_0000 == val / 0x1_0000_0000_0000;
    assert v4 / 0x100_0000 == val / 0x100_0000_0000_0000;
  }

  /** pb_encode_tag. */
  method EncodeTag(stream: OStream, wireType: nat, fieldNumber: nat) returns (ok: bool)
    requires stream.Valid() && fieldNumber < 0x2000_0000 && wireType < 8
    requires stream.bytesWritten + |Key(fieldNumber, wireType)| < SIZE_MOD
    modifies stream, stream.buf
    ensures stream.Valid()
    ensures Emits(old(stream.State()), stream.State(), Key(fieldNumber, wireType), true, ok)
  {
    ok := EncodeVarint(stream, fieldNumber * 8 + wireType);
  }

  /** pb_encode_tag_for_field. */
  method EncodeTagForField(stream: OStream, fd: FieldDesc) returns (ok: bool)
    requires stream.Valid() && fd.tag < 0x2000_0000
    requires stream.bytesWritten + |FieldKey(fd)| < SIZE_MOD
    modifies stream, stream.buf
    ensures stream.Valid()
    ensures Emits(old(stream.State()), stream.State(), FieldKey(fd), true, ok)
  {
    var wireType;
    match fd.ltype {
      case LBool | LVarint | LUvarint | LSvarint => wireType := WT_VARINT;
      case LFixed32 => wireType := WT_32BIT;
      case LFixed64 => wireType := WT_64BIT;
      case LBytes | LString | LSubmessage | LFixedBytes => wireType := WT_STRING;
    }
    ok := EncodeTag(stream, wireType, fd.tag);
  }

  /** pb_encode_string. */
  method EncodeString(stream: OStream, buffer: seq<byte>, size: nat) returns (ok: bool)
    requires stream.Valid() && |buffer| == size
    requires stream.bytesWritten + |LenPrefixed(buffer)| < SIZE_MOD
    modifies stream, stream.buf
    ensures stream.Valid()
    ensures Emits(old(stream.State()), stream.State(), LenPrefixed(buffer), true, ok)
  {
    ghost var a := stream.State();
    ok := EncodeVarint(stream, size);
    ghost var b := stream.State();
    if !ok {
      EmitsStop(a, b, Varint(size), buffer, true, true);
      return;
    }
    ok := stream.Write(buffer, size, buffer);
    EmitsThen(a, b, stream.State(), Varint(size), buffer, true, true, ok);
  }

  // ------------------------------------------------ proto3 default suppression

  /** pb_check_proto3_default_value for field k of a struct. */
  method CheckProto3DefaultValue(md: MsgDesc, msg: Msg, k: nat) returns (r: bool)
    requires k < |md.fields| && TypedMsg(md, msg)
    ensures r == IsDefaultField(md, msg, k)
    decreases msg, 0
  {
    var fd := md.fields[k];
    assert TypedSlot(fd, msg.slots[k]);
    match fd.htype {
      case Required => return false;
      case Repeated =>
        if fd.sizeOffset {
          return |msg.slots[k].elems| == 0;
        }
        return false;
      case OneOf(u) =>
        return u < |msg.unions| && msg.unions[u].which == 0;
      case Optional =>
        if fd.sizeOffset {
          return !msg.slots[k].has;
        }
        r := SingularIsDefault(fd, msg.slots[k].value);
    }
  }

  /** The part of the check for proto3 singular fields. */
  method SingularIsDefault(fd: FieldDesc, v: Value) returns (r: bool)
    requires TypedValue(fd, v)
    ensures r == IsDefaultValue(fd, v)
    decreases v, 0
  {
    match fd.ltype {
      case LBytes => r := |v.bs| == 0;
      case LString => r := |v.bs| == 0 || v.bs[0] == 0;
      case LFixedBytes => r := fd.dataSize == 0;
      case LSubmessage =>
        for i := 0 to |fd.sub.fields|
          invariant forall j :: 0 <= j < i ==> IsDefaultField(fd.sub, v.msg, j)
        {
          var d := CheckProto3DefaultValue(fd.sub, v.msg, i);
          if !d {
            assert !IsDefaultMsg(fd.sub, v.msg);
            return false;
          }
        }
        assert IsDefaultMsg(fd.sub, v.msg);
        r := true;
      case LBool => r := !v.b;
      case _ => r := v.n == 0;
    }
  }

  // --------------------------------------------------------- field encoders

  /** The encoder that PB_ENCODERS holds for the field's type. */
  method EncodeValue(stream: OStream, fd: FieldDesc, v: Value) returns (ok: bool)
    requires stream.Valid() && FieldOk(fd) && TypedValue(fd, v)
    requires stream.bytesWritten + |EncValue(fd, v)| < SIZE_MOD
    modifies stream, stream.buf
    ensures stream.Valid()
    ensures Emits(old(stream.State()), stream.State(), EncValue(fd, v), GoodValue(fd, v), ok)
    decreases v, 0
  {
    match fd.ltype {
      case LBool | LFixed32 | LFixed64 =>
        ok := EncodeFixedSize(stream, fd, v);
      case LVarint | LUvarint | LSvarint =>
        ok := EncodeInteger(stream, fd, v);
      case LBytes | LString | LFixedBytes =>
        ok := EncodeBytes(stream, fd, v);
      case LSubmessage =>
        ok := EncodeSubmessage(stream, fd.sub, v.msg);
    }
  }

  /** pb_enc_bool, pb_enc_fixed32 and pb_enc_fixed64. */
  method EncodeFixedSize(stream: OStream, fd: FieldDesc, v: Value) returns (ok: bool)
    requires stream.Valid() && (fd.ltype.LBool? || fd.ltype.LFixed32? || fd.ltype.LFixed64?) && TypedValue(fd, v)
    requires stream.bytesWritten + |EncValue(fd, v)| < SIZE_MOD
    modifies stream, stream.buf
    ensures stream.Valid()
    ensures Emits(old(stream.State()), stream.State(), EncValue(fd, v), GoodValue(fd, v), ok)
  {
    if fd.ltype.LBool? {
      ok := EncodeVarint(stream, if v.b then 1 else 0);
    } else if fd.ltype.LFixed32? {
      assert v.n % U32 == v.n;
      ok := EncodeFixed32(stream, v.n);
    } else {
      assert v.n % U64 == v.n;
      ok := EncodeFixed64(stream, v.n);
    }
  }

  /** pb_enc_varint, pb_enc_uvarint and pb_enc_svarint. */
  method EncodeInteger(stream: OStream, fd: FieldDesc, v: Value) returns (ok: bool)
    requires stream.Valid() && (fd.ltype.LVarint? || fd.ltype.LUvarint? || fd.ltype.LSvarint?) && TypedValue(fd, v)
    requires stream.bytesWritten + |EncValue(fd, v)| < SIZE_MOD
    modifies stream, stream.buf
    ensures stream.Valid()
    ensures Emits(old(stream.State()), stream.State(), EncValue(fd, v), GoodValue(fd, v), ok)
    ensures !GoodValue(fd, v) && old(stream.errmsg) == None ==> stream.errmsg == Some(InvalidDataSize)
  {
    ghost var a := stream.State();
    if fd.dataSize != 1 && fd.dataSize != 2 && fd.dataSize != 4 && fd.dataSize != 8 {
      stream.SetError(InvalidDataSize);
      EmitsError(a, stream.State(), EncValue(fd, v));
      return false;
    }
    if fd.ltype.LSvarint? {
      ok := EncodeSvarint(stream, v.n);
    } else {
      ok := EncodeVarint(stream, AsU64(v.n));
    }
  }

  /** pb_enc_bytes, pb_enc_string and pb_enc_fixed_length_bytes. */
  method EncodeBytes(stream: OStream, fd: FieldDesc, v: Value) returns (ok: bool)
    requires stream.Valid() && (fd.ltype.LBytes? || fd.ltype.LString? || fd.ltype.LFixedBytes?)
    requires FieldOk(fd) && TypedValue(fd, v)
    requires stream.bytesWritten + |EncValue(fd, v)| < SIZE_MOD
    modifies stream, stream.buf
    ensures stream.Valid()
    ensures Emits(old(stream.State()), stream.State(), EncValue(fd, v), GoodValue(fd, v), ok)
    ensures !GoodValue(fd, v) && old(stream.errmsg) == None ==> stream.errmsg == Some(BytesSizeExceeded)
  {
    ghost var a := stream.State();
    match fd.ltype {
      case LBytes =>
        if |v.bs| > fd.dataSize - fd.bytesOffset {
          stream.SetError(BytesSizeExceeded);
          EmitsError(a, stream.State(), EncValue(fd, v));
          return false;
        }
        ok := EncodeString(stream, v.bs, |v.bs|);
      case LString =>
        var size := StringLength(v.bs);
        ok := EncodeString(stream, v.bs[..size], size);
      case LFixedBytes =>
        ok := EncodeString(stream, v.bs, fd.dataSize);
    }
  }

  /** The loop that stands in for strnlen in pb_enc_string. */
  method StringLength(storage: seq<byte>) returns (size: nat)
    ensures size <= |storage| && storage[..size] == CString(storage)
  {
    size := 0;
    while size < |storage| && storage[size] != 0
      invariant size <= |CString(storage)|
    {
      size := size + 1;
    }
  }

  /** pb_encode_submessage: size it, write the size, write it through a bounded substream. */
  method EncodeSubmessage(stream: OStream, md: MsgDesc, msg: Msg) returns (ok: bool)
    requires stream.Valid() && DescOk(md) && TypedMsg(md, msg)
    requires stream.bytesWritten + |LenPrefixed(Enc(md, msg))| < SIZE_MOD
    modifies stream, stream.buf
    ensures stream.Valid()
    ensures Emits(old(stream.State()), stream.State(), LenPrefixed(Enc(md, msg)), GoodMsg(md, msg), ok)
    decreases msg, 5
  {
    ghost var a := stream.State();
    ghost var e := Enc(md, msg);
    ghost var good := GoodMsg(md, msg);
    var substream := new OStream.Sizing();
    ok := Encode(substream, md, msg);
    if !ok {
      stream.errmsg := substream.errmsg;
      EmitsError(a, stream.State(), LenPrefixed(e));
      return;
    }
    var size := substream.bytesWritten;
    ok := EncodeVarint(stream, size);
    ghost var b := stream.State();
    if !ok {
      EmitsStop(a, b, Varint(size), e, true, good);
      return;
    }
    if stream.buf == null {
      ok := stream.Write([], size, e);
      EmitsThen(a, b, stream.State(), Varint(size), e, true, good, ok);
      return;
    }
    if stream.bytesWritten + size > stream.maxSize {
      stream.SetError(StreamFull);
      StreamFullEmits(b, stream.State(), e, good);
      EmitsThen(a, b, stream.State(), Varint(size), e, true, good, false);
      return false;
    }
    ok := EncodeThroughSubstream(stream, md, msg, size);
    EmitsThen(a, b, stream.State(), Varint(size), e, true, good, ok);
  }

  /** The writing pass of pb_encode_submessage. */
  method EncodeThroughSubstream(stream: OStream, md: MsgDesc, msg: Msg, size: nat) returns (ok: bool)
    requires stream.Valid() && stream.buf != null && DescOk(md) && TypedMsg(md, msg)
    requires GoodMsg(md, msg) && size == |Enc(md, msg)| && stream.bytesWritten + size <= stream.maxSize
    modifies stream, stream.buf
    ensures stream.Valid()
    ensures Emits(old(stream.State()), stream.State(), Enc(md, msg), true, ok)
    decreases msg, 4
  {
    ghost var e := Enc(md, msg);
    var substream := new OStream.FromBuffer(stream.buf, stream.pos, size);
    var status := Encode(substream, md, msg);
    assert status && e[..|e|] == e;
    stream.bytesWritten := stream.bytesWritten + substream.bytesWritten;
    stream.pos := substream.pos;
    stream.errmsg := substream.errmsg;
    if substream.bytesWritten != size {
      // "submsg size changed" cannot be reported.
      assert false;
    }
    return status;
  }

  /** pb_encode. */
  method Encode(stream: OStream, md: MsgDesc, msg: Msg) returns (ok: bool)
    requires stream.Valid() && DescOk(md) && TypedMsg(md, msg)
    requires stream.bytesWritten + |Enc(md, msg)| < SIZE_MOD
    modifies stream, stream.buf
    ensures stream.Valid()
    ensures Emits(old(stream.State()), stream.State(), Enc(md, msg), GoodMsg(md, msg), ok)
    decreases msg, 3
  {
    ghost var a := stream.State();
    ghost var done: seq<byte> := [];
    EmitsNothing(a);
    var k := 0;
    while k < |md.fields|
      invariant 0 <= k <= |md.fields|
      invariant stream.Valid()
      invariant Enc(md, msg) == done + EncFrom(md, msg, k)
      invariant GoodMsg(md, msg) == GoodFrom(md, msg, k)
      invariant Emits(a, stream.State(), done, true, true)
    {
      ghost var b := stream.State();
      ghost var rest := EncFrom(md, msg, k + 1);
      assert EncFrom(md, msg, k) == EncField(md, msg, k) + rest;
      ok := EncodeBasicField(stream, md, msg, k);
      ghost var c := stream.State();
      EmitsRound(a, b, c, done, EncField(md, msg, k), rest, GoodField(md, msg, k), GoodFrom(md, msg, k + 1), ok);
      if !ok {
        return;
      }
      done := done + EncField(md, msg, k);
      k := k + 1;
    }
    assert done + [] == done;
    return true;
  }

  /** encode_basic_field, for field k of the struct. */
  method EncodeBasicField(stream: OStream, md: MsgDesc, msg: Msg, k: nat) returns (ok: bool)
    requires stream.Valid() && DescOk(md) && TypedMsg(md, msg) && k < |md.fields|
    requires stream.bytesWritten + |EncField(md, msg, k)| < SIZE_MOD
    modifies stream, stream.buf
    ensures stream.Valid()
    ensures Emits(old(stream.State()), stream.State(), EncField(md, msg, k), GoodField(md, msg, k), ok)
    decreases msg, 2
  {
    ghost var a := stream.State();
    var fd := md.fields[k];
    var slot := msg.slots[k];
    assert TypedSlot(fd, slot);
    match fd.htype {
      case Repeated =>
        ok := EncodeArray(stream, fd, slot.elems);
      case OneOf(u) =>
        if msg.unions[u].which == fd.tag {
          assert Selected(md, msg, k);
          ok := EncodeKeyed(stream, fd, msg.unions[u].value);
        } else {
          EmitsNothing(a);
          ok := true;
        }
      case Required =>
        ok := EncodeKeyed(stream, fd, slot.value);
      case Optional =>
        var has := slot.has;
        if !fd.sizeOffset {
          var isDefault := CheckProto3DefaultValue(md, msg, k);
          has := !isDefault;
        }
        if has {
          ok := EncodeKeyed(stream, fd, slot.value);
        } else {
          EmitsNothing(a);
          ok := true;
        }
    }
  }

  /** Tag and then value. */
  method EncodeKeyed(stream: OStream, fd: FieldDesc, v: Value) returns (ok: bool)
    requires stream.Valid() && FieldOk(fd) && TypedValue(fd, v)
    requires stream.bytesWritten + |FieldKey(fd) + EncValue(fd, v)| < SIZE_MOD
    modifies stream, stream.buf
    ensures stream.Valid()
    ensures Emits(old(stream.State()), stream.State(), FieldKey(fd) + EncValue(fd, v), GoodValue(fd, v), ok)
    decreases v, 1
  {
    ghost var a := stream.State();
    ok := EncodeTagForField(stream, fd);
    ghost var b := stream.State();
    if !ok {
      EmitsStop(a, b, FieldKey(fd), EncValue(fd, v), true, GoodValue(fd, v));
      return;
    }
    ok := EncodeValue(stream, fd, v);
    EmitsThen(a, b, stream.State(), FieldKey(fd), EncValue(fd, v), true, GoodValue(fd, v), ok);
  }

  // ----------------------------------------------------------------- arrays

  /** encode_array. */
  method EncodeArray(stream: OStream, fd: FieldDesc, elems: seq<Value>) returns (ok: bool)
    requires stream.Valid() && FieldOk(fd)
    requires forall i :: 0 <= i < |elems| ==> TypedValue(fd, elems[i])
    requires stream.bytesWritten + |EncArray(fd, elems)| < SIZE_MOD
    modifies stream, stream.buf
    ensures stream.Valid()
    ensures Emits(old(stream.State()), stream.State(), EncArray(fd, elems), GoodArray(fd, elems), ok)
    ensures |elems| > fd.arraySize && old(stream.errmsg) == None ==> stream.errmsg == Some(ArrayMaxSizeExceeded)
    decreases elems, 5
  {
    ghost var a := stream.State();
    var count := |elems|;
    if count == 0 {
      EmitsNothing(a);
      return true;
    }
    if count > fd.arraySize {
      stream.SetError(ArrayMaxSizeExceeded);
      EmitsError(a, stream.State(), EncArray(fd, elems));
      return false;
    }
    if fd.ltype.Packable() {
      ok := EncodePackedArray(stream, fd, elems);
    } else {
      ok := EncodeUnpackedArray(stream, fd, elems);
    }
  }

  lemma EncUnpackedAt(fd: FieldDesc, elems: seq<Value>, i: nat)
    requires i < |elems|
    ensures EncUnpacked(fd, elems[i..]) == FieldKey(fd) + EncValue(fd, elems[i]) + EncUnpacked(fd, elems[i + 1..])
    ensures GoodElems(fd, elems[i..]) <==> GoodValue(fd, elems[i]) && GoodElems(fd, elems[i + 1..])
  {
    assert elems[i..][1..] == elems[i + 1..];
  }

  lemma EncPackedAt(fd: FieldDesc, elems: seq<Value>, i: nat)
    requires i < |elems|
    ensures EncPacked(fd, elems[i..]) == EncValue(fd, elems[i]) + EncPacked(fd, elems[i + 1..])
    ensures GoodElems(fd, elems[i..]) <==> GoodValue(fd, elems[i]) && GoodElems(fd, elems[i + 1..])
  {
    assert elems[i..][1..] == elems[i + 1..];
  }

  /** The unpacked branch: a tag before every entry. */
  method EncodeUnpackedArray(stream: OStream, fd: FieldDesc, elems: seq<Value>) returns (ok: bool)
    requires stream.Valid() && FieldOk(fd)
    requires forall i :: 0 <= i < |elems| ==> TypedValue(fd, elems[i])
    requires stream.bytesWritten + |EncUnpacked(fd, elems)| < SIZE_MOD
    modifies stream, stream.buf
    ensures stream.Valid()
    ensures Emits(old(stream.State()), stream.State(), EncUnpacked(fd, elems), GoodElems(fd, elems), ok)
    decreases elems, 1
  {
    ghost var a := stream.State();
    ghost var done: seq<byte> := [];
    EmitsNothing(a);
    var i := 0;
    assert elems[0..] == elems;
    while i < |elems|
      invariant 0 <= i <= |elems|
      invariant stream.Valid()
      invariant EncUnpacked(fd, elems) == done + EncUnpacked(fd, elems[i..])
      invariant GoodElems(fd, elems) == GoodElems(fd, elems[i..])
      invariant Emits(a, stream.State(), done, true, true)
    {
      ghost var b := stream.State();
      ghost var e := FieldKey(fd) + EncValue(fd, elems[i]);
      ghost var rest := EncUnpacked(fd, elems[i + 1..]);
      EncUnpackedAt(fd, elems, i);
      ok := EncodeKeyed(stream, fd, elems[i]);
      ghost var c := stream.State();
      EmitsRound(a, b, c, done, e, rest, GoodValue(fd, elems[i]), GoodElems(fd, elems[i + 1..]), ok);
      if !ok {
        return;
      }
      done := done + e;
      i := i + 1;
    }
    assert done + [] == done;
    return true;
  }

  /** The loop over the entries of a packed array. */
  method EncodePackedEntries(stream: OStream, fd: FieldDesc, elems: seq<Value>) returns (ok: bool)
    requires stream.Valid() && FieldOk(fd)
    requires forall i :: 0 <= i < |elems| ==> TypedValue(fd, elems[i])
    requires stream.bytesWritten + |EncPacked(fd, elems)| < SIZE_MOD
    modifies stream, stream.buf
    ensures stream.Valid()
    ensures Emits(old(stream.State()), stream.State(), EncPacked(fd, elems), GoodElems(fd, elems), ok)
    decreases elems, 1
  {
    ghost var a := stream.State();
    ghost var done: seq<byte> := [];
    EmitsNothing(a);
    var i := 0;
    assert elems[0..] == elems;
    while i < |elems|
      invariant 0 <= i <= |elems|
      invariant stream.Valid()
      invariant EncPacked(fd, elems) == done + EncPacked(fd, elems[i..])
      invariant GoodElems(fd, elems) == GoodElems(fd, elems[i..])
      invariant Emits(a, stream.State(), done, true, true)
    {
      ghost var b := stream.State();
      ghost var e := EncValue(fd, elems[i]);
      ghost var rest := EncPacked(fd, elems[i + 1..]);
      EncPackedAt(fd, elems, i);
      ok := EncodeValue(stream, fd, elems[i]);
      ghost var c := stream.State();
      EmitsRound(a, b, c, done, e, rest, GoodValue(fd, elems[i]), GoodElems(fd, elems[i + 1..]), ok);
      if !ok {
        return;
      }
      done := done + e;
      i := i + 1;
    }
    assert done + [] == done;
    return true;
  }

  /** The packed branch: tag, payload size, payload. A bad entry is met while the payload is measured, on another
      stream, so that its error is not reported on this one. */
  method EncodePackedArray(stream: OStream, fd: FieldDesc, elems: seq<Value>) returns (ok: bool)
    requires stream.Valid() && FieldOk(fd) && fd.ltype.Packable()
    requires forall i :: 0 <= i < |elems| ==> TypedValue(fd, elems[i])
    requires stream.bytesWritten + |Key(fd.tag, WT_STRING) + LenPrefixed(EncPacked(fd, elems))| < SIZE_MOD
    modifies stream, stream.buf
    ensures stream.Valid()
    ensures Emits(old(stream.State()), stream.State(),
                  Key(fd.tag, WT_STRING) + LenPrefixed(EncPacked(fd, elems)), GoodElems(fd, elems), ok)
    ensures !GoodElems(fd, elems) && Fits(old(stream.State()), |Varint(8 * fd.tag + 2)|) ==>
              !ok && (old(stream.errmsg) == None ==> stream.errmsg == None)
    decreases elems, 4
  {
    ghost var a := stream.State();
    ghost var (key, payload, good) := (Key(fd.tag, WT_STRING), EncPacked(fd, elems), GoodElems(fd, elems));
    assert key == Varint(8 * fd.tag + 2);
    ok := EncodeTag(stream, WT_STRING, fd.tag);
    ghost var b := stream.State();
    if !ok {
      EmitsStop(a, b, key, LenPrefixed(payload), true, good);
      return;
    }
    var size;
    ok, size := PackedSize(fd, elems);
    if !ok {
      EmitsError(b, b, LenPrefixed(payload));
      EmitsThen(a, b, b, key, LenPrefixed(payload), true, false, false);
      return;
    }
    ok := EncodeVarint(stream, size);
    ghost var c := stream.State();
    if !ok {
      EmitsStop(b, c, Varint(size), payload, true, good);
      EmitsThen(a, b, c, key, LenPrefixed(payload), true, good, false);
      return;
    }
    if stream.buf == null {
      ok := stream.Write([], size, payload);
    } else {
      ok := EncodePackedEntries(stream, fd, elems);
    }
    EmitsThen(b, c, stream.State(), Varint(size), payload, true, good, ok);
    EmitsThen(a, b, stream.State(), key, LenPrefixed(payload), true, good, ok);
  }

  /** The size of a packed payload: known for fixed-width types, otherwise measured. */
  method PackedSize(fd: FieldDesc, elems: seq<Value>) returns (ok: bool, size: nat)
    requires FieldOk(fd) && fd.ltype.Packable()
    requires forall i :: 0 <= i < |elems| ==> TypedValue(fd, elems[i])
    requires |EncPacked(fd, elems)| < SIZE_MOD
    ensures ok == GoodElems(fd, elems)
    ensures ok ==> size == |EncPacked(fd, elems)|
    decreases elems, 2
  {
    FixedArraySize(fd, elems);
    if fd.ltype.LFixed32? {
      return true, 4 * |elems|;
    } else if fd.ltype.LFixed64? {
      return true, 8 * |elems|;
    }
    var sizestream := new OStream.Sizing();
    ok := EncodePackedEntries(sizestream, fd, elems);
    size := sizestream.bytesWritten;
  }

  /** The two sizes that encode_array computes without a sizing pass. */
  lemma {:induction false} FixedArraySize(fd: FieldDesc, elems: seq<Value>)
    requires forall i :: 0 <= i < |elems| ==> TypedValue(fd, elems[i])
    ensures fd.ltype.LFixed32? ==> |EncPacked(fd, elems)| == 4 * |elems| && GoodElems(fd, elems)
    ensures fd.ltype.LFixed64? ==> |EncPacked(fd, elems)| == 8 * |elems| && GoodElems(fd, elems)
  {
    if elems != [] {
      FixedArraySize(fd, elems[1..]);
    }
  }

  // ------------------------------------------------------------ entry points

  /** pb_get_encoded_size. */
  method GetEncodedSize(md: MsgDesc, msg: Msg) returns (ok: bool, size: nat)
    requires DescOk(md) && TypedMsg(md, msg) && |Enc(md, msg)| < SIZE_MOD
    ensures ok == GoodMsg(md, msg)
    ensures ok ==> size == |Enc(md, msg)|
  {
    var stream := new OStream.Sizing();
    ok := Encode(stream, md, msg);
    size := stream.bytesWritten;
  }

  /** Encoding into a buffer of n bytes succeeds exactly when the encoded size is at most n;
      the buffer then starts with the encoding and is otherwise untouched. */
  method EncodeToBuffer(md: MsgDesc, msg: Msg, target: array<byte>) returns (ok: bool, stream: OStream)
    requires DescOk(md) && TypedMsg(md, msg) && |Enc(md, msg)| < SIZE_MOD && target.Length < SIZE_MOD
    modifies target
    ensures ok <==> GoodMsg(md, msg) && |Enc(md, msg)| <= target.Length
    ensures ok ==> stream.bytesWritten == |Enc(md, msg)| && stream.errmsg == None
    ensures ok ==> target[..] == Enc(md, msg) + old(target[|Enc(md, msg)|..])
    ensures !ok && GoodMsg(md, msg) ==> stream.errmsg == Some(StreamFull)
  {
    stream := new OStream.FromBuffer(target, 0, target.Length);
    ghost var before := target[..];
    ok := Encode(stream, md, msg);
    ghost var e := Enc(md, msg);
    if ok {
      assert e[..|e|] == e;
      assert Splice(before, 0, e) == e + before[|e|..];
    }
  }
}
