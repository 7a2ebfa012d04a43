/** pb_encode over the bytes of a C struct: the loop that walks the struct with the field iterator, and every nested
    struct with an iterator of its own, emits the bytes of the message that is stored there. */
module PbStruct {
  import opened PbWire
  import opened PbMessage
  import opened PbStream
  import opened PbEncode
  import opened PbFormat
  import PbFieldIter

  /** The bytes of a little-endian machine, and sizeof(pb_size_t). */
  datatype Memory = Memory(bytes: int -> byte, sizeBytes: nat)

  /** A struct type: its members, and for every field the struct type of its submessages. */
  datatype StructType = StructType(layout: PbFieldIter.Layout, nested: seq<StructType>)

  /** One pb_field_t, as the iterator and as the encoder sees it. */
  predicate DescribesField(l: PbFieldIter.Layout, k: nat, fd: FieldDesc)
    requires k < |l.members|
  {
    var m := l.members[k];
    && m.tag == fd.tag && m.htype == fd.htype && m.atype.Static? && !m.extension
    && (fd.sizeOffset <==> l.SizeOffset(k) != 0)
    && (if fd.htype.Repeated? then m.itemSize == fd.dataSize && m.size == fd.arraySize * fd.dataSize
        else m.size == fd.dataSize)
  }

  /** The struct type fits the descriptor, at every depth. */
  predicate Describes(st: StructType, md: MsgDesc)
    decreases st
  {
    && st.layout.Ok() && |st.layout.members| == |st.nested| == |md.fields|
    && (forall k :: 0 <= k < |md.fields| ==> DescribesField(st.layout, k, md.fields[k]))
    && (forall k :: 0 <= k < |md.fields| && md.fields[k].ltype.LSubmessage? ==>
          Describes(st.nested[k], md.fields[k].sub))
  }

  /** No padding in it clashes with the marker, at any depth. */
  predicate NoClash(st: StructType)
    decreases st
  {
    && (forall j :: 0 < j < |st.layout.members| ==> !st.layout.MarkerClash(j))
    && (forall k :: 0 <= k < |st.nested| ==> NoClash(st.nested[k]))
  }

  // ---------------------------------------------------------------- typed reads

  function ReadBytes(mem: Memory, at: int, n: nat): (r: seq<byte>)
    ensures |r| == n
  {
    seq<byte>(n, i requires 0 <= i < n => mem.bytes(at + i))
  }

  /** An unsigned integer of n bytes. */
  function ReadUnsigned(mem: Memory, at: int, n: nat): nat {
    UnFixed(ReadBytes(mem, at, n))
  }

  /** Two's complement. */
  function ReadSigned(mem: Memory, at: int, n: nat): int {
    var u := ReadUnsigned(mem, at, n);
    if u < HalfRange(n) then u else u - 2 * HalfRange(n)
  }

  function ReadFlag(mem: Memory, at: int): bool {
    mem.bytes(at) != 0
  }

  /** A count or a selector. */
  function ReadSize(mem: Memory, at: int): nat {
    ReadUnsigned(mem, at, mem.sizeBytes)
  }

  /** A datum that is no struct; pb_bytes_array_t holds its size before its bytes. */
  function ReadScalar(mem: Memory, fd: FieldDesc, at: int): Value {
    match fd.ltype
    case LBool => Bool(ReadFlag(mem, at))
    case LVarint | LSvarint => Num(ReadSigned(mem, at, fd.dataSize))
    case LUvarint | LFixed32 | LFixed64 => Num(ReadUnsigned(mem, at, fd.dataSize))
    case LBytes => Bytes(ReadBytes(mem, at + fd.bytesOffset, ReadSize(mem, at)))
    case LString | LFixedBytes | LSubmessage => Bytes(ReadBytes(mem, at, fd.dataSize))
  }

  /** The low byte comes first; a signed number is what its bits are in two's complement. */
  lemma ReadsAre(mem: Memory, at: int, n: nat, i: nat)
    requires i < n
    ensures ReadUnsigned(mem, at, n) < Pow256(n) && ReadUnsigned(mem, at, n) / Pow256(i) % 256 == mem.bytes(at + i)
    ensures n == 1 || n == 2 || n == 4 || n == 8 ==>
              var u, v := ReadUnsigned(mem, at, n), ReadSigned(mem, at, n);
              v == if u < Pow256(n) / 2 then u else u - Pow256(n)
  {
    var bs := ReadBytes(mem, at, n);
    UnFixedBound(bs);
    UnFixedByte(bs, i);
    HalfRanges();
  }

  /** A bool is any byte but 0; bytes are counted in front, in a place of their own; strings are read whole. */
  lemma ScalarIs(mem: Memory, fd: FieldDesc, at: int, i: nat)
    ensures var v := ReadScalar(mem, fd, at);
            match fd.ltype {
              case LBool => v.Bool? && (v.b <==> mem.bytes(at) != 0)
              case LVarint | LSvarint => v == Num(ReadSigned(mem, at, fd.dataSize))
              case LUvarint | LFixed32 | LFixed64 => v == Num(ReadUnsigned(mem, at, fd.dataSize))
              case LBytes => v.Bytes? && |v.bs| == ReadUnsigned(mem, at, mem.sizeBytes)
                             && (i < |v.bs| ==> v.bs[i] == mem.bytes(at + fd.bytesOffset + i))
              case LString | LFixedBytes => v.Bytes? && |v.bs| == fd.dataSize
                                            && (i < |v.bs| ==> v.bs[i] == mem.bytes(at + i))
              case LSubmessage => true
            }
  {
    hide UnFixed;
  }

  /** Whatever the memory holds, a datum read from it is a value of its C type. */
  lemma ScalarIsTyped(mem: Memory, fd: FieldDesc, at: int)
    requires !fd.ltype.LSubmessage?
    requires (fd.ltype.LFixed32? ==> fd.dataSize == 4) && (fd.ltype.LFixed64? ==> fd.dataSize == 8)
    requires fd.ltype.LVarint? || fd.ltype.LSvarint? || fd.ltype.LUvarint? ==> IntSize(fd.dataSize)
    ensures TypedValue(fd, ReadScalar(mem, fd, at))
  {
    hide UnFixed;
    HalfRanges();
    if fd.ltype.LVarint? || fd.ltype.LSvarint? || fd.ltype.LUvarint? || fd.ltype.LFixed32? || fd.ltype.LFixed64? {
      UnFixedBound(ReadBytes(mem, at, fd.dataSize));
    }
  }

  lemma HalfRanges()
    ensures 2 * HalfRange(1) == Pow256(1) && 2 * HalfRange(2) == Pow256(2)
    ensures 2 * HalfRange(4) == Pow256(4) && 2 * HalfRange(8) == Pow256(8)
  {
    assert Pow256(2) == 0x10000;
    assert Pow256(4) == U32;
    assert Pow256(6) == U32 * 0x10000;
    assert Pow256(8) == U64;
  }

  lemma {:induction false} UnFixedBound(bs: seq<byte>)
    ensures UnFixed(bs) < Pow256(|bs|)
  {
    if bs != [] { UnFixedBound(bs[1..]); }
  }

  lemma {:induction false} UnFixedByte(bs: seq<byte>, i: nat)
    requires i < |bs|
    ensures UnFixed(bs) / Pow256(i) % 256 == bs[i]
    decreases i
  {
    if i > 0 {
      UnFixedByte(bs[1..], i - 1);
      assert UnFixed(bs) / 256 == UnFixed(bs[1..]);
      DivideTwice(UnFixed(bs), Pow256(i - 1));
    }
  }

  // ------------------------------------------------------- messages in memory

  /** Where field k is, counted from the start of the struct; or where the iterator reports it. */
  function FieldAt(l: PbFieldIter.Layout, k: nat, reported: bool): int
    requires k < |l.members|
  {
    l.members[k].offset - (if reported then l.Lost(k) else 0)
  }

  /** The value is stored at this address; a message as a struct whose members are at their own places, or at those
      that the iterator reports. */
  ghost predicate ValueLies(mem: Memory, st: StructType, fd: FieldDesc, v: Value, at: int, reported: bool)
    requires fd.ltype.LSubmessage? ==> Describes(st, fd.sub)
    decreases v, 0
  {
    if fd.ltype.LSubmessage? then v.Sub? && MsgLies(mem, st, fd.sub, v.msg, at, reported)
    else v == ReadScalar(mem, fd, at)
  }

  /** The entries follow each other. */
  ghost predicate ElemsLie(mem: Memory, st: StructType, fd: FieldDesc, vs: seq<Value>, at: int, reported: bool)
    requires fd.ltype.LSubmessage? ==> Describes(st, fd.sub)
    decreases vs, 0
  {
    forall i :: 0 <= i < |vs| ==> ValueLies(mem, st, fd, vs[i], at + i * fd.dataSize, reported)
  }

  /** What is read with the field's data at one address and its companion at another is field k of the message. */
  ghost predicate FieldLies(mem: Memory, st: StructType, md: MsgDesc, msg: Msg, k: nat, at: int, sizeAt: int,
                            reported: bool)
    requires k < |md.fields| && (md.fields[k].ltype.LSubmessage? ==> Describes(st, md.fields[k].sub))
    decreases msg, 0
  {
    var fd := md.fields[k];
    && k < |msg.slots|
    && match fd.htype {
      case Required => msg.slots[k].Single? && ValueLies(mem, st, fd, msg.slots[k].value, at, reported)
      case Optional =>
        && msg.slots[k].Single? && ValueLies(mem, st, fd, msg.slots[k].value, at, reported)
        && (fd.sizeOffset ==> msg.slots[k].has == ReadFlag(mem, sizeAt))
      case Repeated =>
        && msg.slots[k].Array? && ElemsLie(mem, st, fd, msg.slots[k].elems, at, reported)
        && |msg.slots[k].elems| == (if fd.sizeOffset then ReadSize(mem, sizeAt) else fd.arraySize)
      case OneOf(u) =>
        && msg.slots[k].InUnion? && u < |msg.unions| && msg.unions[u].which == ReadSize(mem, sizeAt)
        && (Selected(md, msg, k) ==> ValueLies(mem, st, fd, msg.unions[u].value, at, reported))
    }
  }

  ghost predicate MsgLies(mem: Memory, st: StructType, md: MsgDesc, msg: Msg, at: int, reported: bool)
    requires Describes(st, md)
    decreases msg, 1
  {
    forall k :: 0 <= k < |md.fields| ==>
      var f := at + FieldAt(st.layout, k, reported);
      FieldLies(mem, st.nested[k], md, msg, k, f, f + st.layout.SizeOffset(k), reported)
  }

  /** Without clashes the places are those that the iterator reports. */
  lemma {:induction false} ValueReported(mem: Memory, st: StructType, fd: FieldDesc, v: Value, at: int)
    requires NoClash(st) && (fd.ltype.LSubmessage? ==> Describes(st, fd.sub))
    ensures ValueLies(mem, st, fd, v, at, true) <==> ValueLies(mem, st, fd, v, at, false)
    decreases v, 0
  {
    if fd.ltype.LSubmessage? && v.Sub? { MsgReported(mem, st, fd.sub, v.msg, at); }
  }

  lemma {:induction false} ElemsReported(mem: Memory, st: StructType, fd: FieldDesc, vs: seq<Value>, at: int)
    requires NoClash(st) && (fd.ltype.LSubmessage? ==> Describes(st, fd.sub))
    ensures ElemsLie(mem, st, fd, vs, at, true) <==> ElemsLie(mem, st, fd, vs, at, false)
    decreases vs, 0
  {
    forall i | 0 <= i < |vs|
      ensures ValueLies(mem, st, fd, vs[i], at + i * fd.dataSize, true)
         <==> ValueLies(mem, st, fd, vs[i], at + i * fd.dataSize, false)
    {
      ValueReported(mem, st, fd, vs[i], at + i * fd.dataSize);
    }
  }

  lemma {:induction false} FieldReported(mem: Memory, st: StructType, md: MsgDesc, msg: Msg, k: nat, at: int,
                                         sizeAt: int)
    requires k < |md.fields| && (md.fields[k].ltype.LSubmessage? ==> Describes(st, md.fields[k].sub)) && NoClash(st)
    ensures FieldLies(mem, st, md, msg, k, at, sizeAt, true) <==> FieldLies(mem, st, md, msg, k, at, sizeAt, false)
    decreases msg, 0
  {
    var fd := md.fields[k];
    if k < |msg.slots| {
      match msg.slots[k] {
        case Single(_, v) => ValueReported(mem, st, fd, v, at);
        case Array(elems) => ElemsReported(mem, st, fd, elems, at);
        case InUnion =>
          if Selected(md, msg, k) { ValueReported(mem, st, fd, msg.unions[fd.htype.union].value, at); }
      }
    }
  }

  lemma {:induction false} MsgReported(mem: Memory, st: StructType, md: MsgDesc, msg: Msg, at: int)
    requires Describes(st, md) && NoClash(st)
    ensures MsgLies(mem, st, md, msg, at, true) <==> MsgLies(mem, st, md, msg, at, false)
    decreases msg, 1
  {
    hide FieldLies, FieldAt, NoClash;
    forall k | 0 <= k < |md.fields|
      ensures FieldAt(st.layout, k, true) == FieldAt(st.layout, k, false)
      ensures var f := at + FieldAt(st.layout, k, false);
              (FieldLies(mem, st.nested[k], md, msg, k, f, f + st.layout.SizeOffset(k), true)
               <==> FieldLies(mem, st.nested[k], md, msg, k, f, f + st.layout.SizeOffset(k), false))
    {
      FieldInPlace(st, md, k);
      var f := at + FieldAt(st.layout, k, false);
      FieldReported(mem, st.nested[k], md, msg, k, f, f + st.layout.SizeOffset(k));
    }
  }

  lemma FieldInPlace(st: StructType, md: MsgDesc, k: nat)
    requires Describes(st, md) && NoClash(st) && k < |md.fields|
    ensures k < |st.nested| && k < |st.layout.members| && FieldAt(st.layout, k, true) == FieldAt(st.layout, k, false)
    ensures NoClash(st.nested[k]) && (md.fields[k].ltype.LSubmessage? ==> Describes(st.nested[k], md.fields[k].sub))
  {
    PbFieldIter.NothingLost(st.layout, k);
  }

  // ------------------------------------------------- messages that encode alike

  predicate SameValue(fd: FieldDesc, v: Value, w: Value) {
    EncValue(fd, v) == EncValue(fd, w) && GoodValue(fd, v) == GoodValue(fd, w) &&
    IsDefaultValue(fd, v) == IsDefaultValue(fd, w)
  }

  predicate SameElems(fd: FieldDesc, vs: seq<Value>, ws: seq<Value>) {
    |vs| == |ws| && forall i :: 0 <= i < |vs| ==> SameValue(fd, vs[i], ws[i])
  }

  /** Field i of one message and field k of another have the same descriptor and agree in what C looks at. */
  predicate SameField(mdA: MsgDesc, a: Msg, i: nat, mdB: MsgDesc, b: Msg, k: nat) {
    && i < |mdA.fields| && k < |mdB.fields| && mdA.fields[i] == mdB.fields[k] && i < |a.slots| && k < |b.slots|
    && var fd := mdA.fields[i];
    match fd.htype {
      case Required => a.slots[i].Single? && b.slots[k].Single? && SameValue(fd, a.slots[i].value, b.slots[k].value)
      case Optional =>
        && a.slots[i].Single? && b.slots[k].Single? && SameValue(fd, a.slots[i].value, b.slots[k].value)
        && (fd.sizeOffset ==> a.slots[i].has == b.slots[k].has)
      case Repeated => a.slots[i].Array? && b.slots[k].Array? && SameElems(fd, a.slots[i].elems, b.slots[k].elems)
      case OneOf(u) =>
        && a.slots[i].InUnion? && b.slots[k].InUnion? && u < |a.unions| && u < |b.unions|
        && a.unions[u].which == b.unions[u].which
        && (Selected(mdA, a, i) ==> SameValue(fd, a.unions[u].value, b.unions[u].value))
    }
  }

  lemma {:induction false} SameElemsEncode(fd: FieldDesc, vs: seq<Value>, ws: seq<Value>)
    requires SameElems(fd, vs, ws)
    ensures EncPacked(fd, vs) == EncPacked(fd, ws) && EncUnpacked(fd, vs) == EncUnpacked(fd, ws)
    ensures GoodElems(fd, vs) == GoodElems(fd, ws)
    decreases |vs|
  {
    hide EncValue, GoodValue, IsDefaultValue;
    if vs != [] {
      assert SameValue(fd, vs[0], ws[0]);
      forall i | 0 <= i < |vs[1..]| ensures SameValue(fd, vs[1..][i], ws[1..][i]) {
        assert SameValue(fd, vs[i + 1], ws[i + 1]);
      }
      SameElemsEncode(fd, vs[1..], ws[1..]);
    }
  }

  lemma SameFieldEncodes(mdA: MsgDesc, a: Msg, i: nat, mdB: MsgDesc, b: Msg, k: nat)
    requires SameField(mdA, a, i, mdB, b, k)
    ensures EncField(mdA, a, i) == EncField(mdB, b, k) && GoodField(mdA, a, i) == GoodField(mdB, b, k)
    ensures IsDefaultField(mdA, a, i) == IsDefaultField(mdB, b, k)
  {
    hide EncValue, GoodValue, IsDefaultValue, EncPacked, EncUnpacked, GoodElems, FieldKey;
    if mdA.fields[i].htype.Repeated? {
      SameElemsEncode(mdA.fields[i], a.slots[i].elems, b.slots[k].elems);
    }
  }

  predicate SameMsg(md: MsgDesc, a: Msg, b: Msg) {
    forall k :: 0 <= k < |md.fields| ==> SameField(md, a, k, md, b, k)
  }

  lemma {:induction false} SameFrom(md: MsgDesc, a: Msg, b: Msg, k: nat)
    requires SameMsg(md, a, b) && k <= |md.fields|
    ensures EncFrom(md, a, k) == EncFrom(md, b, k) && GoodFrom(md, a, k) == GoodFrom(md, b, k)
    decreases |md.fields| - k
  {
    hide SameField;
    if k < |md.fields| {
      SameFieldEncodes(md, a, k, md, b, k);
      hide EncField, GoodField;
      SameFrom(md, a, b, k + 1);
    }
  }

  lemma SameMsgEncodes(fd: FieldDesc, a: Msg, b: Msg)
    requires SameMsg(fd.sub, a, b)
    ensures SameValue(fd, Sub(a), Sub(b))
  {
    hide SameField, IsDefaultField, EncFrom, GoodFrom;
    SameFrom(fd.sub, a, b, 0);
    forall k | 0 <= k < |fd.sub.fields| ensures IsDefaultField(fd.sub, a, k) == IsDefaultField(fd.sub, b, k) {
      SameFieldEncodes(fd.sub, a, k, fd.sub, b, k);
    }
    assert IsDefaultMsg(fd.sub, a) == IsDefaultMsg(fd.sub, b);
    assert EncFrom(fd.sub, a, 0) == EncFrom(fd.sub, b, 0);
    assert GoodMsg(fd.sub, a) == GoodMsg(fd.sub, b);
  }

  // -------------------------------------------------------------------- reading

  /** What was read agrees with field k of the message. */
  predicate ReadAs(md: MsgDesc, msg: Msg, k: nat, slot: Slot, member: Union)
    requires k < |md.fields| && TypedMsg(md, msg)
  {
    var fd := md.fields[k];
    match fd.htype
    case Required => slot.Single? && msg.slots[k].Single? && SameValue(fd, slot.value, msg.slots[k].value)
    case Optional =>
      && slot.Single? && msg.slots[k].Single? && SameValue(fd, slot.value, msg.slots[k].value)
      && (fd.sizeOffset ==> slot.has == msg.slots[k].has)
    case Repeated => slot.Array? && msg.slots[k].Array? && SameElems(fd, slot.elems, msg.slots[k].elems)
    case OneOf(u) =>
      && slot.InUnion? && msg.slots[k].InUnion? && u < |msg.unions| && member.which == msg.unions[u].which
      && (member.which == fd.tag ==> SameValue(fd, member.value, msg.unions[u].value))
  }

  /** A datum; a nested struct is walked with an iterator of its own. */
  method LoadValue(mem: Memory, st: StructType, fd: FieldDesc, at: int, ghost v: Value) returns (x: Value)
    requires FieldOk(fd) && TypedValue(fd, v) && (fd.ltype.LSubmessage? ==> Describes(st, fd.sub)) && at > 0
    requires ValueLies(mem, st, fd, v, at, true)
    ensures TypedValue(fd, x) && SameValue(fd, x, v)
    decreases v, 0
  {
    if fd.ltype.LSubmessage? {
      var m := LoadStruct(mem, st, fd.sub, at, v.msg);
      SameMsgEncodes(fd, m, v.msg);
      x := Sub(m);
    } else {
      x := ReadScalar(mem, fd, at);
    }
  }

  method LoadElems(mem: Memory, st: StructType, fd: FieldDesc, at: int, count: nat, ghost vs: seq<Value>)
    returns (xs: seq<Value>)
    requires FieldOk(fd) && (fd.ltype.LSubmessage? ==> Describes(st, fd.sub)) && at > 0 && count == |vs|
    requires (forall i :: 0 <= i < |vs| ==> TypedValue(fd, vs[i])) && ElemsLie(mem, st, fd, vs, at, true)
    ensures (forall i :: 0 <= i < |xs| ==> TypedValue(fd, xs[i])) && SameElems(fd, xs, vs)
    decreases vs, 0
  {
    hide FieldOk, TypedValue, SameValue, ValueLies, Describes;
    xs := [];
    for i := 0 to count
      invariant |xs| == i && forall j :: 0 <= j < i ==> TypedValue(fd, xs[j]) && SameValue(fd, xs[j], vs[j])
    {
      var x := LoadValue(mem, st, fd, at + i * fd.dataSize, vs[i]);
      xs := xs + [x];
    }
  }

  /** The field at one address, with its companion at another; what is not selected is not read. */
  method LoadField(mem: Memory, st: StructType, md: MsgDesc, ghost msg: Msg, k: nat, at: int, sizeAt: int)
    returns (slot: Slot, member: Union)
    requires DescOk(md) && TypedMsg(md, msg) && k < |md.fields| && at > 0
    requires md.fields[k].ltype.LSubmessage? ==> Describes(st, md.fields[k].sub)
    requires FieldLies(mem, st, md, msg, k, at, sizeAt, true)
    ensures TypedSlot(md.fields[k], slot)
    ensures md.fields[k].htype.OneOf? && member.which == md.fields[k].tag ==> TypedValue(md.fields[k], member.value)
    ensures ReadAs(md, msg, k, slot, member)
    decreases msg, 0
  {
    var fd := md.fields[k];
    assert FieldOk(fd) && TypedSlot(fd, msg.slots[k]);
    member := Union(0, Bool(false));
    match fd.htype {
      case Required =>
        var v := LoadValue(mem, st, fd, at, msg.slots[k].value);
        slot := Single(true, v);
      case Optional =>
        var v := LoadValue(mem, st, fd, at, msg.slots[k].value);
        slot := Single(fd.sizeOffset && ReadFlag(mem, sizeAt), v);
      case Repeated =>
        var count := if fd.sizeOffset then ReadSize(mem, sizeAt) else fd.arraySize;
        var vs := LoadElems(mem, st, fd, at, count, msg.slots[k].elems);
        slot := Array(vs);
      case OneOf(u) =>
        slot := InUnion;
        member := Union(ReadSize(mem, sizeAt), Bool(false));
        if member.which == fd.tag {
          assert Selected(md, msg, k);
          var v := LoadValue(mem, st, fd, at, msg.unions[u].value);
          member := Union(fd.tag, v);
        }
    }
  }

  // ------------------------------------------------------------- nested structs

  /** The union that field k lives in, if it does. */
  function Home(md: MsgDesc, k: nat, unions: seq<Union>): Union
    requires k < |md.fields|
  {
    match md.fields[k].htype
    case OneOf(u) => if u < |unions| then unions[u] else Union(0, Bool(false))
    case _ => Union(0, Bool(false))
  }

  /** The first k fields have been read. */
  predicate Collected(md: MsgDesc, msg: Msg, k: nat, slots: seq<Slot>, unions: seq<Union>)
    requires k <= |md.fields| && TypedMsg(md, msg)
  {
    && |slots| == k && |unions| == md.unions
    && forall j :: 0 <= j < k ==>
         && TypedSlot(md.fields[j], slots[j]) && ReadAs(md, msg, j, slots[j], Home(md, j, unions))
         && (Home(md, j, unions).which == md.fields[j].tag && md.fields[j].htype.OneOf? ==>
               TypedValue(md.fields[j], Home(md, j, unions).value))
  }

  /** The union after one of its fields was read. */
  function Merged(before: Union, tag: nat, member: Union): Union {
    if member.which == tag then member else Union(member.which, before.value)
  }

  function AddMember(fd: FieldDesc, unions: seq<Union>, member: Union): (r: seq<Union>)
    ensures |r| == |unions|
  {
    match fd.htype
    case OneOf(u) => if u < |unions| then unions[u := Merged(unions[u], fd.tag, member)] else unions
    case _ => unions
  }

  lemma CollectOneMore(md: MsgDesc, msg: Msg, k: nat, slots: seq<Slot>, unions: seq<Union>, slot: Slot, member: Union)
    requires k < |md.fields| && DescOk(md) && TypedMsg(md, msg) && Collected(md, msg, k, slots, unions)
    requires TypedSlot(md.fields[k], slot) && ReadAs(md, msg, k, slot, member)
    requires md.fields[k].htype.OneOf? && member.which == md.fields[k].tag ==> TypedValue(md.fields[k], member.value)
    ensures Collected(md, msg, k + 1, slots + [slot], AddMember(md.fields[k], unions, member))
  {
    hide SameValue, SameElems, TypedValue, TypedSlot;
    var more := AddMember(md.fields[k], unions, member);
    forall j | 0 <= j < k + 1
      ensures TypedSlot(md.fields[j], (slots + [slot])[j]) && ReadAs(md, msg, j, (slots + [slot])[j], Home(md, j, more))
      ensures Home(md, j, more).which == md.fields[j].tag && md.fields[j].htype.OneOf? ==>
                TypedValue(md.fields[j], Home(md, j, more).value)
    {
      if j < k {
        assert ReadAs(md, msg, j, slots[j], Home(md, j, unions));
        assert md.fields[j].tag != md.fields[k].tag;
      }
    }
  }

  lemma CollectedAll(md: MsgDesc, msg: Msg, slots: seq<Slot>, unions: seq<Union>)
    requires DescOk(md) && TypedMsg(md, msg) && Collected(md, msg, |md.fields|, slots, unions)
    ensures TypedMsg(md, Msg(slots, unions)) && SameMsg(md, Msg(slots, unions), msg)
  {
    hide SameValue, SameElems, TypedValue, TypedSlot;
    var m := Msg(slots, unions);
    forall k | 0 <= k < |md.fields| ensures SameField(md, m, k, md, msg, k) {
      assert ReadAs(md, msg, k, slots[k], Home(md, k, unions));
    }
  }

  /** Fields are never reported before the struct. */
  lemma {:induction false} ReportedInside(l: PbFieldIter.Layout, k: nat)
    requires l.Ok() && k < |l.members|
    ensures FieldAt(l, k, true) >= 0
  {
    if k > 0 { ReportedInside(l, k - 1); }
  }

  /** Where the iterator stands. */
  lemma StandsAt(iter: PbFieldIter.FieldIter, st: StructType, md: MsgDesc, k: nat)
    requires Describes(st, md) && iter.layout == st.layout && k < |md.fields| && iter.At(k) && iter.destStruct != 0
    ensures iter.pos == k && iter.pData == iter.destStruct + FieldAt(st.layout, k, true) && iter.pData > 0
    ensures iter.pos < |iter.start| && iter.start[iter.pos].sizeOffset == st.layout.SizeOffset(k)
  {
    ReportedInside(st.layout, k);
  }

  /** A struct, walked with an iterator and collected as a message. */
  method LoadStruct(mem: Memory, st: StructType, md: MsgDesc, at: int, ghost msg: Msg) returns (m: Msg)
    requires DescOk(md) && TypedMsg(md, msg) && Describes(st, md) && at > 0 && MsgLies(mem, st, md, msg, at, true)
    ensures TypedMsg(md, m) && SameMsg(md, m, msg)
    decreases msg, 1
  {
    hide DescOk, TypedMsg, FieldLies, ReadAs, SameMsg, Collected;
    hide PbFieldIter.FieldIter.At, PbFieldIter.Layout.Ok, PbFieldIter.Layout.Table;
    var slots, unions := [], seq(md.unions, _ => Union(0, Bool(false)));
    NothingCollected(md, msg, unions);
    var iter := new PbFieldIter.FieldIter(st.layout, at);
    var more := iter.Begin();
    ghost var k := 0;
    while more
      invariant iter.layout == st.layout && iter.destStruct == at && iter.At(if more then k else 0)
      invariant k <= |md.fields| && (more <==> k < |md.fields|) && Collected(md, msg, k, slots, unions)
      decreases |md.fields| - k
    {
      StandsAt(iter, st, md, k);
      var fd := md.fields[iter.pos];
      var slot, member := LoadField(mem, st.nested[iter.pos], md, msg, iter.pos, iter.pData,
                                    iter.pData + iter.start[iter.pos].sizeOffset);
      CollectOneMore(md, msg, k, slots, unions, slot, member);
      slots, unions := slots + [slot], AddMember(fd, unions, member);
      more := iter.Next(k);
      k := k + 1;
    }
    CollectedAll(md, msg, slots, unions);
    m := Msg(slots, unions);
  }

  lemma NothingCollected(md: MsgDesc, msg: Msg, unions: seq<Union>)
    requires TypedMsg(md, msg) && |unions| == md.unions
    ensures Collected(md, msg, 0, [], unions)
  {
  }

  // ------------------------------------------------------------------- encoding

  /** The field by itself, in a message with just enough unions. */
  function AloneDesc(fd: FieldDesc): MsgDesc {
    MsgDesc([fd], if fd.htype.OneOf? then fd.htype.union + 1 else 0)
  }

  function Alone(fd: FieldDesc, slot: Slot, member: Union): Msg {
    Msg([slot], seq(AloneDesc(fd).unions, _ => member))
  }

  /** The field encodes alike by itself and in its message. */
  lemma AloneEncodes(md: MsgDesc, msg: Msg, k: nat, slot: Slot, member: Union)
    requires k < |md.fields| && DescOk(md) && TypedMsg(md, msg) && ReadAs(md, msg, k, slot, member)
    requires TypedSlot(md.fields[k], slot)
    requires md.fields[k].htype.OneOf? && member.which == md.fields[k].tag ==> TypedValue(md.fields[k], member.value)
    ensures var one, m := AloneDesc(md.fields[k]), Alone(md.fields[k], slot, member);
            && DescOk(one) && TypedMsg(one, m)
            && EncField(one, m, 0) == EncField(md, msg, k) && GoodField(one, m, 0) == GoodField(md, msg, k)
  {
    assert FieldOk(md.fields[k]);
    hide FieldOk, SameValue, SameElems, TypedValue, TypedSlot, EncField, GoodField, IsDefaultField;
    var one, m := AloneDesc(md.fields[k]), Alone(md.fields[k], slot, member);
    SameFieldEncodes(one, m, 0, md, msg, k);
  }

  /** encode_basic_field on memory. */
  method EncodeFieldAt(stream: OStream, mem: Memory, st: StructType, md: MsgDesc, ghost msg: Msg, k: nat, at: int,
                       sizeAt: int) returns (ok: bool)
    requires stream.Valid() && DescOk(md) && TypedMsg(md, msg) && k < |md.fields| && at > 0
    requires md.fields[k].ltype.LSubmessage? ==> Describes(st, md.fields[k].sub)
    requires FieldLies(mem, st, md, msg, k, at, sizeAt, true)
    requires stream.bytesWritten + |EncField(md, msg, k)| < SIZE_MOD
    modifies stream, stream.buf
    ensures stream.Valid()
    ensures Emits(old(stream.State()), stream.State(), EncField(md, msg, k), GoodField(md, msg, k), ok)
  {
    hide DescOk, TypedMsg, FieldLies, EncField, GoodField, Emits, Alone, AloneDesc, ReadAs, TypedSlot, TypedValue;
    var slot, member := LoadField(mem, st, md, msg, k, at, sizeAt);
    AloneEncodes(md, msg, k, slot, member);
    AloneFirst(md.fields[k]);
    ok := EncodeBasicField(stream, AloneDesc(md.fields[k]), Alone(md.fields[k], slot, member), 0);
  }

  lemma AloneFirst(fd: FieldDesc)
    ensures |AloneDesc(fd).fields| == 1
  {
  }

  lemma FieldFirst(md: MsgDesc, msg: Msg, k: nat)
    requires k < |md.fields|
    ensures EncFrom(md, msg, k) == EncField(md, msg, k) + EncFrom(md, msg, k + 1)
    ensures GoodFrom(md, msg, k) <==> GoodField(md, msg, k) && GoodFrom(md, msg, k + 1)
  {
  }

  lemma FromFirst(md: MsgDesc, msg: Msg)
    ensures Enc(md, msg) == EncFrom(md, msg, 0) && GoodMsg(md, msg) == GoodFrom(md, msg, 0)
    ensures EncFrom(md, msg, |md.fields|) == [] && GoodFrom(md, msg, |md.fields|)
  {
  }

  lemma SoFar(a: StreamState, b: StreamState, done: seq<byte>)
    requires Emits(a, b, done, true, true)
    ensures b.bytesWritten == a.bytesWritten + |done|
  {
  }

  lemma FieldOfStruct(mem: Memory, st: StructType, md: MsgDesc, msg: Msg, at: int, k: nat)
    requires Describes(st, md) && MsgLies(mem, st, md, msg, at, true) && k < |md.fields|
    ensures k < |st.nested| && (md.fields[k].ltype.LSubmessage? ==> Describes(st.nested[k], md.fields[k].sub))
    ensures var f := at + FieldAt(st.layout, k, true);
            FieldLies(mem, st.nested[k], md, msg, k, f, f + st.layout.SizeOffset(k), true)
  {
  }

  lemma SameCount(st: StructType, md: MsgDesc)
    requires Describes(st, md)
    ensures st.layout.Ok() && |st.layout.members| == |md.fields|
  {
  }

  /** pb_encode with its iterator, on a struct in memory. */
  method EncodeStruct(stream: OStream, mem: Memory, st: StructType, md: MsgDesc, at: int, ghost msg: Msg)
    returns (ok: bool)
    requires stream.Valid() && DescOk(md) && TypedMsg(md, msg) && stream.bytesWritten + |Enc(md, msg)| < SIZE_MOD
    requires Describes(st, md) && at > 0 && MsgLies(mem, st, md, msg, at, true)
    modifies stream, stream.buf
    ensures stream.Valid()
    ensures Emits(old(stream.State()), stream.State(), Enc(md, msg), GoodMsg(md, msg), ok)
  {
    hide DescOk, TypedMsg, MsgLies, FieldLies, Describes, FieldAt, EncField, GoodField, EncFrom, GoodFrom;
    hide PbFieldIter.FieldIter.At, PbFieldIter.Layout.Ok, PbFieldIter.Layout.Table, Emits;
    SameCount(st, md);
    FromFirst(md, msg);
    ghost var a := stream.State();
    ghost var done: seq<byte> := [];
    EmitsNothing(a);
    var iter := new PbFieldIter.FieldIter(st.layout, at);
    var more := iter.Begin();
    ghost var k := 0;
    while more
      invariant iter.layout == st.layout && iter.destStruct == at && iter.At(if more then k else 0)
      invariant stream.Valid() && k <= |md.fields| && (more <==> k < |md.fields|)
      invariant Enc(md, msg) == done + EncFrom(md, msg, k)
      invariant GoodMsg(md, msg) == GoodFrom(md, msg, k)
      invariant Emits(a, stream.State(), done, true, true)
      decreases |md.fields| - k
    {
      ghost var b := stream.State();
      ghost var rest := EncFrom(md, msg, k + 1);
      StandsAt(iter, st, md, k);
      FieldOfStruct(mem, st, md, msg, at, k);
      FieldFirst(md, msg, k);
      SoFar(a, b, done);
      ok := EncodeFieldAt(stream, mem, st.nested[iter.pos], md, msg, iter.pos, iter.pData,
                          iter.pData + iter.start[iter.pos].sizeOffset);
      EmitsRound(a, b, stream.State(), done, EncField(md, msg, k), rest, GoodField(md, msg, k),
                 GoodFrom(md, msg, k + 1), ok);
      if !ok {
        return;
      }
      done := done + EncField(md, msg, k);
      more := iter.Next(k);
      k := k + 1;
    }
    assert done + [] == done;
    return true;
  }
}
