/** nanopb's view of a message: a table of field descriptors beside the struct it
    describes, both as finite trees (static allocation only), and the bytes that
    stand for such a message on the wire. */
module PbMessage {
  import opened PbWire

  // ------------------------------------------------------------ descriptors

  datatype LType =
    | LBool | LVarint | LUvarint | LSvarint | LFixed32 | LFixed64
    | LBytes | LString | LSubmessage | LFixedBytes
  {
    /** Types up to PB_LTYPE_LAST_PACKABLE. */
    predicate Packable() {
      LBool? || LVarint? || LUvarint? || LSvarint? || LFixed32? || LFixed64?
    }

    /** PB_WT_VARINT, PB_WT_64BIT, PB_WT_STRING or PB_WT_32BIT. */
    function WireType(): (w: nat)
      ensures w < 8
    {
      match this
      case LBool | LVarint | LUvarint | LSvarint => WT_VARINT
      case LFixed64 => WT_64BIT
      case LFixed32 => WT_32BIT
      case LBytes | LString | LSubmessage | LFixedBytes => WT_STRING
    }
  }

  const WT_VARINT: nat := 0
  const WT_64BIT: nat := 1
  const WT_STRING: nat := 2
  const WT_32BIT: nat := 5

  /** Repetition rule; a oneof member names the union it lives in. */
  datatype HType = Required | Optional | Repeated | OneOf(union: nat)

  /** sizeOffset says whether the field has a has_, _count or which_ companion; bytesOffset is
      offsetof(pb_bytes_array_t, bytes), which depends on the size of pb_size_t. */
  datatype FieldDesc = FieldDesc(
    tag: nat, ltype: LType, htype: HType, sizeOffset: bool,
    dataSize: nat, arraySize: nat, bytesOffset: nat, sub: MsgDesc)

  datatype MsgDesc = MsgDesc(fields: seq<FieldDesc>, unions: nat)

  /** What the descriptor macros of pb.h can produce. */
  predicate DescOk(md: MsgDesc) {
    && (forall k :: 0 <= k < |md.fields| ==> FieldOk(md.fields[k]))
    && (forall k :: 0 <= k < |md.fields| && md.fields[k].htype.OneOf? ==> md.fields[k].htype.union < md.unions)
    && (forall j, k :: 0 <= j < k < |md.fields| ==> md.fields[j].tag != md.fields[k].tag)
  }

  predicate FieldOk(fd: FieldDesc) {
    && 1 <= fd.tag < 0x2000_0000
    && (fd.htype.OneOf? ==> fd.sizeOffset)
    && (fd.htype.Required? ==> !fd.sizeOffset)
    && match fd.ltype {
      case LBool => fd.dataSize == 1
      case LVarint | LUvarint | LSvarint => true
      case LFixed32 => fd.dataSize == 4
      case LFixed64 => fd.dataSize == 8
      case LBytes => fd.dataSize >= fd.bytesOffset
      case LString | LFixedBytes => true
      case LSubmessage => DescOk(fd.sub)
    }
  }

  /** The sizes of the C integers that the integer encoders accept. */
  predicate IntSize(size: nat) {
    size == 1 || size == 2 || size == 4 || size == 8
  }

  /** Half the number of values a C integer of this size has. */
  function HalfRange(size: nat): (r: int)
    ensures IntSize(size) ==> 0 < r <= U64 / 2
  {
    if size == 1 then 0x80 else if size == 2 then 0x8000
    else if size == 4 then U32 / 2 else if size == 8 then U64 / 2
    else Pow256(size) / 2
  }

  // ---------------------------------------------------------------- structs

  /** One stored datum. A string is its whole char array; a bytes field is its used part. */
  datatype Value = Bool(b: bool) | Num(n: int) | Bytes(bs: seq<byte>) | Sub(msg: Msg)

  /** One struct member with its companion: a has_ flag, or a count with that many
      entries; the data of a oneof member is in the union it names. */
  datatype Slot = Single(has: bool, value: Value) | Array(elems: seq<Value>) | InUnion

  /** A C union with its which_ selector. */
  datatype Union = Union(which: nat, value: Value)

  datatype Msg = Msg(slots: seq<Slot>, unions: seq<Union>)

  predicate TypedValue(fd: FieldDesc, v: Value)
    decreases v, 0
  {
    match fd.ltype
    case LBool => v.Bool?
    case LVarint | LSvarint => v.Num? && -HalfRange(fd.dataSize) <= v.n < HalfRange(fd.dataSize)
    case LUvarint => v.Num? && 0 <= v.n < 2 * HalfRange(fd.dataSize)
    case LFixed32 => v.Num? && 0 <= v.n < U32
    case LFixed64 => v.Num? && 0 <= v.n < U64
    case LBytes => v.Bytes?
    case LString | LFixedBytes => v.Bytes? && |v.bs| == fd.dataSize
    case LSubmessage => v.Sub? && TypedMsg(fd.sub, v.msg)
  }

  predicate TypedSlot(fd: FieldDesc, s: Slot)
    decreases s, 0
  {
    match fd.htype
    case Required | Optional => s.Single? && TypedValue(fd, s.value)
    case Repeated =>
      && s.Array?
      && (!fd.sizeOffset ==> |s.elems| == fd.arraySize)
      && (forall i :: 0 <= i < |s.elems| ==> TypedValue(fd, s.elems[i]))
    case OneOf(_) => s.InUnion?
  }

  /** The struct has the layout the descriptor table says. */
  predicate TypedMsg(md: MsgDesc, msg: Msg)
    decreases msg, 0
  {
    && |msg.slots| == |md.fields|
    && |msg.unions| == md.unions
    && (forall k :: 0 <= k < |md.fields| ==> TypedSlot(md.fields[k], msg.slots[k]))
    && (forall k :: 0 <= k < |md.fields| && Selected(md, msg, k) ==>
          TypedValue(md.fields[k], msg.unions[md.fields[k].htype.union].value))
  }

  /** Field k is a oneof member and its union currently holds it. */
  predicate Selected(md: MsgDesc, msg: Msg, k: nat)
    requires k < |md.fields|
  {
    && md.fields[k].htype.OneOf?
    && md.fields[k].htype.union < |msg.unions|
    && msg.unions[md.fields[k].htype.union].which == md.fields[k].tag
  }

  // -------------------------------------------- proto3 default suppression

  /** The bytes of a C string: up to the first NUL, or the whole array. */
  function CString(bs: seq<byte>): (r: seq<byte>)
    ensures |r| <= |bs|
    ensures forall i :: 0 <= i < |r| ==> r[i] == bs[i] && r[i] != 0
    ensures |r| < |bs| ==> bs[|r|] == 0
  {
    if bs == [] || bs[0] == 0 then [] else [bs[0]] + CString(bs[1..])
  }

  /** Every field of the message counts as "not set". */
  predicate IsDefaultMsg(md: MsgDesc, msg: Msg)
    decreases msg, 1
  {
    forall k :: 0 <= k < |md.fields| ==> IsDefaultField(md, msg, k)
  }

  predicate IsDefaultField(md: MsgDesc, msg: Msg, k: nat)
    requires k < |md.fields|
    decreases msg, 0
  {
    var fd := md.fields[k];
    if k >= |msg.slots| then false
    else
      match fd.htype
      case Required => false
      case Repeated => fd.sizeOffset && msg.slots[k].Array? && msg.slots[k].elems == []
      case OneOf(u) => u < |msg.unions| && msg.unions[u].which == 0
      case Optional =>
        msg.slots[k].Single? &&
        if fd.sizeOffset then !msg.slots[k].has else IsDefaultValue(fd, msg.slots[k].value)
  }

  predicate IsDefaultValue(fd: FieldDesc, v: Value)
    decreases v, 0
  {
    match v
    case Bool(b) => !b
    case Num(n) => n == 0
    case Bytes(bs) =>
      (match fd.ltype
       case LString => bs == [] || bs[0] == 0
       case LFixedBytes => fd.dataSize == 0
       case _ => bs == [])
    case Sub(msg) => IsDefaultMsg(fd.sub, msg)
  }

  // ------------------------------------------------------------- wire bytes

  function Key(tag: nat, wireType: nat): seq<byte> {
    Varint(tag * 8 + wireType)
  }

  function FieldKey(fd: FieldDesc): seq<byte> {
    Key(fd.tag, fd.ltype.WireType())
  }

  function LenPrefixed(bs: seq<byte>): seq<byte> {
    Varint(|bs|) + bs
  }

  function EncNum(l: LType, n: int): seq<byte> {
    match l
    case LSvarint => Varint(ZigZag(n))
    case LFixed32 => Fixed(n % U32, 4)
    case LFixed64 => Fixed(n % U64, 8)
    case _ => Varint(AsU64(n))
  }

  function EncValue(fd: FieldDesc, v: Value): seq<byte>
    decreases v, 0
  {
    match v
    case Bool(b) => Varint(if b then 1 else 0)
    case Num(n) => EncNum(fd.ltype, n)
    case Bytes(bs) => LenPrefixed(if fd.ltype.LString? then CString(bs) else bs)
    case Sub(msg) => LenPrefixed(EncFrom(fd.sub, msg, 0))
  }

  /** The payload of a packed array. */
  function EncPacked(fd: FieldDesc, elems: seq<Value>): seq<byte>
    decreases elems, 0
  {
    if elems == [] then [] else EncValue(fd, elems[0]) + EncPacked(fd, elems[1..])
  }

  /** One key and value for each entry. */
  function EncUnpacked(fd: FieldDesc, elems: seq<Value>): seq<byte>
    decreases elems, 0
  {
    if elems == [] then [] else FieldKey(fd) + EncValue(fd, elems[0]) + EncUnpacked(fd, elems[1..])
  }

  function EncArray(fd: FieldDesc, elems: seq<Value>): seq<byte>
    decreases elems, 1
  {
    if elems == [] then []
    else if fd.ltype.Packable() then Key(fd.tag, WT_STRING) + LenPrefixed(EncPacked(fd, elems))
    else EncUnpacked(fd, elems)
  }

  /** Is the singular field written at all? */
  predicate Present(fd: FieldDesc, has: bool, v: Value) {
    fd.htype.Required? || if fd.sizeOffset then has else !IsDefaultValue(fd, v)
  }

  function EncField(md: MsgDesc, msg: Msg, k: nat): seq<byte>
    requires k < |md.fields|
    decreases msg, 0
  {
    var fd := md.fields[k];
    if k >= |msg.slots| then []
    else
      match msg.slots[k]
      case Single(has, v) => if Present(fd, has, v) then FieldKey(fd) + EncValue(fd, v) else []
      case Array(elems) => EncArray(fd, elems)
      case InUnion =>
        if Selected(md, msg, k) then FieldKey(fd) + EncValue(fd, msg.unions[fd.htype.union].value) else []
  }

  /** Fields k, k+1, ... one after the other. */
  function EncFrom(md: MsgDesc, msg: Msg, k: nat): seq<byte>
    requires k <= |md.fields|
    decreases msg, 1, |md.fields| - k
  {
    if k == |md.fields| then [] else EncField(md, msg, k) + EncFrom(md, msg, k + 1)
  }

  function Enc(md: MsgDesc, msg: Msg): seq<byte> {
    EncFrom(md, msg, 0)
  }

  // ---------------------------------------------- messages without an error

  /** None of the encoder's own error conditions arises for this value. */
  predicate GoodValue(fd: FieldDesc, v: Value)
    decreases v, 0
  {
    match v
    case Bool(_) => true
    case Num(_) => fd.ltype.LFixed32? || fd.ltype.LFixed64? || IntSize(fd.dataSize)
    case Bytes(bs) => fd.ltype.LBytes? ==> |bs| + fd.bytesOffset <= fd.dataSize
    case Sub(msg) => GoodMsg(fd.sub, msg)
  }

  predicate GoodElems(fd: FieldDesc, elems: seq<Value>)
    decreases elems, 0
  {
    elems == [] || (GoodValue(fd, elems[0]) && GoodElems(fd, elems[1..]))
  }

  predicate GoodArray(fd: FieldDesc, elems: seq<Value>)
    decreases elems, 1
  {
    |elems| == 0 || (|elems| <= fd.arraySize && GoodElems(fd, elems))
  }

  predicate GoodField(md: MsgDesc, msg: Msg, k: nat)
    requires k < |md.fields|
    decreases msg, 0
  {
    var fd := md.fields[k];
    if k >= |msg.slots| then true
    else
      match msg.slots[k]
      case Single(has, v) => Present(fd, has, v) ==> GoodValue(fd, v)
      case Array(elems) => GoodArray(fd, elems)
      case InUnion => Selected(md, msg, k) ==> GoodValue(fd, msg.unions[fd.htype.union].value)
  }

  predicate GoodFrom(md: MsgDesc, msg: Msg, k: nat)
    requires k <= |md.fields|
    decreases msg, 1, |md.fields| - k
  {
    k == |md.fields| || (GoodField(md, msg, k) && GoodFrom(md, msg, k + 1))
  }

  predicate GoodMsg(md: MsgDesc, msg: Msg)
    decreases msg, 2
  {
    GoodFrom(md, msg, 0)
  }
}
