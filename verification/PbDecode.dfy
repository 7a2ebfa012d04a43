/** A reader for messages written from the Protocol Buffers "Encoding" guide: records are
    a key and a payload, unknown records are skipped, a later scalar replaces an earlier
    one, submessages merge, and repeated fields collect packed and unpacked entries. */
module PbDecode {
  import opened Prelude
  import opened PbWire
  import opened PbMessage

  // --------------------------------------------------------- initial structs

  function Zeros(n: nat): (r: seq<byte>)
    ensures |r| == n
  {
    seq(n, i => 0)
  }

  /** What a zero-filled struct holds for the field. */
  function DefaultValue(fd: FieldDesc): Value
    decreases fd, 0
  {
    match fd.ltype
    case LBool => Bool(false)
    case LBytes => Bytes([])
    case LString | LFixedBytes => Bytes(Zeros(fd.dataSize))
    case LSubmessage => Sub(DefaultMsg(fd.sub))
    case _ => Num(0)
  }

  function DefaultSlot(fd: FieldDesc): Slot
    decreases fd, 1
  {
    match fd.htype
    case Required | Optional => Single(false, DefaultValue(fd))
    case Repeated => Array([])
    case OneOf(_) => InUnion
  }

  const NO_UNION := Union(0, Bool(false))

  function DefaultMsg(md: MsgDesc): (r: Msg)
    decreases md, 2
  {
    Msg(seq(|md.fields|, k requires 0 <= k < |md.fields| => DefaultSlot(md.fields[k])),
        seq(md.unions, u => NO_UNION))
  }

  // ---------------------------------------------------------------- records

  datatype Payload = PVarint(n: nat) | PI64(n: nat) | PI32(n: nat) | PLen(bs: seq<byte>) {
    function Size(): nat {
      if PLen? then |bs| else 0
    }
  }

  /** The wire types are the numbers of the guide's table. */
  function ReadPayload(wireType: nat, bs: seq<byte>): (r: Option<(Payload, seq<byte>)>)
    ensures r.Some? ==> r.value.0.Size() <= |bs| && |r.value.1| <= |bs|
  {
    if wireType == 0 then
      match ParseVarint(bs)
      case None => None
      case Some((n, rest)) => Some((PVarint(n), rest))
    else if wireType == 1 then
      if |bs| < 8 then None else Some((PI64(UnFixed(bs[..8])), bs[8..]))
    else if wireType == 5 then
      if |bs| < 4 then None else Some((PI32(UnFixed(bs[..4])), bs[4..]))
    else if wireType == 2 then
      match ParseVarint(bs)
      case None => None
      case Some((n, rest)) => if n > |rest| then None else Some((PLen(rest[..n]), rest[n..]))
    else None
  }

  /** The stored integer of the field's size that a 64-bit pattern stands for. */
  function ToSigned(n: nat, size: nat): int {
    var h := HalfRange(size);
    if h <= 0 then 0
    else
      var low := n % (2 * h);
      if low < h then low else low - 2 * h
  }

  function DecodeNum(fd: FieldDesc, p: Payload): Option<Value> {
    match (fd.ltype, p)
    case (LBool, PVarint(n)) => Some(Bool(n != 0))
    case (LVarint, PVarint(n)) => Some(Num(ToSigned(n, fd.dataSize)))
    case (LUvarint, PVarint(n)) =>
      if HalfRange(fd.dataSize) <= 0 then None else Some(Num(n % (2 * HalfRange(fd.dataSize))))
    case (LSvarint, PVarint(n)) => Some(Num(UnZigZag(n)))
    case (LFixed32, PI32(n)) => Some(Num(n))
    case (LFixed64, PI64(n)) => Some(Num(n))
    case _ => None
  }

  /** How the entries of a packed payload are written. */
  function ScalarWireType(l: LType): nat {
    match l
    case LFixed64 => 1
    case LFixed32 => 5
    case _ => 0
  }

  /** The entries of a packed payload. */
  function DecodePacked(fd: FieldDesc, bs: seq<byte>): Option<seq<Value>>
    decreases |bs|
  {
    if bs == [] then Some([])
    else
      match ReadPayload(ScalarWireType(fd.ltype), bs)
      case None => None
      case Some((p, rest)) =>
        if |rest| >= |bs| then None
        else
          match (DecodeNum(fd, p), DecodePacked(fd, rest))
          case (Some(v), Some(vs)) => Some([v] + vs)
          case _ => None
  }

  /** A value read from its payload; a submessage merges into what is already there. */
  function DecodeValue(fd: FieldDesc, p: Payload, cur: Value): Option<Value>
    decreases p.Size(), 1
  {
    if fd.ltype.Packable() then DecodeNum(fd, p)
    else if !p.PLen? then None
    else
      match fd.ltype
      case LString => if |p.bs| > fd.dataSize then None else Some(Bytes(p.bs + Zeros(fd.dataSize - |p.bs|)))
      case LFixedBytes => if |p.bs| != fd.dataSize then None else Some(Bytes(p.bs))
      case LSubmessage =>
        if !cur.Sub? then None
        else
          (match Decode(fd.sub, cur.msg, p.bs)
           case None => None
           case Some(m) => Some(Sub(m)))
      case _ => if |p.bs| + fd.bytesOffset > fd.dataSize then None else Some(Bytes(p.bs))
  }

  /** The field with this tag, or |fields| when there is none. */
  function FindField(md: MsgDesc, tag: nat, from: nat): (k: nat)
    requires from <= |md.fields|
    ensures from <= k <= |md.fields|
    ensures k < |md.fields| ==> md.fields[k].tag == tag
    ensures forall j :: from <= j < k ==> md.fields[j].tag != tag
    decreases |md.fields| - from
  {
    if from == |md.fields| || md.fields[from].tag == tag then from else FindField(md, tag, from + 1)
  }

  /** The struct after a record for field k has been read. */
  function Store(md: MsgDesc, msg: Msg, k: nat, wireType: nat, p: Payload): Option<Msg>
    requires k < |md.fields|
    decreases p.Size(), 2
  {
    var fd := md.fields[k];
    if k >= |msg.slots| then None
    else
      match msg.slots[k]
      case Single(_, cur) =>
        (match DecodeValue(fd, p, cur)
         case None => None
         case Some(v) => Some(PutSingle(md, msg, k, v)))
      case Array(elems) =>
        if fd.ltype.Packable() && wireType == 2 then
          if !p.PLen? then None
          else
            (match DecodePacked(fd, p.bs)
             case None => None
             case Some(vs) => Append(md, msg, k, vs))
        else
          (match DecodeValue(fd, p, DefaultValue(fd))
           case None => None
           case Some(v) => Append(md, msg, k, [v]))
      case InUnion =>
        if !fd.htype.OneOf? || fd.htype.union >= |msg.unions| then None
        else
          var u := msg.unions[fd.htype.union];
          match DecodeValue(fd, p, if u.which == fd.tag then u.value else DefaultValue(fd))
          case None => None
          case Some(v) => Some(PutUnion(md, msg, k, v))
  }

  function PutSingle(md: MsgDesc, msg: Msg, k: nat, v: Value): Msg
    requires k < |md.fields| && k < |msg.slots|
  {
    msg.(slots := msg.slots[k := Single(md.fields[k].sizeOffset, v)])
  }

  function Append(md: MsgDesc, msg: Msg, k: nat, vs: seq<Value>): Option<Msg>
    requires k < |md.fields| && k < |msg.slots| && msg.slots[k].Array?
  {
    var elems := msg.slots[k].elems + vs;
    if |elems| > md.fields[k].arraySize then None else Some(msg.(slots := msg.slots[k := Array(elems)]))
  }

  function PutUnion(md: MsgDesc, msg: Msg, k: nat, v: Value): Msg
    requires k < |md.fields| && md.fields[k].htype.OneOf? && md.fields[k].htype.union < |msg.unions|
  {
    msg.(unions := msg.unions[md.fields[k].htype.union := Union(md.fields[k].tag, v)])
  }

  /** Reads all records of bs into the struct. */
  function Decode(md: MsgDesc, msg: Msg, bs: seq<byte>): Option<Msg>
    decreases |bs|, 0
  {
    if bs == [] then Some(msg)
    else
      match ParseVarint(bs)
      case None => None
      case Some((key, r1)) =>
        match ReadPayload(key % 8, r1)
        case None => None
        case Some((p, r2)) =>
          var k := FindField(md, key / 8, 0);
          if k == |md.fields| then Decode(md, msg, r2)
          else
            match Store(md, msg, k, key % 8, p)
            case None => None
            case Some(m) => Decode(md, m, r2)
  }
}
