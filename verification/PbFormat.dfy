/** The bytes of a message in the terms of the Protocol Buffers "Encoding" guide, with its numbers written out: which
    key every field type has, how values look, when a field is left out, and in which order fields come. */
module PbFormat {
  import opened Prelude
  import opened PbWire
  import opened PbMessage

  // ---------------------------------------------------------------------- varints

  /** Seven bits a byte, the low group first. */
  function GroupsValue(bs: seq<byte>): nat {
    if bs == [] then 0 else bs[0] % 128 + 128 * GroupsValue(bs[1..])
  }

  /** A varint holds its number in seven-bit groups; every byte but the last says that more follow, and no group is
      wasted. */
  lemma VarintFormat(n: nat)
    ensures var bs := Varint(n);
            && GroupsValue(bs) == n && bs[|bs| - 1] < 128 && (forall i :: 0 <= i < |bs| - 1 ==> bs[i] >= 128)
            && (|bs| > 1 ==> bs[|bs| - 1] != 0)
  {
    hide GroupsValue;
    VarintValue(n);
    VarintFlags(n);
  }

  lemma {:induction false} VarintValue(n: nat)
    ensures GroupsValue(Varint(n)) == n
  {
    var bs := Varint(n);
    if n < 128 {
      assert bs[1..] == [];
    } else {
      VarintValue(n / 128);
      assert bs[1..] == Varint(n / 128);
    }
  }

  lemma {:induction false} VarintFlags(n: nat)
    ensures var bs := Varint(n);
            && bs[|bs| - 1] < 128 && (forall i :: 0 <= i < |bs| - 1 ==> bs[i] >= 128)
            && (n != 0 ==> bs[|bs| - 1] != 0)
  {
    if n >= 128 {
      VarintFlags(n / 128);
      var (bs, rest) := (Varint(n), Varint(n / 128));
      assert bs[1..] == rest;
      assert forall i :: 0 < i < |bs| ==> bs[i] == rest[i - 1];
    }
  }

  // ------------------------------------------------------------------------- keys

  /** Eight times the field number plus 0, 1, 2 or 5. */
  lemma KeyFormat(fd: FieldDesc, rest: seq<byte>)
    requires 1 <= fd.tag < 0x2000_0000
    ensures var w := match fd.ltype {
              case LBool | LVarint | LUvarint | LSvarint => 0
              case LFixed64 => 1
              case LBytes | LString | LSubmessage | LFixedBytes => 2
              case LFixed32 => 5
            };
            FieldKey(fd) == Varint(8 * fd.tag + w) && ParseVarint(FieldKey(fd) + rest) == Some((8 * fd.tag + w, rest))
  {
    VarintRoundTrip(8 * fd.tag + fd.ltype.WireType(), rest);
  }

  // ----------------------------------------------------------------------- values

  /** A bool is one byte; an integer is a varint, a negative one that of its 64-bit two's complement; an sint is
      folded so that small numbers of either sign stay short. */
  lemma VarintValues(fd: FieldDesc, b: bool, n: int)
    requires -0x8000_0000_0000_0000 <= n < 0x1_0000_0000_0000_0000
    ensures EncValue(fd, Bool(b)) == [if b then 1 else 0]
    ensures fd.ltype.LVarint? || fd.ltype.LUvarint? ==>
              EncValue(fd, Num(n)) == Varint(if n >= 0 then n else n + 0x1_0000_0000_0000_0000)
    ensures fd.ltype.LSvarint? ==> EncValue(fd, Num(n)) == Varint(if n >= 0 then 2 * n else -2 * n - 1)
  {
    SixtyFourBits(n);
    hide AsU64;
    assert fd.ltype.LVarint? || fd.ltype.LUvarint? ==> EncValue(fd, Num(n)) == Varint(AsU64(n));
    assert fd.ltype.LSvarint? ==> EncValue(fd, Num(n)) == Varint(ZigZag(n));
    assert EncValue(fd, Bool(b)) == Varint(if b then 1 else 0);
  }

  lemma SixtyFourBits(n: int)
    requires -0x8000_0000_0000_0000 <= n < 0x1_0000_0000_0000_0000
    ensures AsU64(n) == if n >= 0 then n else n + 0x1_0000_0000_0000_0000
  {
  }

  /** Fixed-width numbers are four or eight bytes, the low byte first. */
  lemma FixedValues(fd: FieldDesc, n: nat, i: nat)
    requires n < (if fd.ltype.LFixed32? then 0x1_0000_0000 else 0x1_0000_0000_0000_0000)
    ensures fd.ltype.LFixed32? ==> |EncValue(fd, Num(n))| == 4
    ensures fd.ltype.LFixed64? ==> |EncValue(fd, Num(n))| == 8
    ensures (fd.ltype.LFixed32? && i < 4) || (fd.ltype.LFixed64? && i < 8) ==>
              EncValue(fd, Num(n))[i] == n / Pow256(i) % 256
  {
    hide Pow256, Fixed, EncValue;
    FixedIs(fd, n);
    if fd.ltype.LFixed32? && i < 4 { FixedByte(n, 4, i); }
    if fd.ltype.LFixed64? && i < 8 { FixedByte(n, 8, i); }
  }

  lemma FixedIs(fd: FieldDesc, n: nat)
    requires n < (if fd.ltype.LFixed32? then 0x1_0000_0000 else 0x1_0000_0000_0000_0000)
    ensures fd.ltype.LFixed32? ==> EncValue(fd, Num(n)) == Fixed(n, 4)
    ensures fd.ltype.LFixed64? ==> EncValue(fd, Num(n)) == Fixed(n, 8)
  {
    hide Fixed;
  }

  lemma {:induction false} FixedByte(n: nat, width: nat, i: nat)
    requires i < width
    ensures Fixed(n, width)[i] == n / Pow256(i) % 256
    decreases i
  {
    if i > 0 {
      FixedByte(n / 256, width - 1, i - 1);
      DivideTwice(n, Pow256(i - 1));
    }
  }

  lemma DivideTwice(n: nat, p: nat)
    requires p > 0
    ensures n / 256 / p == n / (256 * p)
  {
    var q, r := n / 256, n % 256;
    var a, b := q / p, q % p;
    assert n == 256 * (a * p + b) + r;
    assert n == (256 * p) * a + (256 * b + r);
    assert 0 <= 256 * b + r < 256 * p;
    QuotientIs(n, 256 * p, a, 256 * b + r);
  }

  lemma QuotientIs(n: nat, d: nat, q: nat, r: nat)
    requires d > 0 && n == d * q + r && r < d
    ensures n / d == q
  {
    var q', r' := n / d, n % d;
    assert d * (q' - q) == r - r';
    if q' > q { AtLeast(d, q' - q); }
    if q' < q { AtLeast(d, q - q'); }
  }

  lemma AtLeast(d: nat, x: nat)
    requires x >= 1
    ensures d * x >= d
  {
  }

  /** Bytes, strings and submessages come after their length; a string ends before its first NUL. */
  lemma LengthPrefixed(fd: FieldDesc, bs: seq<byte>, m: Msg, k: nat)
    ensures !fd.ltype.LString? ==> EncValue(fd, Bytes(bs)) == Varint(|bs|) + bs
    ensures fd.ltype.LString? && k <= |bs| && (k == |bs| || bs[k] == 0) && (forall i :: 0 <= i < k ==> bs[i] != 0) ==>
              EncValue(fd, Bytes(bs)) == Varint(k) + bs[..k]
    ensures EncValue(fd, Sub(m)) == Varint(|Enc(fd.sub, m)|) + Enc(fd.sub, m)
  {
    if fd.ltype.LString? && k <= |bs| && (k == |bs| || bs[k] == 0) && (forall i :: 0 <= i < k ==> bs[i] != 0) {
      CStringEnds(bs, k);
    }
  }

  lemma {:induction false} CStringEnds(bs: seq<byte>, k: nat)
    requires k <= |bs| && (k == |bs| || bs[k] == 0) && forall i :: 0 <= i < k ==> bs[i] != 0
    ensures CString(bs) == bs[..k]
    decreases k
  {
    if k > 0 {
      CStringEnds(bs[1..], k - 1);
      assert bs[..k] == [bs[0]] + bs[1..][..k - 1];
    }
  }

  // ----------------------------------------------------------------------- fields

  function Concat(parts: seq<seq<byte>>): seq<byte> {
    if parts == [] then [] else parts[0] + Concat(parts[1..])
  }

  function Values(fd: FieldDesc, vs: seq<Value>): (parts: seq<seq<byte>>)
    ensures |parts| == |vs|
  {
    seq(|vs|, i requires 0 <= i < |vs| => EncValue(fd, vs[i]))
  }

  function Records(fd: FieldDesc, vs: seq<Value>): (parts: seq<seq<byte>>)
    ensures |parts| == |vs|
  {
    seq(|vs|, i requires 0 <= i < |vs| => FieldKey(fd) + EncValue(fd, vs[i]))
  }

  /** A required field is always sent, an optional one with a has flag when that is set, and a selected union member
      whatever its value. */
  lemma FlaggedFields(md: MsgDesc, msg: Msg, k: nat)
    requires DescOk(md) && TypedMsg(md, msg) && k < |md.fields|
    ensures var fd, s := md.fields[k], msg.slots[k];
            && (fd.htype.Required? ==> s.Single? && EncField(md, msg, k) == FieldKey(fd) + EncValue(fd, s.value))
            && (fd.htype.Optional? && fd.sizeOffset ==>
                  s.Single? && EncField(md, msg, k) == if s.has then FieldKey(fd) + EncValue(fd, s.value) else [])
            && (fd.htype.OneOf? ==>
                  var u := msg.unions[fd.htype.union];
                  EncField(md, msg, k) == if u.which == fd.tag then FieldKey(fd) + EncValue(fd, u.value) else [])
  {
    assert FieldOk(md.fields[k]) && TypedSlot(md.fields[k], msg.slots[k]);
    assert md.fields[k].htype.OneOf? ==> md.fields[k].htype.union < md.unions;
  }

  /** False, zero, no bytes, or a string that starts with its NUL. */
  predicate IsZero(fd: FieldDesc, v: Value) {
    match v
    case Bool(b) => !b
    case Num(n) => n == 0
    case Bytes(bs) =>
      if fd.ltype.LString? then bs == [] || bs[0] == 0
      else if fd.ltype.LFixedBytes? then fd.dataSize == 0
      else bs == []
    case Sub(m) => IsDefaultMsg(fd.sub, m)
  }

  /** A proto3 field without a flag is left out exactly when it holds false, zero, no bytes, an empty string or a
      message that counts as default; an array of fixed length never is. */
  lemma UnflaggedFields(md: MsgDesc, msg: Msg, k: nat)
    requires DescOk(md) && TypedMsg(md, msg) && k < |md.fields|
    requires md.fields[k].htype.Optional? && !md.fields[k].sizeOffset
    ensures var fd, s := md.fields[k], msg.slots[k];
            && s.Single?
            && EncField(md, msg, k) == if IsZero(fd, s.value) then [] else FieldKey(fd) + EncValue(fd, s.value)
  {
    assert FieldOk(md.fields[k]) && TypedSlot(md.fields[k], msg.slots[k]);
  }

  /** An empty array is left out. Numbers and bools are packed behind one key of type 2 and a length; anything else
      is sent entry by entry, each behind its own key. */
  lemma ArrayFields(md: MsgDesc, msg: Msg, k: nat)
    requires DescOk(md) && TypedMsg(md, msg) && k < |md.fields| && md.fields[k].htype.Repeated?
    ensures msg.slots[k].Array?
    ensures var fd, vs := md.fields[k], msg.slots[k].elems;
            && (vs == [] ==> EncField(md, msg, k) == [])
            && (vs != [] && (fd.ltype.LBool? || fd.ltype.LVarint? || fd.ltype.LUvarint? || fd.ltype.LSvarint?
                             || fd.ltype.LFixed32? || fd.ltype.LFixed64?) ==>
                  var payload := Concat(Values(fd, vs));
                  EncField(md, msg, k) == Varint(8 * fd.tag + 2) + (Varint(|payload|) + payload))
            && (fd.ltype.LBytes? || fd.ltype.LString? || fd.ltype.LSubmessage? || fd.ltype.LFixedBytes? ==>
                  EncField(md, msg, k) == Concat(Records(fd, vs)))
  {
    var fd := md.fields[k];
    assert TypedSlot(fd, msg.slots[k]);
    var vs := msg.slots[k].elems;
    PackedIsConcat(fd, vs);
    UnpackedIsConcat(fd, vs);
  }

  lemma {:induction false} PackedIsConcat(fd: FieldDesc, vs: seq<Value>)
    ensures EncPacked(fd, vs) == Concat(Values(fd, vs))
    decreases |vs|
  {
    if vs != [] {
      PackedIsConcat(fd, vs[1..]);
      assert Values(fd, vs)[1..] == Values(fd, vs[1..]);
    }
  }

  lemma {:induction false} UnpackedIsConcat(fd: FieldDesc, vs: seq<Value>)
    ensures EncUnpacked(fd, vs) == Concat(Records(fd, vs))
    decreases |vs|
  {
    if vs != [] {
      UnpackedIsConcat(fd, vs[1..]);
      assert Records(fd, vs)[1..] == Records(fd, vs[1..]);
    }
  }

  // --------------------------------------------------------------------- messages

  function Fields(md: MsgDesc, msg: Msg): (parts: seq<seq<byte>>)
    ensures |parts| == |md.fields|
  {
    seq(|md.fields|, k requires 0 <= k < |md.fields| => EncField(md, msg, k))
  }

  /** The fields come one after the other, in the order of the table. */
  lemma MessageFormat(md: MsgDesc, msg: Msg)
    ensures Enc(md, msg) == Concat(Fields(md, msg))
  {
    FromIsConcat(md, msg, 0);
    assert Fields(md, msg)[0..] == Fields(md, msg);
  }

  lemma {:induction false} FromIsConcat(md: MsgDesc, msg: Msg, k: nat)
    requires k <= |md.fields|
    ensures EncFrom(md, msg, k) == Concat(Fields(md, msg)[k..])
    decreases |md.fields| - k
  {
    hide EncField;
    if k < |md.fields| {
      FromIsConcat(md, msg, k + 1);
      assert Fields(md, msg)[k..][1..] == Fields(md, msg)[k + 1..];
    }
  }

  // ----------------------------------------------------------------------- errors

  /** The encoder's own errors: an integer whose C size is not 1, 2, 4 or 8, and bytes that do not fit their array. */
  lemma ValueErrors(fd: FieldDesc, v: Value)
    requires TypedValue(fd, v)
    ensures GoodValue(fd, v) <==>
              match v {
                case Num(_) =>
                  fd.ltype.LFixed32? || fd.ltype.LFixed64?
                  || fd.dataSize == 1 || fd.dataSize == 2 || fd.dataSize == 4 || fd.dataSize == 8
                case Bytes(bs) => !fd.ltype.LBytes? || |bs| + fd.bytesOffset <= fd.dataSize
                case Sub(m) => GoodMsg(fd.sub, m)
                case Bool(_) => true
              }
  {
  }

  /** Nothing that is sent for the field is in error: an array has room for its entries, and all values are good. */
  predicate FieldFits(md: MsgDesc, msg: Msg, k: nat)
    requires k < |md.fields|
  {
    var fd := md.fields[k];
    && k < |msg.slots|
    && match fd.htype {
      case Repeated =>
        && msg.slots[k].Array?
        && (msg.slots[k].elems == [] || (|msg.slots[k].elems| <= fd.arraySize &&
                                         forall v :: v in msg.slots[k].elems ==> GoodValue(fd, v)))
      case OneOf(u) =>
        u < |msg.unions| && (msg.unions[u].which == fd.tag ==> GoodValue(fd, msg.unions[u].value))
      case _ => msg.slots[k].Single? && (EncField(md, msg, k) != [] ==> GoodValue(fd, msg.slots[k].value))
    }
  }

  /** A message is in error exactly when one of its fields is. */
  lemma MessageErrors(md: MsgDesc, msg: Msg)
    requires DescOk(md) && TypedMsg(md, msg)
    ensures GoodMsg(md, msg) <==> forall k :: 0 <= k < |md.fields| ==> FieldFits(md, msg, k)
  {
    hide FieldFits, DescOk, TypedMsg, GoodMsg;
    GoodIsFrom(md, msg);
    if GoodMsg(md, msg) {
      forall k | 0 <= k < |md.fields| ensures FieldFits(md, msg, k) {
        GoodAt(md, msg, 0, k);
        FieldErrors(md, msg, k);
      }
    }
    if forall k :: 0 <= k < |md.fields| ==> FieldFits(md, msg, k) { AllFit(md, msg, 0); }
  }

  lemma GoodIsFrom(md: MsgDesc, msg: Msg)
    ensures GoodMsg(md, msg) <==> GoodFrom(md, msg, 0)
  {
  }

  lemma FieldErrors(md: MsgDesc, msg: Msg, k: nat)
    requires DescOk(md) && TypedMsg(md, msg) && k < |md.fields|
    ensures GoodField(md, msg, k) <==> FieldFits(md, msg, k)
  {
    var fd := md.fields[k];
    assert FieldOk(fd) && TypedSlot(fd, msg.slots[k]);
    assert fd.htype.OneOf? ==> fd.htype.union < md.unions;
    KeyNotEmpty(fd);
    if fd.htype.Repeated? { GoodElemsAll(fd, msg.slots[k].elems); }
    hide GoodValue, FieldOk, TypedValue, EncValue, EncArray, FieldKey, IsDefaultValue;
  }

  lemma KeyNotEmpty(fd: FieldDesc)
    ensures |FieldKey(fd)| > 0
  {
  }

  lemma {:induction false} GoodElemsAll(fd: FieldDesc, vs: seq<Value>)
    ensures GoodElems(fd, vs) <==> forall v :: v in vs ==> GoodValue(fd, v)
    decreases |vs|
  {
    if vs != [] {
      GoodElemsAll(fd, vs[1..]);
      assert GoodElems(fd, vs) <==> GoodValue(fd, vs[0]) && GoodElems(fd, vs[1..]);
      if GoodElems(fd, vs) {
        forall v | v in vs ensures GoodValue(fd, v) {
          var i :| 0 <= i < |vs| && vs[i] == v;
          if i == 0 {
            assert GoodValue(fd, vs[0]);
          } else {
            assert v == vs[1..][i - 1] && v in vs[1..];
            assert GoodElems(fd, vs[1..]);
          }
        }
      }
      if forall v :: v in vs ==> GoodValue(fd, v) {
        assert GoodValue(fd, vs[0]);
        forall v | v in vs[1..] ensures GoodValue(fd, v) {}
      }
    }
  }

  lemma {:induction false} GoodAt(md: MsgDesc, msg: Msg, k: nat, j: nat)
    requires k <= j < |md.fields| && GoodFrom(md, msg, k)
    ensures GoodField(md, msg, j)
    decreases |md.fields| - k
  {
    GoodFirst(md, msg, k);
    if k < j { GoodAt(md, msg, k + 1, j); }
  }

  lemma {:induction false} AllFit(md: MsgDesc, msg: Msg, k: nat)
    requires DescOk(md) && TypedMsg(md, msg)
    requires k <= |md.fields| && forall j :: k <= j < |md.fields| ==> FieldFits(md, msg, j)
    ensures GoodFrom(md, msg, k)
    decreases |md.fields| - k
  {
    hide DescOk, TypedMsg, FieldFits;
    if k < |md.fields| {
      AllFit(md, msg, k + 1);
      FieldErrors(md, msg, k);
      GoodFirst(md, msg, k);
    }
  }

  lemma GoodFirst(md: MsgDesc, msg: Msg, k: nat)
    requires k < |md.fields|
    ensures GoodFrom(md, msg, k) <==> GoodField(md, msg, k) && GoodFrom(md, msg, k + 1)
  {
  }
}
