/** A message, or a struct in memory, through a buffer: what pb_encode leaves in it is read back as the message. */
module PbMessageIO {
  import opened Prelude
  import opened PbWire
  import opened PbMessage
  import opened PbStream
  import opened PbEncode
  import opened PbDecode
  import opened PbRoundTrip
  import opened PbStruct

  /** Encoding into a buffer and reading it back gives the message without what C ignores. */
  method EncodeAndReadBack(md: MsgDesc, msg: Msg, target: array<byte>) returns (ok: bool, stream: OStream)
    requires DescOk(md) && TypedMsg(md, msg) && |Enc(md, msg)| < U64 && target.Length < SIZE_MOD
    modifies target
    ensures ok <==> GoodMsg(md, msg) && |Enc(md, msg)| <= target.Length
    ensures ok ==> stream.bytesWritten <= target.Length
    ensures ok ==> Decode(md, DefaultMsg(md), target[..stream.bytesWritten]) == Some(CanonMsg(md, msg))
  {
    ok, stream := EncodeToBuffer(md, msg, target);
    if ok {
      RoundTrip(md, msg);
      assert target[..stream.bytesWritten] == Enc(md, msg);
    }
  }

  /** The same from the bytes of a struct in which no padding clashes with the marker: iterators, encoder, buffer and
      reader together give back the message that is stored there. */
  method EncodeStructAndReadBack(mem: Memory, st: StructType, md: MsgDesc, at: int, ghost msg: Msg,
                                 target: array<byte>) returns (ok: bool, stream: OStream)
    requires DescOk(md) && TypedMsg(md, msg) && |Enc(md, msg)| < U64 && target.Length < SIZE_MOD
    requires Describes(st, md) && NoClash(st) && at > 0 && MsgLies(mem, st, md, msg, at, false)
    modifies target
    ensures ok <==> GoodMsg(md, msg) && |Enc(md, msg)| <= target.Length
    ensures ok ==> stream.bytesWritten <= target.Length
    ensures ok ==> Decode(md, DefaultMsg(md), target[..stream.bytesWritten]) == Some(CanonMsg(md, msg))
  {
    hide DescOk, TypedMsg, Describes, NoClash, MsgLies, Enc, GoodMsg, Decode;
    MsgReported(mem, st, md, msg, at);
    stream := new OStream.FromBuffer(target, 0, target.Length);
    ghost var before := target[..];
    ok := EncodeStruct(stream, mem, st, md, at, msg);
    if ok {
      RoundTrip(md, msg);
      ghost var e := Enc(md, msg);
      assert e[..|e|] == e;
      assert Splice(before, 0, e) == e + before[|e|..];
      assert target[..stream.bytesWritten] == e;
    }
  }
}
