/** The output streams of pb_encode.c: the writing kind, bounded and over a buffer, and
    the sizing kind, which only counts. */
module PbStream {
  import opened Prelude
  import opened PbWire

  /** size_t is taken to be 64 bits wide. */
  const SIZE_MOD: int := U64

  datatype PbError = StreamFull | ArrayMaxSizeExceeded | InvalidDataSize | BytesSizeExceeded

  // ------------------------------------------------- what a call does, as values

  /** A stream with the memory behind it; a sizing stream has no memory. */
  datatype StreamState = StreamState(
    sizing: bool, start: nat, maxSize: nat, bytesWritten: nat, mem: seq<byte>, err: Option<PbError>)

  /** data written over mem from position at on. */
  function Splice(mem: seq<byte>, at: nat, data: seq<byte>): (r: seq<byte>)
    requires at + |data| <= |mem|
    ensures |r| == |mem|
  {
    mem[..at] + data + mem[at + |data|..]
  }

  /** There is room for n more bytes. */
  predicate Fits(s: StreamState, n: nat) {
    s.sizing || s.bytesWritten + n <= s.maxSize
  }

  /** The call took the stream from a to b while encoding e: it succeeded exactly when the
      data is good and there was room, and then all of e went out. On failure a prefix of e
      went out. Nothing else in memory changed. A full stream is the only error that good
      data can meet. */
  predicate Emits(a: StreamState, b: StreamState, e: seq<byte>, good: bool, ok: bool) {
    && b.sizing == a.sizing && b.start == a.start && b.maxSize == a.maxSize
    && a.bytesWritten <= b.bytesWritten <= a.bytesWritten + |e|
    && |b.mem| == |a.mem|
    && (ok <==> good && Fits(a, |e|))
    && (ok ==> b.bytesWritten == a.bytesWritten + |e|)
    && (!a.sizing ==>
          && a.start + b.bytesWritten <= |a.mem|
          && b.mem == Splice(a.mem, a.start + a.bytesWritten, e[..b.bytesWritten - a.bytesWritten]))
    && (good && !ok && a.err == None ==> b.err == Some(StreamFull))
    && (ok && a.err == None ==> b.err == None)
  }

  lemma EmitsNothing(a: StreamState)
    requires a.sizing || (a.bytesWritten <= a.maxSize && a.start + a.bytesWritten <= |a.mem|)
    ensures Emits(a, a, [], true, true)
  {
    if !a.sizing {
      assert Splice(a.mem, a.start + a.bytesWritten, []) == a.mem;
    }
  }

  /** Writing one text and then another right behind it writes both. */
  lemma SpliceTwice(mem: seq<byte>, at: nat, x: seq<byte>, y: seq<byte>)
    requires at + |x| + |y| <= |mem|
    ensures Splice(Splice(mem, at, x), at + |x|, y) == Splice(mem, at, x + y)
  {
    var once, both := Splice(mem, at, x), Splice(mem, at, x + y);
    assert once[..at + |x|] == mem[..at] + x;
    assert once[at + |x| + |y|..] == mem[at + |x| + |y|..];
  }

  /** Two successful calls in a row, or a success and a failure, encode the concatenation. */
  lemma EmitsThen(a: StreamState, b: StreamState, c: StreamState,
                  e1: seq<byte>, e2: seq<byte>, good1: bool, good2: bool, ok: bool)
    requires Emits(a, b, e1, good1, true) && Emits(b, c, e2, good2, ok)
    ensures Emits(a, c, e1 + e2, good1 && good2, ok)
  {
    if !a.sizing {
      var at := a.start + a.bytesWritten;
      var out := e2[..c.bytesWritten - b.bytesWritten];
      assert e1[..|e1|] == e1;
      assert (e1 + e2)[..c.bytesWritten - a.bytesWritten] == e1 + out;
      hide Splice;
      SpliceTwice(a.mem, at, e1, out);
    }
  }

  /** When the first of two calls fails, the second is never made. */
  lemma EmitsStop(a: StreamState, b: StreamState, e1: seq<byte>, e2: seq<byte>, good1: bool, good2: bool)
    requires Emits(a, b, e1, good1, false)
    ensures Emits(a, b, e1 + e2, good1 && good2, false)
  {
    if !a.sizing {
      var n := b.bytesWritten - a.bytesWritten;
      assert (e1 + e2)[..n] == e1[..n];
    }
  }

  /** One round of a loop that has written done and goes on with e and then rest. */
  lemma EmitsRound(a: StreamState, b: StreamState, c: StreamState, done: seq<byte>, e: seq<byte>, rest: seq<byte>,
                   goodE: bool, goodRest: bool, ok: bool)
    requires Emits(a, b, done, true, true) && Emits(b, c, e, goodE, ok)
    ensures done + e + rest == done + (e + rest)
    ensures ok ==> goodE && Emits(a, c, done + e, true, true)
    ensures !ok ==> Emits(a, c, done + (e + rest), goodE && goodRest, false)
  {
    EmitsThen(a, b, c, done, e, true, goodE, ok);
    assert done + e + rest == done + (e + rest);
    if !ok {
      EmitsStop(a, c, done + e, rest, goodE, goodRest);
    }
  }

  /** A rejected datum leaves the stream as it was, but for the error it reports. */
  lemma EmitsError(a: StreamState, b: StreamState, e: seq<byte>)
    requires a.sizing || (a.bytesWritten <= a.maxSize && a.start + a.bytesWritten <= |a.mem|)
    requires b == a.(err := b.err)
    ensures Emits(a, b, e, false, false)
  {
    if !a.sizing {
      assert Splice(a.mem, a.start + a.bytesWritten, []) == a.mem;
    }
  }

  /** What does not fit leaves the stream as it was, with the error it reports. */
  lemma StreamFullEmits(a: StreamState, b: StreamState, e: seq<byte>, good: bool)
    requires !a.sizing && a.bytesWritten <= a.maxSize && a.start + a.bytesWritten <= |a.mem|
    requires a.bytesWritten + |e| > a.maxSize
    requires b == a.(err := if a.err.Some? then a.err else Some(StreamFull))
    ensures Emits(a, b, e, good, false)
  {
    assert Splice(a.mem, a.start + a.bytesWritten, []) == a.mem;
  }

  /** What fits is counted, and written when there is memory. */
  lemma EmitsAll(a: StreamState, b: StreamState, e: seq<byte>)
    requires Fits(a, |e|) && (!a.sizing ==> a.start + a.bytesWritten + |e| <= |a.mem|)
    requires b == a.(bytesWritten := a.bytesWritten + |e|,
                     mem := if a.sizing then a.mem else Splice(a.mem, a.start + a.bytesWritten, e))
    ensures Emits(a, b, e, true, true)
  {
    assert e[..|e|] == e;
  }

  // ---------------------------------------------------------------- streams

  /** pb_ostream_t. A null buffer stands for the null callback of a sizing stream. */
  class OStream {
    const buf: array?<byte>
    const maxSize: nat
    ghost const start: nat
    var pos: nat
    var bytesWritten: nat
    var errmsg: Option<PbError>

    /** PB_OSTREAM_SIZING. */
    constructor Sizing()
      ensures Valid() && State() == StreamState(true, 0, 0, 0, [], None)
      ensures buf == null
    {
      buf, maxSize, start := null, 0, 0;
      pos, bytesWritten, errmsg := 0, 0, None;
    }

    /** pb_ostream_from_buffer, for the part of a buffer that begins at position at. */
    constructor FromBuffer(target: array<byte>, at: nat, bufsize: nat)
      requires at + bufsize <= target.Length && bufsize < SIZE_MOD
      ensures Valid() && State() == StreamState(false, at, bufsize, 0, target[..], None)
      ensures buf == target && pos == at
    {
      buf, maxSize, start := target, bufsize, at;
      pos, bytesWritten, errmsg := at, 0, None;
    }

    /** The write pointer is start plus bytes_written, and never leaves the bound. */
    ghost predicate Valid()
      reads this
    {
      && bytesWritten < SIZE_MOD
      && maxSize < SIZE_MOD
      && (buf != null ==>
            && pos == start + bytesWritten
            && bytesWritten <= maxSize
            && start + maxSize <= buf.Length)
    }

    ghost function State(): (s: StreamState)
      reads this, buf
    {
      StreamState(buf == null, start, maxSize, bytesWritten, if buf == null then [] else buf[..], errmsg)
    }

    /** PB_SET_ERROR: the first error stays. */
    method SetError(e: PbError)
      requires Valid()
      modifies this`errmsg
      ensures Valid()
      ensures State() == old(State()).(err := if old(errmsg).Some? then old(errmsg) else Some(e))
    {
      if errmsg.None? {
        errmsg := Some(e);
      }
    }

    /** buf_write. */
    method BufWrite(data: seq<byte>)
      requires buf != null && pos + |data| <= buf.Length
      modifies this`pos, buf
      ensures pos == old(pos) + |data|
      ensures buf[..] == Splice(old(buf[..]), old(pos), data)
    {
      var dest := pos;
      pos := dest + |data|;
      for i := 0 to |data|
        invariant pos == dest + |data|
        invariant buf[..dest] == old(buf[..dest])
        invariant buf[dest..dest + i] == data[..i]
        invariant forall j :: dest + i <= j < buf.Length ==> buf[j] == old(buf[j])
      {
        buf[dest + i] := data[i];
      }
      assert buf[..] == buf[..dest] + buf[dest..dest + |data|] + buf[dest + |data|..];
    }

    /** pb_write of count bytes; a sizing stream is given no data and only counts. The ghost
        argument is what the count stands for. */
    method Write(data: seq<byte>, count: nat, ghost e: seq<byte>) returns (ok: bool)
      requires Valid() && |e| == count && bytesWritten + count < SIZE_MOD
      requires buf != null ==> data == e
      modifies this, buf
      ensures Valid()
      ensures Emits(old(State()), State(), e, true, ok)
    {
      hide Emits;
      ghost var a := State();
      if count > 0 && buf != null {
        var sum := (bytesWritten + count) % SIZE_MOD;
        if sum < bytesWritten || sum > maxSize {
          SetError(StreamFull);
          StreamFullEmits(a, State(), e, true);
          return false;
        }
        BufWrite(data);
      } else if buf != null {
        assert Splice(a.mem, a.start + a.bytesWritten, e) == a.mem;
      }
      bytesWritten := (bytesWritten + count) % SIZE_MOD;
      EmitsAll(a, State(), e);
      return true;
    }
  }
}
