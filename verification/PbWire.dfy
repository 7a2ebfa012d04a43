/** The scalar encodings of the Protocol Buffers wire format ("Encoding" guide,
    sections "Base 128 Varints", "Signed Integers" and "Non-varint Numbers"),
    each with the reader that the guide prescribes for it. */
module PbWire {
  import opened Prelude

  type byte = x: int | 0 <= x < 256

  const U64: int := 0x1_0000_0000_0000_0000
  const U32: int := 0x1_0000_0000

  // ---------------------------------------------------------------- varints

  function Varint(n: nat): (r: seq<byte>)
    ensures |r| > 0
  {
    if n < 128 then [n] else [128 + n % 128] + Varint(n / 128)
  }

  /** Reads a base-128 number: seven bits a byte, low group first, the top bit says "more". */
  function ParseGroups(bs: seq<byte>): (r: Option<(nat, seq<byte>)>)
    ensures r.Some? ==> |r.value.1| < |bs|
  {
    if bs == [] then None
    else if bs[0] < 128 then Some((bs[0], bs[1..]))
    else
      match ParseGroups(bs[1..])
      case None => None
      case Some((n, rest)) => Some((bs[0] - 128 + 128 * n, rest))
  }

  /** A varint carries an unsigned 64-bit number. */
  function ParseVarint(bs: seq<byte>): (r: Option<(nat, seq<byte>)>)
    ensures r.Some? ==> |r.value.1| < |bs| && r.value.0 < U64
  {
    match ParseGroups(bs)
    case None => None
    case Some((n, rest)) => if n < U64 then Some((n, rest)) else None
  }

  lemma {:induction false} ParseGroupsInverts(n: nat, rest: seq<byte>)
    ensures ParseGroups(Varint(n) + rest) == Some((n, rest))
  {
    if n < 128 {
      assert ([n] + rest)[1..] == rest;
    } else {
      ParseGroupsInverts(n / 128, rest);
      assert (Varint(n) + rest)[1..] == Varint(n / 128) + rest;
    }
  }

  lemma VarintRoundTrip(n: nat, rest: seq<byte>)
    requires n < U64
    ensures ParseVarint(Varint(n) + rest) == Some((n, rest))
  {
    ParseGroupsInverts(n, rest);
  }

  function Pow128(k: nat): (r: nat)
    ensures r > 0
  {
    if k == 0 then 1 else 128 * Pow128(k - 1)
  }

  /** k groups hold exactly the numbers below 128 to the k. */
  lemma {:induction false} VarintLength(n: nat, k: nat)
    requires k > 0
    ensures |Varint(n)| <= k <==> n < Pow128(k)
    decreases k
  {
    if k == 1 {
      assert Pow128(1) == 128 * Pow128(0);
    } else if n < 128 {
      assert Pow128(k) == 128 * Pow128(k - 1) >= 128;
    } else {
      VarintLength(n / 128, k - 1);
      assert Pow128(k) == 128 * Pow128(k - 1);
    }
  }

  lemma VarintFitsTenBytes(n: nat)
    requires n < U64
    ensures |Varint(n)| <= 10
  {
    assert Pow128(2) == 0x4000;
    assert Pow128(4) == 0x1000_0000;
    assert Pow128(6) == 0x400_0000_0000;
    assert Pow128(8) == 0x100_0000_0000_0000;
    assert Pow128(10) == 0x40_0000_0000_0000_0000;
    VarintLength(n, 10);
  }

  // ------------------------------------------------------- signed integers

  /** Two's complement: the 64-bit pattern of a signed number. */
  function AsU64(n: int): (r: nat)
    ensures r < U64
  {
    n % U64
  }

  /** ZigZag as the guide tabulates it: 0, -1, 1, -2, 2 ... become 0, 1, 2, 3, 4 ... */
  function ZigZag(n: int): nat {
    if n >= 0 then 2 * n else -2 * n - 1
  }

  function UnZigZag(n: nat): int {
    if n % 2 == 0 then n / 2 else -(n / 2) - 1
  }

  // ---------------------------------------------------- fixed-width numbers

  function Fixed(n: nat, width: nat): (r: seq<byte>)
    ensures |r| == width
  {
    if width == 0 then [] else [n % 256] + Fixed(n / 256, width - 1)
  }

  function UnFixed(bs: seq<byte>): nat {
    if bs == [] then 0 else bs[0] + 256 * UnFixed(bs[1..])
  }

  function Pow256(k: nat): (r: nat)
    ensures r > 0
  {
    if k == 0 then 1 else 256 * Pow256(k - 1)
  }

  lemma {:induction false} FixedRoundTrip(n: nat, width: nat)
    requires n < Pow256(width)
    ensures UnFixed(Fixed(n, width)) == n
    decreases width
  {
    if width > 0 {
      FixedRoundTrip(n / 256, width - 1);
      assert Fixed(n, width)[1..] == Fixed(n / 256, width - 1);
    }
  }

  lemma Fixed32RoundTrip(n: nat)
    requires n < U32
    ensures UnFixed(Fixed(n, 4)) == n
  {
    assert Pow256(4) == U32;
    FixedRoundTrip(n, 4);
  }

  lemma Fixed64RoundTrip(n: nat)
    requires n < U64
    ensures UnFixed(Fixed(n, 8)) == n
  {
    assert Pow256(4) == U32;
    assert Pow256(6) == U32 * 0x10000;
    assert Pow256(8) == U64;
    FixedRoundTrip(n, 8);
  }
}
