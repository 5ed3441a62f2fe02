/** Octets and the fixed-width unsigned integers built from them, in network byte order. */
module Octets {

  type Octet = x: int | 0 <= x < 0x100
  type Word16 = x: int | 0 <= x < 0x1_0000
  type Word32 = x: int | 0 <= x < 0x1_0000_0000

  const MAX_64: int := 0xFFFF_FFFF_FFFF_FFFF

  type Word64 = x: int | 0 <= x <= MAX_64

  /** An IPv4 address by its value in network order. */
  type Ip = Word32

  // Protocol numbers of IP.
  const ICMP: Octet := 1
  const TCP: Octet := 6
  const UDP: Octet := 17

  datatype Option<+T> = None | Some(value: T)

  function Bytes16(v: Word16): seq<Octet> {
    [v / 256, v % 256]
  }

  function ToWord16(hi: Octet, lo: Octet): Word16 {
    256 * hi + lo
  }

  function Bytes32(v: Word32): seq<Octet> {
    [v / 0x100_0000, v / 0x1_0000 % 256, v / 0x100 % 256, v % 256]
  }

  function ToWord32(b: seq<Octet>): Word32
    requires |b| == 4
  {
    0x100_0000 * (b[0] as int) + 0x1_0000 * (b[1] as int) + 0x100 * (b[2] as int) + b[3]
  }

  function Pow2(n: nat): (p: nat)
    ensures p >= 1
  {
    if n == 0 then 1 else 2 * Pow2(n - 1)
  }

  /** Writing a word in network order and reading it back are mutual inverses. */
  lemma Bytes32Read(v: Word32)
    ensures |Bytes32(v)| == 4 && ToWord32(Bytes32(v)) == v
  {
    assert v / 0x100 / 256 == v / 0x1_0000 && v / 0x1_0000 / 256 == v / 0x100_0000;
  }

  lemma Bytes32Written(b: seq<Octet>)
    requires |b| == 4
    ensures Bytes32(ToWord32(b)) == b
  {
    var w, b0: int, b1: int, b2: int := ToWord32(b), b[0], b[1], b[2];
    assert w / 0x100 == 0x1_0000 * b0 + 0x100 * b1 + b2;
    assert w / 0x1_0000 == 0x100 * b0 + b1;
    assert w / 0x100_0000 == b0;
  }

  lemma {:induction false} Pow2Add(a: nat, b: nat)
    ensures Pow2(a + b) == Pow2(a) * Pow2(b)
  {
    if a > 0 {
      Pow2Add(a - 1, b);
    }
  }

  lemma {:induction false} Pow2Monotone(a: nat, b: nat)
    requires a <= b
    ensures Pow2(a) <= Pow2(b)
  {
    if a < b {
      Pow2Monotone(a, b - 1);
    }
  }

  lemma Pow2Values()
    ensures Pow2(1) == 2 && Pow2(8) == 0x100 && Pow2(16) == 0x1_0000 && Pow2(24) == 0x100_0000
    ensures Pow2(23) == 0x80_0000 && Pow2(31) == 0x8000_0000 && Pow2(32) == 0x1_0000_0000
  {
    assert Pow2(4) == 16;
    Pow2Add(4, 4);
    Pow2Add(8, 8);
    Pow2Add(16, 8);
    Pow2Add(16, 16);
    assert Pow2(24) == 2 * Pow2(23);
    assert Pow2(32) == 2 * Pow2(31);
  }

  // ----- bit fields -----

  /** The number whose bits are `bits`, the least significant first. */
  function Pack(bits: seq<bool>): (v: nat)
    ensures v < Pow2(|bits|)
  {
    if bits == [] then 0 else (if bits[0] then 1 else 0) + 2 * Pack(bits[1..])
  }

  /** The low `n` bits of `v`, the least significant first. */
  function Unpack(v: nat, n: nat): (bits: seq<bool>)
    ensures |bits| == n
    decreases v, n
  {
    if n == 0 then [] else [v % 2 == 1] + Unpack(v / 2, n - 1)
  }

  function PackOctet(bits: seq<bool>): Octet
    requires |bits| == 8
  {
    Pow2Values(); Pack(bits)
  }

  /** Packing and unpacking are mutual inverses on words of a fixed width. */
  lemma {:induction false} UnpackPack(bits: seq<bool>)
    ensures Unpack(Pack(bits), |bits|) == bits
  {
    if bits != [] {
      UnpackPack(bits[1..]);
    }
  }

  lemma {:induction false} PackUnpack(v: nat, n: nat)
    requires v < Pow2(n)
    ensures Pack(Unpack(v, n)) == v
  {
    if n > 0 {
      PackUnpack(v / 2, n - 1);
    }
  }

  function PlaceValue(b: bool, w: nat): nat {
    if b then w else 0
  }

  /** Each bit of an octet counts with its place value. */
  lemma PackOctetValue(bits: seq<bool>)
    requires |bits| == 8
    ensures PackOctet(bits)
         == PlaceValue(bits[0], 1) + PlaceValue(bits[1], 2) + PlaceValue(bits[2], 4) + PlaceValue(bits[3], 8)
            + PlaceValue(bits[4], 16) + PlaceValue(bits[5], 32) + PlaceValue(bits[6], 64) + PlaceValue(bits[7], 128)
  {
    PackFour(bits[4..], 16);
    PackFour(bits, 1);
    assert bits[4..][0] == bits[4] && bits[4..][1] == bits[5] && bits[4..][2] == bits[6] && bits[4..][3] == bits[7];
  }

  lemma PackFour(bits: seq<bool>, w: nat)
    requires |bits| >= 4 && (w == 1 || (w == 16 && |bits| == 4))
    ensures w * Pack(bits) == PlaceValue(bits[0], w) + PlaceValue(bits[1], 2 * w) + PlaceValue(bits[2], 4 * w) + PlaceValue(bits[3], 8 * w)
                              + 16 * w * Pack(bits[4..])
  {
    assert bits[1..][1..] == bits[2..] && bits[2..][1..] == bits[3..] && bits[3..][1..] == bits[4..];
    assert Pack(bits[3..]) == PlaceValue(bits[3], 1) + 2 * Pack(bits[4..]);
    assert Pack(bits[2..]) == PlaceValue(bits[2], 1) + 2 * Pack(bits[3..]);
    assert Pack(bits[1..]) == PlaceValue(bits[1], 1) + 2 * Pack(bits[2..]);
  }
}
