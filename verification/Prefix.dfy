/** IPv4 prefixes in BGP encoding: a length in bits followed by just enough octets of the address. */
module Prefix {
  import opened Octets
  import opened BinaryBuffer

  /** An address in network order with a prefix length; the codec is defined for lengths up to 32. */
  datatype Subnet = Subnet(address: Word32, length: nat)

  type Subnet4 = s: Subnet | s.length <= 32 witness Subnet(0, 0)

  /** Bitwise conjunction. */
  function BitAnd(x: nat, y: nat): (r: nat)
    ensures r <= x
  {
    if x == 0 then 0 else 2 * BitAnd(x / 2, y / 2) + if x % 2 == 1 && y % 2 == 1 then 1 else 0
  }

  function ShiftRight(x: nat, n: nat): nat {
    if n == 0 then x else ShiftRight(x / 2, n - 1)
  }

  function ShiftLeft(x: nat, n: nat): nat {
    if n == 0 then x else 2 * ShiftLeft(x, n - 1)
  }

  /** `x` with its low `n` bits cleared. */
  function ClearLow(x: nat, n: nat): nat {
    ShiftLeft(ShiftRight(x, n), n)
  }

  /** The netmask: all ones shifted left within 32 bits, with length zero handled apart. */
  function Netmask(length: nat): Word32
    requires length <= 32
  {
    if length == 0 then 0 else 0xFFFF_FFFF * Pow2(32 - length) % 0x1_0000_0000
  }

  function Mask(address: Word32, length: nat): Word32
    requires length <= 32
  {
    BitAnd(address, Netmask(length))
  }

  /** Bit `i` of an address, the most significant first. */
  function AddressBit(address: Word32, i: nat): nat
    requires i < 32
  {
    ShiftRight(address, 31 - i) % 2
  }

  function OctetsFor(length: nat): nat {
    (length + 7) / 8
  }

  function Canonical(s: Subnet4): Subnet4 {
    Subnet(Mask(s.address, s.length), s.length)
  }

  function EncodeSubnet(s: Subnet4): seq<Octet> {
    [s.length] + Bytes32(Mask(s.address, s.length))[..OctetsFor(s.length)]
  }

  function Zeros(n: nat): (z: seq<Octet>)
    ensures |z| == n && forall i :: 0 <= i < n ==> z[i] == 0
  {
    seq(n, i => 0)
  }

  /** The address octets of a wire prefix, padded to a full word as the decoder pads them. */
  function WireAddress(b: seq<Octet>): Word32
    requires |b| > 0 && b[0] <= 32 && |b| >= 1 + OctetsFor(b[0])
  {
    var n := OctetsFor(b[0]);
    ToWord32(b[1..n + 1] + Zeros(4 - n))
  }

  ghost predicate AgreeOn(a: Word32, b: Word32, length: nat)
    requires length <= 32
  {
    forall i :: 0 <= i < length ==> AddressBit(a, i) == AddressBit(b, i)
  }

  /** The decoded prefix and the number of octets consumed, or None when the input is refused. */
  function DecodeSubnet(b: seq<Octet>): Option<(Subnet4, nat)> {
    if |b| == 0 then None
    else if b[0] > 32 then None
    else
      var n := OctetsFor(b[0]);
      if |b| < n + 1 then None
      else Some((Subnet(Mask(WireAddress(b), b[0]), b[0]), n + 1))
  }

  // ----- masking -----

  lemma {:induction false} ShiftUndone(x: nat, n: nat)
    ensures ShiftRight(ShiftLeft(x, n), n) == x
  {
    if n > 0 {
      ShiftUndone(x, n - 1);
    }
  }

  lemma {:induction false} ShiftRightAdd(x: nat, a: nat, b: nat)
    ensures ShiftRight(x, a + b) == ShiftRight(ShiftRight(x, a), b)
  {
    if a > 0 {
      ShiftRightAdd(x / 2, a - 1, b);
    }
  }

  lemma {:induction false} ShiftLeftAdd(x: nat, a: nat, b: nat)
    ensures ShiftLeft(x, a + b) == ShiftLeft(ShiftLeft(x, b), a)
  {
    if a > 0 {
      ShiftLeftAdd(x, a - 1, b);
    }
  }

  lemma {:induction false} ShiftedOut(x: nat, k: nat)
    requires x < Pow2(k)
    ensures ShiftRight(x, k) == 0
  {
    if k > 0 {
      ShiftedOut(x / 2, k - 1);
    }
  }

  lemma {:induction false} BitAndHighOnes(x: nat, k: nat, j: nat)
    requires j <= k && x < Pow2(k)
    ensures Pow2(j) <= Pow2(k)
    ensures BitAnd(x, Pow2(k) - Pow2(j)) == ClearLow(x, j)
  {
    Pow2Monotone(j, k);
    if k == 0 {
    } else if j == 0 {
      BitAndHighOnes(x / 2, k - 1, 0);
      assert (Pow2(k) - 1) / 2 == Pow2(k - 1) - 1;
    } else {
      var y := Pow2(k) - Pow2(j);
      BitAndHighOnes(x / 2, k - 1, j - 1);
      assert y / 2 == Pow2(k - 1) - Pow2(j - 1) && y % 2 == 0;
      assert ClearLow(x, j) == 2 * ClearLow(x / 2, j - 1);
    }
  }

  /** Anding with the netmask clears exactly the bits past the prefix length. */
  lemma {:induction false} MaskClearsLowBits(address: Word32, length: nat)
    requires length <= 32
    ensures Mask(address, length) == ClearLow(address, 32 - length)
  {
    Pow2Values();
    NetmaskValue(length);
    BitAndHighOnes(address, 32, 32 - length);
  }

  lemma {:induction false} NetmaskValue(length: nat)
    requires length <= 32
    ensures Netmask(length) == 0x1_0000_0000 - Pow2(32 - length)
  {
    Pow2Values();
    if length > 0 {
      Pow2Monotone(32 - length, 31);
      OnesShifted(Pow2(32 - length));
    }
  }

  lemma OnesShifted(p: nat)
    requires 1 <= p <= 0x8000_0000
    ensures 0xFFFF_FFFF * p % 0x1_0000_0000 == 0x1_0000_0000 - p
  {
    var x := 0xFFFF_FFFF * p;
    assert x == 0x1_0000_0000 * (p - 1) + (0x1_0000_0000 - p);
    assert x / 0x1_0000_0000 == p - 1;
  }

  lemma {:induction false} MaskIdempotent(address: Word32, length: nat)
    requires length <= 32
    ensures Mask(Mask(address, length), length) == Mask(address, length)
  {
    MaskClearsLowBits(address, length);
    MaskClearsLowBits(Mask(address, length), length);
    ShiftUndone(ShiftRight(address, 32 - length), 32 - length);
  }

  /** Two addresses agreeing on the first `length` bits have the same masked form, whatever follows. */
  lemma {:induction false} MaskDependsOnPrefixBits(a: Word32, b: Word32, length: nat)
    requires length <= 32
    requires AgreeOn(a, b, length)
    ensures Mask(a, length) == Mask(b, length)
  {
    SamePrefixBits(a, b, length);
    MaskClearsLowBits(a, length);
    MaskClearsLowBits(b, length);
  }

  lemma {:induction false} SamePrefixBits(a: Word32, b: Word32, length: nat)
    requires length <= 32
    requires AgreeOn(a, b, length)
    ensures ShiftRight(a, 32 - length) == ShiftRight(b, 32 - length)
  {
    if length == 0 {
      Pow2Values();
      ShiftedOut(a, 32);
      ShiftedOut(b, 32);
    } else {
      SamePrefixBits(a, b, length - 1);
      ShiftRightAdd(a, 32 - length, 1);
      ShiftRightAdd(b, 32 - length, 1);
      assert AddressBit(a, length - 1) == AddressBit(b, length - 1);
    }
  }

  // ----- codec -----

  /** With only the first `n` octets significant, cutting the rest off and padding with zeros changes nothing. */
  lemma {:induction false} CutAndPad(address: Word32, length: nat)
    requires length <= 32
    ensures OctetsFor(length) <= 4
    ensures var m, n := Mask(address, length), OctetsFor(length);
      ToWord32(Bytes32(m)[..n] + Zeros(4 - n)) == m
  {
    var m, n := Mask(address, length), OctetsFor(length);
    Bytes32Read(m);
    var k := 8 * (4 - n);
    MaskClearsLowBits(address, length);
    ShiftLeftAdd(ShiftRight(address, 32 - length), k, 32 - length - k);
    LowOctetsZero(m, n, ShiftLeft(ShiftRight(address, 32 - length), 32 - length - k));
    assert Bytes32(m)[..n] + Zeros(4 - n) == Bytes32(m);
  }

  lemma {:induction false} LowOctetsZero(v: Word32, n: nat, high: nat)
    requires n <= 4
    requires v == ShiftLeft(high, 8 * (4 - n))
    ensures forall i :: n <= i < 4 ==> Bytes32(v)[i] == 0
  {
    ShiftLeftIsProduct(high, 8 * (4 - n));
    Pow2Values();
    LastOctetZero(v, if n == 3 then high else if n == 2 then 0x100 * high else if n == 1 then 0x1_0000 * high else 0x100_0000 * high);
    if n <= 2 {
      ThirdOctetZero(v, if n == 2 then high else if n == 1 then 0x100 * high else 0x1_0000 * high);
    }
    if n <= 1 {
      SecondOctetZero(v, if n == 1 then high else 0x100 * high);
    }
  }

  lemma DoubleProduct(x: nat, y: nat)
    ensures x * (2 * y) == 2 * (x * y)
  {
  }

  lemma {:induction false} ShiftLeftIsProduct(x: nat, n: nat)
    ensures ShiftLeft(x, n) == x * Pow2(n)
  {
    if n > 0 {
      ShiftLeftIsProduct(x, n - 1);
      DoubleProduct(x, Pow2(n - 1));
    }
  }

  lemma LastOctetZero(v: Word32, high: nat)
    ensures v == 0x100 * high ==> Bytes32(v)[3] == 0
  {
  }

  lemma ThirdOctetZero(v: Word32, high: nat)
    ensures v == 0x1_0000 * high ==> Bytes32(v)[2] == 0
  {
    if v == 0x1_0000 * high {
      assert v / 0x100 == 0x100 * high;
    }
  }

  lemma SecondOctetZero(v: Word32, high: nat)
    ensures v == 0x100_0000 * high ==> Bytes32(v)[1] == 0
  {
    if v == 0x100_0000 * high {
      assert v / 0x1_0000 == 0x100 * high;
    }
  }

  /**
    * Decoding an encoded prefix, with anything after it, gives the prefix masked to its length and consumes
    * one octet plus one for every started group of eight bits.
    */
  lemma SubnetRoundTrip(s: Subnet4, rest: seq<Octet>)
    ensures DecodeSubnet(EncodeSubnet(s) + rest) == Some((Canonical(s), 1 + OctetsFor(s.length)))
    ensures |EncodeSubnet(s)| == 1 + OctetsFor(s.length)
  {
    var n := OctetsFor(s.length);
    var m := Mask(s.address, s.length);
    CutAndPad(s.address, s.length);
    MaskIdempotent(s.address, s.length);
    var b := EncodeSubnet(s) + rest;
    assert b[1..n + 1] == Bytes32(m)[..n];
  }

  /** Every decoded prefix is canonical and was read from the input alone. */
  lemma DecodedSubnetIsCanonical(b: seq<Octet>, rest: seq<Octet>)
    requires DecodeSubnet(b).Some?
    ensures var (s, n) := DecodeSubnet(b).value; Canonical(s) == s && 1 <= n <= |b| && n == 1 + OctetsFor(s.length)
    ensures DecodeSubnet(b + rest) == DecodeSubnet(b)
  {
    var n := OctetsFor(b[0]);
    assert (b + rest)[1..n + 1] == b[1..n + 1];
    MaskIdempotent(WireAddress(b), b[0]);
  }

  /** Pad bits after the prefix, and all later octets, do not influence the decoded prefix. */
  lemma PadBitsIgnored(b: seq<Octet>, c: seq<Octet>)
    requires DecodeSubnet(b).Some? && DecodeSubnet(c).Some? && b[0] == c[0]
    requires AgreeOn(WireAddress(b), WireAddress(c), b[0])
    ensures DecodeSubnet(b) == DecodeSubnet(c)
  {
    MaskDependsOnPrefixBits(WireAddress(b), WireAddress(c), b[0]);
  }

  /** The encoder proper: it allocates the exact size in an unallocated buffer and fills it. */
  method WriteSubnet(s: Subnet4, buffer: Buffer) returns (ok: bool)
    requires buffer.Valid()
    modifies buffer, buffer.storage
    ensures buffer.Valid()
    ensures ok <==> old(buffer.storage) == null
    ensures ok ==> buffer.storage != null && fresh(buffer.storage) && buffer.Used() == EncodeSubnet(s)
    ensures buffer.errorsOccurred == old(buffer.errorsOccurred)
    ensures !ok ==> buffer.storage == old(buffer.storage) && buffer.Used() == old(buffer.Used())
  {
    var n := OctetsFor(s.length);
    ok := buffer.SetSize(1 + n);
    if !ok {
      return;
    }
    var masked := Mask(s.address, s.length);
    var _ := buffer.Append([s.length]);
    var _ := buffer.Append(Bytes32(masked)[..n]);
    assert buffer.Attempted == EncodeSubnet(s);
  }
}
