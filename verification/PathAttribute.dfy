/** The common header of BGP path attributes (section 4.3 of RFC 4271). */
module PathAttribute {
  import opened Octets

  const ORIGIN: Octet := 1
  const AS_PATH: Octet := 2
  const NEXT_HOP: Octet := 3
  const COMMUNITY: Octet := 8
  const MP_REACH_NLRI: Octet := 14
  const EXTENDED_COMMUNITY: Octet := 16

  datatype Header = Header(flags: Octet, code: Octet, lengthOfLength: nat, valueLength: nat) {
    function BodyShift(): nat {
      2 + lengthOfLength
    }
  }

  /** The flags every encoder sets: one-octet length, not partial. */
  function FlagBits(optional: bool, transitive: bool): seq<bool> {
    [false, false, false, false, false, false, transitive, optional]
  }

  function FlagsOctet(optional: bool, transitive: bool): Octet {
    PackOctet(FlagBits(optional, transitive))
  }

  /** Optional is the highest bit and transitive the next (section 4.3 of RFC 4271). */
  lemma FlagsValue(optional: bool, transitive: bool)
    ensures FlagsOctet(optional, transitive) == PlaceValue(optional, 0x80) + PlaceValue(transitive, 0x40)
  {
    hide Pack, PackOctet;
    PackOctetValue(FlagBits(optional, transitive));
  }

  predicate ExtendedLength(flags: Octet) {
    Unpack(flags, 8)[4]
  }

  /** Reads the header of an attribute whose value must lie within the given octets. */
  function ParseHeader(b: seq<Octet>): (h: Option<Header>)
    ensures h.Some? ==> h.value.BodyShift() + h.value.valueLength <= |b|
  {
    if |b| < 2 then None
    else
      var n := if ExtendedLength(b[0]) then 2 else 1;
      if |b| < 2 + n then None
      else
        var length := if n == 1 then b[2] else ToWord16(b[2], b[3]);
        if |b| < 2 + n + length then None else Some(Header(b[0], b[1], n, length))
  }

  /** An attribute with the given flags, type, length octet and everything after it. */
  function Attribute(optional: bool, transitive: bool, code: Octet, length: Octet, value: seq<Octet>): seq<Octet> {
    [FlagsOctet(optional, transitive), code, length] + value
  }

  lemma ShortLength(optional: bool, transitive: bool)
    ensures !ExtendedLength(FlagsOctet(optional, transitive))
  {
    hide Pack, Unpack, Pow2;
    UnpackPack(FlagBits(optional, transitive));
  }

  lemma AttributeParsed(optional: bool, transitive: bool, code: Octet, length: Octet, value: seq<Octet>)
    requires length <= |value|
    ensures var b := Attribute(optional, transitive, code, length, value);
            && ParseHeader(b) == Some(Header(FlagsOctet(optional, transitive), code, 1, length))
            && b[3..] == value
  {
    hide ExtendedLength, FlagsOctet;
    ShortLength(optional, transitive);
  }
}
