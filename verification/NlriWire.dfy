/**
  * The FlowSpec NLRI on the wire (section 4 of RFC 8955): components in type order, each a prefix or a list of
  * operator/value pairs whose last operator carries the end-of-list bit.
  */
module NlriWire {
  import opened Octets
  import opened Prefix
  import opened FlowSpecRule

  // ----- single octets -----

  /**
    * The operator octet of numeric components, from its least significant bit up. Bitmask components use the same
    * layout, with the match bit in place of `equal` and the not bit in place of `greater`. The value length is one,
    * two, four or eight octets.
    */
  datatype Operator = Operator(equal: bool, greater: bool, less: bool, reserved: bool,
                               lengthLow: bool, lengthHigh: bool, andBit: bool, endOfList: bool) {
    function ValueLength(): nat {
      if lengthHigh then (if lengthLow then 8 else 4) else if lengthLow then 2 else 1
    }

    function Bits(): seq<bool> {
      [equal, greater, less, reserved, lengthLow, lengthHigh, andBit, endOfList]
    }
  }

  function OperatorOctet(o: Operator): Octet {
    PackOctet(o.Bits())
  }

  function ReadOperator(b: Octet): Operator {
    var v := Unpack(b, 8);
    Operator(v[0], v[1], v[2], v[3], v[4], v[5], v[6], v[7])
  }

  /** The operator octet is a faithful packing of its eight bits, in both directions. */
  lemma OperatorPacking(o: Operator)
    ensures ReadOperator(OperatorOctet(o)) == o
  {
    hide Pack, Unpack, Pow2;
    UnpackPack(o.Bits());
  }

  lemma OperatorUnpacking(b: Octet)
    ensures OperatorOctet(ReadOperator(b)) == b
  {
    hide Pack, Unpack, Pow2;
    Pow2Values();
    PackUnpack(b, 8);
    assert ReadOperator(b).Bits() == Unpack(b, 8);
  }

  /** The place values of section 4.2.1 of RFC 8955. */
  lemma OperatorValue(o: Operator)
    ensures OperatorOctet(o)
         == PlaceValue(o.endOfList, 0x80) + PlaceValue(o.andBit, 0x40) + PlaceValue(o.lengthHigh, 0x20) + PlaceValue(o.lengthLow, 0x10)
            + PlaceValue(o.reserved, 8) + PlaceValue(o.less, 4) + PlaceValue(o.greater, 2) + PlaceValue(o.equal, 1)
  {
    hide Pack, PackOctet, PlaceValue;
    PackOctetValue(o.Bits());
  }

  function TcpBits(f: TcpFlagset): seq<bool> {
    [f.fin, f.syn, f.rst, f.psh, f.ack, f.urg, false, false]
  }

  function TcpOctet(f: TcpFlagset): Octet {
    PackOctet(TcpBits(f))
  }

  /** The two high bits of the octet, ECE and CWR, are dropped. */
  function ReadTcpOctet(b: Octet): TcpFlagset {
    var v := Unpack(b, 8);
    TcpFlagset(v[1], v[4], v[0], v[3], v[2], v[5])
  }

  lemma TcpOctetRead(f: TcpFlagset)
    ensures ReadTcpOctet(TcpOctet(f)) == f
  {
    hide Pack, Unpack, Pow2;
    UnpackPack(TcpBits(f));
  }

  /** The flags sit where the TCP header has them. */
  lemma TcpOctetValue(f: TcpFlagset)
    ensures TcpOctet(f) == PlaceValue(f.urg, 0x20) + PlaceValue(f.ack, 0x10) + PlaceValue(f.psh, 8) + PlaceValue(f.rst, 4)
                           + PlaceValue(f.syn, 2) + PlaceValue(f.fin, 1)
  {
    hide Pack, PackOctet;
    PackOctetValue(TcpBits(f));
  }

  function FragmentBits(f: Fragment): seq<bool> {
    [f == DontFragment, f == IsFragment, f == FirstFragment, f == LastFragment, false, false, false, false]
  }

  function FragmentOctet(f: Fragment): Octet {
    PackOctet(FragmentBits(f))
  }

  /** All the flags set in a fragment octet, highest bit first; an octet without flags reads as "not a fragment". */
  function ReadFragmentOctet(b: Octet): seq<Fragment> {
    var v := Unpack(b, 8);
    var flags := (if v[3] then [LastFragment] else []) + (if v[2] then [FirstFragment] else [])
                 + (if v[1] then [IsFragment] else []) + (if v[0] then [DontFragment] else []);
    if flags == [] then [NotFragment] else flags
  }

  lemma FragmentOctetRead(f: Fragment)
    ensures ReadFragmentOctet(FragmentOctet(f)) == [f]
  {
    hide Pack, Unpack, Pow2;
    UnpackPack(FragmentBits(f));
  }

  lemma FragmentOctetValue(f: Fragment)
    ensures FragmentOctet(f)
         == match f case DontFragment => 1 case IsFragment => 2 case FirstFragment => 4 case LastFragment => 8 case NotFragment => 0
  {
    hide Pack, PackOctet;
    PackOctetValue(FragmentBits(f));
  }

  // ----- operator/value lists -----

  datatype RawItem = RawItem(flag: bool, wide: bool, value: Word16)

  /** One list entry before its position is known: the low operator bit, the value width and the value. */
  type Item = w: RawItem | !w.wide ==> w.value < 256 witness RawItem(false, false, 0)

  function ItemOperator(w: Item, last: bool): Operator {
    Operator(w.flag, false, false, false, w.wide, false, false, last)
  }

  function EncodeItem(w: Item, last: bool): seq<Octet> {
    [OperatorOctet(ItemOperator(w, last))] + if w.wide then Bytes16(w.value) else [w.value]
  }

  /** The entries in order; the end-of-list bit goes on the last one exactly when the list is closed. */
  function EncodeItems(items: seq<Item>, closed: bool): seq<Octet> {
    if items == [] then []
    else EncodeItem(items[0], closed && |items| == 1) + EncodeItems(items[1..], closed)
  }

  lemma {:induction false} EncodeItemsSplit(items: seq<Item>, k: nat, closed: bool)
    requires k < |items|
    ensures EncodeItems(items, closed) == EncodeItems(items[..k], false) + EncodeItems(items[k..], closed)
  {
    hide EncodeItem;
    if k == 0 {
      assert items[..0] == [] && items[0..] == items;
    } else {
      EncodeItemsSplit(items[1..], k - 1, closed);
      assert items[1..][..k - 1] == items[..k][1..] && items[1..][k - 1..] == items[k..];
      assert items[..k][0] == items[0];
    }
  }

  lemma EncodeItemsExtend(items: seq<Item>, k: nat, last: bool)
    requires k < |items|
    ensures EncodeItems(items[..k + 1], last) == EncodeItems(items[..k], false) + EncodeItem(items[k], last)
  {
    hide EncodeItem;
    var xs := items[..k + 1];
    EncodeItemsSplit(xs, k, last);
    assert xs[..k] == items[..k] && xs[k..] == [items[k]];
    assert EncodeItems([items[k]], last) == EncodeItem(items[k], last) + EncodeItems([], last);
  }

  // ----- components -----

  datatype ListKind = ProtocolList | DestinationPortList | SourcePortList | TcpFlagList | LengthList | FragmentList

  const DESTINATION_PREFIX: Octet := 1
  const SOURCE_PREFIX: Octet := 2

  function TypeOf(kind: ListKind): Octet {
    match kind
    case ProtocolList => 3
    case DestinationPortList => 5
    case SourcePortList => 6
    case TcpFlagList => 9
    case LengthList => 10
    case FragmentList => 12
  }

  function ProtocolItems(xs: seq<Octet>): (r: seq<Item>)
  {
    seq(|xs|, i requires 0 <= i < |xs| => RawItem(true, false, xs[i]))
  }

  function WideItems(xs: seq<Word16>): seq<Item> {
    seq(|xs|, i requires 0 <= i < |xs| => RawItem(true, true, xs[i]))
  }

  function TcpItems(xs: seq<TcpFlagset>, flag: bool): seq<Item> {
    seq(|xs|, i requires 0 <= i < |xs| => RawItem(flag, false, TcpOctet(xs[i])))
  }

  function FragmentItems(xs: seq<Fragment>, flag: bool): seq<Item> {
    seq(|xs|, i requires 0 <= i < |xs| => RawItem(flag, false, FragmentOctet(xs[i])))
  }

  function RuleItems(r: Rule, kind: ListKind): seq<Item> {
    match kind
    case ProtocolList => ProtocolItems(r.protocols)
    case DestinationPortList => WideItems(r.destinationPorts)
    case SourcePortList => WideItems(r.sourcePorts)
    case TcpFlagList => TcpItems(r.tcpFlags, r.matchTcpFlags)
    case LengthList => WideItems(r.packetLengths)
    case FragmentList => FragmentItems(r.fragments, r.matchFragments)
  }

  function EncodePrefix(code: Octet, prefix: Option<Subnet4>): seq<Octet> {
    if prefix.None? then [] else [code] + EncodeSubnet(prefix.value)
  }

  function EncodeList(kind: ListKind, items: seq<Item>): seq<Octet> {
    if items == [] then [] else [TypeOf(kind)] + EncodeItems(items, true)
  }

  /** The lists of a rule from `from` on, in the order they go on the wire. */
  function EncodeLists(r: Rule, kinds: seq<ListKind>): seq<Octet> {
    if kinds == [] then [] else EncodeList(kinds[0], RuleItems(r, kinds[0])) + EncodeLists(r, kinds[1..])
  }

  const WIRE_ORDER: seq<ListKind> :=
    [ProtocolList, DestinationPortList, SourcePortList, TcpFlagList, LengthList, FragmentList]

  /** The whole NLRI value of a rule, without any bound on its size. */
  function EncodeNlri(r: Rule): seq<Octet> {
    EncodePrefix(DESTINATION_PREFIX, r.destination) + EncodePrefix(SOURCE_PREFIX, r.source) + EncodeLists(r, WIRE_ORDER)
  }

  /** The encoder refuses a TCP flagset without flags. */
  predicate Encodable(r: Rule) {
    forall f :: f in r.tcpFlags ==> f.AnyFlag()
  }

  // ----- the shape of an encoding -----

  /**
    * Length of a closed operator/value list at the start of `b` as the standard defines it: entries follow each
    * other, each as long as its length bits say, up to and including the first one with the end-of-list bit.
    */
  function ClosedListLength(b: seq<Octet>): (n: Option<nat>)
    ensures n.Some? ==> 2 <= n.value <= |b|
  {
    if b == [] then None
    else
      var o := ReadOperator(b[0]);
      var step := 1 + o.ValueLength();
      if |b| < step then None
      else if o.endOfList then Some(step)
      else
        var tail := ClosedListLength(b[step..]);
        if tail.None? then None else Some(step + tail.value)
  }

  predicate IsListType(t: Octet) {
    t == 3 || t == 5 || t == 6 || t == 9 || t == 10 || t == 12
  }

  /** Length of the component at the start of `b`, or None when it is not well formed. */
  function ComponentLength(b: seq<Octet>): (n: Option<nat>)
    ensures n.Some? ==> 2 <= n.value <= |b|
  {
    if |b| < 2 then None
    else if b[0] == 1 || b[0] == 2 then
      if b[1] <= 32 && 2 + OctetsFor(b[1]) <= |b| then Some(2 + OctetsFor(b[1])) else None
    else if IsListType(b[0]) then
      var l := ClosedListLength(b[1..]);
      if l.None? then None else Some(1 + l.value)
    else None
  }

  /** Well-formed NLRI: complete components whose types strictly ascend, all above `after`. */
  predicate StrictNlri(b: seq<Octet>, after: nat)
    decreases |b|
  {
    if b == [] then true
    else
      var n := ComponentLength(b);
      n.Some? && b[0] > after && StrictNlri(b[n.value..], b[0])
  }

  lemma {:induction false} ClosedItems(items: seq<Item>, rest: seq<Octet>)
    requires items != []
    ensures ClosedListLength(EncodeItems(items, true) + rest) == Some(|EncodeItems(items, true)|)
  {
    hide OperatorOctet, ReadOperator;
    var last := |items| == 1;
    var head, tail := EncodeItem(items[0], last), EncodeItems(items[1..], true);
    var b := EncodeItems(items, true) + rest;
    assert b == head + (tail + rest);
    OperatorPacking(ItemOperator(items[0], last));
    assert b[0] == head[0] && b[|head|..] == tail + rest;
    if !last {
      ClosedItems(items[1..], rest);
    }
  }

  /** The operators of a closed list: nothing but the given low bit, the value length and, at the end, the end bit. */
  predicate PlainOperators(b: seq<Octet>, flag: bool)
    decreases |b|
  {
    && b != []
    && var o := ReadOperator(b[0]);
       var step := 1 + o.ValueLength();
       && o == Operator(flag, false, false, false, o.lengthLow, false, false, o.endOfList)
       && |b| >= step && (if o.endOfList then |b| == step else PlainOperators(b[step..], flag))
  }

  /** Numeric lists say "equal"; flag lists carry the match bit exactly when the rule asks for it. */
  predicate OperatorFlag(r: Rule, kind: ListKind) {
    match kind
    case TcpFlagList => r.matchTcpFlags
    case FragmentList => r.matchFragments
    case _ => true
  }

  lemma {:induction false} ItemsPlain(items: seq<Item>, flag: bool)
    requires items != [] && forall w :: w in items ==> w.flag == flag
    ensures PlainOperators(EncodeItems(items, true), flag)
  {
    hide OperatorOctet, ReadOperator;
    var last := |items| == 1;
    var head, tail := EncodeItem(items[0], last), EncodeItems(items[1..], true);
    assert EncodeItems(items, true) == head + tail;
    OperatorPacking(ItemOperator(items[0], last));
    assert (head + tail)[|head|..] == tail;
    if !last {
      ItemsPlain(items[1..], flag);
    }
  }

  /** Every operator of an encoded list is plain and has the right low bit. */
  lemma EncodedOperators(r: Rule, kind: ListKind)
    requires RuleItems(r, kind) != []
    ensures PlainOperators(EncodeItems(RuleItems(r, kind), true), OperatorFlag(r, kind))
  {
    hide EncodeItems, PlainOperators, TcpOctet, FragmentOctet;
    ItemsPlain(RuleItems(r, kind), OperatorFlag(r, kind));
  }

  lemma StrictList(kind: ListKind, items: seq<Item>, rest: seq<Octet>, after: nat)
    requires items != [] && after < TypeOf(kind)
    requires StrictNlri(rest, TypeOf(kind))
    ensures StrictNlri(EncodeList(kind, items) + rest, after)
  {
    hide EncodeItems, ClosedListLength;
    var b := EncodeList(kind, items) + rest;
    assert b[1..] == EncodeItems(items, true) + rest;
    ClosedItems(items, rest);
    assert b[|EncodeList(kind, items)|..] == rest;
  }

  lemma {:induction false} StrictLists(r: Rule, kinds: seq<ListKind>, after: nat)
    requires forall i, j :: 0 <= i < j < |kinds| ==> TypeOf(kinds[i]) < TypeOf(kinds[j])
    requires forall i :: 0 <= i < |kinds| ==> after < TypeOf(kinds[i])
    ensures StrictNlri(EncodeLists(r, kinds), after)
  {
    hide RuleItems, EncodeItems, StrictNlri;
    if kinds == [] {
      StrictNothing(after);
    } else {
      var items, rest := RuleItems(r, kinds[0]), EncodeLists(r, kinds[1..]);
      if items == [] {
        StrictLists(r, kinds[1..], after);
        assert EncodeLists(r, kinds) == rest;
      } else {
        StrictLists(r, kinds[1..], TypeOf(kinds[0]));
        StrictList(kinds[0], items, rest, after);
      }
    }
  }

  lemma StrictNothing(after: nat)
    ensures StrictNlri([], after)
  {
  }

  lemma StrictPrefix(code: Octet, s: Subnet4, rest: seq<Octet>, after: nat)
    requires (code == 1 || code == 2) && after < code
    requires StrictNlri(rest, code)
    ensures StrictNlri(EncodePrefix(code, Some(s)) + rest, after)
  {
    hide ClosedListLength, DecodeSubnet, Mask;
    SubnetRoundTrip(s, rest);
    var b := EncodePrefix(code, Some(s)) + rest;
    assert b[1] == s.length && b[2 + OctetsFor(s.length)..] == rest;
  }

  /**
    * Every encoding is well-formed NLRI: types strictly ascend, length bits match the values, and each list ends with
    * its single end-of-list bit. This holds for lists of any size.
    */
  lemma EncodingIsStrict(r: Rule)
    ensures StrictNlri(EncodeNlri(r), 0)
  {
    hide EncodeLists, EncodeSubnet, StrictNlri;
    var lists := EncodeLists(r, WIRE_ORDER);
    StrictLists(r, WIRE_ORDER, 0);
    StrictLists(r, WIRE_ORDER, 1);
    StrictLists(r, WIRE_ORDER, 2);
    var tail := EncodePrefix(SOURCE_PREFIX, r.source) + lists;
    if r.source.Some? {
      StrictPrefix(2, r.source.value, lists, 1);
      StrictPrefix(2, r.source.value, lists, 0);
    } else {
      assert tail == lists;
    }
    assert EncodeNlri(r) == EncodePrefix(DESTINATION_PREFIX, r.destination) + tail;
    if r.destination.Some? {
      StrictPrefix(1, r.destination.value, tail, 0);
    } else {
      assert EncodeNlri(r) == tail;
    }
  }
}
