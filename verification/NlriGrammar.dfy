/**
  * Which octets are a FlowSpec NLRI to the program, and what they say: a reading of its own, by type numbers and place
  * values (section 4.2 of RFC 8955), to which the decoder and the encoder are compared.
  */
module NlriGrammar {
  import opened Octets
  import opened Prefix
  import opened FlowSpecRule
  import opened NlriWire
  import opened NlriDecode
  import opened NlriEncode

  /** An operator octet and the one or two value octets behind it. */
  datatype RawEntry = RawEntry(op: Octet, value: seq<Octet>)

  type WireEntry = e: RawEntry | 1 <= |e.value| <= 2 witness RawEntry(0, [0])

  /** The bit with this place value is set. */
  predicate HasBit(o: Octet, w: nat)
    requires w > 0
  {
    o / w % 2 == 1
  }

  /**
    * The only operators taken: neither "and" (0x40) nor "less" (0x04) nor "greater" (0x02), and of the four value
    * lengths only one octet and, with 0x10, two.
    */
  predicate PlainEntry(e: WireEntry) {
    && !HasBit(e.op, 0x40) && !HasBit(e.op, 0x20) && !HasBit(e.op, 4) && !HasBit(e.op, 2)
    && |e.value| == if HasBit(e.op, 0x10) then 2 else 1
  }

  function ListOctets(es: seq<WireEntry>): seq<Octet> {
    if es == [] then [] else [es[0].op] + es[0].value + ListOctets(es[1..])
  }

  /** The end bit (0x80) is on the last entry only; without any, the list ends after its `limit`-th entry. */
  predicate Closed(es: seq<WireEntry>, limit: nat) {
    && |es| <= limit
    && (forall i :: 0 <= i < |es| - 1 ==> !HasBit(es[i].op, 0x80))
    && (|es| == limit || (es != [] && HasBit(es[|es| - 1].op, 0x80)))
  }

  /** A complete list as the program reads it: at most a hundred entries. */
  predicate IsList(es: seq<WireEntry>) {
    Closed(es, 100) && forall i :: 0 <= i < |es| ==> PlainEntry(es[i])
  }

  /** The number in a value of one or two octets. */
  function Number(e: WireEntry): Word16 {
    if |e.value| == 1 then e.value[0] else 256 * (e.value[0] as int) + e.value[1]
  }

  /** The flags of a TCP header octet, without its two highest bits. */
  function TcpFlagsOf(o: Octet): TcpFlagset {
    TcpFlagset(HasBit(o, 2), HasBit(o, 16), HasBit(o, 1), HasBit(o, 8), HasBit(o, 4), HasBit(o, 32))
  }

  function Chosen<T>(b: bool, x: T): seq<T> {
    if b then [x] else []
  }

  function FragmentsOf(o: Octet): seq<Fragment> {
    Chosen(HasBit(o, 8), LastFragment) + Chosen(HasBit(o, 4), FirstFragment) + Chosen(HasBit(o, 2), IsFragment)
    + Chosen(HasBit(o, 1), DontFragment) + Chosen(o % 16 == 0, NotFragment)
  }

  /** What an entry of a list of this type adds to a rule, if it is acceptable there. */
  function Stored(code: Octet, e: WireEntry, r: Rule): Option<Rule> {
    if code == 3 then if Number(e) > 255 then None else Some(r.(protocols := r.protocols + [Number(e)]))
    else if code == 5 then Some(r.(destinationPorts := r.destinationPorts + [Number(e)]))
    else if code == 6 then Some(r.(sourcePorts := r.sourcePorts + [Number(e)]))
    else if code == 9 then
      if |e.value| == 2 then None
      else Some(if e.value[0] % 64 == 0 then r else r.(tcpFlags := r.tcpFlags + [TcpFlagsOf(e.value[0])]))
    else if code == 10 then Some(r.(packetLengths := r.packetLengths + [Number(e)]))
    else if code == 12 then
      if |e.value| == 2 then None else Some(r.(fragments := r.fragments + FragmentsOf(e.value[0])))
    else None
  }

  /** All entries, one after the other. */
  function StoredList(code: Octet, es: seq<WireEntry>, r: Rule): Option<Rule> {
    if es == [] then Some(r)
    else
      match Stored(code, es[0], r)
      case None => None
      case Some(r') => StoredList(code, es[1..], r')
  }

  // ----- bits -----

  lemma FirstBit(v: nat, n: nat)
    requires n > 0
    ensures Unpack(v, n)[0] == (v % 2 == 1) && Unpack(v, n)[1..] == Unpack(v / 2, n - 1)
  {
  }

  /** The first four bits of a word, and the rest. */
  lemma FourBits(v: nat, n: nat)
    requires n >= 4
    ensures var u := Unpack(v, n);
            && u[0] == (v % 2 == 1) && u[1] == (v / 2 % 2 == 1) && u[2] == (v / 4 % 2 == 1) && u[3] == (v / 8 % 2 == 1)
            && u[4..] == Unpack(v / 16, n - 4)
  {
    hide Unpack;
    FirstBit(v, n);
    FirstBit(v / 2, n - 1);
    FirstBit(v / 4, n - 2);
    FirstBit(v / 8, n - 3);
    assert v / 2 / 2 == v / 4 && v / 4 / 2 == v / 8 && v / 8 / 2 == v / 16;
    var u, u1, u2, u3 := Unpack(v, n), Unpack(v / 2, n - 1), Unpack(v / 4, n - 2), Unpack(v / 8, n - 3);
    assert u[1] == u[1..][0] && u[2] == u[1..][1] && u[3] == u[1..][2];
    assert u1[1] == u1[1..][0] && u1[2] == u1[1..][1] && u2[1] == u2[1..][0];
    assert u[4..] == u[1..][1..][1..][1..];
  }

  lemma UnpackedBits(o: Octet)
    ensures var v := Unpack(o, 8);
            && v[0] == HasBit(o, 1) && v[1] == HasBit(o, 2) && v[2] == HasBit(o, 4) && v[3] == HasBit(o, 8)
            && v[4] == HasBit(o, 16) && v[5] == HasBit(o, 32) && v[6] == HasBit(o, 64) && v[7] == HasBit(o, 128)
  {
    hide Unpack;
    FourBits(o, 8);
    FourBits(o / 16, 4);
    var v, high := Unpack(o, 8), Unpack(o / 16, 4);
    assert v[4] == v[4..][0] && v[5] == v[4..][1] && v[6] == v[4..][2] && v[7] == v[4..][3];
    assert o / 16 / 2 == o / 32 && o / 16 / 4 == o / 64 && o / 16 / 8 == o / 128;
  }

  lemma OperatorBits(o: Octet)
    ensures ReadOperator(o) == Operator(HasBit(o, 1), HasBit(o, 2), HasBit(o, 4), HasBit(o, 8),
                                        HasBit(o, 16), HasBit(o, 32), HasBit(o, 64), HasBit(o, 128))
  {
    hide Unpack;
    UnpackedBits(o);
  }

  lemma TcpBitsRead(o: Octet)
    ensures ReadTcpOctet(o) == TcpFlagsOf(o)
    ensures ReadTcpOctet(o).AnyFlag() <==> o % 64 != 0
  {
    hide Unpack;
    UnpackedBits(o);
    LowSix(o);
  }

  /** The low bits of an octet add up to its remainders. */
  lemma LowSix(o: Octet)
    ensures o % 64 == 0 <==> !HasBit(o, 1) && !HasBit(o, 2) && !HasBit(o, 4) && !HasBit(o, 8) && !HasBit(o, 16) && !HasBit(o, 32)
    ensures o % 16 == 0 <==> !HasBit(o, 1) && !HasBit(o, 2) && !HasBit(o, 4) && !HasBit(o, 8)
  {
    var a1, a2, a3, a4, a5, a6 := o / 2, o / 4, o / 8, o / 16, o / 32, o / 64;
    Halves(o);
    var low := o % 2 + 2 * (a1 % 2) + 4 * (a2 % 2) + 8 * (a3 % 2);
    assert o == 16 * a4 + low && 0 <= low < 16;
    var more := low + 16 * (a4 % 2) + 32 * (a5 % 2);
    assert o == 64 * a6 + more && 0 <= more < 64;
  }

  lemma Halves(o: Octet)
    ensures o == 2 * (o / 2) + o % 2 && o / 2 == 2 * (o / 4) + o / 2 % 2 && o / 4 == 2 * (o / 8) + o / 4 % 2
    ensures o / 8 == 2 * (o / 16) + o / 8 % 2 && o / 16 == 2 * (o / 32) + o / 16 % 2 && o / 32 == 2 * (o / 64) + o / 32 % 2
  {
    assert o / 2 / 2 == o / 4 && o / 4 / 2 == o / 8 && o / 8 / 2 == o / 16 && o / 16 / 2 == o / 32 && o / 32 / 2 == o / 64;
  }

  lemma FragmentBitsRead(o: Octet)
    ensures ReadFragmentOctet(o) == FragmentsOf(o)
  {
    hide Unpack;
    UnpackedBits(o);
    LowSix(o);
  }

  // ----- lists -----

  function ElementOf(e: WireEntry): Element {
    if |e.value| == 1 then Element(e.value[0], e.value[0], 1) else Element(0, Number(e), 0)
  }

  function ElementsOf(es: seq<WireEntry>): seq<Element> {
    if es == [] then [] else [ElementOf(es[0])] + ElementsOf(es[1..])
  }

  lemma EntryTaken(b: seq<Octet>) returns (e: WireEntry)
    requires ReadEntry(b).Some?
    ensures PlainEntry(e)
    ensures var r := ReadEntry(b).value;
            && [e.op] + e.value == b[..r.size] && r.element == ElementOf(e) && r.last == HasBit(e.op, 0x80)
  {
    hide ReadOperator, HasBit;
    OperatorBits(b[0]);
    e := RawEntry(b[0], b[1..ReadEntry(b).value.size]);
  }

  lemma EntryAccepted(e: WireEntry, rest: seq<Octet>)
    requires PlainEntry(e)
    ensures ReadEntry([e.op] + e.value + rest) == Some(Entry(ElementOf(e), 1 + |e.value|, HasBit(e.op, 0x80)))
  {
    hide ReadOperator, HasBit;
    OperatorBits(e.op);
    var b := [e.op] + e.value + rest;
    assert b[0] == e.op && b[1] == e.value[0];
    assert |e.value| == 2 ==> b[2] == e.value[1];
  }

  lemma OneMoreEntry(e: WireEntry, rest: seq<WireEntry>, budget: nat)
    requires budget > 0 && PlainEntry(e) && forall i :: 0 <= i < |rest| ==> PlainEntry(rest[i])
    requires if HasBit(e.op, 0x80) then rest == [] else Closed(rest, budget - 1)
    ensures var es: seq<WireEntry> := [e] + rest;
            && Closed(es, budget) && (forall i :: 0 <= i < |es| ==> PlainEntry(es[i]))
            && ListOctets(es) == [e.op] + e.value + ListOctets(rest) && ElementsOf(es) == [ElementOf(e)] + ElementsOf(rest)
  {
    hide HasBit, PlainEntry, ElementOf;
    var es: seq<WireEntry> := [e] + rest;
    assert es[1..] == rest;
    assert forall i :: 0 < i < |es| ==> es[i] == rest[i - 1];
  }

  lemma NoEntries()
    ensures Closed([], 0) && ListOctets([]) == [] && ElementsOf([]) == []
  {
  }

  /** What the reader reads as a list is one. */
  lemma {:induction false} ListTaken(b: seq<Octet>, budget: nat) returns (es: seq<WireEntry>)
    requires ReadList(b, budget).ListRead?
    ensures Closed(es, budget) && forall i :: 0 <= i < |es| ==> PlainEntry(es[i])
    ensures var l := ReadList(b, budget);
            l.consumed <= |b| && ListOctets(es) == b[..l.consumed] && l.elements == ElementsOf(es)
    decreases |b|
  {
    hide ReadEntry, ReadList, HasBit, ElementOf, PlainEntry, Closed, ListOctets, ElementsOf;
    ReadListStep(b, budget);
    NoEntries();
    if budget == 0 {
      es := [];
    } else {
      var e := EntryTaken(b);
      var r := ReadEntry(b).value;
      if r.last {
        es := [e] + [];
        OneMoreEntry(e, [], budget);
        assert [e.op] + e.value + [] == b[..r.size];
      } else {
        var rest := ListTaken(b[r.size..], budget - 1);
        es := [e] + rest;
        OneMoreEntry(e, rest, budget);
        var l := ReadList(b[r.size..], budget - 1);
        assert b[..r.size + l.consumed] == b[..r.size] + b[r.size..][..l.consumed];
      }
    }
  }

  lemma FirstEntry(es: seq<WireEntry>, rest: seq<Octet>, budget: nat)
    requires es != [] && Closed(es, budget) && forall i :: 0 <= i < |es| ==> PlainEntry(es[i])
    ensures PlainEntry(es[0]) && budget > 0 && (if HasBit(es[0].op, 0x80) then |es| == 1 else Closed(es[1..], budget - 1))
    ensures ListOctets(es) + rest == [es[0].op] + es[0].value + (ListOctets(es[1..]) + rest)
    ensures |ListOctets(es)| == 1 + |es[0].value| + |ListOctets(es[1..])|
    ensures ElementsOf(es) == [ElementOf(es[0])] + ElementsOf(es[1..])
  {
    hide HasBit, PlainEntry, ElementOf;
    assert forall i :: 0 <= i < |es[1..]| ==> es[1..][i] == es[i + 1];
  }

  /** And every list, whatever follows it, is read. */
  lemma {:induction false} ListAccepted(es: seq<WireEntry>, rest: seq<Octet>, budget: nat)
    requires Closed(es, budget) && forall i :: 0 <= i < |es| ==> PlainEntry(es[i])
    ensures ReadList(ListOctets(es) + rest, budget) == ListRead(ElementsOf(es), |ListOctets(es)|)
    decreases |es|
  {
    hide ReadEntry, ReadList, HasBit, ElementOf, PlainEntry, ListOctets, ElementsOf;
    var b := ListOctets(es) + rest;
    ReadListStep(b, budget);
    NoEntries();
    if es != [] {
      var tail, n := ListOctets(es[1..]) + rest, 1 + |es[0].value|;
      FirstEntry(es, rest, budget);
      EntryAccepted(es[0], tail);
      assert b[n..] == tail;
      if !HasBit(es[0].op, 0x80) {
        ListAccepted(es[1..], rest, budget - 1);
      } else {
        assert es[1..] == [];
      }
    }
  }

  lemma StoredAgrees(code: Octet, e: WireEntry, r: Rule)
    requires KindOf(code).Some? && PlainEntry(e)
    ensures var o := ApplyElement(KindOf(code).value, ElementOf(e), r);
            && (o.ok <==> Stored(code, e, r).Some?)
            && (o.ok ==> o.rule == Stored(code, e, r).value)
  {
    hide ReadTcpOctet, ReadFragmentOctet, TcpFlagsOf, FragmentsOf, HasBit;
    TcpBitsRead(e.value[0]);
    FragmentBitsRead(e.value[0]);
  }

  lemma {:induction false} StoredListAgrees(code: Octet, es: seq<WireEntry>, r: Rule)
    requires KindOf(code).Some? && forall i :: 0 <= i < |es| ==> PlainEntry(es[i])
    ensures var o := ApplyElements(KindOf(code).value, ElementsOf(es), r);
            && (o.ok <==> StoredList(code, es, r).Some?)
            && (o.ok ==> o.rule == StoredList(code, es, r).value)
    decreases |es|
  {
    hide ApplyElement, Stored, PlainEntry, ElementOf, KindOf;
    if es != [] {
      StoredAgrees(code, es[0], r);
      if Stored(code, es[0], r).Some? {
        StoredListAgrees(code, es[1..], Stored(code, es[0], r).value);
      }
    }
  }

  // ----- components -----

  predicate IsListCode(code: Octet) {
    code == 3 || code == 5 || code == 6 || code == 9 || code == 10 || code == 12
  }

  /**
    * An accepted list component: its type is one of six, the octets behind it are a complete list, every operator of
    * which is plain, and the rule gets exactly what the values behind the operators say.
    */
  lemma AcceptedList(b: seq<Octet>, r: Rule) returns (es: seq<WireEntry>)
    requires b != [] && b[0] != 1 && b[0] != 2 && DecodeComponent(b, r).ok
    ensures IsListCode(b[0]) && IsList(es) && StoredList(b[0], es, r) == Some(DecodeComponent(b, r).rule)
    ensures DecodeComponent(b, r).consumed == 1 + |ListOctets(es)| && [b[0]] + ListOctets(es) == b[..1 + |ListOctets(es)|]
  {
    hide ReadList, ApplyElements, Closed, PlainEntry, DecodeSubnet, StoredList;
    es := ListTaken(b[1..], 100);
    StoredListAgrees(b[0], es, r);
    var n := |ListOctets(es)|;
    assert [b[0]] + b[1..][..n] == b[..1 + n];
  }

  /** A component of one of these types with a complete list of plain entries is accepted exactly when all values are. */
  lemma ListComponent(code: Octet, es: seq<WireEntry>, rest: seq<Octet>, r: Rule)
    requires IsListCode(code) && IsList(es)
    ensures var s, stored := DecodeComponent([code] + ListOctets(es) + rest, r), StoredList(code, es, r);
            if stored.Some? then s == Step(true, stored.value, 1 + |ListOctets(es)|) else !s.ok
  {
    hide ReadList, ApplyElements, Closed, PlainEntry, DecodeSubnet, StoredList;
    var b := [code] + ListOctets(es) + rest;
    assert b[1..] == ListOctets(es) + rest;
    ListAccepted(es, rest, 100);
    StoredListAgrees(code, es, r);
  }

  /** The octets of an address prefix as a number, the missing ones being zero. */
  function PaddedNumber(octets: seq<Octet>): Word32
    requires |octets| <= 4
  {
    var at := (i: nat) => if i < |octets| then octets[i] as int else 0;
    0x100_0000 * at(0) + 0x1_0000 * at(1) + 0x100 * at(2) + at(3)
  }

  lemma ClearedMultiple(c: nat, p: nat)
    requires p > 0 && c % p == 0
    ensures 2 * c % (2 * p) == 0
  {
    Division(c, p);
    TwiceTimes(p, c / p);
    MultipleHasNoRest(2 * p, c / p);
  }

  lemma TwiceTimes(p: nat, q: nat)
    ensures 2 * Times(p, q) == Times(2 * p, q)
  {
  }

  function Times(d: nat, q: nat): nat {
    d * q
  }

  lemma Gap(d: nat, i: nat, j: nat)
    requires i < j
    ensures Times(d, i) + d <= Times(d, j)
  {
    assert d * j == d * i + d + d * (j - i - 1);
  }

  lemma Division(x: nat, d: nat)
    requires d > 0
    ensures x == Times(d, x / d) + x % d
  {
  }

  lemma MultipleHasNoRest(d: nat, q: nat)
    requires d > 0
    ensures Times(d, q) % d == 0
  {
    hide Times;
    var x := Times(d, q);
    Division(x, d);
    if q > x / d {
      Gap(d, x / d, q);
    } else if q < x / d {
      Gap(d, q, x / d);
    }
  }

  /** Clearing low bits goes down to the next multiple of their power of two. */
  lemma {:induction false} ClearLowValue(x: nat, n: nat)
    ensures ClearLow(x, n) % Pow2(n) == 0 && ClearLow(x, n) <= x < ClearLow(x, n) + Pow2(n)
  {
    if n > 0 {
      ClearLowValue(x / 2, n - 1);
      assert ClearLow(x, n) == 2 * ClearLow(x / 2, n - 1);
      ClearedMultiple(ClearLow(x / 2, n - 1), Pow2(n - 1));
    }
  }

  /** The address of a prefix: the bits its length covers as given, all others zero. */
  predicate IsAddressOf(address: Word32, length: nat, octets: seq<Octet>)
    requires length <= 32 && |octets| <= 4
  {
    address % Pow2(32 - length) == 0 && address <= PaddedNumber(octets) < address + Pow2(32 - length)
  }

  /** Just enough octets for so many bits. */
  predicate Covers(n: nat, length: nat) {
    length <= 8 * n < length + 8
  }

  lemma WireNumber(b: seq<Octet>)
    requires |b| > 0 && b[0] <= 32 && |b| >= 1 + OctetsFor(b[0])
    ensures WireAddress(b) == PaddedNumber(b[1..1 + OctetsFor(b[0])])
  {
    var n := OctetsFor(b[0]);
    var octets := b[1..1 + n];
    var padded := octets + Zeros(4 - n);
    assert forall i :: 0 <= i < 4 ==> padded[i] == if i < n then octets[i] else 0;
  }

  /**
    * A prefix component is accepted exactly when the rule has no such prefix yet, its length is at most 32 and all its
    * octets are there: just enough for the length. The rule gets the address cut to the length, and nothing else.
    */
  lemma PrefixComponent(b: seq<Octet>, r: Rule)
    requires b != [] && (b[0] == 1 || b[0] == 2)
    ensures var s := DecodeComponent(b, r);
            && (s.ok <==>
                  && (if b[0] == 1 then r.destination.None? else r.source.None?)
                  && |b| >= 2 && b[1] <= 32 && 8 * (|b| - 2) >= b[1])
            && (s.ok ==>
                  && s.consumed >= 2 && Covers(s.consumed - 2, b[1]) && s.consumed <= |b|
                  && s.rule == (if b[0] == 1 then r.(destination := s.rule.destination) else r.(source := s.rule.source))
                  && var p := if b[0] == 1 then s.rule.destination else s.rule.source;
                     p.Some? && p.value.length == b[1] && IsAddressOf(p.value.address, b[1], b[2..s.consumed]))
  {
    hide Mask, WireAddress, PaddedNumber, Pow2, ReadList, ApplyElements;
    if |b| >= 2 && b[1] <= 32 && |b| >= 2 + OctetsFor(b[1]) {
      var tail := b[1..];
      WireNumber(tail);
      assert tail[1..1 + OctetsFor(b[1])] == b[2..2 + OctetsFor(b[1])];
      MaskClearsLowBits(WireAddress(tail), b[1]);
      ClearLowValue(WireAddress(tail), 32 - b[1]);
    }
  }

  // ----- whole values -----

  datatype Component = PrefixPart(code: Octet, length: Octet, octets: seq<Octet>) | ListPart(code: Octet, entries: seq<WireEntry>)

  predicate IsComponent(c: Component) {
    match c
    case PrefixPart(code, length, octets) => (code == 1 || code == 2) && length <= 32 && Covers(|octets|, length)
    case ListPart(code, entries) => IsListCode(code) && IsList(entries)
  }

  function PartOctets(c: Component): seq<Octet> {
    match c
    case PrefixPart(code, length, octets) => [code, length] + octets
    case ListPart(code, entries) => [code] + ListOctets(entries)
  }

  function AllOctets(cs: seq<Component>): seq<Octet> {
    if cs == [] then [] else PartOctets(cs[0]) + AllOctets(cs[1..])
  }

  /** The component turns the first rule into the second. */
  predicate Turns(c: Component, r: Rule, r': Rule)
    requires IsComponent(c)
  {
    match c
    case PrefixPart(code, length, octets) =>
      && (if code == 1 then r.destination.None? && r' == r.(destination := r'.destination)
          else r.source.None? && r' == r.(source := r'.source))
      && var p := if code == 1 then r'.destination else r'.source;
         p.Some? && p.value.length == length && IsAddressOf(p.value.address, length, octets)
    case ListPart(code, entries) => StoredList(code, entries, r) == Some(r')
  }

  /** The octets are these components, which one after the other turn the first rule into the last. */
  ghost predicate Says(cs: seq<Component>, rules: seq<Rule>, b: seq<Octet>, r: Rule, r': Rule) {
    && |rules| == |cs| + 1 && rules[0] == r && rules[|cs|] == r' && AllOctets(cs) == b
    && forall i :: 0 <= i < |cs| ==> IsComponent(cs[i]) && Turns(cs[i], rules[i], rules[i + 1])
  }

  /** Whatever is accepted can be read this way. */
  lemma {:induction false} AcceptedNlri(b: seq<Octet>, r: Rule) returns (cs: seq<Component>, rules: seq<Rule>)
    requires DecodeNlri(b, r).ok
    ensures Says(cs, rules, b, r, DecodeNlri(b, r).rule)
    decreases |b|
  {
    hide DecodeComponent, IsComponent, Turns, PartOctets;
    if b == [] {
      cs, rules := [], [r];
    } else {
      var s := DecodeComponent(b, r);
      var c := AcceptedComponent(b, r);
      var rest, tail := AcceptedNlri(b[s.consumed..], s.rule);
      cs, rules := [c] + rest, [r] + tail;
      assert cs[1..] == rest && b == b[..s.consumed] + b[s.consumed..];
      forall i | 0 <= i < |cs| ensures IsComponent(cs[i]) && Turns(cs[i], rules[i], rules[i + 1]) {
        if i > 0 {
          assert cs[i] == rest[i - 1] && rules[i] == tail[i - 1] && rules[i + 1] == tail[i];
        }
      }
    }
  }

  lemma AcceptedComponent(b: seq<Octet>, r: Rule) returns (c: Component)
    requires b != [] && DecodeComponent(b, r).ok
    ensures var s := DecodeComponent(b, r);
            IsComponent(c) && Turns(c, r, s.rule) && s.consumed <= |b| && PartOctets(c) == b[..s.consumed]
  {
    hide DecodeComponent, IsAddressOf, StoredList, IsList;
    var s := DecodeComponent(b, r);
    if b[0] == 1 || b[0] == 2 {
      PrefixComponent(b, r);
      c := PrefixPart(b[0], b[1], b[2..s.consumed]);
    } else {
      var es := AcceptedList(b, r);
      c := ListPart(b[0], es);
    }
  }

  lemma AddressUnique(x: Word32, a: Word32, p: nat)
    requires p > 0 && a % p == 0 && x % p == 0 && a < x + p && x < a + p
    ensures x == a
  {
    hide Times;
    Division(x, p);
    Division(a, p);
    if x / p < a / p {
      Gap(p, x / p, a / p);
    } else if x / p > a / p {
      Gap(p, a / p, x / p);
    }
  }

  lemma ComponentAccepted(c: Component, rest: seq<Octet>, r: Rule, r': Rule)
    requires IsComponent(c) && Turns(c, r, r')
    ensures DecodeComponent(PartOctets(c) + rest, r) == Step(true, r', |PartOctets(c)|)
  {
    hide DecodeComponent, StoredList, IsList, Pow2, PaddedNumber;
    var b := PartOctets(c) + rest;
    match c {
      case PrefixPart(code, length, octets) =>
        PrefixComponent(b, r);
        var s := DecodeComponent(b, r);
        assert b[0] == code && b[1] == length && |b| == 2 + |octets| + |rest|;
        assert b[2..2 + |octets|] == octets;
        var got, said := if code == 1 then s.rule.destination else s.rule.source, if code == 1 then r'.destination else r'.source;
        AddressUnique(got.value.address, said.value.address, Pow2(32 - length));
        assert got == said;
      case ListPart(code, entries) => ListComponent(code, entries, rest, r);
    }
  }

  /** Whatever can be read this way is accepted, with that reading. */
  lemma {:induction false} ReadingAccepted(cs: seq<Component>, rules: seq<Rule>, b: seq<Octet>, r: Rule, r': Rule)
    requires Says(cs, rules, b, r, r')
    ensures DecodeNlri(b, r) == Outcome(true, r')
    decreases |cs|
  {
    hide DecodeComponent, IsComponent, Turns, PartOctets;
    if cs != [] {
      var tail := AllOctets(cs[1..]);
      assert IsComponent(cs[0]) && Turns(cs[0], rules[0], rules[1]);
      ComponentAccepted(cs[0], tail, r, rules[1]);
      forall i | 0 <= i < |cs[1..]| ensures IsComponent(cs[1..][i]) && Turns(cs[1..][i], rules[1..][i], rules[1..][i + 1]) {
        assert cs[1..][i] == cs[i + 1] && rules[1..][i] == rules[i + 1] && rules[1..][i + 1] == rules[i + 2];
      }
      ReadingAccepted(cs[1..], rules[1..], tail, rules[1], r');
      NotEmpty(cs[0]);
      assert b[|PartOctets(cs[0])|..] == tail;
    }
  }

  lemma NotEmpty(c: Component)
    ensures PartOctets(c) != []
  {
  }

  /**
    * The decoder accepts exactly the octets that are a sequence of components by this reading, and leaves exactly the
    * rule they say: prefixes cut to their lengths, each at most once, and complete lists of plain entries.
    */
  lemma NlriExactly(b: seq<Octet>, r: Rule, r': Rule)
    ensures DecodeNlri(b, r) == Outcome(true, r') <==> exists cs, rules :: Says(cs, rules, b, r, r')
  {
    hide DecodeNlri, Says;
    if DecodeNlri(b, r) == Outcome(true, r') {
      var cs, rules := AcceptedNlri(b, r);
      assert Says(cs, rules, b, r, r');
    }
    if cs, rules :| Says(cs, rules, b, r, r') {
      ReadingAccepted(cs, rules, b, r, r');
    }
  }

  // ----- what the encoder writes -----

  /** Operators written: the end bit on the last, 0x10 for two-octet values, and the lowest bit for "equal" or "match". */
  function WrittenOperator(last: bool, wide: bool, low: bool): Octet {
    (if last then 0x80 else 0) + (if wide then 0x10 else 0) + if low then 1 else 0
  }

  function NarrowEntry(value: Octet, last: bool, low: bool): WireEntry {
    RawEntry(WrittenOperator(last, false, low), [value])
  }

  function WideEntry(value: Word16, last: bool): WireEntry {
    RawEntry(WrittenOperator(last, true, true), [value / 256, value % 256])
  }

  function Narrow(values: seq<Octet>, low: bool): seq<WireEntry> {
    seq(|values|, i requires 0 <= i < |values| => NarrowEntry(values[i], i == |values| - 1, low))
  }

  function Wide(values: seq<Word16>): seq<WireEntry> {
    seq(|values|, i requires 0 <= i < |values| => WideEntry(values[i], i == |values| - 1))
  }

  function TcpValue(f: TcpFlagset): Octet {
    (if f.urg then 32 else 0) + (if f.ack then 16 else 0) + (if f.psh then 8 else 0) + (if f.rst then 4 else 0)
    + (if f.syn then 2 else 0) + if f.fin then 1 else 0
  }

  function FragmentValue(f: Fragment): Octet {
    match f case DontFragment => 1 case IsFragment => 2 case FirstFragment => 4 case LastFragment => 8 case NotFragment => 0
  }

  function TcpValues(fs: seq<TcpFlagset>): seq<Octet> {
    seq(|fs|, i requires 0 <= i < |fs| => TcpValue(fs[i]))
  }

  function FragmentValues(fs: seq<Fragment>): seq<Octet> {
    seq(|fs|, i requires 0 <= i < |fs| => FragmentValue(fs[i]))
  }

  function WrittenList(code: Octet, entries: seq<WireEntry>): seq<Component> {
    if entries == [] then [] else [ListPart(code, entries)]
  }

  function WrittenPrefix(code: Octet, s: Option<Subnet4>): seq<Component> {
    if s.None? then []
    else
      CutWithin(s.value.address, Pow2(32 - s.value.length));
      var cut: Word32 := s.value.address - s.value.address % Pow2(32 - s.value.length);
      var octets: seq<Octet> := [cut / 0x100_0000, cut / 0x1_0000 % 256, cut / 0x100 % 256, cut % 256];
      [PrefixPart(code, s.value.length, octets[..(s.value.length + 7) / 8])]
  }

  lemma CutWithin(a: Word32, p: nat)
    requires p > 0
    ensures 0 <= a - a % p
  {
    Division(a, p);
  }

  /** The components of a rule, in the order of their types. */
  function WrittenParts(r: Rule): seq<Component> {
    WrittenPrefix(1, r.destination) + WrittenPrefix(2, r.source)
    + WrittenList(3, Narrow(r.protocols, true)) + WrittenList(5, Wide(r.destinationPorts))
    + WrittenList(6, Wide(r.sourcePorts)) + WrittenList(9, Narrow(TcpValues(r.tcpFlags), r.matchTcpFlags))
    + WrittenList(10, Wide(r.packetLengths)) + WrittenList(12, Narrow(FragmentValues(r.fragments), r.matchFragments))
  }

  /** The entry of an item, by its position. */
  function EntryOf(w: Item, last: bool): WireEntry {
    RawEntry(WrittenOperator(last, w.wide, w.flag), if w.wide then [w.value / 256, w.value % 256] else [w.value])
  }

  lemma ItemWritten(w: Item, last: bool)
    ensures EncodeItem(w, last) == [EntryOf(w, last).op] + EntryOf(w, last).value
  {
    hide OperatorOctet;
    OperatorValue(ItemOperator(w, last));
  }

  function EntriesOf(items: seq<Item>): seq<WireEntry> {
    seq(|items|, i requires 0 <= i < |items| => EntryOf(items[i], i == |items| - 1))
  }

  lemma {:induction false} ItemsWritten(items: seq<Item>)
    ensures EncodeItems(items, true) == ListOctets(EntriesOf(items))
  {
    hide EncodeItem, EntryOf;
    if items != [] {
      ItemWritten(items[0], |items| == 1);
      ItemsWritten(items[1..]);
      assert EntriesOf(items)[1..] == EntriesOf(items[1..]);
    }
  }

  lemma ListWritten(kind: ListKind, code: Octet, items: seq<Item>, entries: seq<WireEntry>)
    requires TypeOf(kind) == code && EntriesOf(items) == entries
    ensures EncodeList(kind, items) == AllOctets(WrittenList(code, entries))
  {
    hide EncodeItems, ListOctets, EntryOf;
    ItemsWritten(items);
    if items != [] {
      OnePart(ListPart(code, entries));
    }
  }

  lemma OnePart(c: Component)
    ensures AllOctets([c]) == PartOctets(c) && AllOctets([]) == []
  {
    hide PartOctets;
    assert [c][1..] == [];
  }

  lemma TcpValueWritten(f: TcpFlagset)
    ensures TcpOctet(f) == TcpValue(f)
  {
    hide TcpOctet;
    TcpOctetValue(f);
  }

  lemma FragmentValueWritten(f: Fragment)
    ensures FragmentOctet(f) == FragmentValue(f)
  {
    hide FragmentOctet;
    FragmentOctetValue(f);
  }

  lemma EntriesMatch(r: Rule)
    ensures EntriesOf(RuleItems(r, ProtocolList)) == Narrow(r.protocols, true)
    ensures EntriesOf(RuleItems(r, DestinationPortList)) == Wide(r.destinationPorts)
    ensures EntriesOf(RuleItems(r, SourcePortList)) == Wide(r.sourcePorts)
    ensures EntriesOf(RuleItems(r, LengthList)) == Wide(r.packetLengths)
  {
    hide WrittenOperator;
  }

  lemma FlagEntriesMatch(r: Rule)
    ensures EntriesOf(RuleItems(r, TcpFlagList)) == Narrow(TcpValues(r.tcpFlags), r.matchTcpFlags)
    ensures EntriesOf(RuleItems(r, FragmentList)) == Narrow(FragmentValues(r.fragments), r.matchFragments)
  {
    hide WrittenOperator, TcpOctet, FragmentOctet, TcpValue, FragmentValue;
    forall i | 0 <= i < |r.tcpFlags| ensures TcpOctet(r.tcpFlags[i]) == TcpValue(r.tcpFlags[i]) {
      TcpValueWritten(r.tcpFlags[i]);
    }
    forall i | 0 <= i < |r.fragments| ensures FragmentOctet(r.fragments[i]) == FragmentValue(r.fragments[i]) {
      FragmentValueWritten(r.fragments[i]);
    }
  }

  /** Anding with the netmask leaves the largest multiple below. */
  lemma MaskValue(a: Word32, length: nat)
    requires length <= 32
    ensures Mask(a, length) == a - a % Pow2(32 - length)
  {
    hide Mask, ClearLow, Pow2;
    MaskClearsLowBits(a, length);
    ClearLowValue(a, 32 - length);
    var p := Pow2(32 - length);
    CutWithin(a, p);
    CutIsMultiple(a, p);
    AddressUnique(Mask(a, length), a - a % p, p);
  }

  lemma CutIsMultiple(a: nat, p: nat)
    requires p > 0
    ensures (a - a % p) % p == 0
  {
    hide Times;
    Division(a, p);
    MultipleHasNoRest(p, a / p);
  }

  lemma PrefixWritten(code: Octet, s: Option<Subnet4>)
    ensures EncodePrefix(code, s) == AllOctets(WrittenPrefix(code, s))
  {
    hide Mask, Pow2;
    if s.Some? {
      MaskValue(s.value.address, s.value.length);
      OnePart(WrittenPrefix(code, s)[0]);
    } else {
      OnePart(PrefixPart(1, 0, []));
    }
  }

  lemma {:induction false} AllOctetsJoin(cs: seq<Component>, ds: seq<Component>)
    ensures AllOctets(cs + ds) == AllOctets(cs) + AllOctets(ds)
  {
    hide PartOctets;
    if cs == [] {
      assert cs + ds == ds;
    } else {
      AllOctetsJoin(cs[1..], ds);
      assert (cs + ds)[1..] == cs[1..] + ds;
    }
  }

  /** The encoding of every rule, octet by octet: its components in the order of their types, with these operators. */
  lemma EncodedOctets(r: Rule)
    ensures EncodeNlri(r) == AllOctets(WrittenParts(r))
  {
    EntriesMatch(r);
    FlagEntriesMatch(r);
    hide EncodePrefix, WrittenPrefix, EncodeList, WrittenList, AllOctets, RuleItems, Narrow, Wide, TcpValues, FragmentValues, EntriesOf;
    PrefixWritten(1, r.destination);
    PrefixWritten(2, r.source);
    ListWritten(ProtocolList, 3, RuleItems(r, ProtocolList), Narrow(r.protocols, true));
    ListWritten(DestinationPortList, 5, RuleItems(r, DestinationPortList), Wide(r.destinationPorts));
    ListWritten(SourcePortList, 6, RuleItems(r, SourcePortList), Wide(r.sourcePorts));
    ListWritten(TcpFlagList, 9, RuleItems(r, TcpFlagList), Narrow(TcpValues(r.tcpFlags), r.matchTcpFlags));
    ListWritten(LengthList, 10, RuleItems(r, LengthList), Wide(r.packetLengths));
    ListWritten(FragmentList, 12, RuleItems(r, FragmentList), Narrow(FragmentValues(r.fragments), r.matchFragments));
    ListsInOrder(r);
    var p1, p2 := WrittenPrefix(1, r.destination), WrittenPrefix(2, r.source);
    var c3, c5 := WrittenList(3, Narrow(r.protocols, true)), WrittenList(5, Wide(r.destinationPorts));
    var c6, c9 := WrittenList(6, Wide(r.sourcePorts)), WrittenList(9, Narrow(TcpValues(r.tcpFlags), r.matchTcpFlags));
    var c10 := WrittenList(10, Wide(r.packetLengths));
    var c12 := WrittenList(12, Narrow(FragmentValues(r.fragments), r.matchFragments));
    AllOctetsJoin(p1, p2);
    AllOctetsJoin(p1 + p2, c3);
    AllOctetsJoin(p1 + p2 + c3, c5);
    AllOctetsJoin(p1 + p2 + c3 + c5, c6);
    AllOctetsJoin(p1 + p2 + c3 + c5 + c6, c9);
    AllOctetsJoin(p1 + p2 + c3 + c5 + c6 + c9, c10);
    AllOctetsJoin(p1 + p2 + c3 + c5 + c6 + c9 + c10, c12);
  }
}
