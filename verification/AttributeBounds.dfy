/**
  * The multiprotocol attribute decoded without bounds tests: how far the program reads, and when memory behind the
  * attribute decides what it returns.
  */
module AttributeBounds {
  import opened Octets
  import opened Prefix
  import opened FlowSpecRule
  import opened NlriWire
  import opened NlriDecode
  import opened PathAttribute
  import opened Announce

  /** What is returned, and how many octets from the start of the value are taken as part of it. */
  datatype Reading = Reading(outcome: Outcome, reached: nat)

  /** No value reaches further: six octets of header and an NLRI below 240 octets. */
  const FARTHEST: nat := 245

  /**
    * The branch as the program has it, on the memory that begins with the value: every field is read where it would be,
    * whether or not the attribute goes that far.
    */
  function ReadMemory(m: seq<Octet>, r: Rule): Reading
    requires |m| >= FARTHEST
  {
    if ToWord16(m[0], m[1]) != 1 then Reading(Outcome(false, r), 2)
    else if m[2] != 133 then Reading(Outcome(false, r), 3)
    else if m[5] >= 240 then Reading(Outcome(false, r), 6)
    else Reading(DecodeNlri(m[6..6 + m[5]], r), 6 + m[5])
  }

  /**
    * The value contains the fields its family and its NLRI length announce: nothing more than the address family for
    * another family, than the subsequent one for other routes, than the NLRI length for a long NLRI.
    */
  predicate FieldsWithin(v: seq<Octet>) {
    && |v| >= 2
    && (ToWord16(v[0], v[1]) == 1 ==>
          |v| >= 3 && (v[2] == 133 ==> |v| >= 6 && (v[5] < 240 ==> |v| >= 6 + v[5])))
  }

  /** The octets reached are the only ones that matter. */
  lemma ReadsOnlyReached(m: seq<Octet>, m': seq<Octet>, r: Rule)
    requires |m| >= FARTHEST && |m'| >= FARTHEST
    requires var n := ReadMemory(m, r).reached; n <= FARTHEST && m[..n] == m'[..n]
    ensures ReadMemory(m', r) == ReadMemory(m, r)
  {
    hide DecodeNlri, ToWord16;
    var n := ReadMemory(m, r).reached;
    assert forall i :: 0 <= i < n ==> m[..n][i] == m'[..n][i];
    assert m'[0] == m[0] && m'[1] == m[1];
    if ToWord16(m[0], m[1]) == 1 {
      assert m'[2] == m[2];
      if m[2] == 133 {
        assert m'[5] == m[5];
        if m[5] < 240 {
          assert m'[6..6 + m[5]] == m'[..n][6..] && m[6..6 + m[5]] == m[..n][6..];
        }
      }
    }
  }

  lemma TaggedExactly(v: seq<Octet>, r: Rule)
    ensures DecodeMpValue(v, r) == OutOfBounds <==> !FieldsWithin(v)
  {
    hide DecodeNlri;
  }

  /**
    * Whatever lies behind the value, the program reads past its end exactly when the value does not contain its fields;
    * when it does, memory behind it makes no difference and the outcome is that of the bounded decoder.
    */
  lemma OutOfBoundsExactly(v: seq<Octet>, beyond: seq<Octet>, r: Rule)
    requires |v + beyond| >= FARTHEST
    ensures ReadMemory(v + beyond, r).reached > |v| <==> !FieldsWithin(v)
    ensures FieldsWithin(v) ==> DecodeMpValue(v, r) == Done(ReadMemory(v + beyond, r).outcome)
    ensures DecodeMpValue(v, r) == OutOfBounds <==> ReadMemory(v + beyond, r).reached > |v|
  {
    hide DecodeNlri, ToWord16;
    var m := v + beyond;
    assert forall i :: 0 <= i < |v| ==> m[i] == v[i];
    assert |v| >= 6 && v[5] < 240 && |v| >= 6 + v[5] ==> m[6..6 + v[5]] == v[6..6 + v[5]];
  }

  // ----- when memory decides -----

  /** Two memories behind the value, of the same length, make the program return different things. */
  ghost predicate MemoryDecides(v: seq<Octet>, r: Rule) {
    exists x, y: seq<Octet> :: Differ(v, x, y, r)
  }

  predicate Differ(v: seq<Octet>, x: seq<Octet>, y: seq<Octet>, r: Rule) {
    && |x| == |y| && |v| + |x| >= FARTHEST
    && ReadMemory(v + x, r).outcome != ReadMemory(v + y, r).outcome
  }

  /** What there is of the header does not settle the matter yet. */
  predicate Undecided(v: seq<Octet>) {
    (|v| >= 1 ==> v[0] == 0) && (|v| >= 2 ==> v[1] == 1) && (|v| >= 3 ==> v[2] == 133)
  }

  /** The header ends within the value, but the NLRI goes on behind it. */
  predicate NlriCut(v: seq<Octet>) {
    |v| >= 6 && Undecided(v) && v[5] < 240 && |v| < 6 + v[5]
  }

  /** The missing octets of the NLRI can be filled in so that it decodes differently. */
  ghost predicate NlriOpen(p: seq<Octet>, missing: nat, r: Rule) {
    exists x, y: seq<Octet> :: Completes(p, missing, x, y, r)
  }

  predicate Completes(p: seq<Octet>, missing: nat, x: seq<Octet>, y: seq<Octet>, r: Rule) {
    |x| == missing && |y| == missing && DecodeNlri(p + x, r) != DecodeNlri(p + y, r)
  }

  function Zeros(n: nat): seq<Octet> {
    seq(n, _ => 0)
  }

  lemma HeaderDecides(v: seq<Octet>, r: Rule)
    requires |v| < 6 && Undecided(v)
    ensures MemoryDecides(v, r)
  {
    hide ToWord16;
    var x: seq<Octet> := [0, 1, 133, 0, 0, 0][|v|..] + Zeros(FARTHEST);
    var y: seq<Octet> := [0, 1, 133, 0, 0, 240][|v|..] + Zeros(FARTHEST);
    HeaderRead(v, x, 0);
    HeaderRead(v, y, 240);
    assert (v + x)[6..6] == [];
    assert Differ(v, x, y, r);
  }

  lemma HeaderRead(v: seq<Octet>, x: seq<Octet>, length: Octet)
    requires |v| < 6 && Undecided(v) && x == [0, 1, 133, 0, 0, length][|v|..] + Zeros(FARTHEST)
    ensures |v + x| >= FARTHEST
    ensures ToWord16((v + x)[0], (v + x)[1]) == 1 && (v + x)[2] == 133 && (v + x)[5] == length
  {
    assert ToWord16(0, 1) == 1;
    hide ToWord16;
    var header: seq<Octet> := [0, 1, 133, 0, 0, length];
    forall i | 0 <= i < 6 && i != 3 && i != 4 ensures (v + x)[i] == header[i] {
      if i < |v| {
        assert (v + x)[i] == v[i];
      } else {
        assert (v + x)[i] == header[|v|..][i - |v|];
      }
    }
  }

  lemma CutRead(v: seq<Octet>, x: seq<Octet>, r: Rule)
    requires NlriCut(v) && |v| + |x| >= FARTHEST
    ensures 6 + v[5] - |v| <= |x|
    ensures ReadMemory(v + x, r).outcome == DecodeNlri(v[6..] + x[..6 + v[5] - |v|], r)
  {
    hide DecodeNlri;
    var m, n := v + x, 6 + v[5];
    assert forall i :: 0 <= i < |v| ==> m[i] == v[i];
    assert m[6..n] == v[6..] + x[..n - |v|];
  }

  lemma CutDecides(v: seq<Octet>, r: Rule)
    requires NlriCut(v)
    ensures MemoryDecides(v, r) <==> NlriOpen(v[6..], 6 + v[5] - |v|, r)
  {
    hide DecodeNlri, ReadMemory;
    var missing := 6 + v[5] - |v|;
    if x, y: seq<Octet> :| Differ(v, x, y, r) {
      CutRead(v, x, r);
      CutRead(v, y, r);
      assert Completes(v[6..], missing, x[..missing], y[..missing], r);
    }
    if x, y: seq<Octet> :| Completes(v[6..], missing, x, y, r) {
      var x', y' := x + Zeros(FARTHEST), y + Zeros(FARTHEST);
      CutRead(v, x', r);
      CutRead(v, y', r);
      assert x'[..missing] == x && y'[..missing] == y;
      assert Differ(v, x', y', r);
    }
  }

  lemma SettledOtherwise(v: seq<Octet>, x: seq<Octet>, y: seq<Octet>, r: Rule)
    requires !(|v| < 6 && Undecided(v)) && !NlriCut(v) && |x| == |y| && |v| + |x| >= FARTHEST
    ensures ReadMemory(v + x, r).outcome == ReadMemory(v + y, r).outcome
  {
    hide DecodeNlri;
    if FieldsWithin(v) {
      OutOfBoundsExactly(v, x, r);
      OutOfBoundsExactly(v, y, r);
    } else {
      assert forall i :: 0 <= i < |v| ==> (v + x)[i] == v[i] && (v + y)[i] == v[i];
    }
  }

  /**
    * Memory behind the value decides what the program returns exactly in two cases: the value ends within its header,
    * which does not settle the matter so far, or it ends within the NLRI, and the missing octets can make a difference
    * to the NLRI decoder.
    */
  lemma MemoryDecidesExactly(v: seq<Octet>, r: Rule)
    ensures MemoryDecides(v, r) <==>
            || (|v| < 6 && Undecided(v))
            || (NlriCut(v) && NlriOpen(v[6..], 6 + v[5] - |v|, r))
  {
    hide DecodeNlri, ReadMemory, NlriOpen;
    if |v| < 6 && Undecided(v) {
      HeaderDecides(v, r);
    } else if NlriCut(v) {
      CutDecides(v, r);
    } else {
      forall x, y: seq<Octet> ensures !Differ(v, x, y, r) {
        if |x| == |y| && |v| + |x| >= FARTHEST {
          SettledOtherwise(v, x, y, r);
        }
      }
    }
  }

  // ----- an NLRI cut between two components -----

  lemma OneOctetRefused(x: seq<Octet>, r: Rule)
    requires |x| == 1
    ensures DecodeNlri(x, r) == Outcome(false, r)
  {
    hide DecodeSubnet, ApplyElements;
    ReadListStep(x[1..], MAX_ELEMENTS);
  }

  lemma TwoOctetsRefused(x: seq<Octet>, r: Rule)
    requires |x| == 2 && r.destination.Some? && r.source.Some?
    ensures DecodeNlri(x, r) == Outcome(false, r)
  {
    hide DecodeSubnet, ApplyElements, ElementAt;
    ReadListStep(x[1..], MAX_ELEMENTS);
    assert ReadEntry(x[1..]).None?;
  }

  lemma UnknownTypeRefused(x: seq<Octet>, r: Rule)
    requires x != [] && x[0] == 0
    ensures DecodeNlri(x, r) == Outcome(false, r)
  {
    hide DecodeSubnet, ApplyElements, ReadList;
  }

  lemma EmptyPrefixTaken(x: seq<Octet>, r: Rule)
    requires (x == [DESTINATION_PREFIX, 0] && r.destination.None?) || (x == [SOURCE_PREFIX, 0] && r.source.None?)
    ensures DecodeNlri(x, r).ok
  {
    assert x[1..] == [0] && x[2..] == [];
  }

  /** A protocol list of one entry, then octets no component begins with. */
  lemma ProtocolTaken(a: Octet, n: nat, r: Rule)
    ensures DecodeNlri([3, 0x81, a] + Zeros(n), r).rule.protocols == r.protocols + [a]
  {
    var b: seq<Octet> := [0x81, a] + Zeros(n);
    var x := [3, 0x81, a] + Zeros(n);
    assert x[1..] == b && x[3..] == Zeros(n);
    LastOneOctet();
    ReadListStep(b, MAX_ELEMENTS);
    hide ReadOperator;
    assert ReadEntry(b) == Some(Entry(Element(a, a, 1), 2, true));
    assert ReadList(b, MAX_ELEMENTS) == ListRead([Element(a, a, 1)], 2);
    hide ReadList, ReadEntry;
    assert ApplyElements(ProtocolList, [Element(a, a, 1)], r) == Outcome(true, r.(protocols := r.protocols + [a]));
    assert DecodeComponent(x, r) == Step(true, r.(protocols := r.protocols + [a]), 3);
    if n > 0 {
      UnknownTypeRefused(Zeros(n), r.(protocols := r.protocols + [a]));
    }
  }

  lemma LastOneOctet()
    ensures var o := ReadOperator(0x81); Acceptable(o) && o.ValueLength() == 1 && o.endOfList
  {
  }

  lemma NothingOpen(missing: nat, r: Rule)
    requires missing >= 1
    ensures NlriOpen([], missing, r) <==> missing >= 3 || (missing == 2 && (r.destination.None? || r.source.None?))
  {
    hide DecodeNlri;
    var none: seq<Octet> := [];
    assert forall x: seq<Octet> :: none + x == x;
    if missing == 1 {
      forall x, y: seq<Octet> ensures !Completes([], missing, x, y, r) {
        if |x| == 1 && |y| == 1 {
          OneOctetRefused(x, r);
          OneOctetRefused(y, r);
        }
      }
    } else if missing == 2 && r.destination.Some? && r.source.Some? {
      forall x, y: seq<Octet> ensures !Completes([], missing, x, y, r) {
        if |x| == 2 && |y| == 2 {
          TwoOctetsRefused(x, r);
          TwoOctetsRefused(y, r);
        }
      }
    } else if missing == 2 {
      var x: seq<Octet> := if r.destination.None? then [DESTINATION_PREFIX, 0] else [SOURCE_PREFIX, 0];
      EmptyPrefixTaken(x, r);
      UnknownTypeRefused([0, 0], r);
      assert Completes([], missing, x, [0, 0], r);
    } else {
      ProtocolTaken(6, missing - 3, r);
      ProtocolTaken(17, missing - 3, r);
      var x, y: seq<Octet> := [3, 0x81, 6] + Zeros(missing - 3), [3, 0x81, 17] + Zeros(missing - 3);
      assert (r.protocols + [6])[|r.protocols|] != (r.protocols + [17])[|r.protocols|];
      assert Completes([], missing, x, y, r);
    }
  }

  /**
    * Cut between two components, as right behind its header, an NLRI depends on memory exactly when at least three
    * octets are missing, or two and a prefix can still be added.
    */
  lemma CutBetweenComponents(p: seq<Octet>, missing: nat, r: Rule)
    requires DecodeNlri(p, r).ok && missing >= 1
    ensures var r' := DecodeNlri(p, r).rule;
            NlriOpen(p, missing, r) <==> missing >= 3 || (missing == 2 && (r'.destination.None? || r'.source.None?))
  {
    hide DecodeNlri;
    var r' := DecodeNlri(p, r).rule;
    NothingOpen(missing, r');
    var none: seq<Octet> := [];
    forall x, y: seq<Octet> ensures Completes(p, missing, x, y, r) == Completes([], missing, x, y, r') {
      DecodeComposes(p, x, r);
      DecodeComposes(p, y, r);
      assert none + x == x && none + y == y;
    }
  }

  // ----- whole announcements -----

  /** The attribute at which decoding would read past the end. */
  predicate Overreaches(b: seq<Octet>) {
    var h := ParseHeader(b);
    h.Some? && h.value.code == MP_REACH_NLRI && !FieldsWithin(b[h.value.BodyShift()..])
  }

  /** The first `n` attributes are all accepted. */
  predicate Passes(attributes: seq<seq<Octet>>, n: nat, r: Rule, outOfRange: Word32)
    requires n <= |attributes|
  {
    var d := DecodeAnnounce(attributes[..n], r, outOfRange);
    d.Done? && d.outcome.ok
  }

  /** Decoding an announcement reads past the end exactly when some attribute overreaches and all before it are accepted. */
  lemma {:induction false} AnnounceOutOfBoundsExactly(attributes: seq<seq<Octet>>, r: Rule, outOfRange: Word32)
    ensures DecodeAnnounce(attributes, r, outOfRange) == OutOfBounds <==>
            exists i :: 0 <= i < |attributes| && Overreaches(attributes[i])
                        && Passes(attributes, i, r, outOfRange)
  {
    hide ParseHeader, DecodeMpValue, FieldsWithin, ReadCommunity;
    if attributes != [] {
      var b, rest := attributes[0], attributes[1..];
      if ParseHeader(b).Some? {
        TaggedExactly(b[ParseHeader(b).value.BodyShift()..], r);
      }
      assert attributes[..0] == [];
      if DecodeAttribute(b, r, outOfRange).Done? && DecodeAttribute(b, r, outOfRange).outcome.ok {
        var r' := DecodeAttribute(b, r, outOfRange).outcome.rule;
        AnnounceOutOfBoundsExactly(rest, r', outOfRange);
        forall i | 0 < i <= |attributes| ensures Passes(attributes, i, r, outOfRange) == Passes(rest, i - 1, r', outOfRange) {
          assert attributes[..i][0] == b && attributes[..i][1..] == rest[..i - 1];
        }
        if i :| 0 <= i < |rest| && Overreaches(rest[i]) && Passes(rest, i, r', outOfRange) {
          assert Overreaches(attributes[i + 1]) && Passes(attributes, i + 1, r, outOfRange);
        }
        if i :| 0 <= i < |attributes| && Overreaches(attributes[i]) && Passes(attributes, i, r, outOfRange) {
          assert Overreaches(rest[i - 1]) && Passes(rest, i - 1, r', outOfRange);
        }
      } else {
        forall i | 0 < i <= |attributes| ensures !Passes(attributes, i, r, outOfRange) {
          assert attributes[..i][0] == b;
        }
        assert Passes(attributes, 0, r, outOfRange);
      }
    }
  }
}
