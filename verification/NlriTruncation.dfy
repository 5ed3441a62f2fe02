/** What decoding makes of an encoding that was cut short: it never finds the rule that was encoded. */
module NlriTruncation {
  import opened Octets
  import opened Prefix
  import opened FlowSpecRule
  import opened NlriWire
  import opened NlriDecode
  import opened NlriRoundTrip

  /** How much a rule carries: one for each IPv4 prefix and each list entry. */
  function Weight(r: Rule): nat {
    (if r.destination.Some? then 1 else 0) + (if r.source.Some? then 1 else 0)
    + |r.protocols| + |r.destinationPorts| + |r.sourcePorts| + |r.tcpFlags| + |r.packetLengths| + |r.fragments|
  }

  lemma EqualRulesWeighTheSame(a: Rule, b: Rule)
    requires SameRule(a, b)
    ensures Weight(a) == Weight(b)
  {
  }

  lemma ExtendWeight(r: Rule, kind: ListKind, q: Rule)
    ensures Weight(Extend(r, kind, q)) == Weight(r) + |RuleItems(q, kind)|
  {
  }

  lemma {:induction false} ExtendAllWeight(r: Rule, kinds: seq<ListKind>, q: Rule)
    ensures Weight(ExtendAll(r, kinds, q)) >= Weight(r)
    ensures EncodeLists(q, kinds) != [] ==> Weight(ExtendAll(r, kinds, q)) > Weight(r)
    decreases kinds
  {
    hide Weight, Extend, RuleItems;
    if kinds != [] {
      ExtendWeight(r, kinds[0], q);
      ExtendAllWeight(Extend(r, kinds[0], q), kinds[1..], q);
    }
  }

  /** Cutting inside the octets a component is decoded from makes that component unreadable. */
  lemma CutComponent(full: seq<Octet>, n: nat, r: Rule)
    requires 0 < n < |full|
    requires DecodeComponent(full, r).ok ==> DecodeComponent(full, r).consumed > n
    ensures !DecodeComponent(full[..n], r).ok
  {
    hide DecodeComponent;
    assert full[..n] + full[n..] == full;
    if DecodeComponent(full[..n], r).ok {
      DecodeComponentPrefix(full[..n], full[n..], r);
    }
  }

  /** Off track, or short of what the whole encoding carries. */
  predicate Lost(o: Outcome, r: Rule, whole: Rule) {
    Derailed(o, r) || Weight(o.rule) < Weight(whole)
  }

  lemma {:induction false} CutListsLost(q: Rule, kinds: seq<ListKind>, r: Rule, n: nat)
    requires Encodable(q) && Normal(r) && n < |EncodeLists(q, kinds)|
    ensures Lost(DecodeNlri(EncodeLists(q, kinds)[..n], r), r, ExtendAll(r, kinds, q))
    decreases kinds
  {
    hide Weight, RuleItems, EncodeList, DecodeComponent, Normal, Encodable, Extend;
    var kind, items, rest := kinds[0], RuleItems(q, kinds[0]), EncodeLists(q, kinds[1..]);
    var first, whole := EncodeList(kind, items), EncodeLists(q, kinds);
    ExtendAllWeight(r, kinds, q);
    if n == 0 {
    } else if |items| > MAX_ELEMENTS {
      CutLongListLost(q, kinds, r, n);
    } else if n < |first| {
      ListNotEmpty(kind, items);
      FittingListStep(kind, q, r, rest);
      CutComponent(whole, n, r);
    } else {
      assert whole[..n] == first + rest[..n - |first|];
      ListDecoded(kind, q, r, rest[..n - |first|]);
      ExtendNormal(kind, q, r);
      CutListsLost(q, kinds[1..], Extend(r, kind, q), n - |first|);
    }
  }

  lemma ListNotEmpty(kind: ListKind, items: seq<Item>)
    ensures EncodeList(kind, items) == [] <==> items == []
  {
  }

  lemma CutLongListLost(q: Rule, kinds: seq<ListKind>, r: Rule, n: nat)
    requires Encodable(q) && Normal(r) && 0 < n < |EncodeLists(q, kinds)|
    requires |RuleItems(q, kinds[0])| > MAX_ELEMENTS
    ensures Lost(DecodeNlri(EncodeLists(q, kinds)[..n], r), r, ExtendAll(r, kinds, q))
  {
    hide Weight, RuleItems, EncodeList, DecodeComponent, Normal, Encodable, Extend, Shorten, OperatorOctet;
    var kind, items, rest := kinds[0], RuleItems(q, kinds[0]), EncodeLists(q, kinds[1..]);
    var whole, head, q' := EncodeLists(q, kinds), Head(kind, RuleItems(q, kinds[0])), Shorten(kind, q, MAX_ELEMENTS);
    HeadThenOperator(kind, items);
    assert whole[..|head|] == head;
    if n < |head| {
      HeadStep(kind, q, r, whole[|head|..]);
      assert whole == head + whole[|head|..];
      CutComponent(whole, n, r);
    } else {
      var c := whole[|head|..n];
      assert whole[..n] == head + c;
      HeadStep(kind, q, r, c);
      assert (head + c)[|head|..] == c;
      ShortenItems(kind, q, MAX_ELEMENTS);
      ExtendNormal(kind, q', r);
      if c == [] {
        ExtendWeight(r, kind, q');
        ExtendWeight(r, kind, q);
        ExtendAllWeight(Extend(r, kind, q), kinds[1..], q);
      } else {
        OperatorDerails(items[MAX_ELEMENTS], |items| == MAX_ELEMENTS + 1, c, Extend(r, kind, q'));
      }
    }
  }

  lemma PrefixStep(code: Octet, s: Subnet4, r: Rule, rest: seq<Octet>)
    requires code == DESTINATION_PREFIX || code == SOURCE_PREFIX
    ensures var b := EncodePrefix(code, Some(s));
            && b != []
            && (DecodeComponent(b + rest, r).ok ==> DecodeComponent(b + rest, r).consumed == |b|)
  {
    hide EncodeSubnet, DecodeSubnet;
    SubnetRoundTrip(s, rest);
    assert (EncodePrefix(code, Some(s)) + rest)[1..] == EncodeSubnet(s) + rest;
  }

  /** The same for the prefixes and the lists together. */
  lemma CutNlriLost(q: Rule, n: nat)
    requires Encodable(q) && n < |EncodeNlri(q)|
    ensures Lost(DecodeNlri(EncodeNlri(q)[..n], EMPTY_RULE), Prefixes(q), q)
  {
    hide EncodeLists, DecodeComponent, EncodePrefix, Canonical, Encodable, CanonicalOption, Carried, ExtendAll, EncodeNlri;
    NlriParts(q);
    var first, second := EncodePrefix(DESTINATION_PREFIX, q.destination), EncodePrefix(SOURCE_PREFIX, q.source);
    var lists := EncodeLists(q, WIRE_ORDER);
    var b := EncodeNlri(q);
    if n < |first| {
      CutDestinationLost(q, n);
    } else {
      var k := n - |first|;
      assert b[..n] == first + (second + lists)[..k];
      DestinationDecoded(q.destination, EMPTY_RULE, (second + lists)[..k]);
      if k < |second| {
        CutSourceLost(q, k);
      } else {
        assert (second + lists)[..k] == second + lists[..k - |second|];
        SourceDecoded(q.source, EMPTY_RULE.(destination := CanonicalOption(q.destination)), lists[..k - |second|]);
        PrefixesDecoded(q);
        CutListsLost(q, WIRE_ORDER, Prefixes(q), k - |second|);
        CarriedIsExtended(q);
        CarriedWeight(q);
      }
    }
  }

  lemma NlriParts(q: Rule)
    ensures EncodeNlri(q) == EncodePrefix(DESTINATION_PREFIX, q.destination)
                             + (EncodePrefix(SOURCE_PREFIX, q.source) + EncodeLists(q, WIRE_ORDER))
  {
    hide EncodePrefix, EncodeLists;
  }

  lemma CarriedWeight(q: Rule)
    ensures Weight(Carried(q)) == Weight(q)
  {
    hide Canonical;
  }

  lemma CutDestinationLost(q: Rule, n: nat)
    requires Encodable(q) && n < |EncodePrefix(DESTINATION_PREFIX, q.destination)| <= |EncodeNlri(q)|
    ensures Lost(DecodeNlri(EncodeNlri(q)[..n], EMPTY_RULE), Prefixes(q), q)
  {
    hide EncodeLists, DecodeComponent, EncodeSubnet, Canonical, Encodable;
    NlriParts(q);
    if n > 0 {
      var rest := EncodePrefix(SOURCE_PREFIX, q.source) + EncodeLists(q, WIRE_ORDER);
      PrefixStep(DESTINATION_PREFIX, q.destination.value, EMPTY_RULE, rest);
      CutComponent(EncodeNlri(q), n, EMPTY_RULE);
    }
  }

  lemma CutSourceLost(q: Rule, k: nat)
    requires Encodable(q) && k < |EncodePrefix(SOURCE_PREFIX, q.source)|
    ensures var rest := EncodePrefix(SOURCE_PREFIX, q.source) + EncodeLists(q, WIRE_ORDER);
            Lost(DecodeNlri(rest[..k], EMPTY_RULE.(destination := CanonicalOption(q.destination))), Prefixes(q), q)
  {
    hide EncodeLists, DecodeComponent, EncodeSubnet, Canonical, Encodable;
    var r := EMPTY_RULE.(destination := CanonicalOption(q.destination));
    if k > 0 {
      PrefixStep(SOURCE_PREFIX, q.source.value, r, EncodeLists(q, WIRE_ORDER));
      CutComponent(EncodePrefix(SOURCE_PREFIX, q.source) + EncodeLists(q, WIRE_ORDER), k, r);
    }
  }

  /**
    * An encoding that lost its tail, wherever it was cut, never decodes to a rule equal to the one encoded. The
    * NLRI length octet of an announcement cuts encodings of 256 octets and more in this way.
    */
  lemma TruncationIsDetectable(q: Rule, n: nat, a: Action)
    requires Encodable(q) && n < |EncodeNlri(q)|
    ensures var o := DecodeNlri(EncodeNlri(q)[..n], EMPTY_RULE);
            !(o.ok && SameRule(o.rule.(action := a), q))
  {
    hide EncodeNlri, DecodeNlri, Encodable, Canonical, Weight;
    CutNlriLost(q, n);
    var o := DecodeNlri(EncodeNlri(q)[..n], EMPTY_RULE);
    if o.ok && SameRule(o.rule.(action := a), q) {
      EqualRulesWeighTheSame(o.rule.(action := a), q);
      WeightIgnoresAction(o.rule, a);
    }
  }

  lemma WeightIgnoresAction(r: Rule, a: Action)
    ensures Weight(r.(action := a)) == Weight(r)
  {
  }
}
