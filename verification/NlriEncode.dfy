/** The program's encoder: it appends operators and values to a bounded buffer, list by list. */
module NlriEncode {
  import opened Octets
  import opened Prefix
  import opened BinaryBuffer
  import opened FlowSpecRule
  import opened NlriWire

  const NLRI_BUFFER_SIZE: nat := 2048

  /** A list is refused only for a TCP flagset without flags. */
  predicate ListEncodable(r: Rule, kind: ListKind) {
    kind == TcpFlagList ==> Encodable(r)
  }

  /** Appends one entry; for TCP flags the operator is already written when an empty flagset is found. */
  method WriteEntry(r: Rule, kind: ListKind, i: nat, buffer: Buffer) returns (ok: bool)
    requires buffer.Valid() && i < |RuleItems(r, kind)|
    modifies buffer, buffer.storage
    ensures buffer.Valid() && buffer.storage == old(buffer.storage) && buffer.FailedEarly == old(buffer.FailedEarly)
    ensures ok <==> (kind == TcpFlagList ==> r.tcpFlags[i].AnyFlag())
    ensures var items := RuleItems(r, kind);
            ok ==> buffer.Attempted == old(buffer.Attempted) + EncodeItem(items[i], |items| - i == 1)
  {
    hide OperatorOctet, Buffer.Valid, TcpOctet, FragmentOctet;
    var items := RuleItems(r, kind);
    buffer.Write([OperatorOctet(ItemOperator(items[i], |items| - i == 1))]);
    if kind == TcpFlagList && !r.tcpFlags[i].AnyFlag() {
      return false;
    }
    buffer.Write(if items[i].wide then Bytes16(items[i].value) else [items[i].value]);
    return true;
  }

  /** Appends one component list; entry `i` gets the end-of-list bit when it is the last. */
  method WriteList(r: Rule, kind: ListKind, buffer: Buffer) returns (ok: bool)
    requires buffer.Valid()
    modifies buffer, buffer.storage
    ensures buffer.Valid() && buffer.storage == old(buffer.storage) && buffer.FailedEarly == old(buffer.FailedEarly)
    ensures ok <==> ListEncodable(r, kind)
    ensures ok ==> buffer.Attempted == old(buffer.Attempted) + EncodeList(kind, RuleItems(r, kind))
  {
    hide EncodeItem, EncodeItems, RuleItems, Buffer.Valid;
    OneItemPerFlagset(r);
    var items := RuleItems(r, kind);
    if |items| == 0 {
      return true;
    }
    buffer.Write([TypeOf(kind)]);
    ghost var base := buffer.Attempted;
    EncodeNoItems(items);
    for i := 0 to |items|
      invariant buffer.Valid() && buffer.storage == old(buffer.storage) && buffer.FailedEarly == old(buffer.FailedEarly)
      invariant buffer.Attempted == base + EncodeItems(items[..i], i == |items|)
      invariant kind == TcpFlagList ==> forall k :: 0 <= k < i ==> r.tcpFlags[k].AnyFlag()
    {
      ok := WriteEntry(r, kind, i, buffer);
      if !ok {
        return;
      }
      EncodeItemsExtend(items, i, |items| - i == 1);
    }
    assert items[..|items|] == items;
    return true;
  }

  lemma OneItemPerFlagset(r: Rule)
    ensures |RuleItems(r, TcpFlagList)| == |r.tcpFlags|
  {
  }

  lemma EncodeNoItems(items: seq<Item>)
    ensures EncodeItems(items[..0], false) == []
  {
  }

  method WritePrefix(code: Octet, s: Subnet4, buffer: Buffer) returns (ok: bool)
    requires buffer.Valid()
    modifies buffer, buffer.storage
    ensures buffer.Valid() && buffer.storage == old(buffer.storage) && buffer.FailedEarly == old(buffer.FailedEarly)
    ensures ok
    ensures buffer.Attempted == old(buffer.Attempted) + EncodePrefix(code, Some(s))
  {
    hide EncodeSubnet, Buffer.Valid, Buffer.Used, Buffer.Capacity;
    buffer.Write([code]);
    var encoded := new Buffer();
    ok := WriteSubnet(s, encoded);
    if !ok {
      return;
    }
    ghost var base := buffer.Attempted;
    var _ := buffer.AppendBuffer(encoded);
    assert buffer.Attempted == base + EncodeSubnet(s);
  }

  /**
    * The encoder appends to any buffer, allocating it if need be. It succeeds exactly when no TCP flagset is empty, the
    * buffer had not failed before and the whole encoding fits; on a fresh buffer that means 2048 octets.
    */
  method WriteNlri(r: Rule, buffer: Buffer) returns (ok: bool)
    requires buffer.Valid()
    modifies buffer, buffer.storage
    ensures buffer.Valid()
    ensures old(buffer.storage) == null ==> fresh(buffer.storage) && buffer.Capacity() == NLRI_BUFFER_SIZE
    ensures old(buffer.storage) != null ==> buffer.storage == old(buffer.storage)
    ensures ok <==>
            && Encodable(r) && !old(buffer.errorsOccurred)
            && |old(buffer.Used())| + |EncodeNlri(r)| <= buffer.Capacity()
    ensures ok ==> buffer.shift <= buffer.Capacity() && buffer.Used() == old(buffer.Used()) + EncodeNlri(r)
  {
    hide EncodeLists, EncodePrefix, Encodable, Buffer.Valid;
    Opened(buffer);
    var _ := buffer.SetSize(NLRI_BUFFER_SIZE);
    WritePrefixes(r, buffer);
    ok := WriteLists(r, buffer);
    if !ok {
      return;
    }
    if buffer.errorsOccurred {
      ok := false;
    }
    assert buffer.Attempted == (if old(buffer.storage) == null then [] else old(buffer.Attempted)) + EncodeNlri(r);
    Verdict(buffer);
  }

  /** What a buffer holds before it is written to. */
  lemma Opened(buffer: Buffer)
    requires buffer.Valid()
    ensures buffer.shift <= buffer.Capacity() && |buffer.Used()| == buffer.shift
    ensures buffer.storage == null ==> buffer.Used() == []
    ensures !buffer.errorsOccurred ==> !buffer.FailedEarly && buffer.Used() == buffer.Attempted
    ensures buffer.errorsOccurred ==> buffer.FailedEarly || |buffer.Attempted| > buffer.Capacity()
  {
  }

  lemma Verdict(buffer: Buffer)
    requires buffer.Valid()
    ensures buffer.errorsOccurred <==> buffer.FailedEarly || |buffer.Attempted| > buffer.Capacity()
    ensures |buffer.Attempted| <= buffer.Capacity() ==>
              buffer.shift <= buffer.Capacity() && buffer.Used() == buffer.Attempted
  {
  }

  method WritePrefixes(r: Rule, buffer: Buffer)
    requires buffer.Valid()
    modifies buffer, buffer.storage
    ensures buffer.Valid() && buffer.storage == old(buffer.storage) && buffer.FailedEarly == old(buffer.FailedEarly)
    ensures buffer.Attempted == old(buffer.Attempted)
         + (EncodePrefix(DESTINATION_PREFIX, r.destination) + EncodePrefix(SOURCE_PREFIX, r.source))
  {
    hide EncodePrefix, Buffer.Valid;
    NoPrefix(DESTINATION_PREFIX);
    NoPrefix(SOURCE_PREFIX);
    if r.destination.Some? {
      var _ := WritePrefix(DESTINATION_PREFIX, r.destination.value, buffer);
    }
    if r.source.Some? {
      var _ := WritePrefix(SOURCE_PREFIX, r.source.value, buffer);
    }
  }

  /** The lists in wire order; only the TCP flag list can make the encoder give up. */
  method WriteLists(r: Rule, buffer: Buffer) returns (ok: bool)
    requires buffer.Valid()
    modifies buffer, buffer.storage
    ensures buffer.Valid() && buffer.storage == old(buffer.storage) && buffer.FailedEarly == old(buffer.FailedEarly)
    ensures ok <==> Encodable(r)
    ensures ok ==> buffer.Attempted == old(buffer.Attempted) + EncodeLists(r, WIRE_ORDER)
  {
    hide EncodeList, RuleItems, EncodeLists, Encodable, Buffer.Valid;
    ok := WriteList(r, ProtocolList, buffer);
    ok := WriteList(r, DestinationPortList, buffer);
    ok := WriteList(r, SourcePortList, buffer);
    ok := WriteList(r, TcpFlagList, buffer);
    if !ok {
      return;
    }
    ok := WriteList(r, LengthList, buffer);
    ok := WriteList(r, FragmentList, buffer);
    ListsInOrder(r);
  }

  function ListBytes(r: Rule, kind: ListKind): seq<Octet> {
    EncodeList(kind, RuleItems(r, kind))
  }

  lemma NoPrefix(code: Octet)
    ensures EncodePrefix(code, None) == []
  {
  }

  lemma ListsInOrder(r: Rule)
    ensures EncodeLists(r, WIRE_ORDER)
         == ListBytes(r, ProtocolList) + ListBytes(r, DestinationPortList) + ListBytes(r, SourcePortList)
            + ListBytes(r, TcpFlagList) + ListBytes(r, LengthList) + ListBytes(r, FragmentList)
  {
    hide EncodeList, RuleItems;
    assert WIRE_ORDER[4..][1..] == WIRE_ORDER[5..] && WIRE_ORDER[3..][1..] == WIRE_ORDER[4..];
    assert WIRE_ORDER[2..][1..] == WIRE_ORDER[3..] && WIRE_ORDER[1..][1..] == WIRE_ORDER[2..];
    assert EncodeLists(r, WIRE_ORDER[5..]) == ListBytes(r, FragmentList) + EncodeLists(r, []);
    assert EncodeLists(r, WIRE_ORDER[4..]) == ListBytes(r, LengthList) + EncodeLists(r, WIRE_ORDER[5..]);
    assert EncodeLists(r, WIRE_ORDER[3..]) == ListBytes(r, TcpFlagList) + EncodeLists(r, WIRE_ORDER[4..]);
    assert EncodeLists(r, WIRE_ORDER[2..]) == ListBytes(r, SourcePortList) + EncodeLists(r, WIRE_ORDER[3..]);
    assert EncodeLists(r, WIRE_ORDER[1..]) == ListBytes(r, DestinationPortList) + EncodeLists(r, WIRE_ORDER[2..]);
  }
}
