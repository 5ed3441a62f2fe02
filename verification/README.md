# FastNetMon: FlowSpec codec, ban protocol and path lifecycle

A Dafny 4.11 model of the parts of FastNetMon that decide what traffic is acted on and what is sent to routers, with
machine-checked properties. `dafny verify dfyconfig.toml` verifies the whole project.

The modules follow the program:

- **The FlowSpec codec** (`Octets`, `BinaryBuffer`, `Prefix`, `FlowSpecRule`, `NlriWire`, `NlriEncode`, `NlriDecode`,
  `NlriGrammar`, `NlriRoundTrip`, `NlriTruncation`, `PathAttribute`, `Binary32`, `Announce`, `AnnounceWire`,
  `AttributeBounds`, `AnnounceRoundTrip`): the append-only buffer, prefixes, operator/value lists, the NLRI encoder and
  decoder, action communities and whole announcements (RFC 8955, RFC 4271, RFC 4760). The main results are exact: which
  octets the decoder accepts and what they say, by a grammar of its own; which rules survive encoding and decoding, which
  announcements arrive as they were sent, and when memory behind an attribute decides.
- **Rule meaning** (`Filter`, `FilterFields`): the packet filter as the semantics of rules, kept by the codec, and what
  each test asks of a packet.
- **Unicast announcements** (`UnicastAnnounce`, `UnicastWire`, `Ipv6Announce`): the IPv4 attribute list and the IPv6
  multiprotocol attribute, both with their decoders, and both octet by octet.
- **Detection, capture, ban, refresh and unban** (`BanProtocol`, `BanRuns`, `BanScenarios`, `ManualBans`,
  `BanHandlers`, `PacketCapture`, `Thresholds`): the threads as interleaved steps, safety over every run, what the steps
  do undisturbed, the handlers as imperative code shown to be runs of those steps.
- **FlowSpec paths at GoBGP** (`Lifecycle`, `LifecycleTable`, `LifecycleObject`, `LifecycleMeaning`, `LifecycleRuns`,
  `LifecycleSafety`, `LifecycleUnban`, `LifecycleCover`, `LifecycleCleanup`, `LifecycleLimit`, `PortClassifier`,
  `ClassifierOutcome`): the lifecycle table, the threads around it and the paths GoBGP holds, with what UNBAN, escalation,
  its clean-up and the limit on port rules guarantee over whole runs; port selection from samples.
- **Both together** (`Mitigation`, `MitigationGaps`): the ban protocol and the path lifecycle as one system with the
  detached threads between them; when an unbanned host is left without paths, and the runs in which it is not.
- **Traffic accounting** (`MovingAverage`, `FlowTable`): truncated exponential averages and per-flow counters.

Code that changes things in place is modelled by classes and methods with loops, each proved against a function of its
inputs or of the old state; the properties are lemmas about those functions. Functions have no row of their own below:
what they must satisfy is stated by the lemmas and methods listed.

How the program is represented:

- Addresses and values are numbers whose octets are written out in network order, so host endianness disappears.
  Protocols are octets; the conversion from and to the protocol enumeration is taken to be the identity on 0 to 255.
- The lookup in a prefix tree holding one prefix is a masked comparison.
- The threads of the ban protocol are: one detector, the packet path, one bucket thread, any number of refresh managers,
  one unban sweep and the API. The bucket lock, the atomic presence test and the atomic insert of a capture are those
  of src/packet_bucket.hpp. Whether thresholds are exceeded, whether an attack is finished, when a bucket fills or ages,
  and whether a refresh is fenced are arbitrary at every step; what a sweep reads on the clock is arbitrary, but it reads
  it once. In the two models together, the table decides whether a refresh is fenced. Settings do not change during a run.
- Rules are announced under their own keys, as the rule builder guarantees (`LifecycleMeaning.BuiltRuleHasKey`), and
  refreshes are planned per protocol.
- GoBGP hands out a new, non-empty UUID for every added path; a failed AddPath installs nothing and a failed DeletePath
  removes nothing. Any number of announcing and withdrawing threads run at the same time.
- Doubles are reals in the moving average; `exp` is a parameter strictly between zero and one. Rates are binary32 with
  round-to-nearest-even, and converting a float an `int` cannot hold yields an arbitrary word chosen by the platform.

Where the code departs from what its surroundings suggest, the model keeps the code and the exact condition is proved:

- The list reader stops after 100 entries (src/bgp_protocol_flow_spec.cpp:1124): `NlriRoundTrip.RoundTripExactly`.
- The NLRI size is cut to eight bits before it is compared with 240 (src/bgp_protocol_flow_spec.cpp:637-639), so NLRI of
  256 octets and more may be sent; they never arrive equal: `AnnounceRoundTrip.AnnounceRoundTripExactly`. Rules with 86
  to 100 destination ports are examples: `AnnounceRoundTrip.LongAnnounceIsSent`.
- The announcement decoder reads the fields of the multiprotocol attribute without checking that they lie within it
  (src/bgp_protocol_flow_spec.cpp:152-206); that outcome is part of the model and characterised exactly:
  `AttributeBounds.OutOfBoundsExactly`, `AttributeBounds.MemoryDecidesExactly`,
  `AttributeBounds.AnnounceOutOfBoundsExactly`.
- Rule equality ignores the match-bit switches, and action equality ignores redirect parameters; equal rules still match
  the same packets: `Filter.SameRuleSameMeaning`.
- The packet length test admits lengths up to 65635 and then cuts them to 16 bits: `Filter.LengthTestExactly`.
- A community list of 64 or more entries loses whole blocks of 64: `UnicastAnnounce.UnicastRoundTripExactly`.
- A manual ban can be replaced by a capture or detection already under way, or removed by a sweep that copied an aged
  ban of the host earlier: `ManualBans.ManualBanStaysExactly`; a run leads there under every setting: `ManualBans.ManualBanAtRisk`.
- UNBAN withdraws all paths of a victim only if GoBGP refuses no delete; a refused delete leaves the path and the fence
  until another UNBAN: `LifecycleUnban.UnbanIsFinal`, `LifecycleUnban.RefusedDeleteLeavesPath`.
- Nor does it keep a late announcement away: `Mitigation.UnbannedHostHasNoPath` says when an unbanned host is left
  without paths, and `MitigationGaps` has three runs that miss it: the ban's thread comes after the unban's
  (src/fastnetmon_logic.cpp:1342-1345), a refresh goes by an old copy of the ban list (src/fastnetmon_logic.cpp:2903-2933),
  or the sweep withdraws before it erases the ban (src/fastnetmon_logic.cpp:793-804).
- BAN adds a port rule without looking at the limit on port rules: `LifecycleLimit.LimitKeptExactly`,
  `LifecycleLimit.BanPassesLimit`.
- The overflow-free percentage test is exact up to 100 percent, the most the settings accept, but not for every value of
  its 8-bit parameter:
  `PortClassifier.MeetsPercentExactly`, `PortClassifier.LargePercentOverflows`.

## Model

| member | source | states |
|---|---|---|
| `BinaryBuffer.Buffer.SetSize` | src/dynamic_binary_buffer.hpp:33-48 | any buffer is allocated once; a second call is refused and changes nothing, and an error noted before the allocation stays noted |
| `BinaryBuffer.Buffer.Append` | src/dynamic_binary_buffer.hpp:92-125 | all-or-nothing append: succeeds exactly when the octets fit, refusal keeps the contents and sets the sticky flag |
| `BinaryBuffer.Buffer.AppendBuffer` | src/dynamic_binary_buffer.hpp:104-112 | appends exactly the used octets of another buffer under the same rule |
| `Octets.UnpackPack` | src/bgp_protocol_flow_spec.hpp:412-470 | bit fields of a fixed width read back from their packed value |
| `Octets.PackUnpack` | src/bgp_protocol_flow_spec.hpp:412-470 | every packed value is determined by its bit fields |
| `Octets.Bytes32Read` | src/bgp_protocol_flow_spec.hpp:676-700 | a 32-bit word survives conversion to network order and back |
| `Octets.Bytes32Written` | src/bgp_protocol_flow_spec.cpp:112-118 | any four octets survive being read as a word and written again |
| `Prefix.MaskClearsLowBits` | src/fast_library.cpp:177-191 | anding with the computed netmask clears exactly the bits after the prefix, including lengths 0 and 32 |
| `Prefix.MaskIdempotent` | src/bgp_protocol.cpp:39-83 | masking twice is masking once |
| `Prefix.MaskDependsOnPrefixBits` | src/bgp_protocol.cpp:39-83 | addresses agreeing on the first bits have the same masked form |
| `Prefix.SubnetRoundTrip` | src/bgp_protocol.cpp:516-551 | decoding an encoded IPv4 prefix, whatever follows it, gives the masked prefix and consumes one octet plus one per started group of eight bits |
| `Prefix.DecodedSubnetIsCanonical` | src/bgp_protocol.cpp:39-83 | a decoded prefix is masked, was read within the input, and later octets do not matter |
| `Prefix.PadBitsIgnored` | src/bgp_protocol.cpp:39-83 | inputs differing only in pad bits after the prefix decode alike |
| `Prefix.WriteSubnet` | src/bgp_protocol.cpp:516-551 | given any buffer, the prefix encoder fails exactly on an allocated one and leaves it alone; otherwise it allocates exactly the size it needs and writes the encoding |
| `NlriWire.OperatorPacking` | src/bgp_protocol_flow_spec.hpp:412-470 | the operator octet reads back as the fields that were set |
| `NlriWire.OperatorUnpacking` | src/bgp_protocol_flow_spec.hpp:412-470 | every octet is the packing of its operator fields |
| `NlriWire.OperatorValue` | src/bgp_protocol_flow_spec.hpp:412-470 | the place value of each operator bit, as in section 4.2.1 of RFC 8955 |
| `NlriWire.TcpOctetRead` | src/bgp_protocol_flow_spec.cpp:2229-2283 | a TCP flagset survives its one-octet encoding |
| `NlriWire.TcpOctetValue` | src/bgp_protocol_flow_spec.cpp:2229-2256 | the place value of each TCP flag |
| `NlriWire.FragmentOctetRead` | src/bgp_protocol_flow_spec.cpp:579-612 | a fragmentation flag survives its encoding, "not a fragment" as an octet without flags |
| `NlriWire.FragmentOctetValue` | src/bgp_protocol_flow_spec.hpp:495-512 | the place value of each fragmentation flag |
| `NlriWire.EncodingIsStrict` | src/bgp_protocol_flow_spec.cpp:390-623 | every encoding, of lists of any size, is well-formed NLRI: strictly ascending types, length bits matching the values, exactly one end-of-list bit per list and that on the last entry |
| `NlriWire.EncodedOperators` | src/bgp_protocol_flow_spec.cpp:432-612 | every operator of an encoded list is plain: equality for numeric lists, the match bit for flag lists exactly when the rule asks for it, no reserved, comparison or and bit |
| `NlriEncode.WriteList` | src/bgp_protocol_flow_spec.cpp:432-612 | each list loop appends the type and all entries, the last one with the end bit; it gives up exactly on a TCP flagset without flags |
| `NlriEncode.WriteLists` | src/bgp_protocol_flow_spec.cpp:432-612 | the six lists go out in type order, and only an empty TCP flagset stops the encoder |
| `NlriEncode.WriteNlri` | src/bgp_protocol_flow_spec.cpp:390-623 | given any buffer the encoder succeeds exactly when no append failed before, no TCP flagset is empty and the whole encoding fits behind what the buffer holds, and then appends that encoding |
| `NlriDecode.ScanEntry` | src/bgp_protocol_flow_spec.cpp:1124-1182 | one pass of the list reader: the same entries are refused, and a read entry has its value and size |
| `NlriDecode.ScanList` | src/bgp_protocol_flow_spec.cpp:1115-1194 | the list reader with its moving cursor and its limit of 100 entries reads exactly what the recursive definition reads |
| `NlriDecode.StoreElements` | src/bgp_protocol_flow_spec.cpp:918-1100 | entries are pushed into the rule one by one up to the first one refused, which leaves the earlier ones in place |
| `NlriDecode.StoreFragments` | src/bgp_protocol_flow_spec.cpp:983-1041 | all flags of a fragmentation octet are added, highest first, and "not a fragment" when there is none |
| `NlriDecode.DecodeNext` | src/bgp_protocol_flow_spec.cpp:820-1105 | one pass of the decoder loop on a rule changed in place |
| `NlriDecode.DecodeNlriValue` | src/bgp_protocol_flow_spec.cpp:798-1112 | the decoder terminates on every input, agrees with the recursive definition on result and rule, and never reaches the "did not parse whole packet" warning |
| `NlriDecode.ReadListPrefix` | src/bgp_protocol_flow_spec.cpp:1115-1194 | a readable list reads the same whatever follows it |
| `NlriDecode.DecodeComponentPrefix` | src/bgp_protocol_flow_spec.cpp:820-1105 | an accepted component decodes the same whatever follows it |
| `NlriDecode.DecodeComposes` | src/bgp_protocol_flow_spec.cpp:820-1112 | decoding is compositional: after an accepted input, anything that follows is decoded from exactly the state that input left |
| `NlriDecode.DecodeNormal` | src/bgp_protocol_flow_spec.cpp:834-1104 | whatever octets are decoded, accepted or not, prefixes stay masked, no empty flagset appears, set prefixes stay and fields the NLRI does not carry are untouched |
| `NlriGrammar.AcceptedList` | src/bgp_protocol_flow_spec.cpp:1124-1182 | when a list component is accepted, no operator octet in it has the bit 0x40, 0x20, 0x04 or 0x02, the end bit is on the last only, and the rule gets the one or two octets behind each operator |
| `NlriGrammar.ListComponent` | src/bgp_protocol_flow_spec.cpp:1124-1182 | conversely a walk over such octets is accepted exactly when all its values are, and stores them |
| `NlriGrammar.PrefixComponent` | src/bgp_protocol.cpp:39-83 | a prefix component is accepted exactly when the rule has none of its type yet, its length is at most 32 and just enough octets follow; the address is cut to the length |
| `NlriGrammar.NlriExactly` | src/bgp_protocol_flow_spec.cpp:798-1112 | the decoder accepts exactly the octets that read as a sequence of components in a grammar of type numbers and place values, and leaves exactly the rule they say |
| `NlriGrammar.OperatorBits` | src/bgp_protocol_flow_spec.hpp:412-470 | each field of an operator is the bit with its place value |
| `NlriGrammar.TcpBitsRead` | src/bgp_protocol_flow_spec.cpp:26-50 | each TCP flag is the bit with its place value, and the two highest bits do not matter |
| `NlriGrammar.FragmentBitsRead` | src/bgp_protocol_flow_spec.cpp:1003-1038 | which fragmentation flags an octet says, and in which order |
| `NlriGrammar.EncodedOctets` | src/bgp_protocol_flow_spec.cpp:390-623 | the encoding of every rule octet by octet: type numbers, operator octets, values and cut prefixes |
| `NlriGrammar.MaskValue` | src/fast_library.cpp:177-191 | anding with the netmask leaves the largest multiple of the prefix size below the address |
| `NlriRoundTrip.RoundTrip` | src/bgp_protocol_flow_spec.cpp:390-623 | decoding the encoding of a rule with lists of at most 100 entries into an empty rule returns all lists in order and the masked prefixes |
| `NlriRoundTrip.RoundTripExactly` | src/bgp_protocol_flow_spec.cpp:1124 | for every rule the encoder takes, the round trip holds if and only if no list has more than 100 entries |
| `NlriRoundTrip.UnfitRuleDerails` | src/bgp_protocol_flow_spec.cpp:1124-1193 | a longer list makes the decoder refuse or find a destination prefix the rule does not have |
| `NlriRoundTrip.DecodedRuleRoundTrips` | src/bgp_protocol_flow_spec.cpp:834-1104 | every rule decoded from arbitrary octets is encodable and comes back unchanged, exactly when its lists have at most 100 entries |
| `NlriRoundTrip.FittingListsFitBuffer` | src/bgp_protocol_flow_spec.cpp:390-391 | rules with lists of at most 100 entries need at most 1518 octets and always fit |
| `NlriTruncation.CutComponent` | src/bgp_protocol_flow_spec.cpp:820-1105 | a component cut short is refused |
| `NlriTruncation.TruncationIsDetectable` | src/bgp_protocol_flow_spec.cpp:637-642 | an encoding cut anywhere before its end never decodes to a rule equal to the one encoded, whatever its action |
| `PathAttribute.FlagsValue` | src/bgp_protocol.hpp:55-100 | the place values of the optional and transitive bits |
| `PathAttribute.AttributeParsed` | src/bgp_protocol.hpp:138-189 | the common header parser accepts every attribute whose length octet lies within its value and finds type, length and body |
| `Binary32.RoundsToNearest` | src/bgp_protocol_flow_spec.hpp:676-700 | the conversion of a rate picks a nearest float, ties to even |
| `Binary32.RateRoundTripExactly` | src/bgp_protocol_flow_spec.cpp:105-131 | a rate converted to a binary32 float and truncated back to an int is the same number, whatever the undefined conversions give, exactly when it is below 2^31 and the float holds it exactly |
| `Binary32.FloatBitsNearest` | src/bgp_protocol_flow_spec.hpp:676-700 | the bits sent for a rate, by their value: the integer itself below 2^24, a nearest multiple of the last place above, ties to the even one |
| `Binary32.TruncateIsFloor` | src/bgp_protocol_flow_spec.cpp:105-131 | the int read from any bits, by their value: rounded down, negative ones refused, out of range what the platform gives |
| `Announce.WriteMpAttribute` | src/bgp_protocol_flow_spec.cpp:626-670 | given any buffer, the multiprotocol attribute is written exactly when no append failed before, the NLRI is encodable and fits 2048 octets, its size modulo 256 is below 240 and the whole fits behind what the buffer holds |
| `Announce.BuildAttributes` | src/bgp_protocol_flow_spec.cpp:212-286 | the attribute list of an announcement, empty exactly where the program gives up |
| `AnnounceWire.HeaderExactly` | src/bgp_protocol.hpp:138-189 | which octets are an attribute, and its type, length and value, with one or two length octets |
| `AnnounceWire.NlriOnWire` | src/bgp_protocol_flow_spec.cpp:212-286 | the origin attribute and the multiprotocol attribute octet by octet |
| `AnnounceWire.ActionOnWire` | src/bgp_protocol_flow_spec.cpp:672-749 | the last attribute has type 16 and length 8; its community is 0x80 0x06 with the rate, 0x80 0x08 or 0x82 0x08 with the route target, or, for an accept rule with next hops, 1 and 12, the first next hop and two zeros |
| `AnnounceWire.NotAnnouncedExactly` | src/bgp_protocol_flow_spec.cpp:212-286 | the rules for which nothing can be announced |
| `Announce.DecodeAttributes` | src/bgp_protocol_flow_spec.cpp:52-209 | on every attribute list the loop accepts, refuses or reads past an attribute exactly as the attribute-by-attribute definition says, and leaves the rule it says |
| `AnnounceWire.CommunityExactly` | src/bgp_protocol_flow_spec.cpp:82-150 | what any extended community of eight octets does to the action, by its type octets |
| `AnnounceWire.AttributeExactly` | src/bgp_protocol_flow_spec.cpp:54-210 | what any attribute with a readable header does to the rule |
| `AnnounceWire.MpAcceptedExactly` | src/bgp_protocol_flow_spec.cpp:152-206 | a multiprotocol value is accepted exactly when family, type and lengths are these numbers and its NLRI is accepted |
| `AttributeBounds.OutOfBoundsExactly` | src/bgp_protocol_flow_spec.cpp:152-206 | run on memory without bounds tests, the multiprotocol branch reaches past the attribute exactly when the fields it announces do not lie within it, whatever lies behind; when they do, the outcome is that of the bounded decoder whatever lies behind |
| `AttributeBounds.ReadsOnlyReached` | src/bgp_protocol_flow_spec.cpp:152-206 | the outcome depends on no octet behind those it reaches |
| `AttributeBounds.MemoryDecidesExactly` | src/bgp_protocol_flow_spec.cpp:152-206 | two memories of the same length behind the attribute give different outcomes exactly when the attribute ends within a header that is right so far, or within an NLRI whose missing octets make a difference to the NLRI decoder |
| `AttributeBounds.CutBetweenComponents` | src/bgp_protocol_flow_spec.cpp:798-1112 | for an NLRI cut between two components, or right behind its header, they make a difference exactly when three or more are missing, or two and a prefix can still be added |
| `AttributeBounds.AnnounceOutOfBoundsExactly` | src/bgp_protocol_flow_spec.cpp:52-209 | an announcement makes the decoder read out of bounds exactly when some attribute overreaches and all attributes before it are accepted |
| `AnnounceRoundTrip.MpDecoded` | src/bgp_protocol_flow_spec.cpp:637-670 | the decoder sees as much of the NLRI as the one-octet length says, that is its size modulo 256 |
| `AnnounceRoundTrip.ActionRead` | src/bgp_protocol_flow_spec.cpp:672-729 | what each action community decodes to: zero rate as discard, two-octet route targets as redirect, four-octet ones not at all |
| `AnnounceRoundTrip.RouteTargetCarried` | src/bgp_protocol_flow_spec.cpp:290-322 | a VRF redirect is encodable exactly when its AS number or value fits two octets, and the community carries both by RFC 7674, section 3 |
| `AnnounceRoundTrip.AnnounceDecoded` | src/bgp_protocol_flow_spec.cpp:52-286 | what every announcement that can be built decodes to |
| `AnnounceRoundTrip.AnnounceArrives` | src/bgp_protocol_flow_spec.cpp:52-286 | below 240 octets of NLRI with fitting lists, the carried part of the rule and its action arrive |
| `AnnounceRoundTrip.FaithfulActionExactly` | src/bgp_protocol_flow_spec.cpp:1334-1348 | an action arrives equal on every platform exactly when it is accept, discard, redirect or a positive rate that float and int both hold |
| `AnnounceRoundTrip.AnnounceRoundTripExactly` | src/bgp_protocol_flow_spec.cpp:52-286 | announcing and decoding gives an equal rule if and only if the rule is encodable, its lists fit, its NLRI is below 240 octets, it says only what the NLRI carries and its action arrives equal; NLRI of 256 octets and more never arrive equal |
| `AnnounceRoundTrip.LongAnnounceIsSent` | src/bgp_protocol_flow_spec.cpp:637-642 | rules with 86 to 100 destination ports are such announcements: their NLRI has more than 255 octets, they are sent, and they do not arrive equal |
| `Filter.MaskEqualIffAgree` | src/filter.cpp:75-86 | a masked comparison is agreement on every bit of the prefix |
| `Filter.PrefixContains` | src/filter.cpp:66-88 | equality for /32 and the lookup otherwise both decide agreement on the prefix bits |
| `Filter.AddressFilter` | src/filter.cpp:66-104 | an IPv4 prefix takes precedence, IPv6 prefixes match single addresses only |
| `Filter.FragmentFilter` | src/filter.cpp:146-163 | the flag loop accepts exactly when some listed flag is one of the two supported and set on the packet |
| `Filter.LengthFilter` | src/filter.cpp:181-210 | the length test as written: limit 65635, both lengths cut to 16 bits |
| `Filter.FilterByRule` | src/filter.cpp:21-233 | the nine match flags together decide exactly the meaning of the rule |
| `Filter.FilterByRules` | src/filter.cpp:8-18 | a rule list matches exactly when one of its rules does |
| `Filter.CodecPreservesMeaning` | src/bgp_protocol_flow_spec.cpp:798-1112 | a packet matches a rule exactly when it matches the decoded encoding and meets the conditions the NLRI drops (VLANs, IPv6 prefixes) |
| `Filter.CodecKeepsCarriedMeaning` | src/filter.cpp:21-233 | for rules without VLANs and IPv6 prefixes the codec preserves the matched packets |
| `Filter.SameRuleSameMeaning` | src/bgp_protocol_flow_spec.cpp:1334-1470 | rules the program calls equal match the same packets |
| `Filter.PortRulesCompose` | src/filter.cpp:42-50 | a non-empty list of rules differing in one destination port matches what one rule with all the ports matches |
| `Filter.PortRulesRedundant` | README.md:34 | beside a rule without ports, port rules change nothing |
| `Filter.LengthTestExactly` | src/filter.cpp:184-207 | the cut length test equals comparing the lengths themselves, for every list, exactly on packets meeting a stated condition |
| `FilterFields.EveryTestAlone` | src/filter.cpp:226-232 | a rule matches exactly what its nine tests match one by one |
| `FilterFields.ListTests` | src/filter.cpp:32-66 | ports, VLANs and protocols: an empty list or the packet's own value in it |
| `FilterFields.LengthTest` | src/filter.cpp:177-202 | packets up to 65635 octets match by either length modulo 65536 |
| `FilterFields.FragmentTest` | src/filter.cpp:145-160 | "do not fragment" is tested against its own flag of the packet, "is a fragment" against the other, and the other three match nothing |
| `FilterFields.FragmentTests` | src/filter.cpp:145-160 | several fragmentation flags match what one of them matches |
| `FilterFields.TcpTest` | src/filter.cpp:162-175 | a listed flagset must agree with the six low flag bits of the packet by their place values |
| `FilterFields.AddressTests` | src/filter.cpp:68-145 | an IPv4 prefix matches the addresses from its first to its last, whatever IPv6 prefix stands beside it |
| `FilterFields.AddressTests6` | src/filter.cpp:90-102 | an IPv6 prefix alone matches one address if it is that long, otherwise nothing |
| `FilterFields.SameRuleExactly` | src/bgp_protocol_flow_spec.cpp:1334-1470 | equal rules agree in everything but the match-bit switches and the action parameters its kind does not name |
| `UnicastAnnounce.AnnounceObject.GetAttributes` | src/bgp_protocol.hpp:563-687 | the attribute list in place: false after the origin for more than 63 ASNs, otherwise origin, AS path, next hop and communities |
| `UnicastAnnounce.AnnounceObject.WriteCommunities` | src/bgp_protocol.hpp:660-684 | the buffer sized by the 8-bit length holds exactly the first communities up to the count modulo 64 |
| `UnicastAnnounce.AnnounceObject.WriteAsPath` | src/bgp_protocol.hpp:600-650 | segment header and all ASNs in order fill the buffer exactly |
| `UnicastAnnounce.AnnounceObject.Decode` | src/bgp_protocol.cpp:229-383 | one attribute decoded into the announcement in place, communities added one by one; a refused attribute changes nothing |
| `UnicastAnnounce.CommunitiesRead` | src/bgp_protocol.cpp:305-331 | communities are read back in order |
| `UnicastAnnounce.AttributesInOrder` | src/bgp_protocol.hpp:563-687 | every attribute is accepted by the header parser with its exact length, and types strictly ascend |
| `UnicastAnnounce.AnnounceDecoded` | src/bgp_protocol.cpp:229-383 | what any announcement decodes to, however many ASNs and communities it has |
| `UnicastAnnounce.UnicastRoundTripExactly` | src/bgp_protocol.cpp:229-383 | origin, next hop and all communities come back exactly when there are at most 63 ASNs and at most 63 communities |
| `UnicastWire.AttributesOnWire` | src/bgp_protocol.hpp:563-687 | the attributes octet by octet; the AS path is one sequence segment whose words, read back, are the ASNs in order, and the communities read back are the first ones |
| `UnicastWire.ReadCommunitiesMeans` | src/bgp_protocol.cpp:305-331 | the communities read from any value are its pairs of 16-bit numbers |
| `UnicastWire.AttributeTaken` | src/bgp_protocol.cpp:229-383 | what any attribute does to the announcement: the lengths accepted for each type, and which octets are taken |
| `Ipv6Announce.WriteMpAttribute6` | src/bgp_protocol.cpp:387-511 | the IPv6 multiprotocol attribute is always written completely |
| `Ipv6Announce.Announce6Object.DecodeMpReachAttribute` | src/bgp_protocol.cpp:115-226 | the decoder's checks in order, on the announcement changed in place, including what a failure leaves behind |
| `Ipv6Announce.MpRoundTrip` | src/bgp_protocol.cpp:387-511 | encode, parse and decode return the next hop, the length and the address with all octets past the needed ones zero |
| `Ipv6Announce.MpRoundTripExactly` | src/bgp_protocol.cpp:387-511 | the announcement comes back unchanged exactly when its next hop is a host and no octet past the prefix is set |
| `Ipv6Announce.DecodedAnnounceRoundTrips` | src/bgp_protocol.cpp:115-226 | whatever octets an announcement was decoded from, encoding and decoding it again returns it unchanged |
| `Ipv6Announce.AttributeOnWire` | src/bgp_protocol.cpp:387-511 | the IPv6 attribute octet by octet |
| `Ipv6Announce.DecodeMpReachExactly` | src/bgp_protocol.cpp:115-226 | which values are accepted, and that the next hop is the first sixteen of sixteen or thirty-two octets and the prefix the octets its length needs |
| `BanProtocol.AutoBanOrigin` | src/fastnetmon_logic.cpp:3012-3027 | an automatic ban comes only from the bucket thread taking up an attack capture |
| `BanProtocol.CaptureOrigin` | src/fastnetmon_logic.cpp:1882 | an attack capture comes only from the detector, with the details of its detection |
| `BanProtocol.BanStep` | src/fastnetmon_logic.cpp:1842-1882 | every step of every thread keeps the invariant that makes double bans impossible |
| `BanRuns.NeverBannedTwice` | src/fastnetmon_logic.cpp:2963-3027 | in every interleaving no host is banned automatically while an automatic ban of it is in force |
| `BanRuns.BanChanges` | src/fastnetmon_logic.cpp:2985-3027 | a ban changes only by the API, the sweep or an attack capture; taking up a refresh capture changes none |
| `BanRuns.EveryBanHasCause` | src/fastnetmon_logic.cpp:2759-2772 | in every run each ban in force was asked for by the API or detected with exactly its details, so no refresh capture ever adds one |
| `BanRuns.NoFilledBucketLeft` | src/fastnetmon_logic.cpp:2963-3028 | when the bucket lock is released, no bucket that was filled is left |
| `BanRuns.TokensConserved` | src/fastnetmon_logic.cpp:2844-2945 | for each victim, refresh captures begun are those completed, those handed over and at most one in flight, and the token is taken exactly while one owner has it |
| `BanRuns.SweepLiftsOnlyLiftable` | src/fastnetmon_logic.cpp:733-805 | a host the API left alone since the sweep began is erased only while its ban is automatic, allowed to be lifted, older than its ban time by the one clock reading of the sweep and, where configured, of an attack the sweep found finished: all in the fields of the ban |
| `BanRuns.SweepChooses` | src/fastnetmon_logic.cpp:747-798 | the decision of a sweep on one host in the fields of its copied ban, both ways |
| `BanRuns.BucketOrigin` | src/packet_bucket.hpp:110-148 | a new bucket is that of a detection or of a begun refresh, with its details, and is filled from the start only without capacity |
| `BanRuns.BucketStays` | src/fastnetmon_logic.cpp:2963-3028 | a bucket keeps its kind and details and stays filled until it is removed unfilled, its host has been banned, or it is queued for refresh |
| `BanScenarios.AttackIsCaptured` | src/fastnetmon_logic.cpp:1842-1882 | a host under attack without bucket and ban gets an attack capture with the details of the detection |
| `BanScenarios.KnownIsLeftAlone` | src/fastnetmon_logic.cpp:1842-1882 | a detection of a host with a bucket or a ban changes nothing |
| `BanScenarios.FilledIsBanned` | src/fastnetmon_logic.cpp:2979-3027 | a filled attack capture ends in a ban with its details, and the bucket is gone |
| `BanScenarios.FilledIsQueued` | src/fastnetmon_logic.cpp:2985-2990 | a filled refresh capture bans nobody and is queued |
| `BanScenarios.RefreshIsCaptured` | src/fastnetmon_logic.cpp:2908-2944 | a banned host without bucket, token and fence gets the token and a refresh capture with the details of its ban |
| `BanScenarios.RefreshIsDenied` | src/fastnetmon_logic.cpp:2932-2934 | a fenced host, or one with a refresh in progress, gets none |
| `BanScenarios.RefreshEnds` | src/fastnetmon_logic.cpp:3031-3033 | a capture handed over ends with its token returned |
| `ManualBans.ManualBanStays` | src/api.cpp:84-111 | a manual ban with nothing under way against it stays manual until the API lifts it, over every run |
| `ManualBans.LosesToCapture` | src/fastnetmon_logic.cpp:2985-3027 | an attack capture under way can always be completed, replacing the manual ban |
| `ManualBans.LosesToDetector` | src/fastnetmon_logic.cpp:1848-1882 | so can a detection already past its test for a ban |
| `ManualBans.LosesToSweep` | src/fastnetmon_logic.cpp:737-804 | a sweep whose copy holds a liftable ban of the host, already aged when the sweep read the clock, can always remove the manual one |
| `ManualBans.ManualBanStaysExactly` | src/api.cpp:84-111 | a manual ban is certain to stay until the API lifts it if and only if no capture, detection or sweep with an aged copy is under way against it |
| `ManualBans.ManualBanAtRisk` | src/fastnetmon_logic.cpp:1848-1882 | such states are reached: a manual ban made between the detector's tests and its capture can be lost, under every setting |
| `BanHandlers.BanList.RemoveAndKeepCopy` | src/ban_list.hpp:48-62 | removes an entry and returns what it was, or reports its absence |
| `BanHandlers.BanList.AddToBlackhole` | src/ban_list.hpp:35-40 | adds or replaces an entry |
| `BanHandlers.BucketStorage.EnableCapture` | src/packet_bucket.hpp:110-148 | a host with a bucket is refused; a capture without capacity counts as filled at once |
| `BanHandlers.DetectAttack` | src/fastnetmon_logic.cpp:1842-1890 | undisturbed, a detection captures exactly a host without a bucket and without a ban, by steps of the interleaved model |
| `BanHandlers.JudgeBans` | src/fastnetmon_logic.cpp:747-798 | the loop over the copied list chooses exactly the automatic bans that may be lifted, are older than their ban time and, where configured, whose attack is finished |
| `BanHandlers.ExecuteUnban` | src/fastnetmon_logic.cpp:733-805 | undisturbed, a host leaves the list exactly when its ban is automatic, may be lifted, is older than its ban time and, where configured, its attack is finished; by steps of the interleaved model |
| `BanHandlers.ProcessOne` | src/fastnetmon_logic.cpp:2979-3027 | one filled bucket is queued for refresh, or its host banned and then the bucket erased |
| `BanHandlers.ProcessFilledBuckets` | src/fastnetmon_logic.cpp:2950-3028 | undisturbed, every filled attack capture bans its host, every filled bucket is gone and refresh captures are queued, by steps of the interleaved model |
| `PacketCapture.PacketBucket.Add` | src/packet_bucket.hpp:172-242 | one packet offered to a capture changed in place |
| `PacketCapture.CaptureHoldsFirstPackets` | src/packet_bucket.hpp:172-242 | a capture holds exactly the first packets offered, is full exactly when it was offered its capacity, and never overwrites |
| `PacketCapture.PayloadTaken` | src/packet_bucket.hpp:217-236 | until the capture is full a packet with a payload adds exactly that payload, one without adds nothing |
| `Thresholds.ShouldBan` | src/fastnetmon_logic.cpp:529-612 | the decision chain detects exactly when an enabled threshold is exceeded, and reports the first one in order |
| `Thresholds.AttackIsFinished` | src/fastnetmon_logic.cpp:678-725 | an attack is finished exactly when there is no average or no enabled threshold is exceeded |
| `Thresholds.AttackMonotone` | src/fastnetmon_logic.cpp:502-612 | more traffic, lower limits or more thresholds never end an attack |
| `Thresholds.MegabitsValue` | src/fast_library.cpp:524-526 | a megabit is a million bits, eight to the octet, rounded down |
| `Thresholds.SingleThreshold` | src/fastnetmon_logic.cpp:502-612 | a threshold alone is exceeded exactly by more packets or flows than the limit, or by octets whose bits make at least limit plus one million-bit units, in either direction, of the traffic it is named after |
| `Thresholds.ThresholdsAlone` | src/fastnetmon_logic.cpp:529-612 | a host is under attack exactly when one enabled threshold says so by itself |
| `Thresholds.EveryKindTested` | src/fastnetmon_logic.cpp:529-612 | each of the nine thresholds is tested |
| `Thresholds.TestOrder` | src/fastnetmon_logic.cpp:529-612 | the order in which they are tested, packets first and ICMP bandwidth last |
| `LifecycleObject.FlowSpecLifecycle.BeginAnnounce` | src/actions/gobgp_flowspec_lifecycle.cpp:40-72 | announcing is allowed exactly for an unknown key of an unfenced victim |
| `LifecycleObject.FlowSpecLifecycle.BeginRefreshCapture` | src/actions/gobgp_flowspec_lifecycle.cpp:74-83 | a refresh may begin exactly for an unfenced victim without one |
| `LifecycleObject.FlowSpecLifecycle.FinishRefreshCapture` | src/actions/gobgp_flowspec_lifecycle.cpp:90-94 | the token goes back and the fence falls if nothing is left |
| `LifecycleObject.FlowSpecLifecycle.FailAnnounce` | src/actions/gobgp_flowspec_lifecycle.cpp:96-110 | a failed add frees its key unless a path is known for it |
| `LifecycleObject.FlowSpecLifecycle.CompleteAnnounce` | src/actions/gobgp_flowspec_lifecycle.cpp:112-136 | an added path becomes installed, or is to be withdrawn at once |
| `LifecycleObject.FlowSpecLifecycle.BeginWithdrawForVictim` | src/actions/gobgp_flowspec_lifecycle.cpp:138-176 | one pass in table order fences the victim and sorts its rules: every path to delete now, every rule whose add is unanswered and every rule whose delete is under way is listed exactly once and in that order, and the lists are all empty exactly when the victim has no rules |
| `LifecycleObject.FlowSpecLifecycle.CompleteWithdraw` | src/actions/gobgp_flowspec_lifecycle.cpp:178-196 | an answered delete erases the entry or leaves it for a retry |
| `LifecycleObject.FlowSpecLifecycle.ClearFenceIfFinished` | src/actions/gobgp_flowspec_lifecycle.cpp:198-217 | the fence falls exactly when the victim has neither rules nor a refresh in progress |
| `LifecycleObject.FlowSpecLifecycle.BeginRefreshProtocolRules` | src/actions/gobgp_flowspec_lifecycle.cpp:219-287 | counting, collecting new ports, deciding and reserving in place give the plan of the specification, with its counts of existing and new port rules, and its table |
| `LifecycleObject.FlowSpecLifecycle.BeginEscalationCleanup` | src/actions/gobgp_flowspec_lifecycle.cpp:289-322 | only behind an installed protocol-only rule of an unfenced victim are its port rules withdrawn, the paths to delete listed once each in table order |
| `LifecycleTable.AnnounceEnters` | src/actions/gobgp_flowspec_lifecycle.cpp:40-55 | what announcing does to the fields of the table |
| `LifecycleTable.TokenTaken` | src/actions/gobgp_flowspec_lifecycle.cpp:74-83 | a refresh begins exactly for a victim without fence and without refresh |
| `LifecycleTable.TokenReturned` | src/actions/gobgp_flowspec_lifecycle.cpp:90-94 | the token goes back, and the fence falls exactly without rules left |
| `LifecycleTable.FenceFalls` | src/actions/gobgp_flowspec_lifecycle.cpp:210-217 | the fence of this victim alone falls exactly without rules and refresh |
| `LifecycleTable.AddFailed` | src/actions/gobgp_flowspec_lifecycle.cpp:96-110 | an unconfirmed entry is erased, and the fence with the last one |
| `LifecycleTable.AddAnswered` | src/actions/gobgp_flowspec_lifecycle.cpp:112-136 | the three outcomes of an add, by the state of the entry and whether it has a path |
| `LifecycleTable.VictimWithdrawn` | src/actions/gobgp_flowspec_lifecycle.cpp:138-176 | what UNBAN does to each entry, which paths are to be deleted now, and when the fence stays |
| `LifecycleTable.DeleteAnswered` | src/actions/gobgp_flowspec_lifecycle.cpp:178-196 | the three outcomes of a delete in the fields of the table |
| `LifecycleObject.LeastExists` | src/actions/gobgp_flowspec_lifecycle.cpp:5-12 | the order of the keys is total, so the table is gone through from its first key to its last |
| `LifecycleRuns.StartsOnFreeKeys` | src/actions/gobgp_action.cpp:140-200 | no event starts a thread on a key another thread works on |
| `LifecycleRuns.InvariantStep` | src/actions/gobgp_flowspec_lifecycle.cpp:40-322 | every step of every thread keeps entries, rules, threads, clean-ups and paths in agreement |
| `LifecycleSafety.NoAnswerIgnored` | src/actions/gobgp_action.cpp:114-200 | the table never ignores an answer of GoBGP: the callers' error branches are unreachable |
| `LifecycleSafety.OneThreadPerKey` | src/actions/gobgp_action.cpp:140-200 | in every run at most one thread works on a key |
| `LifecycleSafety.NoPathLost` | src/actions/gobgp_action.cpp:114-200 | in every run each path at GoBGP is in the table or in the hands of the thread that added it, and at rest both hold the same paths |
| `LifecycleUnban.UnbanIsFinal` | README.md:34 | after UNBAN, until nothing of the victim is left, the fence stays up, no rule enters the table and GoBGP gets no path but from adds under way; and once no thread works for the victim all its paths are gone exactly when GoBGP refused no delete |
| `LifecycleUnban.UnbanCompletes` | README.md:34 | with no rule of the victim added after the last UNBAN, all its paths are gone, once no thread works for it, exactly when GoBGP refused no delete |
| `LifecycleUnban.RefusedDeleteLeavesPath` | README.md:34 | a refused delete does leave a path at GoBGP and the fence up, with no thread left to try again |
| `LifecycleUnban.RefreshCannotOutliveUnban` | src/actions/gobgp_flowspec_lifecycle.cpp:210-217 | a refresh begun before UNBAN keeps the fence up until it finishes; meanwhile no rule of the victim enters the table, no add begins and every path of it was there before or comes from an add already under way |
| `LifecycleCover.CoverStaysUntilUnban` | src/actions/gobgp_flowspec_lifecycle.cpp:302-319 | an installed protocol-only path stays at GoBGP until UNBAN |
| `LifecycleCover.MatchedUntilUnban` | README.md:34 | in every run, a packet matched by a path of a victim without an UNBAN in progress stays matched by one of its paths until the next UNBAN, through escalations, clean-ups and failures |
| `LifecycleCover.WithdrawnStep` | src/actions/gobgp_flowspec_lifecycle.cpp:289-322 | every step keeps it so that, outside UNBAN, only port rules whose protocol-only path is installed are on their way out |
| `LifecycleCover.CleanUpIsCovered` | README.md:34 | escalation withdraws port rules only while GoBGP holds the covering path |
| `LifecycleCleanup.CleanUpReachesPorts` | src/actions/gobgp_flowspec_lifecycle.cpp:289-322 | behind an installed protocol-only rule of a victim without a fence, refresh or not, a clean-up leaves every port rule of the protocol on its way out and changes nothing else; otherwise it changes nothing |
| `LifecycleCleanup.CleanUpStartsDeletes` | src/actions/gobgp_flowspec_lifecycle.cpp:289-322 | it starts a delete for exactly the port rules with a path that nobody is deleting |
| `LifecycleCleanup.CleanUpCompletes` | README.md:34 | over runs: after a clean-up, with no port rule of the victim and protocol added since and none in the hands of a thread, GoBGP holds no path of them exactly when it refused no delete |
| `LifecycleCover.FailedAddLeavesOthers` | README.md:34 | a failed protocol-only add leaves the port rules in place |
| `LifecycleLimit.PortLimitKept` | README.md:34 | planning a refresh never exceeds the limit on port rules, and escalates exactly when it would |
| `LifecycleLimit.LimitKeptExactly` | src/actions/gobgp_flowspec_lifecycle.cpp:40-55 | over whole runs whose refreshes are planned under the limit, the port rules of a victim and protocol stay within it exactly when every BAN that adds one finds room |
| `LifecycleLimit.BanPassesLimit` | src/actions/gobgp_flowspec_lifecycle.cpp:40-55 | for every limit below 65536, and there are no more port keys, there is a run in which a refresh fills it and a BAN goes past it |
| `LifecycleTable.PlanExactly` | src/actions/gobgp_flowspec_lifecycle.cpp:219-287 | the action of a refresh plan, its counts and what it announces, by the entries of the table and the limit |
| `LifecycleTable.FirstRequestWins` | src/actions/gobgp_flowspec_lifecycle.cpp:249-259 | the new ports are those asked for and not in the table, each with its first request |
| `LifecycleTable.EscalationCleansUp` | src/actions/gobgp_action.cpp:171-184 | the thread of an escalating plan is one that cleans up |
| `LifecycleTable.AddedKeepsPurpose` | src/actions/gobgp_action.cpp:151-168 | and remains one when its path is added |
| `LifecycleTable.CleanUpIsDue` | src/actions/gobgp_action.cpp:171-184 | once its path is installed, a clean-up is due |
| `LifecycleMeaning.KeyMeaning` | src/actions/gobgp_flowspec_lifecycle.cpp:14-38 | the key of a rule says exactly which packets it matches |
| `LifecycleMeaning.SameKeySameMeaning` | src/actions/gobgp_flowspec_lifecycle.cpp:14-38 | rules built for GoBGP with the same key match the same packets, so refusing a second rule for a key loses nothing |
| `LifecycleMeaning.EscalationCovers` | src/actions/gobgp_flowspec_lifecycle.cpp:302-319 | a protocol-only rule matches every packet of the port rules it replaces |
| `LifecycleMeaning.BuiltRuleHasKey` | src/actions/gobgp_flowspec_rule_builder.cpp:53-95 | every rule built for GoBGP has a key and matches exactly the intended packets |
| `LifecycleMeaning.BuiltRuleExactly` | src/actions/gobgp_flowspec_rule_builder.cpp:54-95 | the built rule has the action, a next hop exactly for redirects, the protocol if it is 1, 6 or 17, and the port for 6 and 17 |
| `Mitigation.RunOfBans` | src/fastnetmon_logic.cpp:733-805 | every run of both together is, for the ban list and its threads, a run of the ban protocol, so what holds over its runs holds here |
| `Mitigation.RunOfPaths` | src/actions/gobgp_action.cpp:140-330 | and for the table and GoBGP it is a run of the path lifecycle |
| `Mitigation.TokensAgree` | src/fastnetmon_logic.cpp:2915-2940 | in every run the bucket thread and the lifecycle table agree on which victims have a refresh in progress |
| `Mitigation.UnbannedHostHasNoPath` | README.md:34 | when the last withdrawal of a host reaches the table while the host is neither banned nor named by an announcement still to be made or by the copy refreshes are scheduled from, nothing is announced for it until a new ban, and at rest GoBGP holds no path of it exactly when it refused no delete |
| `MitigationGaps.LateBanLeaks` | src/fastnetmon_logic.cpp:1342-1345 | without the second part this fails: the thread of an unban overtakes that of the ban, and a path of an unbanned host stays |
| `MitigationGaps.LateRefreshLeaks` | src/fastnetmon_logic.cpp:2895-2933 | without the third it fails: a refresh begins from a stale copy of the ban list after the fence fell, and a path of an unbanned host stays |
| `MitigationGaps.LateEraseLeaks` | src/fastnetmon_logic.cpp:793-804 | without the first it fails: the sweep withdraws before it erases the ban, a refresh gets in between, and a path of an unbanned host stays |
| `PortClassifier.SaturatingMultiply` | src/actions/gobgp_flowspec_port_classifier.cpp:18-24 | the division test saturates exactly the products that overflow |
| `PortClassifier.MeetsPercentExactly` | src/actions/gobgp_flowspec_port_classifier.cpp:26-39 | the overflow-free comparison equals the comparison of fractions for every numerator exactly when the threshold fits 64 bits, always so up to 100 percent |
| `PortClassifier.LargePercentOverflows` | src/actions/gobgp_flowspec_port_classifier.cpp:26-39 | every percentage above a hundred has a total for which the comparison goes wrong |
| `PortClassifier.CalculatePercent` | src/actions/gobgp_flowspec_port_classifier.cpp:41-53 | the loop finds the share rounded down to whole percent, at most 100 |
| `PortClassifier.TallySamples` | src/actions/gobgp_flowspec_port_classifier.cpp:104-121 | saturating along the way gives the saturated true sums of exactly the qualifying samples |
| `PortClassifier.DominantPort` | src/actions/gobgp_flowspec_port_classifier.cpp:128-137 | the loop finds the lowest heaviest port and whether it is tied |
| `PortClassifier.ClassifyDestinationPort` | src/actions/gobgp_flowspec_port_classifier.cpp:88-161 | each outcome is justified by conditions that exclude each other, a port is selected only as the single, sufficiently heavy one, and counts, weights and share are reported as they are |
| `PortClassifier.SignificantPorts` | src/actions/gobgp_flowspec_port_classifier.cpp:215-228 | exactly the ports with a significant share are taken, in ascending order, each with its weight and its share in percent |
| `PortClassifier.ClassifyRefreshProtocols` | src/actions/gobgp_flowspec_port_classifier.cpp:168-236 | every active protocol gets one decision: ICMP is selected, others than TCP and UDP are unsupported, and for these the counts, the reason and the significant ports follow from the qualifying samples |
| `PortClassifier.PortsShareTotal` | src/actions/gobgp_flowspec_port_classifier.cpp:104-121 | the weights of different ports never add up to more than the total |
| `PortClassifier.SignificantPortsBounded` | src/actions/gobgp_flowspec_port_classifier.cpp:215-228 | unsaturated, there are at most as many significant ports as shares fit into a hundred percent |
| `PortClassifier.RefreshPortsBounded` | src/actions/gobgp_flowspec_port_classifier.cpp:215-228 | so a refresh asks for at most a hundred over the minimum share many port rules per protocol |
| `PortClassifier.MajorityDecides` | src/actions/gobgp_flowspec_port_classifier.cpp:139-160 | above fifty percent a port is selected exactly when one meets the threshold, and it is that one |
| `ClassifierOutcome.SampleIgnored` | src/actions/gobgp_flowspec_port_classifier.cpp:104-121 | a sample of another version, direction, destination or protocol, without a port or of a later fragment adds to no sum |
| `ClassifierOutcome.SampleAdded` | src/actions/gobgp_flowspec_port_classifier.cpp:104-121 | any other adds one to the count and packets times ratio to the total and to its own port |
| `ClassifierOutcome.DominatesExactly` | src/actions/gobgp_flowspec_port_classifier.cpp:139-160 | a port meets the percentage exactly when a hundred times its true sum reaches the percentage of a total that is not zero |
| `ClassifierOutcome.OutcomeExactly` | src/actions/gobgp_flowspec_port_classifier.cpp:85-161 | for sums within 64 bits every reason holds exactly under its condition in the true sums; a port is selected exactly when it leads all others, has the percentage, and there are as many samples as the minimum |
| `ClassifierOutcome.RefreshExactly` | src/actions/gobgp_flowspec_port_classifier.cpp:168-236 | a refresh lists exactly the TCP and UDP ports with their share of a total that is not zero, given as many samples as the minimum |
| `MovingAverage.StepStaysBetween` | src/fastnetmon_types.hpp:370-440 | one averaging step stays between old average and instant speed, falls strictly from above and never reaches from below |
| `MovingAverage.InstantSpeedMeans` | src/fastnetmon_types.hpp:328-370 | the speed times the period is at most the counter, which is less than one more times the period |
| `MovingAverage.AveragedMeans` | src/fastnetmon_types.hpp:370-440 | one step is the whole part of the mean with the decay as the weight of the past |
| `MovingAverage.EveryAmountAveraged` | src/fastnetmon_types.hpp:328-446 | bytes and packets of each of the seven kinds are averaged from their own counters |
| `MovingAverage.StallsExactly` | src/fastnetmon_types.hpp:370-440 | truncation holds the average in place exactly when it is less than 1/(1-e) below the speed |
| `MovingAverage.AverageStaysWithin` | src/fastnetmon_types.hpp:328-452 | over any sequence of speeds the average stays within the range of its start and the speeds seen |
| `MovingAverage.ReachedFromAbove` | src/fastnetmon_types.hpp:328-452 | a constant lower speed is reached exactly, in at most as many steps as the distance |
| `MovingAverage.StoppedTrafficForgotten` | src/fastnetmon_types.hpp:328-452 | when traffic stops the average falls to zero and stays there |
| `MovingAverage.StallsFromBelow` | src/fastnetmon_types.hpp:328-452 | a constant higher speed is never exceeded, and the average ends up fixed within 1/(1-e) of it |
| `MovingAverage.SpeedCounters.CalculateSpeed` | src/fastnetmon_types.hpp:328-446 | all four directions are averaged in place and their counters zeroed |
| `FlowTable.KeyPacking` | src/fastnetmon_logic.cpp:667-675 | packing and unpacking flow keys are mutual inverses |
| `FlowTable.FlowCounters.Clear` | src/fastnetmon_logic.cpp:2202-2209 | all counters and their history are gone |
| `FlowTable.FlowCounters.IncrementIncoming` | src/fastnetmon_logic.cpp:2575-2608 | one incoming packet counted in place under its packed key; the counters go on being what the history of packets says |
| `FlowTable.FlowCounters.IncrementOutgoing` | src/fastnetmon_logic.cpp:2621-2655 | one outgoing packet counted in place under its packed key; the counters go on being what the history of packets says |
| `FlowTable.TableAgreesWithHistory` | src/fastnetmon_logic.cpp:2567-2655 | since the last clear, each host has counters for exactly the TCP and UDP flows that occurred, holding the sums modulo 2^64 |
| `FlowTable.FirstPacket` | src/fastnetmon_logic.cpp:2567-2655 | which of the four maps of a host the first packet enters, under which addresses and ports, with which amounts |
| `FlowTable.CountedExactly` | src/fastnetmon_logic.cpp:2567-2655 | any packet changes the one counter that agrees with it in direction, protocol, opposite address and both ports |

## Left out

- Rule fields the codec and the filter never touch (TTLs, AS numbers, interfaces, agent addresses, UUIDs) and the IPv6 threads of the ban protocol, which repeat the IPv4 ones without refresh.
- Reading and writing rules as JSON and the textual forms of flags and actions: library-bound or finite enumerations.
- The attribute list for GoBGP's own FlowSpec API (src/bgp_protocol_flow_spec.cpp:328-386): it reuses the same communities without an NLRI and has no decoder.
- Memory: failing allocations, copying and moving of buffers (a copy does not take over the error flag), and what lies in memory behind an attribute: a read past its end is an outcome of its own.
- Ipv6Announce.MpRoundTrip: prefix lengths above 128, which the encoder would cut to eight bits and read past the address, are outside its type.
- The ageing of incomplete buckets and the refresh interval: when they act is arbitrary, so the properties hold whatever they are.
- BanRuns.TokensConserved: with the refresh settings constant; switching refresh off while a capture is in flight drops its token.
- Changes of thresholds, host groups, whitelists and the network lookup: the detector may act on any host at any time.
- The protocol admission thresholds (src/actions/gobgp_flowspec_protocol_admission.cpp): single comparisons.
- Rounding of doubles in the moving average and in the conversion to megabits, and counters beyond 64 bits there.
- Mitigation.UnbannedHostHasNoPath: one direction; a host that is not settled may still end without paths, for instance because a stuck delete keeps its fence up or the late announcement fails.
- Configuration, logging, notification scripts, gRPC, databases and screen output.
