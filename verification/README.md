# go-gtp: codecs and gateway state, verified

go-gtp implements the GPRS Tunnelling Protocol. This project models its two hard
parts in Dafny and proves what they are for: the nested binary codecs (does what
is sent come back, and is what is accepted exactly what was on the wire?) and the
session, TEID and relay state of a gateway (do a subscriber's packets stay in that
subscriber's tunnels?).

Every width the source truncates to is explicit, slices that can be out of range
are a third outcome beside success and error (`Panic`), and random numbers, send
failures, timeouts and the arrival of messages are parameters.

`dafny verify dfyconfig.toml` checks the whole project.

## What is where

| files | content |
|---|---|
| `Octets` | widths, big-endian octets, results, writing into buffers |
| `IETree`, `IEEdit`, `IEObject` | GTPv2 IEs (TS 29.274, section 8.2.1): trees and the two mutually recursive parsers; `Add`, `Remove` and whole runs of them; the `IE` object with its children by reference |
| `Tft`, `TftTemplate` | the Traffic Flow Template (TS 24.008, section 10.5.6.12): template, filters, components, parameters; the object and the loops |
| `TvTlv`, `IESlots`, `PdpContext`, `PdpRequests` | GTPv0 and GTPv1 IEs (TS 29.060, section 7.7) and the Create PDP Context Requests that dispatch them into fields |
| `GtpuHeader`, `Gtpv0Header`, `UPlane` | the headers, T-PDUs, and the user-plane connection: TEID pool, relay table, in-place rewrite |
| `Sequence`, `Registry`, `RegistryRuns`, `Conn` | the GTPv2 connection: sequence counter, the two indexes over its sessions, runs, the objects |
| `Gateway`, `GatewaySafety`, `GatewayRelays`, `GatewayIndexes` | the serving gateway as a system of steps; over all runs, whose tunnels its relays lead to, whether these are up to date, and whether its indexes agree |
| `GatewayOutcomes`, `GatewayTraffic` | what each handler does, from the fields of its message; that T-PDUs are carried, from the first message of a subscriber to the last octet |
| `GatewayExamples`, `GatewayObject` | whole runs, message by message, in which those promises end; the handlers as objects |
| `Labels`, `Location`, `EpcTimer` | APN and FQDN labels, PLMN and User Location Information, the EPC Timer |

The laws of each codec and each handler come in two kinds: round trips and exact
conditions in the terms of the model, and laws on octets or message fields with every
type, operation code, interface type, port and size written out as a number.

Code that works step by step in the source is a method here, on arrays or on
objects, proved against functions; what the source promises is then proved of those
functions. Where a promise does not hold of the code, the code is kept and the exact
condition under which it holds is proved, with an input that shows the failure:

- A TFT with an even, non-zero number of parameters loses them: the E bit is the
  parity of their number (`Tft.SurvivesIff`, `Tft.TwoParametersAreLost`).
- A TFT parameter announced with 254 or 255 octets makes the parser panic
  (`Tft.ParametersPanicIff`).
- Parsing a TFT that lists identifiers panics when more are announced than the backing
  array holds, or when its parameters would begin behind the slice
  (`Tft.TemplatePanicsIff`).
- A relay reads packets into 1500 octets: a T-PDU of more than 1492 octets of payload
  is cut at its first relay, although it survives without one
  (`GtpuHeader.DecapsulateAfterHopsIff`, `GtpuHeader.OneOctetTooMany`).
- A GTPv1 Create PDP Context Request can be marshalled only while its header has no
  payload; a second call fails (`PdpRequestV1.CreatePDPContextRequest.MarshalTo`).
- The GTPv0 header writes the SNDCP number into octet 9 and reads octet 10, so the
  number read is always 255 (`Gtpv0Header.ParseForgetsSndcp`).
- Length fields and ends of slices wrap at 16 bits (`IEEdit.OversizedDataIsLost`,
  `GtpuHeader.EncapsulateIff`, `Gtpv0Header.KeptIff`).
- A message to a TEID that is only reserved panics, since the nil session found is
  asked for its peer (`Conn.Conn.GetSessionByTEID`).
- A session that was replaced while its handler waited is removed by that handler,
  and takes the IMSI entry of its successor with it (`RegistryRuns.StaleRemovalHides`,
  `GatewayIndexes.StepKeepsOneToOneIff`).
- `SequenceNumber` does not report the last number used after a failure at the wrap
  (`Sequence.CounterIsLastUsedIff`).
- A peer that sends an F-TEID of the gateway's own interface type replaces the
  gateway's TEID in the session, and so redirects another subscriber's packets
  (`GatewaySafety.StepKeepsIff`, `GatewayExamples.ForeignClaimRun`).
- A second Create Session Response, or a Modify Bearer Request with an F-TEID that is not
  decodable behind a good one, stores a new tunnel while the relay goes on using the old
  one (`GatewayRelays.CurrentStaysIff`, `GatewayExamples.SecondAnswerRun`,
  `GatewayExamples.HalfHandoverRun`).
- Units 5 and 6 of an EPC Timer are read as zero, where the comment above the code says
  that they are minutes (`EpcTimer.OctetMeans`).
- Timers of more than 31 of the coarsest unit that divides them come back as others
  (`EpcTimer.SurvivesIff`, `EpcTimer.ThirtyThreeMinutes`).

## Model

| member | source | states |
|---|---|---|
| IETree.Parse | gtpv2/ie/ie.go:243-276 | an accepted IE takes at most the input, and exactly its header and announced length, although its length is recomputed from the parsed children |
| IETree.ParseAll | gtpv2/ie/ie.go:412-427 | the recomputed lengths of the parsed IEs add up to the input, so the reslicing never leaves it; the mutual recursion terminates |
| IETree.ParseIsExact | gtpv2/ie/ie.go:210-288 | an accepted IE is well formed and re-encodes to the octets it was read from |
| IETree.ParseAllIsExact | gtpv2/ie/ie.go:412-427 | for every accepted octet string, at any depth of grouping, the encodings of the parsed IEs concatenate to it |
| IETree.EncodeThenParse | gtpv2/ie/ie.go:201-276 | every well-formed tree is read back from its encoding, whatever follows |
| IETree.ParseCharacterised | gtpv2/ie/ie.go:243-276 | the parser gives a tree if and only if that tree is well formed and its encoding is a prefix of the input |
| IETree.ParseAllCharacterised | gtpv2/ie/ie.go:412-427 | the list parser gives a list if and only if it is well formed and encodes to the input |
| IETree.EncodedLayout | gtpv2/ie/ie.go:210-240 | type, length, instance and contents at their places in the octets |
| IETree.UniquelyDecodable | gtpv2/ie/ie.go:201-288 | two well-formed IEs with anything behind them that make the same octets are the same IE with the same octets behind |
| IETree.GroupedParses | gtpv2/ie/ie.go:243-333 | octets of type 93, 109, 180, 181, 191, 195, 208 or 209 with any encoded list of IEs, whatever follows, are read as an IE with exactly those children |
| IETree.PlainParses | gtpv2/ie/ie.go:243-333 | octets of every other type are read as an IE without children, whatever the payload is |
| IETree.BearerContextParses | gtpv2/ie/ie.go:243-333 | a Bearer Context with an EPS Bearer ID, octet by octet |
| IETree.ParseFails | gtpv2/ie/ie.go:252-276 | which of the two errors: fewer than four octets, a length beyond the end, or that of the contents of one of the eight grouped types |
| IETree.ParseAllFailsIff | gtpv2/ie/ie.go:412-427 | a list fails with an error if and only if behind some well-formed IEs there is one that fails with it |
| IEEdit.NewSurvivesIff | gtpv2/ie/ie.go:173-182 | an IE from `New` comes back from the wire if and only if its data fits 16 bits and a grouped type got none |
| IEEdit.NewOctets | gtpv2/ie/ie.go:173-182 | the octets of a new IE: four bits of instance, sixteen of length |
| IEEdit.NewGroupedOctets | gtpv2/ie/ie.go:456-469 | the octets of a new grouped IE: instance 0, the length of all children at sixteen bits, and the children |
| IEEdit.NewGroupedSurvivesIff | gtpv2/ie/ie.go:456-469 | for any children and any type: the IE comes back if and only if all children are well formed, they fit 16 bits together, and the type is grouped (or there are none) |
| IEEdit.OversizedDataIsLost | gtpv2/ie/ie.go:173-182 | 65536 octets of data are announced, and read back, as none |
| IEEdit.RunFollowsList | gtpv2/ie/ie.go:347-389 | any run of additions and removals does to the children what it does to a plain list, and leaves payload and length in step with them |
| IEEdit.RunSurvivesIff | gtpv2/ie/ie.go:347-389 | after any run of edits with any IEs, a peer reads the IE back unchanged if and only if the children left are well formed and fit 16 bits (and, if there was no edit, payload and length agreed with the children) |
| IEEdit.AddThenRemove | gtpv2/ie/ie.go:347-389 | removing what was just added restores the IE if no child matched before |
| IEEdit.WithoutFilters | gtpv2/ie/ie.go:365-389 | what is left after a removal is the order-preserving filter: lists can be taken apart anywhere, and a child stays unless its type and the low four bits of its instance are those given |
| IEEdit.WithoutSelects | gtpv2/ie/ie.go:365-389 | a removal leaves no child of its type and instance, and those of any other instance or type as they were, in order |
| IEEdit.FirstMatchIff | gtpv2/ie/ie.go:395-406 | a lookup gives the first child with the type and the low four bits of the instance, and none if and only if there is none |
| IEEdit.TwoOfOneType | gtpv2/ie/ie.go:365-406 | of two children of one type, lookup and removal tell one from the other by the instance |
| IEEdit.ApplyByType | gtpv2/ie/ie.go:324-389 | an edit sets children, payload and length of an IE of the eight grouped types, by number, and does nothing to any other |
| IEObject.IE.New | gtpv2/ie/ie.go:173-182 | the new object stands for the tree with a 4-bit instance and a 16-bit length |
| IEObject.IE.MarshalLen | gtpv2/ie/ie.go:279-288 | the recursive length of the objects is that of the tree |
| IEObject.IE.MarshalTo | gtpv2/ie/ie.go:210-240 | for every slice: when it succeeds, and exactly which octets are written, also on failure and when children do not fit; nothing else changes |
| IEObject.WrittenWhole | gtpv2/ie/ie.go:201-240 | into a slice of the announced length goes the whole encoding |
| IEObject.ShortSliceStops | gtpv2/ie/ie.go:216-233 | a slice that ends within a child gets the header and exactly the children before it |
| IEObject.IE.Marshal | gtpv2/ie/ie.go:201-207 | never fails, and gives the encoding of the tree |
| IEObject.IE.SetLength | gtpv2/ie/ie.go:291-300 | grouped or not, the length ends as the payload size at 16 bits |
| IEObject.IE.Add | gtpv2/ie/ie.go:347-362 | children appended in order, payload and length rebuilt; nothing for a type that is not grouped |
| IEObject.IE.Remove | gtpv2/ie/ie.go:365-389 | the children become the order-preserving filter, payload and length rebuilt |
| IEObject.IE.ChildrenWithout | gtpv2/ie/ie.go:370-382 | the shrinking list of the loop is never indexed beyond its end and ends as the filter |
| IEObject.IE.FindByType | gtpv2/ie/ie.go:395-406 | the first child of that type and instance, by reference, or one of two errors: the IE is not grouped, or there is no such child |
| IEObject.IE.UnmarshalBinary | gtpv2/ie/ie.go:252-276 | the errors of the parser, and every field afterwards: on failure those before the fault are set, and faulty children are none |
| IEObject.OverwrittenParses | gtpv2/ie/ie.go:252-276 | on success the object is the parsed tree, except that an IE that is not grouped keeps the children it had |
| IEObject.OverwrittenFails | gtpv2/ie/ie.go:252-276 | which fields each kind of failure sets, from the octets |
| IEObject.ParseMultiIEs | gtpv2/ie/ie.go:412-427 | the loop gives objects for exactly the parsed list, or no objects and the error |
| IEObject.NewGroupedIE | gtpv2/ie/ie.go:456-469 | the object stands for the grouped tree of its children |
| Tft.ComponentsCharacterised | gtpv2/ie/tft.go:777-838 | components are accepted if and only if they are the one list, each sized by its type, that encodes to the input |
| Tft.ComponentSizes | gtpv2/ie/tft.go:795-838 | the size of the contents of a component of each type, by number |
| Tft.FilterCharacterised | gtpv2/ie/tft.go:244-304 | on arbitrary octets, a filter is accepted if and only if its fields are within their bits, its components encode to its declared body, and the input starts with it (spare bits aside) |
| Tft.FilterLayout | gtpv2/ie/tft.go:244-268 | for any filter, two bits of direction, four of identifier, precedence, length and components at their places in the octets |
| Tft.ParseFilter | gtpv2/ie/tft.go:281-325 | `MarshalLen` of a parsed filter is 3 plus its declared length and within the input |
| Tft.ParsedFiltersFit | gtpv2/ie/tft.go:156-163 | all filters the loop accepts fit |
| Tft.ParametersCharacterised | gtpv2/ie/tft.go:908-940 | parameters are accepted if and only if they have up to 253 octets each and encode to the input |
| Tft.ParameterOctets | gtpv2/ie/tft.go:879-940 | identifier, length and contents in the octets of a parameter, and every way in which reading one ends |
| Tft.ParametersPanicIff | gtpv2/ie/tft.go:926-940 | the parser panics if and only if, behind well-formed parameters, one announces 254 or 255 octets |
| Tft.TemplatePanicsIff | gtpv2/ie/tft.go:141-178 | for every slice and capacity: parsing a template panics if and only if more identifiers are announced than the capacity holds, or parameters are announced that begin behind the slice or panic themselves |
| Tft.ParsedFits | gtpv2/ie/tft.go:141-178 | every accepted template has its fields within their bits and filters or identifiers only where the operation has them |
| Tft.FittingParses | gtpv2/ie/tft.go:71-178 | a template that fits parses back to itself, without its parameters if their number is even |
| Tft.FirstOctetParts | gtpv2/ie/tft.go:86-95 | operation code, parity of the parameters and count in the bits of the first octet |
| Tft.SurvivesIff | gtpv2/ie/tft.go:71-201 | a template survives the wire if and only if it fits and has no or an odd number of parameters |
| Tft.TemplateOctets | gtpv2/ie/tft.go:71-204 | the octets of every template: operations 1, 3 and 4 write filters, 5 identifiers, all others neither, while the length counts both |
| Tft.FiltersSurvive | gtpv2/ie/tft.go:81-178 | for operations 1, 3 and 4, up to 15 fitting filters are one octet and their encodings, and come back |
| Tft.IdentifiersSurvive | gtpv2/ie/tft.go:81-178 | for operation 5, up to 15 identifiers do |
| Tft.OthersCarryParameters | gtpv2/ie/tft.go:141-178 | for operations 0, 2, 6 and 7 parameters begin at octet 1 whatever the count, and without the E bit nothing is read |
| Tft.NewTemplateParses | gtpv2/ie/tft.go:141-178 | a new template with one filter for protocol 6, octet by octet |
| Tft.TwoParametersAreLost | gtpv2/ie/tft.go:90-95 | a template with two parameters comes back with none |
| TftTemplate.TrafficFlowTemplate.constructor | gtpv2/ie/tft.go:47-68 | nil filters and parameters are dropped, the others kept in order |
| TftTemplate.TrafficFlowTemplate.MarshalTo | gtpv2/ie/tft.go:82-128 | for every slice and capacity: when it succeeds, fails or panics, and which octets are written; identifiers are copied beyond the slice up to the capacity |
| TftTemplate.TrafficFlowTemplate.Marshal | gtpv2/ie/tft.go:71-78 | never fails, and gives the written form padded to `MarshalLen` |
| TftTemplate.TrafficFlowTemplate.UnmarshalBinary | gtpv2/ie/tft.go:141-178 | the outcome of the parser, and on success the fields of any receiver: filters, identifiers and parameters are replaced only where the octets have a place for them |
| TftTemplate.ReplacedByOperation | gtpv2/ie/tft.go:141-178 | which fields of the receiver each operation, by number, replaces |
| TftTemplate.MarshalFilter | gtpv2/ie/tft.go:244-268 | succeeds exactly when the filter fits behind the offset, and writes its encoding there |
| TftTemplate.MarshalParameter | gtpv2/ie/tft.go:879-895 | the same for a parameter |
| TftTemplate.ParseMultiComponents | gtpv2/ie/tft.go:777-792 | the reslicing loop gives what the recursive parser gives |
| TftTemplate.ParseMultiParameters | gtpv2/ie/tft.go:908-923 | the same, with its panics |
| TftTemplate.ParseMultiFilters | gtpv2/ie/tft.go:156-163 | the filter loop gives the parsed filters and an offset that never leaves the buffer |
| TvTlv.ParseCharacterised | gtpv1/ie/ie.go:198-238 | for GTPv0 and GTPv1 tables, an IE is accepted if and only if it is well formed and the input of at least two octets starts with its encoding |
| TvTlv.ParseAllCharacterised | gtpv1/ie/ie.go:320-337 | the list codec is byte-exact on every accepted input, unknown one-octet types included, and conversely accepts exactly the lists whose last IE takes at least two octets |
| TvTlv.EncodedLayout | gtpv1/ie/ie.go:173-186 | type, length (for TLV types) and value at their places in the octets |
| TvTlv.NewSurvivesIff | gtpv1/ie/ie.go:156-161 | exactly which new IEs come back: data of the size the type's table says, or up to 16 bits |
| TvTlv.CommonSizes | gtpv1/ie/ie.go:240-269 | which value size is read for each type-value type that both versions know, by number |
| TvTlv.OwnSizes | gtpv0/ie/ie.go:140-160 | the same for the types that only one version knows, and none for the rest |
| TvTlv.LongParses | gtpv1/ie/ie.go:173-238 | from type 128 on, two octets of length and the value, both ways |
| TvTlv.ShortEncodes | gtpv1/ie/ie.go:173-186 | a new IE of a known short type is cut to its size or filled up with zeros |
| TvTlv.ParseFailsIff | gtpv1/ie/ie.go:198-238 | which of the two errors parsing one IE ends in, from its octets |
| TvTlv.MarshalTo | gtpv1/ie/ie.go:173-186 | writes the octets of the IE into the slice, cut to the table's size, or fails and writes nothing |
| TvTlv.ParseMultiIEs | gtpv0/ie/ie.go:210-227 | the reslicing loop gives what the recursive parser gives |
| IESlots.BuildHolds | gtpv1/message/create-pdp-context-req.go:57-160 | building puts into each of the fields exactly the IE that its type's occurrences say (first, second or last), and the rest in order among the additional IEs |
| IESlots.CanonicalRebuilds | gtpv1/message/create-pdp-context-req.go:173-427 | the canonical order of a message's IEs builds the same message |
| IESlots.BuildSettles | gtpv1/message/create-pdp-context-req.go:57-160 | every message built is one whose canonical order loses nothing |
| IESlots.CanonicalIsNoLonger | gtpv0/message/create-pdp-context-req.go:92-190 | the canonical order of what was built from a list takes no more octets than the list |
| IESlots.OneIE | gtpv1/message/create-pdp-context-req.go:57-160 | which types have a field, by number: others are additional |
| IESlots.TwoIEs | gtpv1/message/create-pdp-context-req.go:57-427 | two IEs are written in the order of their type numbers however given; of two of one type the second replaces the first, except for types 20 and 133 (GTPv0: 133), which keep both |
| IESlots.ThreeIEs | gtpv0/message/create-pdp-context-req.go:31-79 | a third one of those types is additional in GTPv1 and replaces the second in GTPv0 |
| PdpContext.ReadCanonicalIff | gtpv1/message/create-pdp-context-req.go:439-550 | canonical octets read back to the message if and only if its IEs are well formed and the last takes at least two octets |
| PdpContext.ReadGives | gtpv0/message/create-pdp-context-req.go:202-256 | whatever is read is well formed, settled and no longer than its octets |
| PdpContext.WriteFields | gtpv1/message/create-pdp-context-req.go:177-427 | the loops fill a fresh buffer with the canonical encoding and zeros, or fail exactly when it is too small |
| PdpRequestV1.RoundTripIff | gtpv1/message/create-pdp-context-req.go:173-550 | for every header: all fields and additional IEs come back if and only if every IE is well formed, the last takes at least two octets, and together they take at most 65523 with a sequence number, or 3 to 65527 without |
| PdpRequestV1.BuiltRoundTripIff | gtpv1/message/create-pdp-context-req.go:57-160 | the same for every message built from any list of IEs |
| PdpRequestV1.MessageOctets | gtpv1/message/create-pdp-context-req.go:57-427 | the octets of a message from any IEs |
| PdpRequestV1.CreatePDPContextRequest.constructor | gtpv1/message/create-pdp-context-req.go:57-160 | the fields are those built from the IEs that are not nil, the length that of the whole message |
| PdpRequestV1.CreatePDPContextRequest.MarshalTo | gtpv1/message/create-pdp-context-req.go:173-427 | for every header, nil included, and every buffer: success only with an empty header payload, failure or panic otherwise, and exactly the octets written |
| PdpRequestV1.CreatePDPContextRequest.UnmarshalBinary | gtpv1/message/create-pdp-context-req.go:439-550 | the parsed IEs are placed one by one into the fields the object already has; a header error leaves a nil header |
| PdpRequestV0.RoundTripIff | gtpv0/message/create-pdp-context-req.go:92-256 | fields come back if and only if the IEs are well formed, the last takes at least two octets, and the payload is not of a size whose 16-bit end wraps |
| PdpRequestV0.Canonicalise | gtpv0/message/create-pdp-context-req.go:92-309 | any accepted datagram has a canonical form that is no longer; it gives the same fields if and only if its last IE takes two octets or more and its size is not one whose 16-bit end wraps, and forming it again changes no octet if and only if the SNDCP number was 255 |
| PdpRequestV0.MessageOctets | gtpv0/message/create-pdp-context-req.go:31-190 | the octets of a message from any IEs |
| PdpRequestV0.CreatePDPContextRequest.constructor | gtpv0/message/create-pdp-context-req.go:31-79 | the fields are those built from the IEs that are not nil, the length that of the payload |
| PdpRequestV0.CreatePDPContextRequest.MarshalTo | gtpv0/message/create-pdp-context-req.go:92-190 | can be repeated: header and octets depend on the fields alone; a short buffer is the only failure and a nil header the only panic |
| PdpRequestV0.CreatePDPContextRequest.UnmarshalBinary | gtpv0/message/create-pdp-context-req.go:202-256 | the parsed IEs are placed one by one into the fields the object already has; a header error leaves a nil header |
| Gtpv0Header.SurvivesIff | gtpv0/message/header.go:59-105 | a header comes back if and only if its SNDCP number is 255 and its payload's 16-bit end does not wrap |
| Gtpv0Header.KeptIff | gtpv0/message/header.go:86-105 | with the length set, parsing panics for payloads of 65516 to 65535 octets and keeps all others |
| Gtpv0Header.ParseForgetsSndcp | gtpv0/message/header.go:59-105 | headers that differ in the SNDCP number only are read as the same header |
| Gtpv0Header.EncodedParts | gtpv0/message/header.go:59-74 | every field at its place in the octets |
| Gtpv0Header.HeaderOctets | gtpv0/message/header.go:59-74 | every octet of a header |
| Gtpv0Header.NewOctets | gtpv0/message/header.go:34-74 | every octet of a new one |
| Gtpv0Header.ParsedOctets | gtpv0/message/header.go:86-105 | which octets each field is read from, and exactly when parsing fails or panics |
| Gtpv0Header.MarshalTo | gtpv0/message/header.go:59-74 | writes the header and payload, or fails and writes nothing |
| GtpuHeader.SurvivesIff | gtpv1/message/header.go:61-124 | exactly which headers come back: at least 11 octets, a length field that announces the payload below the 16-bit wrap or more than is there, and no sequence number without its flag |
| GtpuHeader.EncapsulateIff | gtpv1/utils.go:10-26 | decapsulating what was encapsulated gives TEID and payload if and only if the payload has 3 to 65527 octets |
| GtpuHeader.EncapsulateWithSequenceIff | gtpv1/message/t-pdu.go:21-26 | the same with a sequence number, for up to 65523 octets |
| GtpuHeader.RewriteIsRemarshal | gtpv1/u-conn.go:240-246 | rewriting octets 4 to 7 of a marshalled packet is marshalling it with the new TEID |
| GtpuHeader.RewriteThenParse | gtpv1/u-conn.go:240-246 | on any packet of 8 octets or more the rewrite changes what is parsed in the TEID only, errors and panics included |
| GtpuHeader.ReceivedParse | gtpv1/u-conn.go:189-215 | any packet that parses still does when the buffer cuts it; every field is the same and the payload ends with the buffer |
| GtpuHeader.DecapsulateAfterHopsIff | gtpv1/u-conn.go:189-246 | at the end of any number of relays, each reading into 1500 octets, decapsulation gives the last TEID and the original payload if and only if the payload has 3 to 65527 octets without a relay, or 3 to 1492 with one or more |
| GtpuHeader.LongPayloadIsCut | gtpv1/u-conn.go:189-246 | above that, exactly which octets are left after any number of relays |
| GtpuHeader.OneOctetTooMany | gtpv1/u-conn.go:189-215 | the smallest payload that does not pass: 1493 octets, which survive without a relay, lose the last one |
| GtpuHeader.EncodedParts | gtpv1/message/header.go:61-80 | every field at its place in the octets |
| GtpuHeader.HeaderOctets | gtpv1/message/header.go:61-80 | every octet of a header, with and without a sequence number |
| GtpuHeader.TPDUOctets | gtpv1/message/t-pdu.go:13-26 | every octet of a T-PDU: flags 0x30 or 0x32 and type 255 |
| GtpuHeader.ParseFailsIff | gtpv1/message/header.go:92-124 | exactly when parsing fails, with which error, or panics |
| GtpuHeader.ParsedOctets | gtpv1/message/header.go:92-124 | which octets each field is read from otherwise |
| GtpuHeader.DecapsulateByType | gtpv1/utils.go:16-26 | decapsulation is for type 255 only |
| GtpuHeader.MarshalTo | gtpv1/message/header.go:61-80 | writes the header and payload, leaving the two octets behind a sequence number as they were, or fails and writes nothing |
| UPlane.ForwardingKeepsPayload | gtpv1/u-conn.go:201-246 | any packet that is forwarded leaves with the TEID of the entry and decapsulates to the payload it came with, up to the end of the buffer |
| UPlane.FateIff | gtpv1/u-conn.go:213-246 | with a relay set, a packet is sent on if and only if it has 11 octets or more, type 255 and a TEID of the table, and then to that peer with four octets changed; when it is dropped, handled, or panics |
| UPlane.EntryCarries | gtpv1/u-conn.go:189-246 | every T-PDU of 3 to 1492 octets for a TEID of the table is sent to its peer, and decapsulates there to the peer's TEID and the same payload |
| UPlane.RelayCarries | gtpv1/tunnel.go:21-33 | and so from the moment the entry is set |
| UPlane.PoolIsLive | gtpv1/u-conn.go:499-552 | in every run the pool is exactly the TEIDs handed out and not closed, these are non-zero and pairwise distinct, and relays sit on live TEIDs only |
| UPlane.TableIsLastPeer | gtpv1/tunnel.go:21-47 | in every run the relay table maps each TEID to the last peer set for it since it was closed |
| UPlane.ReissuedHasNoPeer | gtpv1/tunnel.go:36-47 | a TEID that is handed out has no peer until one is set, whatever happens in between |
| UPlane.AllocFailsIff | gtpv1/u-conn.go:499-526 | allocation fails if and only if every draw was zero or live |
| UPlane.FirstUsableIsFirst | gtpv1/u-conn.go:499-526 | the draw taken is the first that is neither zero nor in use |
| UPlane.UPlaneConn.NewFTEID | gtpv1/u-conn.go:499-526 | the retry loop takes the first draw that is neither zero nor taken, and nothing else changes |
| UPlane.UPlaneConn.RelayTo | gtpv1/tunnel.go:21-33 | sets one entry, or refuses with kernel GTP-U |
| UPlane.UPlaneConn.CloseRelay | gtpv1/tunnel.go:36-47 | removes one entry and frees its TEID, or refuses with kernel GTP-U |
| UPlane.UPlaneConn.Receive | gtpv1/u-conn.go:189-246 | what becomes of a packet of any length: read into the buffer, copied, and changed in its TEID only if it is forwarded |
| Sequence.SentNumbers | gtpv2/conn.go:383-421 | with failures anywhere, the j-th message to go out carries j modulo 2^24, also across a rollback at the wrap |
| Sequence.SendCounts | gtpv2/conn.go:383-421 | the counter after a send that succeeds or fails, from what was sent before |
| Sequence.SameNumberIff | gtpv2/conn.go:383-421 | two messages carry the same number if and only if a multiple of 2^24 lies between them |
| Sequence.CounterIsLastUsedIff | gtpv2/conn.go:423-429 | the counter is the last number used if and only if the last send did not fail at the wrap |
| Registry.LookupsAgree | gtpv2/conn.go:667-684 | while the indexes agree, a TEID finds a session if and only if the sender is its peer and its IMSI finds the same session |
| Registry.LookupOutcomes | gtpv2/conn.go:667-676 | every outcome of a lookup by TEID |
| Registry.ReservedPanics | gtpv2/conn.go:751-777 | a reservation takes one TEID that was free and not zero, and a message to it panics until a session is registered |
| Registry.RegisterKeepsIff | gtpv2/conn.go:702-707 | registering keeps the indexes one to one if and only if the session with that IMSI is the one with that TEID (or neither is in use); then it replaces that one and no other |
| Registry.RemoveKeepsIff | gtpv2/conn.go:710-728 | removing keeps the indexes one to one under the same condition; then exactly one session leaves both |
| Registry.RemoveUnregistered | gtpv2/conn.go:713-726 | a session without incoming TEID is removed with all of its IMSI and no others, or the program panics, exactly if some TEID is only reserved |
| RegistryRuns.StepKeeps | examples/sgw/s11.go:66-140 | remove, reserve, register keeps the indexes one to one, puts the new session in the old one's place and touches no other subscriber |
| RegistryRuns.RunFindsAttached | gtpv2/conn.go:667-684 | in every run the IMSI finds exactly the session attached last, and a TEID exactly an attached session of that TEID and peer |
| RegistryRuns.StaleRemovalHides | examples/sgw/s11.go:169-205 | removing a replaced session hides its successor from lookup by IMSI but not by TEID |
| Conn.Conn.Validate | gtpv2/conn.go:363-379 | which messages pass, which fail, and which bring the program down |
| Conn.Conn.GetSessionByTEID | gtpv2/conn.go:667-676 | the lookup, with its panic on a reserved TEID |
| Conn.Conn.RegisterSession | gtpv2/conn.go:702-707 | both indexes and the session's own TEID, on the objects |
| Conn.Conn.RemoveSession | gtpv2/conn.go:710-728 | the new indexes, or the panic, on the objects |
| Conn.Conn.RemoveAllWith | gtpv2/conn.go:717-724 | whatever the order of the walk, exactly the TEIDs of sessions with the IMSI are freed, or a reserved one panics |
| Conn.Conn.NewSenderFTEID | gtpv2/conn.go:751-777 | the retry loop reserves the first draw that is neither zero nor in use |
| Conn.Conn.SendMessageTo | gtpv2/conn.go:383-421 | the number carried, the number returned and the counter, on success and on both failures |
| Conn.Session.PassMessageTo | gtpv2/session.go:134-141 | appends to the queue, or fails when it is full |
| Conn.Session.WaitMessage | gtpv2/session.go:147-161 | takes the first message, also one with another number, which is then an error of its own beside the timeout |
| Gateway.ReadLeaves | examples/sgw/s11.go:251-284 | reading a bearer context leaves IMSI and peer, sets the tunnel to one that was given, and replaces a TEID exactly by the last F-TEID of its type |
| GatewaySafety.StepKeepsIff | examples/sgw/s11.go:18-331 | a step of the gateway keeps the binding of sessions, TEIDs and relays if and only if the message claims no TEID of the gateway's own types that was not given out for its subscriber |
| GatewaySafety.CreateKeepsIff | examples/sgw/s11.go:18-168 | the same for a Create Session Request up to its wait |
| GatewaySafety.ResumeKeeps | examples/sgw/s11.go:169-249 | the rest of that handler always keeps the binding |
| GatewaySafety.AnswerKeepsIff | examples/sgw/s5.go:13-130 | the same for a Create Session Response |
| GatewaySafety.ModifyKeepsIff | examples/sgw/s11.go:251-331 | the same for a Modify Bearer Request |
| GatewaySafety.ParsedIndexIff | gtpv2/conn.go:464-579 | creating the S5 session keeps the TEID index sound if and only if the P-GW's F-TEID is not of the gateway's own type, or carries the TEID given out for this very session's owner |
| GatewayOutcomes.StartsEmpty | examples/sgw/main.go:65-100 | the gateway starts empty, with connections of interface types 11 and 6 |
| GatewayOutcomes.CreateNothing | examples/sgw/s11.go:27-134 | without P-GW F-TEID, sender F-TEID, resolvable address or IMSI a request does nothing; without another mandatory IE it only removes the previous session |
| GatewayOutcomes.CreateMakes | examples/sgw/s11.go:135-168 | everything a creation makes: both sessions with their TEIDs by interface type number, where they are registered, what is taken, and what the handler waits for |
| GatewayOutcomes.CreatePanicsIff | examples/sgw/s11.go:66-168 | a creation panics if and only if removing the previous session does, or no TEID is left where one is used |
| GatewayOutcomes.ResumeOutcome | examples/sgw/s11.go:169-249 | the rest of the handler: what it stores when the message it waits for is there, the send succeeds and TEIDs of types 6 and 7 are known; removal in all other cases; panics exactly when |
| GatewayOutcomes.ReadVerdict | examples/sgw/s5.go:73-112 | reading a bearer context goes on, removes or stops, by what in it is first not decodable or not accepted |
| GatewayOutcomes.ReadLeavesLast | examples/sgw/s11.go:429-456 | it leaves the tunnel of the last F-TEID, to port 2152, and for each interface type the last TEID |
| GatewayOutcomes.AnswerOutcome | examples/sgw/s5.go:13-130 | from the fields of the message: a complete, accepted response activates the session and is passed on to the subscriber's S11 session; one that is refused or lacks an IE removes the session from both indexes and is not passed on; one not decodable does neither |
| GatewayOutcomes.ResponseCases | examples/sgw/s5.go:25-112 | every response is exactly one of these |
| GatewayOutcomes.ModifyOutcome | examples/sgw/s11.go:251-306 | from the fields of the message: the tunnel that is stored, and the two entries that are set if TEIDs of types 1, 4 and 10 are known, or none |
| GatewayOutcomes.ModifyStops | examples/sgw/s11.go:268-284 | an F-TEID that is not decodable leaves all entries as they are |
| GatewayOutcomes.ModifyAlone | examples/sgw/s11.go:251-261 | a request for a subscriber without S5 session does nothing |
| GatewayOutcomes.UnknownSender | examples/sgw/s11.go:251-257 | messages that find no session of the sender do nothing, those to a reserved TEID panic |
| GatewaySafety.UplinkStaysWithSubscriber | examples/sgw/s11.go:285-306 | in every run, an uplink packet that is forwarded came in on a TEID given out for a subscriber and leaves, with its payload up to the end of the buffer, into a tunnel the P-GW announced for that subscriber |
| GatewaySafety.DownlinkStaysWithSubscriber | examples/sgw/s11.go:285-306 | the same for downlink packets and the subscriber's eNB |
| GatewaySafety.RunOwnersStay | examples/sgw/s11.go:211-306 | in every run a user-plane TEID stays that of the subscriber it was given out for, so entries of different subscribers never coincide |
| GatewayTraffic.ModifyCarries | examples/sgw/s11.go:285-306 | after a request that gets to the relays, every T-PDU of 3 to 1492 octets is sent on, uplink to the tunnel stored in the S5 session and downlink to that in the S11 session |
| GatewayTraffic.RunCarries | examples/sgw/s11.go:285-306 | in every run, from such a request on, for ever, into a tunnel of the same subscriber |
| GatewayTraffic.AttachmentCarries | examples/sgw/s11.go:18-306 | from the first message to the last octet, for any subscriber: after its attachment and the eNB's F-TEID, uplink T-PDUs go to port 2152 of the P-GW and downlink ones to port 2152 of the eNB, with the TEIDs these chose |
| GatewaySafety.ForeignClaimTakesOver | examples/sgw/s11.go:429-456 | an F-TEID with the gateway's own type and another subscriber's TEID redirects that subscriber's uplink |
| GatewayRelays.ModifyRelays | examples/sgw/s11.go:251-306 | exactly which bearer, and which two entries, a Modify Bearer Request changes: the tunnel of its last F-TEID is stored and, if the request gets so far, each direction is set to the tunnel stored in the other side's default bearer |
| GatewayRelays.ModifyBoundIff | examples/sgw/s11.go:251-306 | a request misdirects packets if and only if it relays at a TEID that was not given out for the owner of the tunnel, whatever else it claims |
| GatewayRelays.RelayedCurrent | examples/sgw/s11.go:285-306 | after a request that gets to the relays, both entries lead to the tunnels stored in the two default bearers |
| GatewayRelays.CurrentStaysIff | examples/sgw/s5.go:73-112 | over any step they stay so if and only if the message does not change one of the bearers without relaying, and does not relay there to another tunnel |
| GatewayRelays.RunStaysCurrent | examples/sgw/s11.go:251-306 | in every run, entries that were up to date once still are if every event since then meets that condition |
| GatewayRelays.RunPaired | examples/sgw/s11.go:296-306 | in every run, exactly the subscribers that have an uplink entry have a downlink entry |
| GatewayExamples.SecondAnswerRun | examples/sgw/s5.go:73-112 | a run of honest messages, for any subscriber, after which the uplink entry leads to a tunnel that a second response has replaced |
| GatewayExamples.HalfHandoverRun | examples/sgw/s11.go:268-284 | the same for the downlink, by a request whose second F-TEID is not decodable |
| GatewayExamples.ForeignClaimRun | examples/sgw/s11.go:429-456 | a run from the start, for any two subscribers, after which one request sends the uplink packets of the first into the tunnel of the second |
| GatewayExamples.ForeignClaimExample | examples/sgw/s11.go:429-456 | the same with two concrete subscribers |
| GatewayIndexes.StepKeepsOneToOneIff | examples/sgw/s11.go:66-249 | a step of the gateway keeps its two indexes over S11 sessions one to one if and only if the request brings no other TEID of its own S11 type, and a handler that waited does not remove a session whose IMSI or TEID has become that of another |
| GatewayIndexes.RunKeepsOneToOne | examples/sgw/s11.go:18-331 | and in every run in which all steps do, the indexes are one to one |
| GatewayObject.ServingGateway.HandleCreateSessionRequest | examples/sgw/s11.go:18-168 | the handler up to its wait takes exactly the step of the system, on the objects; without a TEID for S5-C it panics only if the request went out |
| GatewayObject.ServingGateway.ResumeCreateSessionRequest | examples/sgw/s11.go:169-249 | and so does the rest of it |
| GatewayObject.ServingGateway.HandleModifyBearerRequest | examples/sgw/s11.go:251-331 | and the Modify Bearer Request handler |
| GatewayObject.ServingGateway.HandleCreateSessionResponse | examples/sgw/s5.go:13-130 | and the Create Session Response handler |
| GatewayObject.ReadChildren | examples/sgw/s5.go:73-112 | the loop over a bearer context stops where the function says and leaves what it says |
| GatewayObject.ParseCreateSession | gtpv2/conn.go:464-579 | the session made from the gateway's IEs, and where it is registered |
| Labels.SurvivesIff | gtpv2/ie/apn.go:12-49 | the encoding fills the payload and decodes to the name if and only if no label has more than 255 octets |
| Labels.RestoredIff | gtpv1/ie/apn.go:28-51 | a payload the GTPv1 decoder accepts is restored by encoding its name if and only if it is not empty and no label contains a dot |
| Labels.LabelOctets | gtpv2/ie/apn.go:12-49 | the octets of one label, and of two with a dot (0x2e) between them |
| Labels.CutLabel | gtpv1/ie/apn.go:28-51 | at a label that is cut off GTPv2 stops with the name before it, GTPv1 with an error |
| Labels.NewPayload | gtpv2/ie/fqdn.go:12-23 | the copying loop fills the payload with the encoding |
| Labels.Read | gtpv1/ie/apn.go:28-51 | the decoding loop, lenient as in GTPv2 or strict as in GTPv1 |
| Location.SwappedTwice | utils/utils.go:50-57 | swapping halves of octets is its own inverse |
| Location.Swap | utils/utils.go:50-57 | the loop swaps every octet |
| Location.RecoversIff | utils/utils.go:89-135 | a PLMN survives if and only if it has three and two or three lower-case digits and no filler as third MNC digit |
| Location.PLMNOctets | utils/utils.go:89-112 | where each digit of a PLMN lies in the three octets |
| Location.PLMNFailsIff | utils/utils.go:89-112 | exactly when encoding one fails or panics |
| Location.SurvivesIff | gtpv2/ie/uli.go:239-518 | for every combination of the eight parts: marshalling fills exactly the announced length, and the same parts come back if and only if all PLMNs are proper and eNB IDs fit 24 bits |
| Location.PartOctets | gtpv2/ie/uli.go:229-356 | the flag of each of the eight parts, and the octets of its number, one part at a time |
| Location.MarshalFields | gtpv2/ie/uli.go:229-356 | the writes with a running offset make those octets, or fail or panic as the PLMN does |
| Location.UnmarshalFields | gtpv2/ie/uli.go:369-486 | the reads with a running offset give what the parser gives |
| EpcTimer.DecodeEncode | gtpv2/ie/epc-timer.go:15-98 | what comes back is the number of the coarsest units that divide the duration, modulo 32 |
| EpcTimer.SurvivesIff | gtpv2/ie/epc-timer.go:15-98 | a duration survives if and only if it is 0 to 31 of those units |
| EpcTimer.OctetMeans | gtpv2/ie/epc-timer.go:67-98 | what each octet means in nanoseconds |
| EpcTimer.EncodedOctet | gtpv2/ie/epc-timer.go:30-52 | the octet of every duration that some unit divides |
| EpcTimer.NoUnit | gtpv2/ie/epc-timer.go:47-50 | a duration no unit divides is sent as 0xe0 and comes back as infinite |
| EpcTimer.InfiniteIff | gtpv2/ie/epc-timer.go:30-52 | a duration is sent as infinite if and only if it is no multiple of 2 seconds; every other one has a coarsest unit |
| EpcTimer.ThirtyThreeMinutes | gtpv2/ie/epc-timer.go:30-52 | 33 minutes come back as one minute |

## Left out

- Sockets, deadlines, loggers, kernel GTP-U and netlink: the arrival of a message is a call, success of a send a parameter.
- Goroutines: handlers run to their wait or their end without interruption, and calls of `SendMessageTo` do not overlap; the source locks increment and rollback separately.
- `math/rand` and `crypto/rand`: every sequence of draws is allowed.
- GTPv2 message headers and the Create Session and Modify Bearer codecs: messages to the gateway are records of IEs that are missing, not decodable, or given. They, too, are read into 1500 octets (gtpv2/conn.go:183); what a message that is cut parses to is not part of this model.
- Error kinds that no caller tells apart (several missing-IE errors of the handlers) are one error each.
- Session and bearer deletion in the gateway, and the bearer fields (QoS, EBI, charging ID, subscriber IP) that no relay depends on; bearers other than the default one, whose tunnel is a field of the session.
- GatewayObject.ParseCreateSession: takes the list of IEs that the gateway sends, in its order (IMSI, its own F-TEID, that of the P-GW, the bearer context), not the loop over any list.
- Conn.Session.PassMessageTo: a queue that is full stays full until the timeout, since handlers do not overlap; in the source a receiver may make room within it.
- `net.IP` parsing and printing, interface names, `*_deprecated.go`, `Must*`, `String`, name tables and cause constants.
- v1 PCO, v0 APN, GUTI, S103 forwarding info and AUTN, whose two sides are not both there or do not meet.
- IESlots.Build: the 39 (and 13) named fields of the messages are places in a table of types, in the order the source writes them; the message objects hold that table.
- TftTemplate.TrafficFlowTemplate: filters, components and parameters are values, not objects shared by reference, and nil entries put into the fields after construction are not modelled.
- TftTemplate.TrafficFlowTemplate.UnmarshalBinary: does not say which fields a failure leaves set.
- IEObject.IE.Add: nil arguments are not modelled; an IE is never made its own descendant.
- Location.MarshalFields: always into a fresh buffer of the announced length, with flags set from the parts that are there, as the constructor does; the eight parts are one table instead of eight structures.
- UPlane.UPlaneConn.Receive: packets that are not relayed go to handlers that are not modelled; the times stored with TEIDs are never read.
