/** The GTPv1 header and the T-PDU that carries user traffic (section 5.1 of
    TS 29.281): the octets, the parser with its 16-bit comparisons, and the
    in-place TEID rewrite on which relaying rests. */
module GtpuHeader {
  import opened Octets

  datatype Error = TooShortToParse | InvalidLength | InvalidMessageType | TooShortToMarshal

  datatype Header = Header(flags: byte, typ: byte, length: uint16, teid: uint32, sequence: uint16, payload: seq<byte>)

  const TPDU: byte := 255

  predicate HasSequence(flags: byte) {
    flags / 2 % 2 == 1
  }

  function Offset(flags: byte): nat {
    if HasSequence(flags) then 12 else 8
  }

  /** `MarshalLen` */
  function Len(h: Header): nat {
    |h.payload| + Offset(h.flags)
  }

  /** `NewHeader`, whose length field wraps at 16 bits. */
  function New(flags: byte, typ: byte, teid: uint32, sequence: uint16, payload: seq<byte>): Header {
    Header(flags, typ, (|payload| + Offset(flags) - 8) % 0x1_0000, teid, sequence, payload)
  }

  /** `SetLength` */
  function SetLength(h: Header): Header {
    h.(length := (Len(h) - 8) % 0x1_0000)
  }

  function NewTPDU(teid: uint32, payload: seq<byte>): Header {
    New(0x30, TPDU, teid, 0, payload)
  }

  function NewTPDUWithSequence(teid: uint32, sequence: uint16, payload: seq<byte>): Header {
    New(0x32, TPDU, teid, sequence, payload)
  }

  /** The octets `MarshalTo` leaves.  With a sequence number it skips two octets,
      which keep what was in the buffer (`spare`). */
  function Encode(h: Header, spare: seq<byte>): (b: seq<byte>)
    requires |spare| == 2
    ensures |b| == Len(h)
  {
    [h.flags, h.typ] + PutUint16(h.length) + PutUint32(h.teid)
    + (if HasSequence(h.flags) then PutUint16(h.sequence) + spare else [])
    + h.payload
  }

  /** A header flagged to have a sequence number needs 12 octets; with exactly 11
      the slice of the payload is out of range. */
  function Parse(b: seq<byte>): Outcome<Header, Error> {
    if |b| < 11 then Fail(TooShortToParse)
    else
      var length, offset := Uint16(b[2..4]), Offset(b[0]);
      var sequence := if HasSequence(b[0]) then Uint16(b[8..10]) else 0;
      var h := Header(b[0], b[1], length, Uint32(b[4..8]), sequence, []);
      if HasSequence(b[0]) && length < 4 then Fail(TooShortToParse)
      else if length as int + 8 > |b| then
        if offset > |b| then Panic else Done(h.(payload := b[offset..]))
      else
        var end := (length as int + 8) % 0x1_0000;
        if end >= offset then Done(h.(payload := b[offset..end])) else Fail(InvalidLength)
  }

  function Decapsulate(b: seq<byte>): Outcome<(uint32, seq<byte>), Error> {
    match Parse(b)
    case Fail(e) => Fail(e)
    case Panic => Panic
    case Done(h) => if h.typ != TPDU then Fail(InvalidMessageType) else Done((h.teid, h.payload))
  }

  /** `PutUint32(raw[4:8], teid)` */
  function Rewrite(b: seq<byte>, teid: uint32): (r: seq<byte>)
    requires 8 <= |b|
    ensures |r| == |b|
  {
    Overlay(b, 4, PutUint32(teid))
  }

  /** Which headers come back from the wire: those of at least 11 octets whose
      length field either claims more than is there, or claims exactly what is
      there and does not push the 16-bit end of the payload past 65535, and which
      hold no sequence number unless flagged to.  The parser never looks at the
      two spare octets. */
  lemma SurvivesIff(h: Header, spare: seq<byte>)
    requires |spare| == 2
    ensures Parse(Encode(h, spare)) == Done(h) <==>
      && 11 <= Len(h)
      && (h.length as int + 8 > Len(h) || h.length as int + 8 == Len(h) < 0x1_0000)
      && (HasSequence(h.flags) || h.sequence == 0)
  {
    var b := Encode(h, spare);
    EncodedParts(h, spare);
    var end := (h.length as int + 8) % 0x1_0000;
    if Len(h) >= 11 && h.length as int + 8 <= Len(h) && end >= Offset(h.flags) {
      assert |b[Offset(h.flags)..end]| == |h.payload| <==> end == Len(h);
      assert end == Len(h) ==> b[Offset(h.flags)..end] == b[Offset(h.flags)..];
    }
  }

  lemma EncodedParts(h: Header, spare: seq<byte>)
    requires |spare| == 2
    ensures var b := Encode(h, spare);
      && b[0] == h.flags && b[1] == h.typ && Uint16(b[2..4]) == h.length && Uint32(b[4..8]) == h.teid
      && (HasSequence(h.flags) ==> Uint16(b[8..10]) == h.sequence)
      && b[Offset(h.flags)..] == h.payload
  {
    var b := Encode(h, spare);
    assert b[2..4] == PutUint16(h.length) && b[4..8] == PutUint32(h.teid);
    assert HasSequence(h.flags) ==> b[8..10] == PutUint16(h.sequence);
    Uint16Inverse(h.length, PutUint16(h.length));
    Uint16Inverse(h.sequence, PutUint16(h.sequence));
    Uint32Inverse(h.teid, PutUint32(h.teid));
  }

  /** What is encapsulated without a sequence number is decapsulated again
      exactly for payloads of 3 to 65527 octets. */
  lemma EncapsulateIff(teid: uint32, payload: seq<byte>)
    ensures Decapsulate(Encode(NewTPDU(teid, payload), [0, 0])) == Done((teid, payload))
      <==> 3 <= |payload| <= 65527
  {
    TPDUIff(NewTPDU(teid, payload), [0, 0]);
  }

  /** With a sequence number, exactly for payloads of up to 65523 octets. */
  lemma EncapsulateWithSequenceIff(teid: uint32, sequence: uint16, payload: seq<byte>)
    ensures Decapsulate(Encode(NewTPDUWithSequence(teid, sequence, payload), [0, 0])) == Done((teid, payload))
      <==> |payload| <= 65523
  {
    TPDUIff(NewTPDUWithSequence(teid, sequence, payload), [0, 0]);
  }

  lemma TPDUIff(h: Header, spare: seq<byte>)
    requires |spare| == 2 && h.typ == TPDU && h == SetLength(h)
    requires HasSequence(h.flags) || h.sequence == 0
    ensures Decapsulate(Encode(h, spare)) == Done((h.teid, h.payload)) <==> 11 <= Len(h) < 0x1_0000
  {
    SurvivesIff(h, spare);
    EncodedParts(h, spare);
  }

  lemma FitsIsKept(h: Header, spare: seq<byte>)
    requires |spare| == 2 && h == SetLength(h) && 11 <= Len(h) < 0x1_0000
    ensures Parse(Encode(h, spare)).Done? && Parse(Encode(h, spare)).value.payload == h.payload
  {
    var g := if HasSequence(h.flags) then h else h.(sequence := 0);
    SurvivesIff(g, spare);
    assert Encode(g, spare) == Encode(h, spare);
  }

  /** With the length set from a payload that does not fit, parsing either fails
      or cuts the payload. */
  lemma TooLongIsCut(h: Header, spare: seq<byte>)
    requires |spare| == 2 && h == SetLength(h) && Len(h) >= 0x1_0000
    ensures Parse(Encode(h, spare)).Done? ==> |Parse(Encode(h, spare)).value.payload| < |h.payload|
  {
    EncodedParts(h, spare);
  }

  /** Rewriting the TEID in a marshalled packet is marshalling the packet with
      the new TEID. */
  lemma RewriteIsRemarshal(h: Header, spare: seq<byte>, teid: uint32)
    requires |spare| == 2
    ensures Rewrite(Encode(h, spare), teid) == Encode(h.(teid := teid), spare)
  {
    var b, c := Encode(h, spare), Encode(h.(teid := teid), spare);
    assert b[..4] == c[..4] && b[8..] == c[8..];
    assert c[4..8] == PutUint32(teid);
    assert c == c[..4] + c[4..8] + c[8..];
  }

  function WithTEID(r: Outcome<Header, Error>, teid: uint32): Outcome<Header, Error> {
    match r
    case Done(h) => Done(h.(teid := teid))
    case Fail(e) => Fail(e)
    case Panic => Panic
  }

  /** On any octets at all, the rewrite changes the parsed TEID and nothing
      else, not even whether and how parsing fails. */
  lemma RewriteThenParse(b: seq<byte>, teid: uint32)
    requires 8 <= |b|
    ensures Parse(Rewrite(b, teid)) == WithTEID(Parse(b), teid)
  {
    var r := Rewrite(b, teid);
    Uint32Inverse(teid, PutUint32(teid));
    assert r[4..8] == PutUint32(teid);
    assert r[..4] == b[..4] && r[8..] == b[8..];
    assert r[0] == r[..4][0] && r[1] == r[..4][1] && b[0] == b[..4][0] && b[1] == b[..4][1];
    assert r[2..4] == r[..4][2..] && b[2..4] == b[..4][2..];
    if |b| >= 11 {
      assert r[8..10] == r[8..][..2] && b[8..10] == b[8..][..2];
      forall i, j | 8 <= i <= j <= |b| ensures r[i..j] == b[i..j] {
        assert r[i..j] == r[8..][i - 8..j - 8];
        assert b[i..j] == b[8..][i - 8..j - 8];
      }
      forall i | 8 <= i <= |b| ensures r[i..] == b[i..] {
        assert r[i..] == r[i..|b|] && b[i..] == b[i..|b|];
      }
    }
  }

  /** The buffer the receive loop reads a packet into. */
  const BUFFER := 1500

  /** What the loop gets of a packet: the rest of a longer one is lost. */
  function Received(b: seq<byte>): (r: seq<byte>)
    ensures |r| == if |b| <= BUFFER then |b| else BUFFER
  {
    First(b, BUFFER)
  }

  function First(b: seq<byte>, n: nat): (r: seq<byte>)
    ensures |r| == if |b| <= n then |b| else n
    ensures r <= b
  {
    if |b| <= n then b else b[..n]
  }

  /** A packet that parses still does when it was cut by the buffer: its payload
      then ends with the buffer, if it reached beyond. */
  lemma ReceivedParse(b: seq<byte>)
    requires Parse(b).Done?
    ensures Parse(Received(b)) == if |b| <= BUFFER then Parse(b)
      else Done(Parse(b).value.(payload := First(Parse(b).value.payload, BUFFER - Offset(b[0]))))
  {
    if |b| > BUFFER {
      var r, o := Received(b), Offset(b[0]);
      SameFront(b, r);
      var h := Parse(b).value;
      if h.length as int + 8 > BUFFER {
        assert r[o..] == First(h.payload, BUFFER - o);
      } else {
        assert r[o..h.length + 8] == b[o..h.length + 8];
      }
    }
  }

  lemma SameFront(b: seq<byte>, r: seq<byte>)
    requires 12 <= |r| && r <= b
    ensures r[0] == b[0] && r[1] == b[1] && r[2..4] == b[2..4] && r[4..8] == b[4..8] && r[8..10] == b[8..10]
  {
    assert r == b[..|r|];
  }

  /** A packet after one relay: read, rewritten and sent on. */
  function Hop(b: seq<byte>, teid: uint32): (r: seq<byte>)
    requires 8 <= |b|
    ensures 8 <= |r| <= BUFFER
  {
    Rewrite(Received(b), teid)
  }

  /** A packet after one relay for each of `teids`. */
  function Hops(b: seq<byte>, teids: seq<uint32>): (r: seq<byte>)
    requires 8 <= |b|
    decreases |teids|
  {
    if teids == [] then b else Hops(Hop(b, teids[0]), teids[1..])
  }

  /** Several relays are as one with the last TEID. */
  lemma {:induction false} HopsAreOne(b: seq<byte>, teids: seq<uint32>)
    requires 8 <= |b| && teids != []
    ensures Hops(b, teids) == Hop(b, teids[|teids| - 1])
    decreases |teids|
  {
    if |teids| > 1 {
      HopsAreOne(Hop(b, teids[0]), teids[1..]);
      RewriteTwice(Received(b), teids[0], teids[|teids| - 1]);
    }
  }

  lemma RewriteTwice(b: seq<byte>, t: uint32, u: uint32)
    requires 8 <= |b|
    ensures Rewrite(Rewrite(b, t), u) == Rewrite(b, u)
  {
  }

  /** Decapsulation after a relay: the relay's TEID, and what decapsulation of
      the packet as it was read gives. */
  lemma DecapsulateHop(b: seq<byte>, teid: uint32)
    requires 8 <= |b|
    ensures Decapsulate(Hop(b, teid)) == Readdressed(Decapsulate(Received(b)), teid)
  {
    RewriteThenParse(Received(b), teid);
  }

  /** The result of a decapsulation with another TEID. */
  function Readdressed(r: Outcome<(uint32, seq<byte>), Error>, teid: uint32): Outcome<(uint32, seq<byte>), Error> {
    match r
    case Done(p) => Done((teid, p.1))
    case Fail(e) => Fail(e)
    case Panic => Panic
  }

  function LastOf(teid: uint32, teids: seq<uint32>): uint32 {
    if teids == [] then teid else teids[|teids| - 1]
  }

  /** Decapsulation at the end of any number of relays yields the TEID of the
      last one and the original payload exactly for payloads of 3 to 65527
      octets without a relay, and of 3 to 1492 with one or more. */
  lemma DecapsulateAfterHopsIff(teid: uint32, payload: seq<byte>, teids: seq<uint32>)
    ensures Decapsulate(Hops(Encode(NewTPDU(teid, payload), [0, 0]), teids)) == Done((LastOf(teid, teids), payload))
      <==> 3 <= |payload| <= if teids == [] then 65527 else BUFFER - 8
  {
    var b := Encode(NewTPDU(teid, payload), [0, 0]);
    EncapsulateIff(teid, payload);
    if teids != [] {
      HopsAreOne(b, teids);
      DecapsulateHop(b, LastOf(teid, teids));
      if |payload| <= BUFFER - 8 {
        assert Received(b) == b;
        TPDUAddress(teid, payload);
      } else {
        LongPayloadIsCut(teid, payload, teids);
      }
    }
  }

  lemma TPDUAddress(teid: uint32, payload: seq<byte>)
    ensures var r := Decapsulate(Encode(NewTPDU(teid, payload), [0, 0])); r.Done? ==> r.value.0 == teid
  {
    EncodedParts(NewTPDU(teid, payload), [0, 0]);
  }

  /** The octets left of a payload that the buffer cuts; fewer than fit into it
      when the length field had wrapped. */
  function LeftOf(payload: seq<byte>): seq<byte> {
    var announced := |payload| % 0x1_0000;
    First(payload, if announced < BUFFER - 8 then announced else BUFFER - 8)
  }

  /** What is lost above that, after one relay or more. */
  lemma LongPayloadIsCut(teid: uint32, payload: seq<byte>, teids: seq<uint32>)
    requires teids != [] && |payload| > BUFFER - 8
    ensures Decapsulate(Hops(Encode(NewTPDU(teid, payload), [0, 0]), teids))
         == Done((LastOf(teid, teids), LeftOf(payload)))
  {
    var b := Encode(NewTPDU(teid, payload), [0, 0]);
    HopsAreOne(b, teids);
    DecapsulateHop(b, LastOf(teid, teids));
    EncodedParts(NewTPDU(teid, payload), [0, 0]);
    ReadLong(b, payload);
  }

  lemma ReadLong(b: seq<byte>, payload: seq<byte>)
    requires |b| == |payload| + 8 > BUFFER && b[0] == 0x30 && b[1] == TPDU && b[8..] == payload
    requires Uint16(b[2..4]) as int == |payload| % 0x1_0000
    ensures Decapsulate(Received(b)) == Done((Uint32(b[4..8]), LeftOf(payload)))
  {
    var r, length := Received(b), |payload| % 0x1_0000;
    SameFront(b, r);
    assert r[8..] == payload[..BUFFER - 8];
    if length + 8 <= BUFFER {
      assert r[8..length + 8] == payload[..length];
    }
  }

  /** The smallest payload that does not pass a relay: 1493 octets lose the last. */
  lemma OneOctetTooMany(teid: uint32, relayTEID: uint32)
    ensures Decapsulate(Encode(NewTPDU(teid, Zeros(1493)), [0, 0])) == Done((teid, Zeros(1493)))
    ensures Decapsulate(Hops(Encode(NewTPDU(teid, Zeros(1493)), [0, 0]), [relayTEID])) == Done((relayTEID, Zeros(1492)))
  {
    EncapsulateIff(teid, Zeros(1493));
    LongPayloadIsCut(teid, Zeros(1493), [relayTEID]);
    assert First(Zeros(1493), 1492) == Zeros(1492);
  }

  /** `MarshalTo` into a buffer. */
  method MarshalTo(h: Header, b: array<byte>) returns (err: Option<Error>)
    modifies b
    ensures err == if b.Length < Len(h) then Some(TooShortToMarshal) else None
    ensures b[..] == if err.Some? then old(b[..])
      else Overlay(old(b[..]), 0, Encode(h, if HasSequence(h.flags) then old(b[10..12]) else [0, 0]))
  {
    if b.Length < Len(h) {
      return Some(TooShortToMarshal);
    }
    ghost var was := b[..];
    var head := [h.flags, h.typ] + PutUint16(h.length) + PutUint32(h.teid);
    var offset := 8;
    ghost var written := head;
    Copy(b, 0, head);
    if HasSequence(h.flags) {
      written := MarshalSequence(h.sequence, head, b, was);
      offset := 12;
    }
    OverlayAppend(was, 0, written, h.payload);
    Copy(b, offset, h.payload);
    assert head + [] == head;
    err := None;
  }

  /** The sequence number goes behind the fixed part; two octets are skipped. */
  method MarshalSequence(sequence: uint16, ghost head: seq<byte>, b: array<byte>, ghost was: seq<byte>)
    returns (ghost written: seq<byte>)
    requires |head| == 8 && 12 <= b.Length == |was| && b[..] == Overlay(was, 0, head)
    modifies b
    ensures written == head + (PutUint16(sequence) + was[10..12]) && b[..] == Overlay(was, 0, written)
  {
    var data := PutUint16(sequence);
    OverlayAppend(was, 0, head, data);
    Copy(b, 8, data);
    OverlayKeeps(was, 0, head + data, was[10..12]);
    written := head + data + was[10..12];
    assert written == head + (data + was[10..12]);
  }

  /* ---- by octet ---- */

  /** Every octet of a header: flag 2 of the first one puts four octets, of which
      two are written, before the payload. */
  lemma HeaderOctets(h: Header, spare: seq<byte>)
    requires |spare| == 2
    ensures Encode(h, spare) ==
      [h.flags, h.typ, h.length / 0x100, h.length % 0x100,
       h.teid / 0x100_0000, h.teid / 0x1_0000 % 0x100, h.teid / 0x100 % 0x100, h.teid % 0x100]
      + (if h.flags / 2 % 2 == 1 then [h.sequence / 0x100, h.sequence % 0x100, spare[0], spare[1]] else [])
      + h.payload
  {
    BigEndian(h.teid, [0, 0, 0, 0]);
    assert PutUint16(h.sequence) + spare == [h.sequence / 0x100, h.sequence % 0x100, spare[0], spare[1]];
  }

  /** The octets of a T-PDU. */
  lemma TPDUOctets(teid: uint32, sequence: uint16, payload: seq<byte>)
    ensures Encode(NewTPDU(teid, payload), [0, 0]) ==
      [0x30, 255, |payload| / 0x100 % 0x100, |payload| % 0x100] + PutUint32(teid) + payload
    ensures Encode(NewTPDUWithSequence(teid, sequence, payload), [0, 0]) ==
      [0x32, 255, (|payload| + 4) / 0x100 % 0x100, (|payload| + 4) % 0x100] + PutUint32(teid)
      + [sequence / 0x100, sequence % 0x100, 0, 0] + payload
  {
    LowHalf(|payload|, |payload| / 0x1_0000, |payload| % 0x1_0000);
    LowHalf(|payload| + 4, (|payload| + 4) / 0x1_0000, (|payload| + 4) % 0x1_0000);
  }

  /** Every way in which parsing does not succeed.  A length of 65528 or more
      makes the end of the payload wrap to below its start. */
  lemma ParseFailsIff(b: seq<byte>)
    requires |b| >= 4
    ensures var sequence, length := b[0] / 2 % 2 == 1, b[2] as int * 0x100 + b[3] as int;
      && (Parse(b) == Fail(TooShortToParse) <==> |b| < 11 || (sequence && length < 4))
      && (Parse(b) == Panic <==> |b| == 11 && sequence && length >= 4)
      && (Parse(b) == Fail(InvalidLength) <==> 65528 <= length <= |b| - 8)
  {
  }

  /** What is read otherwise. */
  lemma ParsedOctets(b: seq<byte>)
    requires Parse(b).Done?
    ensures |b| >= 11
    ensures var h, sequence, end := Parse(b).value, b[0] / 2 % 2 == 1, 8 + b[2] as int * 0x100 + b[3] as int;
      var offset := if sequence then 12 else 8;
      && h.flags == b[0] && h.typ == b[1] && h.length as int == end - 8
      && PutUint32(h.teid) == b[4..8]
      && h.sequence as int == (if sequence then b[8] as int * 0x100 + b[9] as int else 0)
      && offset <= |b| && (end <= |b| ==> offset <= end)
      && h.payload == if end > |b| then b[offset..] else b[offset..end]
  {
    Uint32Inverse(0, b[4..8]);
  }

  /** Decapsulation is for type 255 only. */
  lemma DecapsulateByType(b: seq<byte>)
    requires Parse(b).Done?
    ensures Decapsulate(b) ==
      if b[1] == 255 then Done((Parse(b).value.teid, Parse(b).value.payload)) else Fail(InvalidMessageType)
  {
  }
}
