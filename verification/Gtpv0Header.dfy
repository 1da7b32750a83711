/** The 20-octet GTPv0 header. */
module Gtpv0Header {
  import opened Octets

  datatype Error = TooShortToParse | TooShortToMarshal

  datatype Header = Header(
    flags: byte, typ: byte, length: uint16, sequence: uint16, sndcp: byte, flowLabel: uint16, tid: uint64,
    payload: seq<byte>)

  function PutUint64(v: uint64): (b: seq<byte>)
    ensures |b| == 8
  {
    PutUint32(v / 0x1_0000_0000) + PutUint32(v % 0x1_0000_0000)
  }

  function Uint64(b: seq<byte>): uint64
    requires |b| == 8
  {
    Uint32(b[..4]) as int * 0x1_0000_0000 + Uint32(b[4..]) as int
  }

  lemma Uint64Inverse(v: uint64, b: seq<byte>)
    requires |b| == 8
    ensures Uint64(PutUint64(v)) == v
    ensures PutUint64(Uint64(b)) == b
  {
    var hi, lo := b[..4], b[4..];
    GetPut(v, v / 0x1_0000_0000, v % 0x1_0000_0000);
    PutGet(Uint32(hi), Uint32(lo));
    Uint32Inverse(0, hi);
    Uint32Inverse(0, lo);
    assert b == hi + lo;
  }

  lemma GetPut(v: uint64, hi: uint32, lo: uint32)
    requires v == hi as int * 0x1_0000_0000 + lo as int
    ensures Uint64(PutUint32(hi) + PutUint32(lo)) == v
  {
    var b := PutUint32(hi) + PutUint32(lo);
    assert b[..4] == PutUint32(hi) && b[4..] == PutUint32(lo);
    Uint32Inverse(hi, b[..4]);
    Uint32Inverse(lo, b[4..]);
  }

  lemma PutGet(hi: uint32, lo: uint32)
    ensures PutUint64(hi as int * 0x1_0000_0000 + lo as int) == PutUint32(hi) + PutUint32(lo)
  {
  }

  function New(flags: byte, typ: byte, sequence: uint16, flowLabel: uint16, tid: uint64): Header {
    Header(flags, typ, 0, sequence, 0xff, flowLabel, tid, [])
  }

  /** `MarshalLen` */
  function Len(h: Header): nat {
    20 + |h.payload|
  }

  function SetLength(h: Header): Header {
    h.(length := |h.payload| % 0x1_0000)
  }

  /** The SNDCP number goes into octet 9 of the message, before three octets of
      ones. */
  function Encode(h: Header): (b: seq<byte>)
    ensures |b| == Len(h)
  {
    [h.flags, h.typ] + PutUint16(h.length) + PutUint16(h.sequence) + PutUint16(h.flowLabel)
    + [h.sndcp, 0xff, 0xff, 0xff] + PutUint64(h.tid) + h.payload
  }

  /** The SNDCP number is taken from octet 10.  11 to 19 octets pass the length
      check and are then read beyond their end. */
  function Parse(b: seq<byte>): Outcome<Header, Error> {
    if |b| < 11 then Fail(TooShortToParse)
    else if |b| < 20 then Panic
    else
      var length := Uint16(b[2..4]);
      var end := (20 + length as int) % 0x1_0000;
      if length as int + 20 == |b| && end < 20 then Panic
      else
        var payload := if length as int + 20 != |b| then b[20..] else b[20..end];
        Done(Header(b[0], b[1], length, Uint16(b[4..6]), b[9], Uint16(b[6..8]), Uint64(b[12..20]), payload))
  }

  /** A header comes back from the wire exactly when its SNDCP number is 255, the
      only one the parser ever sees, and its payload is not announced with a
      16-bit end that wraps. */
  lemma SurvivesIff(h: Header)
    ensures Parse(Encode(h)) == Done(h) <==> h.sndcp == 0xff && (h.length as int != |h.payload| || |h.payload| <= 65515)
  {
    var b := Encode(h);
    EncodedParts(h);
    if h.length as int == |h.payload| <= 65515 {
      assert b[20..|b|] == b[20..];
    }
  }

  /** With the length set from the payload, the payload comes back unless its
      16-bit end wraps, in which case slicing it out of range panics. */
  lemma KeptIff(h: Header)
    requires h == SetLength(h)
    ensures if 65515 < |h.payload| < 0x1_0000 then Parse(Encode(h)) == Panic
      else Parse(Encode(h)).Done? && Parse(Encode(h)).value.payload == h.payload
  {
    EncodedParts(h);
    SurvivesIff(h.(sndcp := 0xff));
    EncodedParts(h.(sndcp := 0xff));
    ParseForgetsSndcp(h);
  }

  /** The SNDCP number that is sent is not the one that is read. */
  lemma ParseForgetsSndcp(h: Header)
    ensures Parse(Encode(h)) == Parse(Encode(h.(sndcp := 0xff)))
    ensures Parse(Encode(h)).Done? && (h.length as int != |h.payload| || |h.payload| <= 65515)
      ==> Parse(Encode(h)).value == h.(sndcp := 0xff)
  {
    var b, c := Encode(h), Encode(h.(sndcp := 0xff));
    EncodedParts(h);
    EncodedParts(h.(sndcp := 0xff));
    SurvivesIff(h.(sndcp := 0xff));
    var end := (20 + h.length as int) % 0x1_0000;
    if h.length as int + 20 == |b| && end >= 20 {
      assert b[20..end] == c[20..end];
    }
  }

  lemma EncodedParts(h: Header)
    ensures var b := Encode(h);
      && b[0] == h.flags && b[1] == h.typ && b[9] == 0xff && Uint16(b[2..4]) == h.length
      && Uint16(b[4..6]) == h.sequence && Uint16(b[6..8]) == h.flowLabel && Uint64(b[12..20]) == h.tid
      && b[20..] == h.payload
  {
    var b := Encode(h);
    assert b[2..4] == PutUint16(h.length) && b[4..6] == PutUint16(h.sequence) && b[6..8] == PutUint16(h.flowLabel);
    assert b[12..20] == PutUint64(h.tid);
    Uint16Inverse(h.length, b[2..4]);
    Uint16Inverse(h.sequence, b[4..6]);
    Uint16Inverse(h.flowLabel, b[6..8]);
    Uint64Inverse(h.tid, b[12..20]);
  }

  /** Any accepted header has SNDCP and payload as the wire has them. */
  lemma ParsedParts(b: seq<byte>)
    requires Parse(b).Done?
    ensures Parse(b).value.payload == b[20..] && |b| >= 20
  {
    if Uint16(b[2..4]) as int + 20 == |b| {
      assert b[20..|b|] == b[20..];
    }
  }

  method MarshalTo(h: Header, b: array<byte>) returns (err: Option<Error>)
    modifies b
    ensures err == if b.Length < Len(h) then Some(TooShortToMarshal) else None
    ensures b[..] == if err.Some? then old(b[..]) else Overlay(old(b[..]), 0, Encode(h))
  {
    if b.Length < Len(h) {
      return Some(TooShortToMarshal);
    }
    var head := [h.flags, h.typ] + PutUint16(h.length) + PutUint16(h.sequence) + PutUint16(h.flowLabel)
      + [h.sndcp, 0xff, 0xff, 0xff] + PutUint64(h.tid);
    OverlayAppend(b[..], 0, head, h.payload);
    Copy(b, 0, head);
    Copy(b, 20, h.payload);
    err := None;
  }

  /* ---- by octet ---- */

  /** Every octet of a header. */
  lemma HeaderOctets(h: Header)
    ensures var hi, lo := h.tid / 0x1_0000_0000, h.tid % 0x1_0000_0000;
      Encode(h) ==
        [h.flags, h.typ, h.length / 0x100, h.length % 0x100, h.sequence / 0x100, h.sequence % 0x100,
         h.flowLabel / 0x100, h.flowLabel % 0x100, h.sndcp, 0xff, 0xff, 0xff,
         hi / 0x100_0000, hi / 0x1_0000 % 0x100, hi / 0x100 % 0x100, hi % 0x100,
         lo / 0x100_0000, lo / 0x1_0000 % 0x100, lo / 0x100 % 0x100, lo % 0x100]
        + h.payload
  {
    BigEndian(h.tid / 0x1_0000_0000, [0, 0, 0, 0]);
    BigEndian(h.tid % 0x1_0000_0000, [0, 0, 0, 0]);
  }

  /** A new header: no payload yet, and an SNDCP number of 255. */
  lemma NewOctets(flags: byte, typ: byte, sequence: uint16, flowLabel: uint16, tid: uint64)
    ensures Encode(New(flags, typ, sequence, flowLabel, tid)) ==
      [flags, typ, 0, 0, sequence / 0x100, sequence % 0x100, flowLabel / 0x100, flowLabel % 0x100,
       0xff, 0xff, 0xff, 0xff] + PutUint64(tid)
  {
    assert PutUint64(tid) + [] == PutUint64(tid);
  }

  /** What is read of the first 20 octets, and every way in which that fails. */
  lemma ParsedOctets(b: seq<byte>)
    ensures Parse(b) == Fail(TooShortToParse) <==> |b| < 11
    ensures Parse(b) == Panic <==>
      11 <= |b| < 20 || (|b| >= 65536 && |b| == 20 + b[2] as int * 0x100 + b[3] as int)
    ensures Parse(b).Done? ==>
      var h := Parse(b).value;
      && h.flags == b[0] && h.typ == b[1] && h.length as int == b[2] as int * 0x100 + b[3] as int
      && h.sequence as int == b[4] as int * 0x100 + b[5] as int
      && h.flowLabel as int == b[6] as int * 0x100 + b[7] as int
      && h.sndcp == b[9] && PutUint64(h.tid) == b[12..20] && h.payload == b[20..]
  {
    if Parse(b).Done? {
      ParsedParts(b);
      Uint64Inverse(0, b[12..20]);
    }
  }
}
