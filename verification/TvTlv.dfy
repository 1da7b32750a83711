/** The table-driven information elements of GTPv0 and GTPv1: type-value below
    128, type-length-value from 128 (section 7.7 of TS 29.060).  The two
    versions share all code and differ in the table of value lengths. */
module TvTlv {
  import opened Octets

  datatype Version = V0 | V1

  datatype Error = TooShortToParse | InvalidLength | TooShortToMarshal

  datatype IE = IE(typ: byte, length: uint16, payload: seq<byte>)

  /** The fixed value length of a type-value IE, where the version knows one. */
  function ValueLength(v: Version, typ: byte): Option<nat> {
    if typ == 0 then Some(0)
    else if typ in {1, 8, 11, 13, 14, 15, 19} then Some(1)
    else if typ == 12 then Some(3)
    else if typ in {4, 5, 127} then Some(4)
    else if typ == 3 then Some(6)
    else if typ == 2 then Some(8)
    else if typ == 9 then Some(28)
    else
      match v
      case V0 => if typ in {16, 17} then Some(2) else if typ in {6, 18} then Some(3) else None
      case V1 =>
        if typ in {20, 21, 23, 24, 29} then Some(1)
        else if typ in {25, 26, 27, 28} then Some(2)
        else if typ in {16, 17, 18} then Some(4)
        else if typ == 22 then Some(9)
        else None
  }

  predicate IsTV(i: IE) {
    i.typ < 0x80
  }

  /** `MarshalLen`: the table first, whatever the payload. */
  function Len(v: Version, i: IE): (n: nat)
    ensures 1 <= n && (!IsTV(i) ==> 3 <= n)
  {
    match ValueLength(v, i.typ)
    case Some(l) => l + 1
    case None => if IsTV(i) then 1 + |i.payload| else 3 + |i.payload|
  }

  /** The octets `MarshalTo` writes.  A payload longer than the table allows is
      cut; one that is shorter leaves the rest of the buffer as it was. */
  function Written(v: Version, i: IE): (b: seq<byte>)
    ensures 1 <= |b| <= Len(v, i)
  {
    var head := [i.typ] + if IsTV(i) then [] else PutUint16(i.length);
    var room := Len(v, i) - |head|;
    head + if |i.payload| <= room then i.payload else i.payload[..room]
  }

  /** The octets in a buffer that was all zeros. */
  function Encode(v: Version, i: IE): (b: seq<byte>)
    ensures |b| == Len(v, i)
  {
    var w := Written(v, i);
    w + Zeros(Len(v, i) - |w|)
  }

  function LenAll(v: Version, ies: seq<IE>): nat {
    if ies == [] then 0 else Len(v, ies[0]) + LenAll(v, ies[1..])
  }

  function EncodeAll(v: Version, ies: seq<IE>): (b: seq<byte>)
    ensures |b| == LenAll(v, ies)
  {
    if ies == [] then [] else Encode(v, ies[0]) + EncodeAll(v, ies[1..])
  }

  /** A type-value type the table does not know takes one octet and no value. */
  function Parse(v: Version, b: seq<byte>): (r: Result<IE, Error>)
    ensures r.Ok? ==> Len(v, r.value) <= |b|
  {
    if |b| < 2 then Err(TooShortToParse)
    else if b[0] < 0x80 then
      var n := Len(v, IE(b[0], 0, []));
      if n > |b| then Err(InvalidLength) else Ok(IE(b[0], 0, b[1..n]))
    else if |b| < 3 then Err(TooShortToParse)
    else
      var length := Uint16(b[1..3]);
      if length as int + 3 > |b| then Err(InvalidLength)
      else Ok(IE(b[0], length, b[3..3 + length]))
  }

  function ParseAll(v: Version, b: seq<byte>): Result<seq<IE>, Error>
    decreases |b|
  {
    if |b| == 0 then Ok([])
    else
      match Parse(v, b)
      case Err(e) => Err(e)
      case Ok(i) =>
        match ParseAll(v, b[Len(v, i)..])
        case Err(e) => Err(e)
        case Ok(ies) => Ok([i] + ies)
  }

  /** The payload has the size its table entry or its length field announces. */
  predicate WellFormed(v: Version, i: IE) {
    if IsTV(i) then i.length == 0 && |i.payload| == ValueLength(v, i.typ).GetOr(0)
    else i.length as int == |i.payload|
  }

  predicate AllWellFormed(v: Version, ies: seq<IE>) {
    forall i :: i in ies ==> WellFormed(v, i)
  }

  /** The parser wants two octets at a time, so nothing may end in an IE of
      one. */
  predicate EndsLong(v: Version, ies: seq<IE>) {
    ies != [] ==> Len(v, ies[|ies| - 1]) >= 2
  }

  /** The single-IE parser, stated without it: it accepts at least two octets
      and yields the one well-formed IE whose encoding they begin with. */
  lemma ParseCharacterised(v: Version, b: seq<byte>, i: IE)
    ensures Parse(v, b) == Ok(i) <==> 2 <= |b| && WellFormed(v, i) && Encode(v, i) <= b
  {
    if Parse(v, b) == Ok(i) {
      ParseIsExact(v, b);
    }
    if 2 <= |b| && WellFormed(v, i) && Encode(v, i) <= b {
      EncodeThenParse(v, i, b);
    }
  }

  /** `New`: no length for a type in the table, otherwise the payload size at 16
      bits. */
  function New(v: Version, typ: byte, payload: seq<byte>): IE {
    IE(typ, if ValueLength(v, typ).Some? then 0 else |payload| % 0x1_0000, payload)
  }

  /** Which freshly made IEs a peer reads back: those with exactly the table's
      (non-empty) value, and those of a length-carrying type whose payload fits
      16 bits.  An unknown type-value IE never survives on its own. */
  lemma NewSurvivesIff(v: Version, typ: byte, payload: seq<byte>)
    ensures var i := New(v, typ, payload);
      Parse(v, Encode(v, i)) == Ok(i) <==>
        if typ < 0x80 then payload != [] && ValueLength(v, typ) == Some(|payload|) else |payload| < 0x1_0000
  {
    var i := New(v, typ, payload);
    assert Encode(v, i) <= Encode(v, i);
    ParseCharacterised(v, Encode(v, i), i);
  }

  lemma EncodeWellFormed(v: Version, i: IE)
    requires WellFormed(v, i)
    ensures Encode(v, i) == Written(v, i)
    ensures Encode(v, i) == [i.typ] + (if IsTV(i) then [] else PutUint16(i.length)) + i.payload
  {
  }

  /** Where the parts of a well-formed IE lie in its octets. */
  lemma EncodedLayout(v: Version, i: IE)
    requires WellFormed(v, i)
    ensures var b := Encode(v, i);
      && b[0] == i.typ
      && (IsTV(i) ==> b[1..] == i.payload)
      && (!IsTV(i) ==> |b| >= 3 && b[1] == i.length / 0x100 && b[2] == i.length % 0x100 && b[3..] == i.payload)
  {
    EncodeWellFormed(v, i);
  }

  lemma ParseIsExact(v: Version, b: seq<byte>)
    requires Parse(v, b).Ok?
    ensures WellFormed(v, Parse(v, b).value)
    ensures Encode(v, Parse(v, b).value) == b[..Len(v, Parse(v, b).value)]
  {
    var i := Parse(v, b).value;
    if !IsTV(i) {
      Uint16Inverse(i.length, b[1..3]);
      assert b[..3 + i.length] == [b[0]] + b[1..3] + b[3..3 + i.length];
    }
    EncodeWellFormed(v, i);
  }

  lemma EncodeThenParse(v: Version, i: IE, b: seq<byte>)
    requires 2 <= |b| && WellFormed(v, i) && Encode(v, i) <= b
    ensures Parse(v, b) == Ok(i)
  {
    EncodeWellFormed(v, i);
    var e := Encode(v, i);
    assert b[..|e|] == e;
    if IsTV(i) {
      assert b[1..|e|] == e[1..] == i.payload;
    } else {
      Uint16Inverse(i.length, PutUint16(i.length));
      assert b[1..3] == e[1..3] == PutUint16(i.length);
      assert b[3..|e|] == e[3..] == i.payload;
    }
  }

  /** The list parser, stated without it.  Read from left to right it is byte
      exactness on every accepted input, one-octet unknown types included; read
      from right to left it says which lists survive the wire. */
  lemma ParseAllCharacterised(v: Version, b: seq<byte>, ies: seq<IE>)
    ensures ParseAll(v, b) == Ok(ies) <==> AllWellFormed(v, ies) && EndsLong(v, ies) && EncodeAll(v, ies) == b
  {
    if ParseAll(v, b) == Ok(ies) {
      ParseAllIsExact(v, b);
    }
    if AllWellFormed(v, ies) && EndsLong(v, ies) && EncodeAll(v, ies) == b {
      EncodeThenParseAll(v, ies);
    }
  }

  lemma {:induction false} ParseAllIsExact(v: Version, b: seq<byte>)
    requires ParseAll(v, b).Ok?
    ensures AllWellFormed(v, ParseAll(v, b).value) && EndsLong(v, ParseAll(v, b).value)
    ensures EncodeAll(v, ParseAll(v, b).value) == b
    decreases |b|
  {
    if |b| != 0 {
      var i := Parse(v, b).value;
      var rest := b[Len(v, i)..];
      ParseIsExact(v, b);
      ParseAllIsExact(v, rest);
      OneMoreExact(v, b, i, rest, ParseAll(v, rest).value);
    }
  }

  lemma OneMoreExact(v: Version, b: seq<byte>, i: IE, rest: seq<byte>, ies: seq<IE>)
    requires WellFormed(v, i) && Len(v, i) <= |b| && Encode(v, i) == b[..Len(v, i)] && rest == b[Len(v, i)..]
    requires AllWellFormed(v, ies) && EndsLong(v, ies) && EncodeAll(v, ies) == rest
    requires 2 <= |b|
    ensures AllWellFormed(v, [i] + ies) && EndsLong(v, [i] + ies) && EncodeAll(v, [i] + ies) == b
  {
    assert ([i] + ies)[1..] == ies;
    assert b == b[..Len(v, i)] + rest;
  }

  lemma {:induction false} EncodeThenParseAll(v: Version, ies: seq<IE>)
    requires AllWellFormed(v, ies) && EndsLong(v, ies)
    ensures ParseAll(v, EncodeAll(v, ies)) == Ok(ies)
    ensures ies != [] ==> |EncodeAll(v, ies)| >= 2
  {
    if ies != [] {
      var i, b := ies[0], EncodeAll(v, ies);
      EncodeThenParseAll(v, ies[1..]);
      EncodeThenParse(v, i, b);
      assert b[Len(v, i)..] == EncodeAll(v, ies[1..]);
      assert [i] + ies[1..] == ies;
    }
  }

  lemma {:induction false} LenAllAppend(v: Version, xs: seq<IE>, ys: seq<IE>)
    ensures LenAll(v, xs + ys) == LenAll(v, xs) + LenAll(v, ys)
    ensures EncodeAll(v, xs + ys) == EncodeAll(v, xs) + EncodeAll(v, ys)
  {
    if xs == [] {
      assert xs + ys == ys;
    } else {
      assert (xs + ys)[1..] == xs[1..] + ys;
      LenAllAppend(v, xs[1..], ys);
    }
  }

  lemma WrittenParts(v: Version, i: IE, head: seq<byte>, data: seq<byte>)
    requires head == [i.typ] + if IsTV(i) then [] else PutUint16(i.length)
    requires |head| <= Len(v, i)
    requires data == if |i.payload| <= Len(v, i) - |head| then i.payload else i.payload[..Len(v, i) - |head|]
    ensures Written(v, i) == head + data
  {
  }

  /** `MarshalTo` into `b[lo..hi]`. */
  method MarshalTo(v: Version, i: IE, b: array<byte>, lo: nat, hi: nat) returns (err: Option<Error>)
    requires lo <= hi <= b.Length
    modifies b
    ensures err == if hi - lo < Len(v, i) then Some(TooShortToMarshal) else None
    ensures b[..] == if err.None? then Overlay(old(b[..]), lo, Written(v, i)) else old(b[..])
  {
    var n := Len(v, i);
    if hi - lo < n {
      return Some(TooShortToMarshal);
    }
    ghost var was := b[..];
    var head := [i.typ];
    if !IsTV(i) {
      head := head + PutUint16(i.length);
    }
    var data := if |i.payload| <= n - |head| then i.payload else i.payload[..n - |head|];
    WrittenParts(v, i, head, data);
    OverlayAppend(was, lo, head, data);
    Copy(b, lo, head);
    Copy(b, lo + |head|, data);
    err := None;
  }

  /** The parsing loop: reslices the input by the length of each parsed IE. */
  method ParseMultiIEs(v: Version, b: seq<byte>) returns (r: Result<seq<IE>, Error>)
    ensures r == ParseAll(v, b)
  {
    var rest := b;
    var ies: seq<IE> := [];
    PrependNothing(ParseAll(v, b));
    while |rest| != 0
      invariant ParseAll(v, b) == Prepend(ies, ParseAll(v, rest))
      decreases |rest|
    {
      var i := Parse(v, rest);
      if i.Err? {
        return Err(i.error);
      }
      PrependOne(ies, i.value, ParseAll(v, rest[Len(v, i.value)..]));
      ies := ies + [i.value];
      rest := rest[Len(v, i.value)..];
    }
    assert ies + [] == ies;
    r := Ok(ies);
  }

  /* ---- by type number and octet ---- */

  /** These octets are read as an IE of the type with the value, whatever is
      behind. */
  predicate ReadsTV(v: Version, typ: byte, value: seq<byte>, rest: seq<byte>) {
    Parse(v, [typ] + value + rest) == Ok(IE(typ, 0, value))
  }

  lemma ReadsTVIff(v: Version, typ: byte, value: seq<byte>, rest: seq<byte>)
    requires typ < 0x80
    ensures ReadsTV(v, typ, value, rest) <==> 1 + |value| + |rest| >= 2 && |value| == ValueLength(v, typ).GetOr(0)
  {
    var i, b := IE(typ, 0, value), [typ] + value + rest;
    ParseCharacterised(v, b, i);
    if WellFormed(v, i) {
      EncodeWellFormed(v, i);
      assert Encode(v, i) == [typ] + value;
    }
  }

  /** The sizes of type-value IEs that both versions know, in octets. */
  lemma CommonSizes(v: Version, typ: byte, value: seq<byte>, rest: seq<byte>)
    requires rest != []
    ensures typ == 0 ==> (ReadsTV(v, typ, value, rest) <==> value == [])
    ensures typ in {1, 8, 11, 13, 14, 15, 19} ==> (ReadsTV(v, typ, value, rest) <==> |value| == 1)
    ensures typ == 12 ==> (ReadsTV(v, typ, value, rest) <==> |value| == 3)
    ensures typ in {4, 5, 127} ==> (ReadsTV(v, typ, value, rest) <==> |value| == 4)
    ensures typ == 3 ==> (ReadsTV(v, typ, value, rest) <==> |value| == 6)
    ensures typ == 2 ==> (ReadsTV(v, typ, value, rest) <==> |value| == 8)
    ensures typ == 9 ==> (ReadsTV(v, typ, value, rest) <==> |value| == 28)
  {
    if typ < 0x80 {
      ReadsTVIff(v, typ, value, rest);
    }
  }

  /** Those that only one of them knows, and those that neither does. */
  lemma OwnSizes(typ: byte, value: seq<byte>, rest: seq<byte>)
    requires rest != [] && typ < 0x80 && typ !in {0, 1, 2, 3, 4, 5, 8, 9, 11, 12, 13, 14, 15, 19, 127}
    ensures typ in {16, 17} ==> (ReadsTV(V0, typ, value, rest) <==> |value| == 2)
    ensures typ in {6, 18} ==> (ReadsTV(V0, typ, value, rest) <==> |value| == 3)
    ensures typ !in {6, 16, 17, 18} ==> (ReadsTV(V0, typ, value, rest) <==> value == [])
    ensures typ in {20, 21, 23, 24, 29} ==> (ReadsTV(V1, typ, value, rest) <==> |value| == 1)
    ensures typ in {25, 26, 27, 28} ==> (ReadsTV(V1, typ, value, rest) <==> |value| == 2)
    ensures typ in {16, 17, 18} ==> (ReadsTV(V1, typ, value, rest) <==> |value| == 4)
    ensures typ == 22 ==> (ReadsTV(V1, typ, value, rest) <==> |value| == 9)
    ensures typ !in {16, 17, 18, 20, 21, 22, 23, 24, 25, 26, 27, 28, 29} ==>
      (ReadsTV(V1, typ, value, rest) <==> value == [])
  {
    ReadsTVIff(V0, typ, value, rest);
    ReadsTVIff(V1, typ, value, rest);
  }

  /** From type 128 on, two octets of length and then the value. */
  lemma LongParses(v: Version, typ: byte, value: seq<byte>, rest: seq<byte>)
    requires typ >= 128 && |value| < 0x1_0000
    ensures Encode(v, New(v, typ, value)) == [typ, |value| / 0x100, |value| % 0x100] + value
    ensures Parse(v, [typ, |value| / 0x100, |value| % 0x100] + value + rest) == Ok(IE(typ, |value|, value))
  {
    var b := [typ, |value| / 0x100, |value| % 0x100] + value;
    LongEncodes(v, IE(typ, |value|, value), b);
    FollowedBy(v, IE(typ, |value|, value), b, rest);
  }

  lemma LongEncodes(v: Version, i: IE, b: seq<byte>)
    requires i.typ >= 128 && i.length as int == |i.payload|
    requires b == [i.typ, |i.payload| / 0x100, |i.payload| % 0x100] + i.payload
    ensures Encode(v, i) == b
  {
    EncodeWellFormed(v, i);
  }

  lemma FollowedBy(v: Version, i: IE, b: seq<byte>, rest: seq<byte>)
    requires WellFormed(v, i) && Encode(v, i) == b && |b| >= 2
    ensures Parse(v, b + rest) == Ok(i)
  {
    EncodeThenParse(v, i, b + rest);
  }

  /** A new IE of a known short type is cut or filled up with zeros. */
  lemma ShortEncodes(v: Version, typ: byte, value: seq<byte>, n: nat)
    requires typ < 0x80 && ValueLength(v, typ) == Some(n)
    ensures Encode(v, New(v, typ, value)) ==
      [typ] + if |value| <= n then value + Zeros(n - |value|) else value[..n]
  {
    assert Zeros(0) == [];
  }

  /** Which error parsing one IE ends in. */
  lemma ParseFailsIff(v: Version, b: seq<byte>)
    ensures Parse(v, b) == Err(TooShortToParse) <==> |b| < 2 || (|b| == 2 && b[0] >= 128)
    ensures Parse(v, b) == Err(InvalidLength) <==>
      || (|b| >= 2 && b[0] < 128 && |b| < 1 + ValueLength(v, b[0]).GetOr(0))
      || (|b| >= 3 && b[0] >= 128 && |b| < 3 + b[1] as int * 0x100 + b[2] as int)
  {
  }
}
