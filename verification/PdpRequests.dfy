/** The GTPv1 Create PDP Context Request. */
module PdpRequestV1 {
  import opened Octets
  import T = TvTlv
  import opened IESlots
  import opened PdpContext
  import H = GtpuHeader

  datatype Error = HeaderError(header: H.Error) | IEError(ie: T.Error) | TooShortToMarshal

  /** The header with the fields' octets as its payload and the length set. */
  function Filled(h: H.Header, f: Fields): H.Header {
    H.SetLength(h.(payload := T.EncodeAll(T.V1, Canonical(f))))
  }

  /** The octets of a message whose header has no payload yet. */
  function Wire(h: H.Header, f: Fields): seq<byte> {
    H.Encode(Filled(h, f), [0, 0])
  }

  /** Parsing into a new message. */
  function Parse(b: seq<byte>): Outcome<(H.Header, Fields), Error> {
    match H.Parse(b)
    case Panic => Panic
    case Fail(e) => Fail(HeaderError(e))
    case Done(h) =>
      match ReadFields(T.V1, h.payload)
      case Err(e) => Fail(IEError(e))
      case Ok(f) => Done((h, f))
  }

  predicate Recovers(b: seq<byte>, f: Fields) {
    Parse(b).Done? && Parse(b).value.1 == f
  }

  /** The two octets that marshalling leaves as they were. */
  function Spare(h: H.Header, s: seq<byte>): (r: seq<byte>)
    requires H.HasSequence(h.flags) ==> 12 <= |s|
    ensures |r| == 2
  {
    if H.HasSequence(h.flags) then s[10..12] else [0, 0]
  }

  /** The same IE comes back in each of the 39 fields, and the same additional
      IEs, exactly when every IE is well formed, the last one written takes at
      least two octets and the whole message has 11 to 65535 octets: with a
      sequence number that is up to 65523 octets of IEs, without one 3 to 65527. */
  lemma RoundTripIff(h: H.Header, f: Fields)
    requires Settled(Table(T.V1), KeepsThird(T.V1), f)
    ensures Recovers(Wire(h, f), f) <==>
      && T.AllWellFormed(T.V1, Canonical(f))
      && T.EndsLong(T.V1, Canonical(f))
      && (if H.HasSequence(h.flags) then T.LenAll(T.V1, Canonical(f)) <= 65523
          else 3 <= T.LenAll(T.V1, Canonical(f)) <= 65527)
  {
    ReadCanonicalIff(T.V1, f);
    FilledLen(h, f);
    if 11 <= H.Len(Filled(h, f)) < 0x1_0000 {
      SizesThatFitKeep(h, f);
    } else {
      OtherSizesLose(h, f);
    }
  }

  lemma FilledLen(h: H.Header, f: Fields)
    ensures H.Len(Filled(h, f)) == T.LenAll(T.V1, Canonical(f)) + if H.HasSequence(h.flags) then 12 else 8
  {
  }

  lemma SizesThatFitKeep(h: H.Header, f: Fields)
    requires 11 <= H.Len(Filled(h, f)) < 0x1_0000
    ensures Recovers(Wire(h, f), f) <==> ReadFields(T.V1, T.EncodeAll(T.V1, Canonical(f))) == Ok(f)
  {
    H.FitsIsKept(Filled(h, f), [0, 0]);
  }

  lemma OtherSizesLose(h: H.Header, f: Fields)
    requires H.Len(Filled(h, f)) < 11 || H.Len(Filled(h, f)) >= 0x1_0000
    ensures !Recovers(Wire(h, f), f)
  {
    if H.Len(Filled(h, f)) >= 0x1_0000 {
      TooLongLoses(h, f, H.Parse(Wire(h, f)));
    }
  }

  lemma TooLongLoses(h: H.Header, f: Fields, r: Outcome<H.Header, H.Error>)
    requires H.Len(Filled(h, f)) >= 0x1_0000 && r == H.Parse(Wire(h, f))
    ensures r.Done? ==> ReadFields(T.V1, r.value.payload) != Ok(f)
  {
    H.TooLongIsCut(Filled(h, f), [0, 0]);
    if r.Done? {
      ShortPayloadLoses(T.V1, f, r.value.payload);
    }
  }

  /** In particular for every message built from a list of IEs. */
  lemma BuiltRoundTripIff(teid: uint32, sequence: uint16, ies: seq<T.IE>)
    ensures var f := Build(T.V1, ies);
      Recovers(Wire(H.New(0x32, 16, teid, sequence, []), f), f) <==>
        && T.AllWellFormed(T.V1, Canonical(f))
        && T.EndsLong(T.V1, Canonical(f))
        && T.LenAll(T.V1, Canonical(f)) <= 65523
  {
    BuildSettles(T.V1, ies);
    NewRoundTripIff(teid, sequence, Build(T.V1, ies));
  }

  lemma NewRoundTripIff(teid: uint32, sequence: uint16, f: Fields)
    requires Settled(Table(T.V1), KeepsThird(T.V1), f)
    ensures Recovers(Wire(H.New(0x32, 16, teid, sequence, []), f), f) <==>
      && T.AllWellFormed(T.V1, Canonical(f))
      && T.EndsLong(T.V1, Canonical(f))
      && T.LenAll(T.V1, Canonical(f)) <= 65523
  {
    RoundTripIff(H.New(0x32, 16, teid, sequence, []), f);
  }

  /** The octets of a message built from any IEs: type 16, a sequence number, and
      the IEs in the order of their types. */
  lemma MessageOctets(teid: uint32, sequence: uint16, f: Fields, ies: seq<byte>)
    requires ies == T.EncodeAll(T.V1, Canonical(f))
    ensures Wire(H.New(0x32, 16, teid, sequence, []), f) ==
      [0x32, 16, (|ies| + 4) / 0x100 % 0x100, (|ies| + 4) % 0x100] + PutUint32(teid)
      + [sequence / 0x100, sequence % 0x100, 0, 0] + ies
  {
    LowHalf(|ies| + 4, (|ies| + 4) / 0x1_0000, (|ies| + 4) % 0x1_0000);
    var h := H.New(0x32, 16, teid, sequence, []);
    assert Filled(h, f) == H.Header(0x32, 16, (|ies| + 4) % 0x1_0000, teid, sequence, ies);
  }

  class CreatePDPContextRequest {
    /** None is a nil header, which a failed parse leaves. */
    var header: Option<H.Header>
    var fields: Fields

    constructor (teid: uint32, sequence: uint16, ies: seq<Option<T.IE>>)
      ensures fields == Build(T.V1, Present(ies))
      ensures header.Some?
      ensures header.value == H.New(0x32, 16, teid, sequence, []).(length := (MarshalLen() - 8) % 0x1_0000)
    {
      var placed := PlaceGiven(T.V1, Build(T.V1, []), ies);
      header, fields := Some(H.New(0x32, 16, teid, sequence, [])), placed;
      new;
      BuildFromNothing(T.V1, Present(ies));
      SetLength();
    }

    /** The header without its payload, and the IEs. */
    function MarshalLen(): nat
      requires header.Some?
      reads this
    {
      H.Len(header.value) - |header.value.payload| + T.LenAll(T.V1, Canonical(fields))
    }

    method SetLength()
      requires header.Some?
      modifies this`header
      ensures header.Some? && header.value == old(header.value).(length := (MarshalLen() - 8) % 0x1_0000)
    {
      header := Some(header.value.(length := (MarshalLen() - 8) % 0x1_0000));
    }

    /** The buffer for the IEs is made too small by the size of the payload the
        header already has.  So only a message whose header payload is empty can
        be marshalled, and marshalling fills it: a second call fails, and a
        parsed message that had IEs cannot be marshalled at all. */
    method MarshalTo(b: array<byte>) returns (out: Outcome<(), Error>)
      modifies b, this`header
      ensures old(header).None? ==> out == Panic && b[..] == old(b[..])
      ensures old(header).Some? ==>
        var n, had := T.LenAll(T.V1, Canonical(fields)), |old(header.value).payload|;
        if b.Length < old(MarshalLen()) then
          out == Fail(TooShortToMarshal) && header == old(header) && b[..] == old(b[..])
        else if had > n then
          out == Panic && b[..] == old(b[..])
        else if had > 0 then
          out == Fail(IEError(T.TooShortToMarshal)) && b[..] == old(b[..])
        else
          && out == Done(()) && header == Some(Filled(old(header.value), fields))
          && b[..] == Overlay(old(b[..]), 0, H.Encode(header.value, Spare(header.value, old(b[..]))))
    {
      if header.None? {
        return Panic;
      }
      var l := MarshalLen();
      if b.Length < l {
        return Fail(TooShortToMarshal);
      }
      if l < H.Len(header.value) {
        return Panic;
      }
      var payload, err := WriteFields(T.V1, fields, l - H.Len(header.value));
      header := Some(header.value.(payload := payload[..]));
      if err.Some? {
        return Fail(IEError(err.value));
      }
      assert payload[..] == T.EncodeAll(T.V1, Canonical(fields));
      header := Some(H.SetLength(header.value));
      var herr := H.MarshalTo(header.value, b);
      out := Done(());
    }

    /** Fields already set are kept and added to; `Parse` starts from a new
        message. */
    method UnmarshalBinary(b: seq<byte>) returns (out: Outcome<(), Error>)
      requires |fields.slots| == |Table(T.V1)|
      modifies this
      ensures match H.Parse(b)
        case Panic => out == Panic
        case Fail(e) => out == Fail(HeaderError(e)) && header == None && fields == old(fields)
        case Done(h) =>
          && header == Some(h)
          && if |h.payload| < 2 then out == Done(()) && fields == old(fields)
             else match T.ParseAll(T.V1, h.payload)
               case Err(e) => out == Fail(IEError(e)) && fields == old(fields)
               case Ok(ies) => out == Done(()) && fields == PlaceAll(Table(T.V1), KeepsThird(T.V1), old(fields), ies)
    {
      var h := H.Parse(b);
      if h.Panic? {
        return Panic;
      }
      if h.Fail? {
        header := None;
        return Fail(HeaderError(h.error));
      }
      header := Some(h.value);
      if |h.value.payload| < 2 {
        return Done(());
      }
      var ies := T.ParseMultiIEs(T.V1, h.value.payload);
      if ies.Err? {
        return Fail(IEError(ies.error));
      }
      fields := PlaceRead(T.V1, fields, ies.value);
      out := Done(());
    }
  }
}

/** The GTPv0 Create PDP Context Request. */
module PdpRequestV0 {
  import opened Octets
  import T = TvTlv
  import opened IESlots
  import opened PdpContext
  import H = Gtpv0Header

  datatype Error = HeaderError(header: H.Error) | IEError(ie: T.Error)

  function Filled(h: H.Header, f: Fields): H.Header {
    H.SetLength(h.(payload := T.EncodeAll(T.V0, Canonical(f))))
  }

  /** The octets of a message, whatever payload its header had. */
  function Wire(h: H.Header, f: Fields): seq<byte> {
    H.Encode(Filled(h, f))
  }

  function Parse(b: seq<byte>): Outcome<(H.Header, Fields), Error> {
    match H.Parse(b)
    case Panic => Panic
    case Fail(e) => Fail(HeaderError(e))
    case Done(h) =>
      match ReadFields(T.V0, h.payload)
      case Err(e) => Fail(IEError(e))
      case Ok(f) => Done((h, f))
  }

  predicate Recovers(b: seq<byte>, f: Fields) {
    Parse(b).Done? && Parse(b).value.1 == f
  }

  /** The GTPv0 parser takes everything behind the header when the length field
      disagrees with what is there, so only the few payload sizes whose 16-bit
      end wraps are lost. */
  lemma RoundTripIff(h: H.Header, f: Fields)
    requires Settled(Table(T.V0), KeepsThird(T.V0), f)
    ensures Recovers(Wire(h, f), f) <==>
      && T.AllWellFormed(T.V0, Canonical(f))
      && T.EndsLong(T.V0, Canonical(f))
      && !(65515 < T.LenAll(T.V0, Canonical(f)) < 0x1_0000)
  {
    var g := Filled(h, f);
    ReadCanonicalIff(T.V0, f);
    H.KeptIff(g);
  }

  /** Any accepted datagram can be brought into canonical form: the form is no
      longer than the datagram, it gives the same header fields (but for length
      and SNDCP number) and, exactly when its last IE takes two octets or more and
      its size is not one of the few whose 16-bit end wraps, the same IEs; and
      forming it again from what it gives changes no octet
      exactly when the SNDCP number was 255. */
  lemma Canonicalise(b: seq<byte>)
    requires Parse(b).Done?
    ensures var (h, f) := Parse(b).value; var c := Wire(h, f);
      && |c| <= |b|
      && (Recovers(c, f) <==> T.EndsLong(T.V0, Canonical(f)) && !(65535 < |c| < 65556))
      && (Recovers(c, f) ==>
           var g := Parse(c).value.0;
           && g == Filled(h, f).(sndcp := 0xff)
           && (Wire(g, f) == c <==> h.sndcp == 0xff))
  {
    var (h, f) := Parse(b).value;
    H.ParsedParts(b);
    ReadGives(T.V0, h.payload);
    RoundTripIff(h, f);
    if Recovers(Wire(h, f), f) {
      ReformedHeader(h, f);
    }
  }

  lemma ReformedHeader(h: H.Header, f: Fields)
    requires Recovers(Wire(h, f), f)
    ensures var g := Parse(Wire(h, f)).value.0;
      && g == Filled(h, f).(sndcp := 0xff)
      && (Wire(g, f) == Wire(h, f) <==> h.sndcp == 0xff)
  {
    var g := Filled(h, f).(sndcp := 0xff);
    H.ParseForgetsSndcp(Filled(h, f));
    H.KeptIff(Filled(h, f));
    assert Wire(g, f)[8] == 0xff && Wire(h, f)[8] == h.sndcp;
  }

  /** The octets of a message built from any IEs. */
  lemma MessageOctets(sequence: uint16, flowLabel: uint16, tid: uint64, f: Fields, ies: seq<byte>)
    requires ies == T.EncodeAll(T.V0, Canonical(f))
    ensures Wire(H.New(0x1e, 16, sequence, flowLabel, tid), f) ==
      [0x1e, 16, |ies| / 0x100 % 0x100, |ies| % 0x100, sequence / 0x100, sequence % 0x100,
       flowLabel / 0x100, flowLabel % 0x100, 0xff, 0xff, 0xff, 0xff] + H.PutUint64(tid) + ies
  {
    LowHalf(|ies|, |ies| / 0x1_0000, |ies| % 0x1_0000);
  }

  class CreatePDPContextRequest {
    /** None is a nil header, which a failed parse leaves. */
    var header: Option<H.Header>
    var fields: Fields

    constructor (sequence: uint16, flowLabel: uint16, tid: uint64, ies: seq<Option<T.IE>>)
      ensures fields == Build(T.V0, Present(ies))
      ensures header.Some?
      ensures header.value == H.New(0x1e, 16, sequence, flowLabel, tid).(length := (MarshalLen() - 20) % 0x1_0000)
    {
      var placed := PlaceGiven(T.V0, Build(T.V0, []), ies);
      header, fields := Some(H.New(0x1e, 16, sequence, flowLabel, tid)), placed;
      new;
      BuildFromNothing(T.V0, Present(ies));
      SetLength();
    }

    method SetLength()
      requires header.Some?
      modifies this`header
      ensures header.Some? && header.value == old(header.value).(length := (MarshalLen() - 20) % 0x1_0000)
    {
      header := Some(header.value.(length := (MarshalLen() - 20) % 0x1_0000));
    }

    function MarshalLen(): nat
      requires header.Some?
      reads this
    {
      20 + T.LenAll(T.V0, Canonical(fields))
    }

    /** The payload is cleared first, so marshalling can be repeated: the header
        it leaves depends on the fields alone, and a short buffer is the only
        way to fail. */
    method MarshalTo(b: array<byte>) returns (out: Outcome<(), H.Error>)
      modifies b, this`header
      ensures old(header).None? ==> out == Panic && b[..] == old(b[..])
      ensures old(header).Some? ==>
        && header == Some(Filled(old(header.value), fields))
        && out == (if b.Length < MarshalLen() then Fail(H.TooShortToMarshal) else Done(()))
        && b[..] == (if out.Done? then Overlay(old(b[..]), 0, Wire(old(header.value), fields)) else old(b[..]))
    {
      if header.None? {
        return Panic;
      }
      header := Some(header.value.(payload := []));
      var payload, err := WriteFields(T.V0, fields, MarshalLen() - H.Len(header.value));
      assert payload[..] == T.EncodeAll(T.V0, Canonical(fields));
      header := Some(H.SetLength(header.value.(payload := payload[..])));
      var herr := H.MarshalTo(header.value, b);
      out := if herr.Some? then Fail(herr.value) else Done(());
    }

    /** Fields already set are kept and added to. */
    method UnmarshalBinary(b: seq<byte>) returns (out: Outcome<(), Error>)
      requires |fields.slots| == |Table(T.V0)|
      modifies this
      ensures match H.Parse(b)
        case Panic => out == Panic
        case Fail(e) => out == Fail(HeaderError(e)) && header == None && fields == old(fields)
        case Done(h) =>
          && header == Some(h)
          && if |h.payload| < 2 then out == Done(()) && fields == old(fields)
             else match T.ParseAll(T.V0, h.payload)
               case Err(e) => out == Fail(IEError(e)) && fields == old(fields)
               case Ok(ies) => out == Done(()) && fields == PlaceAll(Table(T.V0), KeepsThird(T.V0), old(fields), ies)
    {
      var h := H.Parse(b);
      if h.Panic? {
        return Panic;
      }
      if h.Fail? {
        header := None;
        return Fail(HeaderError(h.error));
      }
      header := Some(h.value);
      if |h.value.payload| < 2 {
        return Done(());
      }
      var ies := T.ParseMultiIEs(T.V0, h.value.payload);
      if ies.Err? {
        return Fail(IEError(ies.error));
      }
      fields := PlaceRead(T.V0, fields, ies.value);
      out := Done(());
    }
  }
}
