/** What the GTPv0 and GTPv1 Create PDP Context Requests share: writing the
    fields in canonical order into a fresh buffer, and reading them back. */
module PdpContext {
  import opened Octets
  import opened TvTlv
  import opened IESlots

  /** The switch of the constructors, over the IEs that are not nil. */
  method PlaceGiven(v: Version, f: Fields, ies: seq<Option<IE>>) returns (g: Fields)
    requires |f.slots| == |Table(v)|
    ensures g == PlaceAll(Table(v), KeepsThird(v), f, Present(ies))
  {
    g := f;
    for k := 0 to |ies|
      invariant |g.slots| == |Table(v)|
      invariant PlaceAll(Table(v), KeepsThird(v), g, Present(ies[k..]))
        == PlaceAll(Table(v), KeepsThird(v), f, Present(ies))
    {
      PresentStep(ies, k);
      if ies[k].Some? {
        assert Present(ies[k..])[1..] == Present(ies[k + 1..]);
        g := Place(Table(v), KeepsThird(v), g, ies[k].value);
      }
    }
  }

  /** The switch of the parsers, over the IEs that were read. */
  method PlaceRead(v: Version, f: Fields, ies: seq<IE>) returns (g: Fields)
    requires |f.slots| == |Table(v)|
    ensures g == PlaceAll(Table(v), KeepsThird(v), f, ies)
  {
    g := f;
    for k := 0 to |ies|
      invariant |g.slots| == |Table(v)|
      invariant PlaceAll(Table(v), KeepsThird(v), g, ies[k..]) == PlaceAll(Table(v), KeepsThird(v), f, ies)
    {
      assert ies[k..][0] == ies[k] && ies[k..][1..] == ies[k + 1..];
      g := Place(Table(v), KeepsThird(v), g, ies[k]);
    }
  }

  /** The parser's view of a payload: below two octets there is nothing in it. */
  function ReadFields(v: Version, payload: seq<byte>): Result<Fields, Error> {
    if |payload| < 2 then Ok(Build(v, []))
    else
      match ParseAll(v, payload)
      case Err(e) => Err(e)
      case Ok(ies) => Ok(Build(v, ies))
  }

  /** Octets of well-formed IEs split in only one way. */
  lemma EncodeAllInjective(v: Version, xs: seq<IE>, ys: seq<IE>)
    requires AllWellFormed(v, xs) && AllWellFormed(v, ys)
    requires EncodeAll(v, xs) == EncodeAll(v, ys)
    ensures xs == ys
  {
    var stop := IE(14, 0, [0]);
    StopParses(v, xs, stop);
    StopParses(v, ys, stop);
    assert xs == (xs + [stop])[..|xs + [stop]| - 1] && ys == (ys + [stop])[..|ys + [stop]| - 1];
  }

  lemma StopParses(v: Version, xs: seq<IE>, stop: IE)
    requires AllWellFormed(v, xs) && stop == IE(14, 0, [0])
    ensures ParseAll(v, EncodeAll(v, xs) + EncodeAll(v, [stop])) == Ok(xs + [stop])
  {
    LenAllAppend(v, xs, [stop]);
    EncodeThenParseAll(v, xs + [stop]);
  }

  /** The canonical octets of a settled message read back to the same message
      exactly when all its IEs are well formed and the last one written takes at
      least two octets. */
  lemma ReadCanonicalIff(v: Version, f: Fields)
    requires Settled(Table(v), KeepsThird(v), f)
    ensures ReadFields(v, EncodeAll(v, Canonical(f))) == Ok(f)
      <==> AllWellFormed(v, Canonical(f)) && EndsLong(v, Canonical(f))
  {
    var ies := Canonical(f);
    var b := EncodeAll(v, ies);
    CanonicalRebuilds(v, f);
    ParseAllCharacterised(v, b, ies);
    if |b| < 2 {
      NothingPresent(|Table(v)|);
      assert ies != [] ==> ies[1..] == [] && Canonical(Build(v, [])) == [];
    } else if ReadFields(v, b) == Ok(f) {
      var read := ParseAll(v, b).value;
      ParseAllIsExact(v, b);
      CanonicalIsNoLonger(v, read);
      EncodeAllInjective(v, ies, read);
    }
  }

  /** A payload shorter than the canonical form cannot read back to the
      message. */
  lemma ShortPayloadLoses(v: Version, f: Fields, payload: seq<byte>)
    requires |payload| < LenAll(v, Canonical(f))
    ensures ReadFields(v, payload) != Ok(f)
  {
    if ReadFields(v, payload) == Ok(f) {
      NothingPresent(|Table(v)|);
      var read := ParseAll(v, payload).value;
      ParseAllIsExact(v, payload);
      CanonicalIsNoLonger(v, read);
    }
  }

  /** Whatever is read settles, is well formed and is no longer than what it was
      read from. */
  lemma ReadGives(v: Version, payload: seq<byte>)
    requires ReadFields(v, payload).Ok?
    ensures var f := ReadFields(v, payload).value;
      && Settled(Table(v), KeepsThird(v), f)
      && AllWellFormed(v, Canonical(f))
      && LenAll(v, Canonical(f)) <= |payload|
  {
    NothingPresent(|Table(v)|);
    var read := if |payload| < 2 then [] else ParseAll(v, payload).value;
    if |payload| >= 2 {
      ParseAllIsExact(v, payload);
    }
    CanonicalIsNoLonger(v, read);
    BuildSettles(v, read);
  }

  /** One more IE written behind `d` in a buffer that was all zeros. */
  lemma WriteNext(v: Version, d: seq<byte>, i: IE, room: nat)
    requires Len(v, i) <= room
    ensures Overlay(d + Zeros(room), |d|, Written(v, i)) == d + Encode(v, i) + Zeros(room - Len(v, i))
  {
  }

  /** The buffer holds the IEs done so far, and zeros. */
  ghost predicate Buffered(v: Version, s: seq<byte>, done: seq<IE>) {
    LenAll(v, done) <= |s| && s == EncodeAll(v, done) + Zeros(|s| - LenAll(v, done))
  }

  /** Progress of the two loops: what has been written and what is to come make
      up the canonical form. */
  ghost predicate Pending(f: Fields, done: seq<IE>, rest: seq<IE>) {
    Canonical(f) == done + rest
  }

  function AsList(i: Option<IE>): seq<IE> {
    if i.Some? then [i.value] else []
  }

  /** Makes a buffer of `n` octets and writes the IEs into it one behind the
      other: the fields in table order (the source tests one after another),
      then the additional IEs. */
  method WriteFields(v: Version, f: Fields, n: nat) returns (b: array<byte>, err: Option<Error>)
    ensures fresh(b) && b.Length == n
    ensures err == if n < LenAll(v, Canonical(f)) then Some(TooShortToMarshal) else None
    ensures err.None? ==> b[..] == EncodeAll(v, Canonical(f)) + Zeros(n - LenAll(v, Canonical(f)))
  {
    b := new byte[n](_ => 0);
    assert b[..] == Zeros(n) == [] + Zeros(n);
    var offset;
    ghost var done;
    offset, err, done := WriteSlots(v, f, b);
    if err.None? {
      offset, err := WriteAdditional(v, f, b, offset, done);
    }
  }

  method WriteSlots(v: Version, f: Fields, b: array<byte>) returns (offset: nat, err: Option<Error>,
                    ghost done: seq<IE>)
    requires Buffered(v, b[..], [])
    modifies b
    ensures err.None? ==> Pending(f, done, f.additional) && offset == LenAll(v, done) && Buffered(v, b[..], done)
    ensures err.Some? ==> err == Some(TooShortToMarshal) && b.Length < LenAll(v, Canonical(f))
  {
    offset, err, done := 0, None, [];
    assert f.slots[0..] == f.slots && [] + Canonical(f) == Canonical(f);
    var k := 0;
    while k < |f.slots|
      invariant k <= |f.slots| && Pending(f, done, Present(f.slots[k..]) + f.additional)
      invariant offset == LenAll(v, done) && Buffered(v, b[..], done)
    {
      NextSlot(v, f, done, k);
      offset, err := WriteSlot(v, f.slots[k], b, offset, done);
      if err.Some? {
        return;
      }
      done := done + AsList(f.slots[k]);
      k := k + 1;
    }
    assert [] + f.additional == f.additional;
    err := None;
  }

  /** A field that is set is written, one that is not is skipped. */
  method WriteSlot(v: Version, i: Option<IE>, b: array<byte>, at: nat, ghost done: seq<IE>)
    returns (offset: nat, err: Option<Error>)
    requires at == LenAll(v, done) && Buffered(v, b[..], done)
    modifies b
    ensures err == if b.Length < LenAll(v, done + AsList(i)) then Some(TooShortToMarshal) else None
    ensures err.None? ==> offset == LenAll(v, done + AsList(i)) && Buffered(v, b[..], done + AsList(i))
  {
    offset, err := at, None;
    assert done + [] == done;
    if i.Some? {
      offset, err := WriteIE(v, i.value, b, at, done);
    }
  }

  method WriteAdditional(v: Version, f: Fields, b: array<byte>, at: nat, ghost before: seq<IE>)
    returns (offset: nat, err: Option<Error>)
    requires Pending(f, before, f.additional)
    requires at == LenAll(v, before) && Buffered(v, b[..], before)
    modifies b
    ensures err == if b.Length < LenAll(v, Canonical(f)) then Some(TooShortToMarshal) else None
    ensures err.None? ==> b[..] == EncodeAll(v, Canonical(f)) + Zeros(b.Length - LenAll(v, Canonical(f)))
  {
    offset := at;
    ghost var done := before;
    assert f.additional[0..] == f.additional;
    var k := 0;
    while k < |f.additional|
      invariant k <= |f.additional| && Pending(f, done, f.additional[k..])
      invariant offset == LenAll(v, done) && Buffered(v, b[..], done)
    {
      var i := f.additional[k];
      assert [i] + f.additional[k + 1..] == f.additional[k..];
      NextPending(v, f, done, [i], f.additional[k + 1..]);
      offset, err := WriteIE(v, i, b, offset, done);
      if err.Some? {
        return;
      }
      done := done + [i];
      k := k + 1;
    }
    assert done + [] == done;
    err := None;
  }

  lemma NextPending(v: Version, f: Fields, done: seq<IE>, next: seq<IE>, rest: seq<IE>)
    requires Pending(f, done, next + rest)
    ensures Pending(f, done + next, rest)
    ensures LenAll(v, done + next) <= LenAll(v, Canonical(f))
  {
    assert Canonical(f) == done + next + rest;
    LenAllAppend(v, done + next, rest);
  }

  lemma NextSlot(v: Version, f: Fields, done: seq<IE>, k: nat)
    requires k < |f.slots| && Pending(f, done, Present(f.slots[k..]) + f.additional)
    ensures Pending(f, done + AsList(f.slots[k]), Present(f.slots[k + 1..]) + f.additional)
    ensures LenAll(v, done + AsList(f.slots[k])) <= LenAll(v, Canonical(f))
  {
    var next, rest := AsList(f.slots[k]), Present(f.slots[k + 1..]) + f.additional;
    PresentStep(f.slots, k);
    assert Present(f.slots[k..]) + f.additional == next + rest;
    NextPending(v, f, done, next, rest);
  }

  lemma EncodeOneMore(v: Version, done: seq<IE>, i: IE)
    ensures LenAll(v, done + [i]) == LenAll(v, done) + Len(v, i)
    ensures EncodeAll(v, done + [i]) == EncodeAll(v, done) + Encode(v, i)
  {
    LenAllAppend(v, done, [i]);
    assert [i][1..] == [] && EncodeAll(v, [i]) == Encode(v, i);
  }

  method WriteIE(v: Version, i: IE, b: array<byte>, at: nat, ghost done: seq<IE>)
    returns (offset: nat, err: Option<Error>)
    requires at == LenAll(v, done) && Buffered(v, b[..], done)
    modifies b
    ensures err == if b.Length < LenAll(v, done + [i]) then Some(TooShortToMarshal) else None
    ensures err.None? ==> offset == LenAll(v, done + [i]) && Buffered(v, b[..], done + [i])
  {
    EncodeOneMore(v, done, i);
    ghost var d := EncodeAll(v, done);
    err := MarshalBehind(v, i, b, at, d);
    offset := at + Len(v, i);
  }

  method MarshalBehind(v: Version, i: IE, b: array<byte>, at: nat, ghost d: seq<byte>) returns (err: Option<Error>)
    requires at == |d| <= b.Length && b[..] == d + Zeros(b.Length - at)
    modifies b
    ensures err == if b.Length - at < Len(v, i) then Some(TooShortToMarshal) else None
    ensures err.None? ==> b[..] == d + Encode(v, i) + Zeros(b.Length - at - Len(v, i))
  {
    if Len(v, i) <= b.Length - at {
      WriteNext(v, d, i, b.Length - at);
    }
    err := MarshalTo(v, i, b, at, b.Length);
  }
}
