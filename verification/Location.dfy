/** PLMN identities in swapped digits, and the User Location Information IE
    (section 8.21 of TS 29.274) made of up to eight parts that carry one each. */
module Location {
  import opened Octets

  datatype Error = InvalidDigit | UnexpectedEOF

  /* ---- swapped digits ---- */

  /** `encoding/hex` reads digits of both cases. */
  function Digit(c: char): (n: Option<nat>)
    ensures n.Some? ==> n.value < 16
  {
    if '0' <= c <= '9' then Some((c - '0') as nat)
    else if 'a' <= c <= 'f' then Some((c - 'a') as nat + 10)
    else if 'A' <= c <= 'F' then Some((c - 'A') as nat + 10)
    else None
  }

  /** It writes lower case. */
  function Hex(n: nat): char
    requires n < 16
  {
    if n < 10 then '0' + n as char else 'a' + (n - 10) as char
  }

  predicate LowerDigit(c: char) {
    '0' <= c <= '9' || 'a' <= c <= 'f'
  }

  predicate Lower(s: string) {
    forall k :: 0 <= k < |s| ==> LowerDigit(s[k])
  }

  lemma HexIff(c: char, n: nat)
    requires Digit(c) == Some(n)
    ensures Hex(n) == c <==> LowerDigit(c)
  {
  }

  /** `swap` exchanges the halves of every octet. */
  function Swapped(b: seq<byte>): (r: seq<byte>)
    ensures |r| == |b|
    ensures forall k :: 0 <= k < |b| ==> r[k] == b[k] / 16 + b[k] % 16 * 16
  {
    seq(|b|, k requires 0 <= k < |b| => b[k] / 16 + b[k] % 16 * 16)
  }

  lemma SwappedTwice(b: seq<byte>)
    ensures Swapped(Swapped(b)) == b
  {
    forall k | 0 <= k < |b| ensures Swapped(Swapped(b))[k] == b[k] {
      var x := b[k];
      assert (x / 16 + x % 16 * 16) / 16 == x % 16;
    }
  }

  method Swap(raw: seq<byte>) returns (r: array<byte>)
    ensures fresh(r) && r[..] == Swapped(raw)
  {
    r := new byte[|raw|](_ => 0);
    for n := 0 to |raw|
      invariant r[..n] == Swapped(raw)[..n]
    {
      r[n] := raw[n] / 16 + raw[n] % 16 * 16;
    }
  }

  function HexDecode(s: string): (r: Option<seq<byte>>)
    requires |s| % 2 == 0
    ensures r.Some? ==> |r.value| == |s| / 2
  {
    if s == "" then Some([])
    else
      var hi, lo, rest := Digit(s[0]), Digit(s[1]), HexDecode(s[2..]);
      if hi.None? || lo.None? || rest.None? then None else Some([hi.value * 16 + lo.value] + rest.value)
  }

  /** `StrToSwappedBytes` with the filler that is always used. */
  function SwappedDigits(s: string): Option<seq<byte>> {
    var raw := HexDecode(if |s| % 2 == 0 then s else s + "f");
    if raw.None? then None else Some(Swapped(raw.value))
  }

  /* ---- PLMN ---- */

  function EncodePLMN(mcc: string, mnc: string): Outcome<seq<byte>, Error> {
    var c, n := SwappedDigits(mcc), SwappedDigits(mnc);
    if c.None? || n.None? then Fail(InvalidDigit) else Pack(c.value, n.value, |mnc| == 2)
  }

  /** The digits of MCC and MNC put together; with three MNC digits both must
      have two octets. */
  function Pack(c: seq<byte>, n: seq<byte>, two: bool): Outcome<seq<byte>, Error> {
    if two then Done(c + n)
    else if |c| < 2 || |n| < 2 then Panic
    else Done([c[0], c[1] % 16 + n[1] % 16 * 16, n[0]])
  }

  function DecodePLMN(b: seq<byte>): (string, string)
    requires |b| == 3
  {
    var mnc := [Hex(b[2] % 16), Hex(b[2] / 16)];
    ([Hex(b[0] % 16), Hex(b[0] / 16), Hex(b[1] % 16)], if b[1] / 16 == 15 then mnc else mnc + [Hex(b[1] / 16)])
  }

  /** `copy` into three zeroed octets. */
  function Three(b: seq<byte>): (r: seq<byte>)
    ensures |r| == 3
  {
    if |b| >= 3 then b[..3] else b + Zeros(3 - |b|)
  }

  predicate Recovers(mcc: string, mnc: string) {
    var b := EncodePLMN(mcc, mnc);
    b.Done? && DecodePLMN(Three(b.value)) == (mcc, mnc)
  }

  /** Exactly the PLMNs that survive: three and two or three lower-case digits,
      hexadecimal ones included, but for a third MNC digit that is the filler. */
  predicate Proper(mcc: string, mnc: string) {
    |mcc| == 3 && 2 <= |mnc| <= 3 && Lower(mcc) && Lower(mnc) && (|mnc| == 3 ==> mnc[2] != 'f')
  }

  lemma RecoversIff(mcc: string, mnc: string)
    ensures Recovers(mcc, mnc) <==> Proper(mcc, mnc)
  {
    if |mcc| == 3 && 2 <= |mnc| <= 3 {
      ThreeDigits(mcc);
      if |mnc| == 2 {
        TwoDigits(mnc);
      } else {
        ThreeDigits(mnc);
      }
      if SwappedDigits(mcc).Some? && SwappedDigits(mnc).Some? {
        RecoversDigitsIff(mcc, mnc, Digit(mcc[0]).value, Digit(mcc[1]).value, Digit(mcc[2]).value,
          Digit(mnc[0]).value, Digit(mnc[1]).value, if |mnc| == 2 then 15 else Digit(mnc[2]).value);
      }
    }
  }

  lemma RecoversDigitsIff(mcc: string, mnc: string, a: nat, b: nat, c: nat, x: nat, y: nat, z: nat)
    requires |mcc| == 3 && 2 <= |mnc| <= 3 && z < 16
    requires Digit(mcc[0]) == Some(a) && Digit(mcc[1]) == Some(b) && Digit(mcc[2]) == Some(c)
    requires Digit(mnc[0]) == Some(x) && Digit(mnc[1]) == Some(y)
    requires z == if |mnc| == 2 then 15 else Digit(mnc[2]).GetOr(16)
    requires SwappedDigits(mcc) == Some([b * 16 + a, 15 * 16 + c])
    requires SwappedDigits(mnc) == Some(if |mnc| == 2 then [y * 16 + x] else [y * 16 + x, 15 * 16 + z])
    ensures Recovers(mcc, mnc) <==> Lower(mcc) && Lower(mnc) && (|mnc| == 3 ==> mnc[2] != 'f')
  {
    PackedDigits(a, b, c, x, y, z, |mnc| == 2);
    assert EncodePLMN(mcc, mnc) == Done(Laid(a, b, c, x, y, z));
    DecodeDigits(a, b, c, x, y, z);
    SameDigits(mcc, mnc, a, b, c, x, y, z);
  }

  /** The digits of a PLMN as they lie in its three octets. */
  function Laid(a: nat, b: nat, c: nat, x: nat, y: nat, z: nat): (r: seq<byte>)
    requires a < 16 && b < 16 && c < 16 && x < 16 && y < 16 && z < 16
    ensures |r| == 3
  {
    [b * 16 + a, z * 16 + c, y * 16 + x]
  }

  lemma Pair(hi: nat, lo: nat)
    requires hi < 16 && lo < 16
    ensures Swapped([hi * 16 + lo]) == [lo * 16 + hi]
  {
    assert (hi * 16 + lo) / 16 == hi;
  }

  lemma TwoDigits(s: string)
    requires |s| == 2
    ensures SwappedDigits(s) ==
      if Digit(s[0]).None? || Digit(s[1]).None? then None else Some([Digit(s[1]).value * 16 + Digit(s[0]).value])
  {
    assert HexDecode(s[2..]) == Some([]);
    if Digit(s[0]).Some? && Digit(s[1]).Some? {
      Pair(Digit(s[0]).value, Digit(s[1]).value);
      assert HexDecode(s).value == [Digit(s[0]).value * 16 + Digit(s[1]).value];
    }
  }

  lemma ThreeDigits(s: string)
    requires |s| == 3
    ensures SwappedDigits(s) ==
      if Digit(s[0]).None? || Digit(s[1]).None? || Digit(s[2]).None? then None
      else Some([Digit(s[1]).value * 16 + Digit(s[0]).value, 15 * 16 + Digit(s[2]).value])
  {
    var t := s + "f";
    assert t[2..] == [s[2], 'f'] && Digit('f') == Some(15);
    assert HexDecode(t[2..][2..]) == Some([]);
    if Digit(s[0]).Some? && Digit(s[1]).Some? && Digit(s[2]).Some? {
      var a, b, c := Digit(s[0]).value, Digit(s[1]).value, Digit(s[2]).value;
      assert HexDecode(t[2..]).value == [c * 16 + 15];
      assert HexDecode(t).value == [a * 16 + b, c * 16 + 15];
      Pair(a, b);
      Pair(c, 15);
      var r: seq<byte> := [a * 16 + b, c * 16 + 15];
      assert Swapped(r)[0] == Swapped([a * 16 + b])[0] && Swapped(r)[1] == Swapped([c * 16 + 15])[0];
      assert Swapped(r) == [b * 16 + a, 15 * 16 + c];
    } else {
      assert HexDecode(t).None?;
    }
  }

  lemma PackedDigits(a: nat, b: nat, c: nat, x: nat, y: nat, z: nat, two: bool)
    requires a < 16 && b < 16 && c < 16 && x < 16 && y < 16 && z < 16 && (two ==> z == 15)
    ensures Pack([b * 16 + a, 15 * 16 + c], if two then [y * 16 + x] else [y * 16 + x, 15 * 16 + z], two)
         == Done(Laid(a, b, c, x, y, z))
  {
    assert (15 * 16 + c) % 16 == c && (15 * 16 + z) % 16 == z;
    var u: seq<byte>, v: seq<byte> := [b * 16 + a, 15 * 16 + c], [y * 16 + x];
    assert u + v == [b * 16 + a, 15 * 16 + c, y * 16 + x];
  }

  lemma DecodeDigits(a: nat, b: nat, c: nat, x: nat, y: nat, z: nat)
    requires a < 16 && b < 16 && c < 16 && x < 16 && y < 16 && z < 16
    ensures DecodePLMN(Laid(a, b, c, x, y, z))
         == ([Hex(a), Hex(b), Hex(c)], if z == 15 then [Hex(x), Hex(y)] else [Hex(x), Hex(y), Hex(z)])
  {
    var l := Laid(a, b, c, x, y, z);
    assert l[0] / 16 == b && l[0] % 16 == a;
    assert l[1] / 16 == z && l[1] % 16 == c;
    assert l[2] / 16 == y && l[2] % 16 == x;
    assert [Hex(x), Hex(y)] + [Hex(z)] == [Hex(x), Hex(y), Hex(z)];
  }

  lemma SameDigits(mcc: string, mnc: string, a: nat, b: nat, c: nat, x: nat, y: nat, z: nat)
    requires |mcc| == 3 && 2 <= |mnc| <= 3
    requires Digit(mcc[0]) == Some(a) && Digit(mcc[1]) == Some(b) && Digit(mcc[2]) == Some(c)
    requires Digit(mnc[0]) == Some(x) && Digit(mnc[1]) == Some(y)
    requires z == if |mnc| == 2 then 15 else Digit(mnc[2]).GetOr(16)
    requires z < 16
    ensures mcc == [Hex(a), Hex(b), Hex(c)] <==> Lower(mcc)
    ensures mnc == (if z == 15 then [Hex(x), Hex(y)] else [Hex(x), Hex(y), Hex(z)])
      <==> Lower(mnc) && (|mnc| == 3 ==> mnc[2] != 'f')
  {
    HexIff(mcc[0], a);
    HexIff(mcc[1], b);
    HexIff(mcc[2], c);
    HexIff(mnc[0], x);
    HexIff(mnc[1], y);
    if |mnc| == 3 {
      HexIff(mnc[2], z);
    }
  }

  /* ---- User Location Information ---- */

  /** One part: a PLMN and what it qualifies, as one big-endian number (LAC and
      CI, LAC and SAC, LAC and RAC, TAC, ECI, LAC, macro eNB ID, extended one). */
  datatype Part = Part(mcc: string, mnc: string, value: uint32)

  const PARTS := 8

  /** The octets of the number in each of the eight parts. */
  function Width(k: nat): (n: nat)
    ensures 2 <= n <= 4
  {
    if k == 3 || k == 5 then 2 else if k >= 6 then 3 else 4
  }

  function Limit(n: nat): nat {
    if n == 2 then 0x1_0000 else if n == 3 then 0x100_0000 else 0x1_0000_0000
  }

  /** The low octets of a number; for eNB IDs `Uint32To24` cuts off the highest. */
  function Put(v: uint32, n: nat): (b: seq<byte>)
    requires 2 <= n <= 4
    ensures |b| == n
  {
    PutUint32(v)[4 - n..]
  }

  function Get(b: seq<byte>): uint32
    requires 2 <= |b| <= 4
  {
    Uint32(Zeros(4 - |b|) + b)
  }

  lemma GetPutIff(v: uint32, n: nat)
    requires 2 <= n <= 4
    ensures Get(Put(v, n)) == v <==> v < Limit(n)
  {
    var z := Zeros(4 - n) + Put(v, n);
    Uint32Inverse(v, z);
    if v < Limit(n) {
      assert z == PutUint32(v);
    }
  }

  /** The parts, from the k-th on; one that is missing has its flag unset. */
  function Flags(f: seq<Option<Part>>): nat {
    if f == [] then 0 else (if f[0].Some? then 1 else 0) + 2 * Flags(f[1..])
  }

  function EncodePart(k: nat, p: Part): Outcome<seq<byte>, Error> {
    match EncodePLMN(p.mcc, p.mnc)
    case Fail(e) => Fail(e)
    case Panic => Panic
    case Done(b) => Done(Three(b) + Put(p.value, Width(k)))
  }

  function EncodeParts(f: seq<Option<Part>>, k: nat): Outcome<seq<byte>, Error> {
    if f == [] then Done([])
    else
      match if f[0].Some? then EncodePart(k, f[0].value) else Done([])
      case Fail(e) => Fail(e)
      case Panic => Panic
      case Done(b) =>
        match EncodeParts(f[1..], k + 1)
        case Fail(e) => Fail(e)
        case Panic => Panic
        case Done(rest) => Done(b + rest)
  }

  /** `MarshalLen` of the parts. */
  function LenParts(f: seq<Option<Part>>, k: nat): nat {
    if f == [] then 0 else (if f[0].Some? then 3 + Width(k) else 0) + LenParts(f[1..], k + 1)
  }

  function ParsePart(k: nat, b: seq<byte>): Part
    requires |b| >= 3 + Width(k)
  {
    var (mcc, mnc) := DecodePLMN(b[..3]);
    Part(mcc, mnc, Get(b[3..3 + Width(k)]))
  }

  function ParseParts(flags: nat, k: nat, b: seq<byte>): (r: Result<seq<Option<Part>>, Error>)
    ensures r.Ok? ==> k + |r.value| == (if k < PARTS then PARTS else k)
    decreases PARTS - k
  {
    if k >= PARTS then Ok([])
    else if flags % 2 == 0 then
      match ParseParts(flags / 2, k + 1, b)
      case Err(e) => Err(e)
      case Ok(rest) => Ok([None] + rest)
    else if |b| < 3 + Width(k) then Err(UnexpectedEOF)
    else
      match ParseParts(flags / 2, k + 1, b[3 + Width(k)..])
      case Err(e) => Err(e)
      case Ok(rest) => Ok([Some(ParsePart(k, b))] + rest)
  }

  predicate PartFits(k: nat, p: Part) {
    Proper(p.mcc, p.mnc) && p.value < Limit(Width(k))
  }

  predicate AllFit(f: seq<Option<Part>>, k: nat) {
    f == [] || ((f[0].Some? ==> PartFits(k, f[0].value)) && AllFit(f[1..], k + 1))
  }

  lemma PartSurvivesIff(k: nat, p: Part, b: seq<byte>, rest: seq<byte>)
    requires EncodePart(k, p).Done? && b == EncodePart(k, p).value + rest
    ensures |b| >= 3 + Width(k) && b[3 + Width(k)..] == rest
    ensures ParsePart(k, b) == p <==> PartFits(k, p)
  {
    var three := Three(EncodePLMN(p.mcc, p.mnc).value);
    assert b[..3] == three && b[3..3 + Width(k)] == Put(p.value, Width(k));
    RecoversIff(p.mcc, p.mnc);
    GetPutIff(p.value, Width(k));
  }

  lemma FitsEncodes(k: nat, p: Part)
    requires PartFits(k, p)
    ensures EncodePart(k, p).Done?
  {
    RecoversIff(p.mcc, p.mnc);
  }

  /** Which fields survive marshalling: those whose parts all have proper PLMNs
      and numbers that fit.  What is written has the announced length. */
  lemma {:induction false} PartsSurviveIff(f: seq<Option<Part>>, k: nat)
    requires k + |f| == PARTS
    ensures EncodeParts(f, k).Done? ==> |EncodeParts(f, k).value| == LenParts(f, k)
    ensures EncodeParts(f, k).Done? && ParseParts(Flags(f), k, EncodeParts(f, k).value) == Ok(f) <==> AllFit(f, k)
  {
    if f != [] {
      PartsSurviveIff(f[1..], k + 1);
      assert Flags(f) / 2 == Flags(f[1..]);
      var more := EncodeParts(f[1..], k + 1);
      if f[0].Some? {
        var p := f[0].value;
        if PartFits(k, p) {
          FitsEncodes(k, p);
        }
        if EncodePart(k, p).Done? && more.Done? {
          var b := EncodePart(k, p).value + more.value;
          PartSurvivesIff(k, p, b, more.value);
          FirstPart(f, k, b, Some(ParsePart(k, b)), more.value);
        }
      } else if more.Done? {
        assert [] + more.value == more.value;
        FirstPart(f, k, more.value, None, more.value);
      }
    }
  }

  /** The parser reads the first part and goes on with the others. */
  lemma FirstPart(f: seq<Option<Part>>, k: nat, b: seq<byte>, p: Option<Part>, rest: seq<byte>)
    requires f != [] && k < PARTS && f[0].Some? == p.Some?
    requires p.Some? ==> |b| >= 3 + Width(k) && p.value == ParsePart(k, b) && rest == b[3 + Width(k)..]
    requires p.None? ==> rest == b
    ensures ParseParts(Flags(f), k, b) == Ok(f) <==> p == f[0] && ParseParts(Flags(f[1..]), k + 1, rest) == Ok(f[1..])
  {
    assert Flags(f) / 2 == Flags(f[1..]);
    var r := ParseParts(Flags(f[1..]), k + 1, rest);
    if r.Ok? {
      assert ([p] + r.value)[1..] == r.value;
      assert [f[0]] + f[1..] == f;
    }
  }

  function Marshal(f: seq<Option<Part>>): Outcome<seq<byte>, Error>
    requires |f| == PARTS
  {
    EightFlags(f);
    match EncodeParts(f, 0)
    case Fail(e) => Fail(e)
    case Panic => Panic
    case Done(b) => Done([Flags(f)] + b)
  }

  function Two(n: nat): nat {
    if n == 0 then 1 else 2 * Two(n - 1)
  }

  lemma {:induction false} FlagsBound(f: seq<Option<Part>>)
    ensures Flags(f) < Two(|f|)
  {
    if f != [] {
      FlagsBound(f[1..]);
    }
  }

  lemma EightFlags(f: seq<Option<Part>>)
    requires |f| == PARTS
    ensures Flags(f) < 0x100
  {
    FlagsBound(f);
    assert Two(4) == 16;
    assert Two(8) == 0x100;
  }

  function Parse(b: seq<byte>): Result<seq<Option<Part>>, Error> {
    if |b| < 1 then Err(UnexpectedEOF) else ParseParts(b[0], 0, b[1..])
  }

  /** For every combination of the eight parts. */
  lemma SurvivesIff(f: seq<Option<Part>>)
    requires |f| == PARTS
    ensures Marshal(f).Done? ==> |Marshal(f).value| == 1 + LenParts(f, 0)
    ensures Marshal(f).Done? && Parse(Marshal(f).value) == Ok(f) <==> AllFit(f, 0)
  {
    EightFlags(f);
    PartsSurviveIff(f, 0);
    if Marshal(f).Done? {
      assert Marshal(f).value[1..] == EncodeParts(f, 0).value;
    }
  }

  /* ---- with a running offset ---- */

  method MarshalFields(f: seq<Option<Part>>) returns (b: array<byte>, out: Outcome<(), Error>)
    requires |f| == PARTS
    ensures fresh(b) && b.Length == 1 + LenParts(f, 0)
    ensures match Marshal(f)
      case Done(octets) => out == Done(()) && b[..] == octets
      case Fail(e) => out == Fail(e)
      case Panic => out == Panic
  {
    EightFlags(f);
    PartsSurviveIff(f, 0);
    b := new byte[1 + LenParts(f, 0)](_ => 0);
    ghost var was, done: seq<byte> := b[..], [];
    Copy(b, 0, [Flags(f)]);
    var offset: nat := 1;
    assert f[0..] == f && [Flags(f)] + done == [Flags(f)];
    BehindNothing(EncodeParts(f, 0));
    for k := 0 to PARTS
      invariant InProgress(f, k, done, b[..], was, offset)
    {
      if f[k].Some? {
        out := WritePart(f, k, b, was, done, offset);
        if !out.Done? {
          return;
        }
        done := done + EncodePart(k, f[k].value).value;
        offset := offset + 3 + Width(k);
      } else {
        SkipPart(f, k, done, b[..], was, offset);
      }
    }
    assert f[8..] == [] && done + [] == done;
    out := Done(());
  }

  /** The flags and the parts before the k-th are written up to `offset`. */
  ghost predicate InProgress(f: seq<Option<Part>>, k: nat, done: seq<byte>, b: seq<byte>, was: seq<byte>, offset: nat) {
    && k <= |f| == PARTS && Flags(f) < 0x100
    && offset == 1 + |done| && offset + LenParts(f[k..], k) == 1 + LenParts(f, 0) == |was|
    && b == Overlay(was, 0, [Flags(f)] + done)
    && EncodeParts(f, 0) == Behind(done, EncodeParts(f[k..], k))
  }

  method WritePart(f: seq<Option<Part>>, k: nat, b: array<byte>, ghost was: seq<byte>, ghost done: seq<byte>,
                   offset: nat)
    returns (out: Outcome<(), Error>)
    requires k < PARTS && InProgress(f, k, done, b[..], was, offset) && f[k].Some?
    modifies b
    ensures out.Fail? ==> EncodeParts(f, 0) == Fail(out.error)
    ensures out.Panic? ==> EncodeParts(f, 0) == Panic
    ensures out.Done? ==> EncodePart(k, f[k].value).Done?
    ensures out.Done? ==>
      InProgress(f, k + 1, done + EncodePart(k, f[k].value).value, b[..], was, offset + 3 + Width(k))
  {
    var e := EncodePart(k, f[k].value);
    PartEncoded(f, k, done);
    if e.Fail? {
      return Fail(e.error);
    }
    if e.Panic? {
      return Panic;
    }
    WriteBehind(b, was, Flags(f), done, e.value, offset);
    out := Done(());
  }

  method WriteBehind(b: array<byte>, ghost was: seq<byte>, ghost flags: byte, ghost done: seq<byte>, e: seq<byte>,
                     at: nat)
    requires at == 1 + |done| && at + |e| <= b.Length == |was| && b[..] == Overlay(was, 0, [flags] + done)
    modifies b
    ensures b[..] == Overlay(was, 0, [flags] + (done + e))
  {
    OverlayAppend(was, 0, [flags] + done, e);
    Copy(b, at, e);
    assert [flags] + done + e == [flags] + (done + e);
  }

  lemma PartEncoded(f: seq<Option<Part>>, k: nat, done: seq<byte>)
    requires k < |f| && f[k].Some?
    ensures LenParts(f[k..], k) == 3 + Width(k) + LenParts(f[k + 1..], k + 1)
    ensures match EncodePart(k, f[k].value)
      case Fail(e) => Behind(done, EncodeParts(f[k..], k)) == Fail(e)
      case Panic => Behind(done, EncodeParts(f[k..], k)) == Panic
      case Done(e) => Behind(done, EncodeParts(f[k..], k)) == Behind(done + e, EncodeParts(f[k + 1..], k + 1))
  {
    assert f[k..][0] == f[k] && f[k..][1..] == f[k + 1..];
    var e := EncodePart(k, f[k].value);
    if e.Done? {
      BehindMore(done, e.value, EncodeParts(f[k + 1..], k + 1));
    }
  }

  lemma SkipPart(f: seq<Option<Part>>, k: nat, done: seq<byte>, b: seq<byte>, was: seq<byte>, offset: nat)
    requires k < PARTS && InProgress(f, k, done, b, was, offset) && f[k].None?
    ensures InProgress(f, k + 1, done, b, was, offset)
  {
    assert f[k..][0] == f[k] && f[k..][1..] == f[k + 1..];
    BehindMore(done, [], EncodeParts(f[k + 1..], k + 1));
    assert done + [] == done;
  }

  method UnmarshalFields(b: seq<byte>) returns (r: Result<seq<Option<Part>>, Error>)
    ensures r == Parse(b)
  {
    if |b| < 1 {
      return Err(UnexpectedEOF);
    }
    var flags: nat, offset, f: seq<Option<Part>> := b[0], 1, [];
    PrependNothing(Parse(b));
    for k := 0 to PARTS
      invariant PartsLeft(Parse(b), f, flags, k, b, offset)
    {
      var p;
      p, offset := ReadPart(flags, k, b, offset, Parse(b), f);
      if p.Err? {
        return Err(p.error);
      }
      f := f + [p.value];
      flags := flags / 2;
    }
    assert f + [] == f;
    r := Ok(f);
  }

  /** With `f` read, the parts from `k` on are left, those that are flagged. */
  ghost predicate PartsLeft(all: Result<seq<Option<Part>>, Error>, f: seq<Option<Part>>, flags: nat, k: nat,
                            b: seq<byte>, offset: nat) {
    k <= PARTS && offset <= |b| && all == Prepend(f, ParseParts(flags, k, b[offset..]))
  }

  /** One part, if it is flagged, and where it ends. */
  method ReadPart(flags: nat, k: nat, b: seq<byte>, offset: nat, ghost all: Result<seq<Option<Part>>, Error>,
                  ghost f: seq<Option<Part>>)
    returns (p: Result<Option<Part>, Error>, end: nat)
    requires k < PARTS && PartsLeft(all, f, flags, k, b, offset)
    ensures p.Err? ==> all == Err(p.error)
    ensures p.Ok? ==> PartsLeft(all, f + [p.value], flags / 2, k + 1, b, end)
  {
    ReadStep(f, flags, k, b, offset);
    if flags % 2 == 0 {
      return Ok(None), offset;
    }
    if |b| < offset + 3 + Width(k) {
      return Err(UnexpectedEOF), offset;
    }
    p, end := Ok(Some(ParsePart(k, b[offset..]))), offset + 3 + Width(k);
  }

  lemma ReadStep(f: seq<Option<Part>>, flags: nat, k: nat, b: seq<byte>, offset: nat)
    requires k < PARTS && offset <= |b|
    ensures flags % 2 == 0 ==>
      Prepend(f, ParseParts(flags, k, b[offset..])) == Prepend(f + [None], ParseParts(flags / 2, k + 1, b[offset..]))
    ensures flags % 2 == 1 && |b| < offset + 3 + Width(k) ==> ParseParts(flags, k, b[offset..]) == Err(UnexpectedEOF)
    ensures flags % 2 == 1 && |b| >= offset + 3 + Width(k) ==>
      Prepend(f, ParseParts(flags, k, b[offset..]))
      == Prepend(f + [Some(ParsePart(k, b[offset..]))], ParseParts(flags / 2, k + 1, b[offset + 3 + Width(k)..]))
  {
    var rest := b[offset..];
    if flags % 2 == 0 {
      PrependOne(f, None, ParseParts(flags / 2, k + 1, rest));
    } else if |b| >= offset + 3 + Width(k) {
      assert rest[3 + Width(k)..] == b[offset + 3 + Width(k)..];
      PrependOne(f, Some(ParsePart(k, rest)), ParseParts(flags / 2, k + 1, rest[3 + Width(k)..]));
    }
  }

  /* ---- by octet ---- */

  predicate Decimal(s: string) {
    forall k :: 0 <= k < |s| ==> '0' <= s[k] <= '9'
  }

  function Value(c: char): (n: nat)
    requires '0' <= c <= '9'
    ensures n < 10
  {
    (c - '0') as nat
  }

  /** Where the digits of a PLMN lie in its octets; 15 fills the place of a third
      MNC digit that is not there. */
  lemma PLMNOctets(mcc: string, mnc: string)
    requires |mcc| == 3 && 2 <= |mnc| <= 3 && Decimal(mcc) && Decimal(mnc)
    ensures EncodePLMN(mcc, mnc) ==
      Done([Value(mcc[1]) * 16 + Value(mcc[0]),
            (if |mnc| == 3 then Value(mnc[2]) else 15) * 16 + Value(mcc[2]),
            Value(mnc[1]) * 16 + Value(mnc[0])])
  {
    var a, b, c := Value(mcc[0]), Value(mcc[1]), Value(mcc[2]);
    var x, y, z := Value(mnc[0]), Value(mnc[1]), if |mnc| == 3 then Value(mnc[2]) else 15;
    ThreeDigits(mcc);
    if |mnc| == 2 {
      TwoDigits(mnc);
    } else {
      ThreeDigits(mnc);
    }
    PackedDigits(a, b, c, x, y, z, |mnc| == 2);
  }

  predicate Hexadecimal(s: string) {
    forall k :: 0 <= k < |s| ==> '0' <= s[k] <= '9' || 'a' <= s[k] <= 'f' || 'A' <= s[k] <= 'F'
  }

  lemma {:induction false} HexDecodeIff(s: string)
    requires |s| % 2 == 0
    ensures HexDecode(s).Some? <==> Hexadecimal(s)
  {
    if s != "" {
      HexDecodeIff(s[2..]);
      assert s == [s[0], s[1]] + s[2..];
      assert forall k :: 2 <= k < |s| ==> s[k] == s[2..][k - 2];
      assert forall k :: 0 <= k < |s[2..]| ==> s[2..][k] == s[k + 2];
    }
  }

  lemma DigitsIff(s: string)
    ensures SwappedDigits(s).Some? <==> Hexadecimal(s)
    ensures SwappedDigits(s).Some? ==> |SwappedDigits(s).value| == (|s| + 1) / 2
  {
    if |s| % 2 == 0 {
      HexDecodeIff(s);
    } else {
      HexDecodeIff(s + "f");
      assert forall k :: 0 <= k < |s| ==> (s + "f")[k] == s[k];
    }
  }

  /** Every outcome of encoding a PLMN: a digit that is not hexadecimal is an
      error, and with other than two MNC digits both codes need at least three,
      or the program panics. */
  lemma PLMNFailsIff(mcc: string, mnc: string)
    ensures EncodePLMN(mcc, mnc) == Fail(InvalidDigit) <==> !Hexadecimal(mcc) || !Hexadecimal(mnc)
    ensures EncodePLMN(mcc, mnc) == Panic <==>
      Hexadecimal(mcc) && Hexadecimal(mnc) && |mnc| != 2 && (|mcc| <= 2 || |mnc| <= 2)
  {
    DigitsIff(mcc);
    DigitsIff(mnc);
  }

  /** Only the k-th part is there. */
  predicate Alone(f: seq<Option<Part>>, k: nat, p: Part) {
    |f| == 8 && k < 8 && f[k] == Some(p) && forall j :: 0 <= j < 8 && j != k ==> f[j] == None
  }

  /** The flag of each part, and how many octets its number takes behind the three
      of the PLMN: CGI, SAI, RAI, TAI, ECGI, LAI, macro eNB ID, extended one. */
  lemma PartOctets(f: seq<Option<Part>>, k: nat, p: Part, plmn: seq<byte>)
    requires Alone(f, k, p) && EncodePLMN(p.mcc, p.mnc) == Done(plmn) && |plmn| == 3
    ensures var number := PutUint32(p.value);
      Marshal(f) ==
        if k == 0 then Done([1] + plmn + number)
        else if k == 1 then Done([2] + plmn + number)
        else if k == 2 then Done([4] + plmn + number)
        else if k == 3 then Done([8] + plmn + number[2..])
        else if k == 4 then Done([16] + plmn + number)
        else if k == 5 then Done([32] + plmn + number[2..])
        else if k == 6 then Done([64] + plmn + number[1..])
        else Done([128] + plmn + number[1..])
  {
    AloneMarshals(f, k, p, plmn, Put(p.value, Width(k)));
    assert Two(3) == 8 && Two(6) == 64 && Two(7) == 128;
    assert PutUint32(p.value)[0..] == PutUint32(p.value);
  }

  lemma AloneMarshals(f: seq<Option<Part>>, k: nat, p: Part, plmn: seq<byte>, number: seq<byte>)
    requires Alone(f, k, p) && EncodePLMN(p.mcc, p.mnc) == Done(plmn) && |plmn| == 3
    requires number == Put(p.value, Width(k))
    ensures Two(k) < 0x100 && Marshal(f) == Done([Two(k)] + plmn + number)
  {
    OnlyPart(k, p, plmn, number);
    AloneFrom(f, f, 0, k, p);
    FlagsThenPart(f, Two(k), plmn, number);
  }

  lemma OnlyPart(k: nat, p: Part, plmn: seq<byte>, number: seq<byte>)
    requires EncodePLMN(p.mcc, p.mnc) == Done(plmn) && |plmn| == 3 && number == Put(p.value, Width(k))
    ensures EncodePart(k, p) == Done(plmn + number)
  {
    assert plmn[..3] == plmn;
  }

  lemma FlagsThenPart(f: seq<Option<Part>>, flags: nat, plmn: seq<byte>, number: seq<byte>)
    requires |f| == PARTS && Flags(f) == flags && EncodeParts(f, 0) == Done(plmn + number)
    ensures flags < 0x100 && Marshal(f) == Done([flags] + plmn + number)
  {
    EightFlags(f);
    assert [flags] + (plmn + number) == [flags] + plmn + number;
  }

  lemma {:induction false} AloneFrom(f: seq<Option<Part>>, rest: seq<Option<Part>>, j: nat, k: nat, p: Part)
    requires Alone(f, k, p) && j <= k && EncodePart(k, p).Done? && rest == f[j..]
    ensures Flags(rest) == Two(k - j)
    ensures EncodeParts(rest, j) == EncodePart(k, p)
    decreases k - j
  {
    var e := EncodePart(k, p).value;
    assert rest[0] == f[j] && rest[1..] == f[j + 1..];
    if j < k {
      AloneFrom(f, rest[1..], j + 1, k, p);
      OnePart(rest, j, rest[1..], [], e);
      assert [] + e == e;
    } else {
      NoneFrom(f, k + 1, k);
      OnePart(rest, j, rest[1..], e, []);
      assert e + [] == e;
    }
  }

  lemma OnePart(f: seq<Option<Part>>, k: nat, rest: seq<Option<Part>>, b: seq<byte>, more: seq<byte>)
    requires f != [] && rest == f[1..] && EncodeParts(rest, k + 1) == Done(more)
    requires if f[0].Some? then EncodePart(k, f[0].value) == Done(b) else b == []
    ensures EncodeParts(f, k) == Done(b + more)
  {
  }

  lemma {:induction false} NoneFrom(f: seq<Option<Part>>, j: nat, k: nat)
    requires k < j <= |f| && forall i :: k < i < |f| ==> f[i] == None
    ensures Flags(f[j..]) == 0 && EncodeParts(f[j..], j) == Done([])
    decreases |f| - j
  {
    if j < |f| {
      assert f[j..][0] == f[j] && f[j..][1..] == f[j + 1..];
      NoneFrom(f, j + 1, k);
      var nothing: seq<byte> := [];
      assert nothing + nothing == nothing;
    }
  }
}
