/** Fixed-width unsigned integers and big-endian octet strings, as Go's
    `encoding/binary` reads and writes them.  Every width is explicit: a value
    that the source truncates is reduced with `%` where that happens. */
module Octets {
  type byte = x: int | 0 <= x < 0x100
  type uint16 = x: int | 0 <= x < 0x1_0000
  type uint32 = x: int | 0 <= x < 0x1_0000_0000
  type uint64 = x: int | 0 <= x < 0x1_0000_0000_0000_0000

  datatype Option<+T> = None | Some(value: T) {
    function GetOr(default: T): T {
      if Some? then value else default
    }
  }

  /** The values that are there, in order. */
  function Present<T>(xs: seq<Option<T>>): (r: seq<T>)
    ensures |r| <= |xs|
  {
    if xs == [] then [] else (if xs[0].Some? then [xs[0].value] else []) + Present(xs[1..])
  }

  datatype Result<+T, +E> = Ok(value: T) | Err(error: E) {
    function GetOr(default: T): T {
      if Ok? then value else default
    }
  }

  /** A Go call that may also panic, as on a slice expression out of range. */
  datatype Outcome<+T, +E> = Done(value: T) | Fail(error: E) | Panic

  function PutUint16(v: uint16): (b: seq<byte>)
    ensures |b| == 2
  {
    [v / 0x100, v % 0x100]
  }

  function Uint16(b: seq<byte>): uint16
    requires |b| == 2
  {
    b[0] as int * 0x100 + b[1] as int
  }

  function PutUint32(v: uint32): (b: seq<byte>)
    ensures |b| == 4
  {
    PutUint16(v / 0x1_0000) + PutUint16(v % 0x1_0000)
  }

  function Uint32(b: seq<byte>): uint32
    requires |b| == 4
  {
    Uint16(b[..2]) as int * 0x1_0000 + Uint16(b[2..]) as int
  }

  /** Most significant octet first. */
  lemma BigEndian(v: uint32, b: seq<byte>)
    requires |b| == 4
    ensures PutUint32(v) == [v / 0x100_0000, v / 0x1_0000 % 0x100, v / 0x100 % 0x100, v % 0x100]
    ensures Uint32(b) as int == b[0] as int * 0x100_0000 + b[1] as int * 0x1_0000 + b[2] as int * 0x100 + b[3] as int
  {
    var hi, lo := v / 0x1_0000, v % 0x1_0000;
    assert hi / 0x100 == v / 0x100_0000 && lo / 0x100 == v / 0x100 % 0x100 && lo % 0x100 == v % 0x100;
    assert PutUint32(v) == [hi / 0x100, hi % 0x100, lo / 0x100, lo % 0x100];
  }

  /** The octets of a number cut to 16 bits. */
  lemma LowHalf(n: nat, q: nat, r: uint16)
    requires n == q * 0x1_0000 + r as int
    ensures PutUint16(r) == [n / 0x100 % 0x100, n % 0x100]
  {
    assert n / 0x100 == q * 0x100 + r / 0x100;
  }

  /** Reading a written 16-bit value gives it back, and writing a read one
      gives back the octets. */
  lemma Uint16Inverse(v: uint16, b: seq<byte>)
    requires |b| == 2
    ensures Uint16(PutUint16(v)) == v
    ensures PutUint16(Uint16(b)) == b
  {
  }

  lemma Uint32Inverse(v: uint32, b: seq<byte>)
    requires |b| == 4
    ensures Uint32(PutUint32(v)) == v
    ensures PutUint32(Uint32(b)) == b
  {
    assert PutUint32(v)[..2] == PutUint16(v / 0x1_0000);
    assert PutUint32(v)[2..] == PutUint16(v % 0x1_0000);
    Uint16Inverse(v / 0x1_0000, b[..2]);
    Uint16Inverse(v % 0x1_0000, b[2..]);
    assert b == b[..2] + b[2..];
  }

  /** The result of a parsing loop that has parsed `xs` and gets `r` for what is
      left of the input. */
  ghost function Prepend<T, E>(xs: seq<T>, r: Result<seq<T>, E>): Result<seq<T>, E> {
    match r
    case Err(e) => Err(e)
    case Ok(more) => Ok(xs + more)
  }

  lemma PrependNothing<T, E>(r: Result<seq<T>, E>)
    ensures Prepend([], r) == r
  {
    if r.Ok? {
      assert [] + r.value == r.value;
    }
  }

  lemma PrependOne<T, E>(xs: seq<T>, x: T, r: Result<seq<T>, E>)
    ensures Prepend(xs, Prepend([x], r)) == Prepend(xs + [x], r)
  {
    if r.Ok? {
      assert xs + ([x] + r.value) == xs + [x] + r.value;
    }
  }

  /** The same for a loop that may also panic. */
  ghost function Behind<T, E>(xs: seq<T>, r: Outcome<seq<T>, E>): Outcome<seq<T>, E> {
    match r
    case Fail(e) => Fail(e)
    case Panic => Panic
    case Done(more) => Done(xs + more)
  }

  lemma BehindNothing<T, E>(r: Outcome<seq<T>, E>)
    ensures Behind([], r) == r
  {
    if r.Done? {
      assert [] + r.value == r.value;
    }
  }

  lemma BehindMore<T, E>(xs: seq<T>, ys: seq<T>, r: Outcome<seq<T>, E>)
    ensures Behind(xs, Behind(ys, r)) == Behind(xs + ys, r)
  {
    if r.Done? {
      assert xs + (ys + r.value) == xs + ys + r.value;
    }
  }

  /** `n` octets of a freshly made buffer. */
  function Zeros(n: nat): (b: seq<byte>)
    ensures |b| == n
    ensures forall k :: 0 <= k < n ==> b[k] == 0
  {
    seq(n, _ => 0)
  }

  /** `s` with the octets `w` written over it from position `at` on. */
  function Overlay(s: seq<byte>, at: nat, w: seq<byte>): (r: seq<byte>)
    requires at + |w| <= |s|
    ensures |r| == |s|
    ensures r[at..at + |w|] == w
    ensures r[..at] == s[..at] && r[at + |w|..] == s[at + |w|..]
  {
    s[..at] + w + s[at + |w|..]
  }

  /** Writing two runs of octets one behind the other writes their
      concatenation. */
  lemma OverlayAppend(s: seq<byte>, at: nat, w: seq<byte>, x: seq<byte>)
    requires at + |w| + |x| <= |s|
    ensures Overlay(Overlay(s, at, w), at + |w|, x) == Overlay(s, at, w + x)
  {
    assert Overlay(s, at, w)[..at + |w|] == s[..at] + w;
  }

  /** A loop that has written `done` of `whole` goes on to write `e`. */
  lemma Advance(whole: seq<byte>, done: seq<byte>, e: seq<byte>, rest: seq<byte>)
    requires whole == done + (e + rest)
    ensures whole == done + e + rest
  {
  }

  /** Octets that are skipped are octets written as they were. */
  lemma OverlayKeeps(s: seq<byte>, at: nat, w: seq<byte>, x: seq<byte>)
    requires at + |w| + |x| <= |s| && s[at + |w|..at + |w| + |x|] == x
    ensures Overlay(s, at, w + x) == Overlay(s, at, w)
  {
  }

  /** `copy(b[at:], data)` for data that fits. */
  method Copy(b: array<byte>, at: nat, data: seq<byte>)
    requires at + |data| <= b.Length
    modifies b
    ensures b[..] == Overlay(old(b[..]), at, data)
  {
    forall k | 0 <= k < |data| {
      b[at + k] := data[k];
    }
  }
}
