/** The EPC Timer IE (section 8.87 of TS 29.274): a duration in one octet, three
    bits of unit and five of value.  Durations are 64-bit nanoseconds. */
module EpcTimer {
  import opened Octets

  type duration = x: int | -0x8000_0000_0000_0000 <= x < 0x8000_0000_0000_0000

  const SECOND: int := 1_000_000_000
  const FOREVER: duration := 0x7fff_ffff_ffff_ffff

  /** The units from coarse to fine: 10 hours, 1 hour, 10 minutes, 1 minute, 2
      seconds, with their codes 4 to 0. */
  function Unit(code: nat): int
    requires code <= 4
  {
    var seconds :=
      if code == 4 then 36000 else if code == 3 then 3600 else if code == 2 then 600 else if code == 1 then 60 else 2;
    seconds * SECOND
  }

  /** `uint8(duration / unit)` keeps 8 bits of the quotient, `& 0x1f` five. */
  function Encode(d: duration): byte {
    if d % Unit(4) == 0 then 0x80 + d / Unit(4) % 0x100 % 0x20
    else if d % Unit(3) == 0 then 0x60 + d / Unit(3) % 0x100 % 0x20
    else if d % Unit(2) == 0 then 0x40 + d / Unit(2) % 0x100 % 0x20
    else if d % Unit(1) == 0 then 0x20 + d / Unit(1) % 0x100 % 0x20
    else if d % Unit(0) == 0 then d / Unit(0) % 0x100 % 0x20
    else 0xe0
  }

  function Decode(b: byte): duration {
    if b / 0x20 == 7 then FOREVER
    else if b / 0x20 <= 4 then b % 0x20 * Unit(b / 0x20)
    else 0
  }

  /** The code is that of the coarsest unit that divides the duration. */
  predicate Coarsest(d: duration, code: nat) {
    && code <= 4
    && d % Unit(code) == 0
    && forall c :: code < c <= 4 ==> d % Unit(c) != 0
  }

  /** What comes back is the number of coarsest units modulo 32. */
  lemma DecodeEncode(d: duration, code: nat)
    requires Coarsest(d, code)
    ensures Decode(Encode(d)) == d / Unit(code) % 32 * Unit(code)
  {
    assert d / Unit(code) % 0x100 % 0x20 == d / Unit(code) % 0x20;
  }

  /** So exactly the durations of 0 to 31 such units survive. */
  lemma SurvivesIff(d: duration, code: nat)
    requires Coarsest(d, code)
    ensures Decode(Encode(d)) == d <==> 0 <= d / Unit(code) <= 31
  {
    DecodeEncode(d, code);
    Multiples(d, Unit(code), Decode(Encode(d)));
  }

  lemma Multiples(d: int, u: int, e: int)
    requires u > 0 && d % u == 0 && e == d / u % 32 * u
    ensures e == d <==> 0 <= d / u <= 31
  {
    var q, r := d / u, d / u % 32;
    assert d == q * u;
    if r < q {
      assert (q - r) * u > 0;
    } else if r > q {
      assert (r - q) * u > 0;
    }
  }

  /** A duration that is no multiple of any unit is sent as infinite. */
  lemma NoUnit(d: duration)
    requires forall c :: 0 <= c <= 4 ==> d % Unit(c) != 0
    ensures Encode(d) == 0xe0 && Decode(Encode(d)) == FOREVER
  {
    assert d % Unit(0) != 0 && d % Unit(1) != 0 && d % Unit(2) != 0 && d % Unit(3) != 0 && d % Unit(4) != 0;
  }

  /** 33 minutes are sent as one minute. */
  lemma ThirtyThreeMinutes()
    ensures Decode(Encode(33 * 60 * SECOND)) == 60 * SECOND
  {
    DecodeEncode(33 * 60 * SECOND, 1);
  }

  /** What each octet means, in nanoseconds: units of 2 seconds, 1 minute, 10
      minutes, 1 hour and 10 hours, two units that are not used, and infinity. */
  lemma OctetMeans(n: byte)
    requires n < 32
    ensures Decode(n) == n * 2_000_000_000 && Decode(0x20 + n) == n * 60_000_000_000
    ensures Decode(0x40 + n) == n * 600_000_000_000 && Decode(0x60 + n) == n * 3_600_000_000_000
    ensures Decode(0x80 + n) == n * 36_000_000_000_000
    ensures Decode(0xa0 + n) == Decode(0xc0 + n) == 0 && Decode(0xe0 + n) == 0x7fff_ffff_ffff_ffff
  {
  }

  /** And which octet a duration becomes. */
  lemma EncodedOctet(d: duration, code: nat)
    requires Coarsest(d, code)
    ensures Encode(d) as int == code * 0x20 + d / Unit(code) % 0x20
  {
    FiveBits(d / Unit(code));
    assert Encode(d) as int == code * 0x20 + d / Unit(code) % 0x100 % 0x20;
  }

  /** A duration is sent as infinite exactly when it is no number of 2-second units. */
  lemma InfiniteIff(d: duration)
    ensures Encode(d) == 0xe0 <==> d % 2_000_000_000 != 0
    ensures d % 2_000_000_000 == 0 ==> exists code: nat :: Coarsest(d, code)
  {
    if d % 2_000_000_000 == 0 {
      var code := if d % Unit(4) == 0 then 4 else if d % Unit(3) == 0 then 3 else if d % Unit(2) == 0 then 2
        else if d % Unit(1) == 0 then 1 else 0;
      assert Coarsest(d, code);
    } else {
      WholeUnits(d);
    }
  }

  lemma WholeUnits(d: int)
    requires d % 2_000_000_000 != 0
    ensures d % 60_000_000_000 != 0 && d % 600_000_000_000 != 0
    ensures d % 3_600_000_000_000 != 0 && d % 36_000_000_000_000 != 0
  {
    if d % 60_000_000_000 == 0 {
      Coarser(d, 30, 60_000_000_000);
    } else if d % 600_000_000_000 == 0 {
      Coarser(d, 300, 600_000_000_000);
    } else if d % 3_600_000_000_000 == 0 {
      Coarser(d, 1_800, 3_600_000_000_000);
    } else if d % 36_000_000_000_000 == 0 {
      Coarser(d, 18_000, 36_000_000_000_000);
    }
  }

  lemma Coarser(d: int, n: nat, unit: int)
    requires n > 0 && unit == n * 2_000_000_000 && d % unit == 0
    ensures d % 2_000_000_000 == 0
  {
    assert d == d / unit * n * 2_000_000_000;
  }

  lemma FiveBits(q: int)
    ensures q % 0x100 % 0x20 == q % 0x20
  {
  }
}
