/** The sequence counter of a GTPv2 connection: 24 bits kept in 32, incremented
    before a message is sent and decremented again when that fails. */
module Sequence {
  import opened Octets

  const MODULUS := 0x100_0000

  function Inc(s: uint32): uint32 {
    var n := (s + 1) % 0x1_0000_0000;
    if n > 0xff_ffff then 0 else n
  }

  /** No such reset on the way down: zero becomes 0xffffffff. */
  function Dec(s: uint32): uint32 {
    (s as int - 1) % 0x1_0000_0000
  }

  /** One call of `SendMessageTo`: encoding and writing succeed or they do not. */
  function Send(s: uint32, ok: bool): uint32 {
    if ok then Inc(s) else Dec(Inc(s))
  }

  /** The counter of a new connection after sends with the given outcomes. */
  function Counter(run: seq<bool>): uint32 {
    if run == [] then 0 else Send(Counter(run[..|run| - 1]), run[|run| - 1])
  }

  /** The numbers carried by the messages that went out. */
  function Sent(run: seq<bool>): seq<uint32> {
    if run == [] then []
    else
      var before := run[..|run| - 1];
      Sent(before) + if run[|run| - 1] then [Inc(Counter(before))] else []
  }

  /** The counter after `n` messages have gone out, where `undone` says that the
      last send failed. */
  function Expected(n: nat, undone: bool): uint32 {
    if n % MODULUS == 0xff_ffff && undone then 0xffff_ffff else n % MODULUS
  }

  lemma NextNumber(n: nat, undone: bool)
    ensures Inc(Expected(n, undone)) == (n + 1) % MODULUS
    ensures Send(Expected(n, undone), false) == Expected(n, true)
    ensures Send(Expected(n, undone), true) == Expected(n + 1, false)
  {
    if n % MODULUS == 0xff_ffff {
      assert (n + 1) % MODULUS == 0;
    } else {
      assert (n + 1) % MODULUS == n % MODULUS + 1;
    }
  }

  /** Whatever fails and whenever: the j-th message to go out, counted from 1,
      carries j modulo 2^24.  The counter itself is the number of messages sent
      modulo 2^24, except that a failure at the wrap leaves 0xffffffff. */
  lemma {:induction false} SentNumbers(run: seq<bool>)
    ensures forall j :: 0 <= j < |Sent(run)| ==> Sent(run)[j] == (j + 1) % 0x100_0000
    ensures Counter(run) == Expected(|Sent(run)|, run != [] && !run[|run| - 1])
  {
    if run != [] {
      var before := run[..|run| - 1];
      SentNumbers(before);
      NextNumber(|Sent(before)|, before != [] && !before[|before| - 1]);
    }
  }

  /** After a send that succeeds the counter is the number used; after one that
      fails it is what it was, except that 2^24 - 1 becomes 2^32 - 1. */
  lemma SendCounts(n: nat, undone: bool)
    ensures var s := Expected(n, undone);
      && Send(s, true) as int == (n + 1) % 0x100_0000
      && Send(s, false) as int == if n % 0x100_0000 == 0xff_ffff then 0xffff_ffff else n % 0x100_0000
  {
    NextNumber(n, undone);
  }

  /** Two messages carry the same number exactly when a multiple of 2^24
      messages lies between them. */
  lemma SameNumberIff(run: seq<bool>, i: nat, j: nat)
    requires i <= j < |Sent(run)|
    ensures Sent(run)[i] == Sent(run)[j] <==> (j - i) % 0x100_0000 == 0
  {
    SentNumbers(run);
    var m, n := Sent(run)[i], Sent(run)[j];
    SameResidueIff(i + 1, j - i, m, n);
  }

  lemma SameResidueIff(a: nat, d: nat, m: nat, n: nat)
    requires m == a % MODULUS && n == (a + d) % MODULUS
    ensures m == n <==> d % MODULUS == 0
  {
    var p, q, r := a / MODULUS, (a + d) / MODULUS, d / MODULUS;
    assert d == MODULUS * (q - p) + (n - m);
    assert d == MODULUS * r + d % MODULUS;
  }

  /** `SequenceNumber` promises the last number used.  It is that one, as soon
      as there is one, unless the last send failed at the wrap. */
  lemma CounterIsLastUsedIff(run: seq<bool>)
    requires Sent(run) != []
    ensures Counter(run) == Sent(run)[|Sent(run)| - 1] <==>
      !(Sent(run)[|Sent(run)| - 1] == 0xff_ffff && !run[|run| - 1])
  {
    SentNumbers(run);
  }
}
