/** How the Create PDP Context Requests of GTPv0 and GTPv1 keep their IEs: one
    field ("slot") for each type the message knows, taken here as an index into
    a table in the order in which the message writes its fields, and a list of
    additional IEs for the rest. */
module IESlots {
  import opened Octets
  import opened TvTlv

  datatype Fields = Fields(slots: seq<Option<IE>>, additional: seq<IE>)

  /** The type each field holds, in marshalling order.  GSN Address has two
      fields in both versions (for signalling and for user traffic), NSAPI two
      in GTPv1 (NSAPI and Linked NSAPI). */
  function Table(v: Version): seq<byte> {
    match v
    case V0 => [3, 6, 14, 15, 16, 17, 128, 131, 132, 133, 133, 134, 255]
    case V1 =>
      [2, 3, 14, 15, 16, 17, 20, 20, 26, 27, 28, 128, 131, 132, 133, 133, 134, 135, 137, 142, 143, 148, 149, 151,
       152, 153, 154, 155, 162, 183, 191, 193, 194, 198, 203, 216, 223, 224, 255]
  }

  lemma TableSteps(v: Version, k: nat)
    requires k + 1 < |Table(v)|
    ensures Table(v)[k] <= Table(v)[k + 1]
  {
    var table := Table(v);
    assert k < 12 ==> table[k] <= table[k + 1];
  }

  lemma TableSkips(v: Version, k: nat)
    requires k + 2 < |Table(v)|
    ensures Table(v)[k] < Table(v)[k + 2]
  {
  }

  predicate PairsOnly(table: seq<byte>) {
    forall i, j :: 0 <= i < j < |table| && table[i] == table[j] ==> j == i + 1
  }

  lemma {:induction false} EqualMeansNeighbours(table: seq<byte>, i: nat, j: nat)
    requires forall k :: 0 <= k < |table| - 1 ==> table[k] <= table[k + 1]
    requires forall k :: 0 <= k < |table| - 2 ==> table[k] < table[k + 2]
    requires i < j < |table|
    ensures table[i] <= table[j]
    ensures table[i] == table[j] ==> j == i + 1
    decreases j
  {
    if j > i + 1 {
      assert table[j - 2] < table[j - 2 + 2];
      if j > i + 2 {
        EqualMeansNeighbours(table, i, j - 2);
      }
    } else {
      assert table[i] <= table[i + 1];
    }
  }

  /** A type has at most two fields, next to each other. */
  lemma TablesArePairsOnly(v: Version)
    ensures PairsOnly(Table(v))
  {
    var table := Table(v);
    forall k | 0 <= k < |table| - 1 ensures table[k] <= table[k + 1] { TableSteps(v, k); }
    forall k | 0 <= k < |table| - 2 ensures table[k] < table[k + 2] { TableSkips(v, k); }
    forall i, j | 0 <= i < j < |table| && table[i] == table[j] ensures j == i + 1 {
      EqualMeansNeighbours(table, i, j);
    }
  }

  /** First field for the type; the table's length if there is none. */
  function Slot(table: seq<byte>, typ: byte): (k: nat)
    ensures k <= |table| && (k < |table| ==> table[k] == typ)
    ensures forall j :: 0 <= j < k ==> table[j] != typ
  {
    if table == [] || table[0] == typ then 0 else 1 + Slot(table[1..], typ)
  }

  predicate Paired(table: seq<byte>, k: nat) {
    k + 1 < |table| && table[k] == table[k + 1]
  }

  /** Whether a third IE of a two-field type joins the additional IEs (GTPv1) or
      replaces the second (GTPv0). */
  predicate KeepsThird(v: Version) {
    v == V1
  }

  /** One round of the constructor's, and of the parser's, switch. */
  function Place(table: seq<byte>, keep: bool, f: Fields, i: IE): (g: Fields)
    requires |f.slots| == |table|
    ensures |g.slots| == |table|
  {
    var k := Slot(table, i.typ);
    if k == |table| then f.(additional := f.additional + [i])
    else if !Paired(table, k) || f.slots[k].None? then f.(slots := f.slots[k := Some(i)])
    else if keep && f.slots[k + 1].Some? then f.(additional := f.additional + [i])
    else f.(slots := f.slots[k + 1 := Some(i)])
  }

  function PlaceAll(table: seq<byte>, keep: bool, f: Fields, ies: seq<IE>): (g: Fields)
    requires |f.slots| == |table|
    ensures |g.slots| == |table|
    decreases |ies|
  {
    if ies == [] then f else PlaceAll(table, keep, Place(table, keep, f, ies[0]), ies[1..])
  }

  function Empty(n: nat): Fields {
    Fields(seq(n, _ => None), [])
  }

  function Build(v: Version, ies: seq<IE>): (f: Fields)
    ensures |f.slots| == |Table(v)|
  {
    PlaceAll(Table(v), KeepsThird(v), Empty(|Table(v)|), ies)
  }

  lemma BuildFromNothing(v: Version, ies: seq<IE>)
    ensures PlaceAll(Table(v), KeepsThird(v), Build(v, []), ies) == Build(v, ies)
  {
  }

  /** The order in which `MarshalTo` writes. */
  function Canonical(f: Fields): seq<IE> {
    Present(f.slots) + f.additional
  }

  /** What every message built or parsed satisfies: fields hold their own type,
      the second of a pair is used only after the first, and an additional IE is
      one for which no field was left. */
  predicate Settled(table: seq<byte>, keep: bool, f: Fields) {
    && |f.slots| == |table|
    && (forall k :: 0 <= k < |table| && f.slots[k].Some? ==> f.slots[k].value.typ == table[k])
    && (forall k :: 0 <= k < |table| && Paired(table, k) && f.slots[k].None? ==> f.slots[k + 1].None?)
    && (forall i :: i in f.additional ==> Overflows(table, keep, f, i))
  }

  predicate Overflows(table: seq<byte>, keep: bool, f: Fields, i: IE)
    requires |f.slots| == |table|
  {
    var k := Slot(table, i.typ);
    k == |table| || (keep && Paired(table, k) && f.slots[k].Some? && f.slots[k + 1].Some?)
  }

  lemma PlaceSettles(table: seq<byte>, keep: bool, f: Fields, i: IE)
    requires PairsOnly(table) && Settled(table, keep, f)
    ensures Settled(table, keep, Place(table, keep, f, i))
  {
    var g := Place(table, keep, f, i);
    forall j | j in g.additional ensures Overflows(table, keep, g, j) {
      assert j == i || Overflows(table, keep, f, j);
    }
  }

  lemma {:induction false} PlaceAllSettles(table: seq<byte>, keep: bool, f: Fields, ies: seq<IE>)
    requires PairsOnly(table) && Settled(table, keep, f)
    ensures Settled(table, keep, PlaceAll(table, keep, f, ies))
    decreases |ies|
  {
    if ies != [] {
      PlaceSettles(table, keep, f, ies[0]);
      PlaceAllSettles(table, keep, Place(table, keep, f, ies[0]), ies[1..]);
    }
  }

  lemma BuildSettles(v: Version, ies: seq<IE>)
    ensures Settled(Table(v), KeepsThird(v), Build(v, ies))
  {
    TablesArePairsOnly(v);
    PlaceAllSettles(Table(v), KeepsThird(v), Empty(|Table(v)|), ies);
  }

  lemma {:induction false} PlaceAllAppend(table: seq<byte>, keep: bool, f: Fields, xs: seq<IE>, ys: seq<IE>)
    requires |f.slots| == |table|
    ensures PlaceAll(table, keep, f, xs + ys) == PlaceAll(table, keep, PlaceAll(table, keep, f, xs), ys)
    decreases |xs|
  {
    if xs == [] {
      assert xs + ys == ys;
    } else {
      assert (xs + ys)[1..] == xs[1..] + ys;
      PlaceAllAppend(table, keep, Place(table, keep, f, xs[0]), xs[1..], ys);
    }
  }

  /** The first `k` fields of `f`, the others empty. */
  function Upto(f: Fields, k: nat): Fields
    requires k <= |f.slots|
  {
    Fields(f.slots[..k] + seq(|f.slots| - k, _ => None), [])
  }

  /** Writing the fields in order and placing them again refills them one by
      one. */
  lemma {:induction false} PlacePresent(table: seq<byte>, keep: bool, f: Fields, k: nat)
    requires PairsOnly(table) && Settled(table, keep, f) && k <= |table|
    ensures PlaceAll(table, keep, Upto(f, k), Present(f.slots[k..])) == Upto(f, |table|)
    decreases |table| - k
  {
    if k < |table| {
      PresentStep(f.slots, k);
      PlacePresent(table, keep, f, k + 1);
      PlaceSlot(table, keep, f, k, Present(f.slots[k..]), Present(f.slots[k + 1..]));
    }
  }

  lemma PlaceSlot(table: seq<byte>, keep: bool, f: Fields, k: nat, ies: seq<IE>, rest: seq<IE>)
    requires PairsOnly(table) && Settled(table, keep, f) && k < |table|
    requires ies == if f.slots[k].Some? then [f.slots[k].value] + rest else rest
    ensures PlaceAll(table, keep, Upto(f, k), ies) == PlaceAll(table, keep, Upto(f, k + 1), rest)
  {
    if f.slots[k].Some? {
      PlaceNext(table, keep, f, k);
      assert ies[1..] == rest;
    } else {
      assert Upto(f, k).slots == Upto(f, k + 1).slots;
    }
  }

  lemma PresentStep(slots: seq<Option<IE>>, k: nat)
    requires k < |slots|
    ensures Present(slots[k..])
      == if slots[k].Some? then [slots[k].value] + Present(slots[k + 1..]) else Present(slots[k + 1..])
  {
    assert slots[k..][0] == slots[k] && slots[k..][1..] == slots[k + 1..];
  }

  lemma PlaceNext(table: seq<byte>, keep: bool, f: Fields, k: nat)
    requires PairsOnly(table) && Settled(table, keep, f) && k < |table| && f.slots[k].Some?
    ensures Place(table, keep, Upto(f, k), f.slots[k].value) == Upto(f, k + 1)
  {
    var j := Slot(table, table[k]);
    assert j == k || (j + 1 == k && Paired(table, j));
    assert Upto(f, k).slots[k := f.slots[k]] == Upto(f, k + 1).slots;
  }

  lemma {:induction false} PlaceAdditional(table: seq<byte>, keep: bool, f: Fields, k: nat)
    requires Settled(table, keep, f) && k <= |f.additional|
    ensures PlaceAll(table, keep, f.(additional := f.additional[..k]), f.additional[k..]) == f
    decreases |f.additional| - k
  {
    var g := f.(additional := f.additional[..k]);
    if k < |f.additional| {
      var i := f.additional[k];
      assert Overflows(table, keep, f, i);
      assert f.additional[k..][1..] == f.additional[k + 1..];
      assert f.additional[..k] + [i] == f.additional[..k + 1];
      PlaceAdditional(table, keep, f, k + 1);
    } else {
      assert f.additional[..k] == f.additional;
    }
  }

  /** Written out in canonical order and taken in again, a settled message comes
      back with the same IE in every field and the same additional IEs. */
  lemma CanonicalRebuilds(v: Version, f: Fields)
    requires Settled(Table(v), KeepsThird(v), f)
    ensures Build(v, Canonical(f)) == f
  {
    var table, keep := Table(v), KeepsThird(v);
    TablesArePairsOnly(v);
    assert Empty(|table|).slots == Upto(f, 0).slots;
    assert f.slots[0..] == f.slots;
    PlacePresent(table, keep, f, 0);
    PlaceAllAppend(table, keep, Empty(|table|), Present(f.slots), f.additional);
    assert Upto(f, |table|).slots == f.slots;
    PlaceAdditional(table, keep, f, 0);
    assert f.additional[0..] == f.additional;
  }

  /** The IEs of one type, in order. */
  function OfType(ies: seq<IE>, typ: byte): seq<IE> {
    if ies == [] then []
    else
      var last := ies[|ies| - 1];
      OfType(ies[..|ies| - 1], typ) + if last.typ == typ then [last] else []
  }

  /** What a field is meant to hold, given all IEs of its type: the last one,
      and for a pair the first one and then the second (GTPv1) or the last one
      after the first (GTPv0). */
  function FieldValue(table: seq<byte>, keep: bool, k: nat, same: seq<IE>): Option<IE>
    requires k < |table|
  {
    if Paired(table, k) then
      if same == [] then None else Some(same[0])
    else if 0 < k && Paired(table, k - 1) then
      if |same| < 2 then None else Some(if keep then same[1] else same[|same| - 1])
    else
      if same == [] then None else Some(same[|same| - 1])
  }

  /** The IEs no field is meant for, in order: unknown types and, where kept,
      third and later ones of a paired type. */
  function Extras(table: seq<byte>, keep: bool, ies: seq<IE>): seq<IE> {
    if ies == [] then []
    else
      var before, last := ies[..|ies| - 1], ies[|ies| - 1];
      var k := Slot(table, last.typ);
      var extra := k == |table| || (keep && Paired(table, k) && |OfType(before, last.typ)| >= 2);
      Extras(table, keep, before) + if extra then [last] else []
  }

  /** Building a message puts exactly those IEs into each field and the rest
      into the additional ones, for every list of IEs. */
  lemma BuildHolds(v: Version, ies: seq<IE>)
    ensures forall k :: 0 <= k < |Table(v)| ==>
      Build(v, ies).slots[k] == FieldValue(Table(v), KeepsThird(v), k, OfType(ies, Table(v)[k]))
    ensures Build(v, ies).additional == Extras(Table(v), KeepsThird(v), ies)
  {
    TablesArePairsOnly(v);
    PlaceAllHolds(Table(v), KeepsThird(v), ies);
  }

  predicate Holds(table: seq<byte>, keep: bool, f: Fields, ies: seq<IE>) {
    && |f.slots| == |table|
    && (forall k :: 0 <= k < |table| ==> f.slots[k] == FieldValue(table, keep, k, OfType(ies, table[k])))
    && f.additional == Extras(table, keep, ies)
  }

  lemma {:induction false} PlaceAllHolds(table: seq<byte>, keep: bool, ies: seq<IE>)
    requires PairsOnly(table)
    ensures Holds(table, keep, PlaceAll(table, keep, Empty(|table|), ies), ies)
    decreases |ies|
  {
    if ies != [] {
      var before, last := ies[..|ies| - 1], ies[|ies| - 1];
      assert ies == before + [last];
      PlaceAllHolds(table, keep, before);
      PlaceAllAppend(table, keep, Empty(|table|), before, [last]);
      PlaceHolds(table, keep, PlaceAll(table, keep, Empty(|table|), before), before, last);
      PlaceOne(table, keep, PlaceAll(table, keep, Empty(|table|), before), last);
    }
  }

  lemma PlaceOne(table: seq<byte>, keep: bool, f: Fields, i: IE)
    requires |f.slots| == |table|
    ensures PlaceAll(table, keep, f, [i]) == Place(table, keep, f, i)
  {
    assert [i][1..] == [];
  }

  lemma OfTypeLast(ies: seq<IE>, i: IE, typ: byte)
    ensures OfType(ies + [i], typ) == OfType(ies, typ) + if i.typ == typ then [i] else []
  {
    assert (ies + [i])[..|ies|] == ies;
  }

  lemma PlaceHolds(table: seq<byte>, keep: bool, f: Fields, ies: seq<IE>, i: IE)
    requires PairsOnly(table) && Holds(table, keep, f, ies)
    ensures Holds(table, keep, Place(table, keep, f, i), ies + [i])
  {
    var g := Place(table, keep, f, i);
    assert (ies + [i])[..|ies|] == ies;
    forall k | 0 <= k < |table| ensures g.slots[k] == FieldValue(table, keep, k, OfType(ies + [i], table[k])) {
      OfTypeLast(ies, i, table[k]);
      PlaceHoldsAt(table, keep, f, ies, i, k);
    }
  }

  lemma PlaceHoldsAt(table: seq<byte>, keep: bool, f: Fields, ies: seq<IE>, i: IE, k: nat)
    requires PairsOnly(table) && Holds(table, keep, f, ies) && k < |table|
    ensures Place(table, keep, f, i).slots[k]
      == FieldValue(table, keep, k, OfType(ies, table[k]) + if i.typ == table[k] then [i] else [])
  {
    var j := Slot(table, i.typ);
    if table[k] == i.typ {
      assert k == j || (k == j + 1 && Paired(table, j));
      assert f.slots[j] == FieldValue(table, keep, j, OfType(ies, i.typ));
    } else {
      assert OfType(ies, table[k]) + [] == OfType(ies, table[k]);
    }
  }

  lemma {:induction false} PresentUpdate(v: Version, slots: seq<Option<IE>>, k: nat, i: IE)
    requires k < |slots|
    ensures LenAll(v, Present(slots[k := Some(i)])) <= LenAll(v, Present(slots)) + Len(v, i)
    ensures forall j :: j in Present(slots[k := Some(i)]) ==> j == i || j in Present(slots)
  {
    var after := slots[k := Some(i)];
    var head, rest := if slots[0].Some? then [slots[0].value] else [], Present(slots[1..]);
    LenAllAppend(v, head, rest);
    if k == 0 {
      assert after[1..] == slots[1..];
      LenAllAppend(v, [i], rest);
    } else {
      assert after[1..] == slots[1..][k - 1 := Some(i)];
      PresentUpdate(v, slots[1..], k - 1, i);
      LenAllAppend(v, head, Present(after[1..]));
    }
  }

  predicate NoLonger(v: Version, g: Fields, f: Fields, i: IE) {
    && LenAll(v, Canonical(g)) <= LenAll(v, Canonical(f)) + Len(v, i)
    && forall j :: j in Canonical(g) ==> j == i || j in Canonical(f)
  }

  lemma FieldShrinks(v: Version, f: Fields, k: nat, i: IE)
    requires k < |f.slots|
    ensures NoLonger(v, f.(slots := f.slots[k := Some(i)]), f, i)
  {
    LenAllAppend(v, Present(f.slots), f.additional);
    LenAllAppend(v, Present(f.slots[k := Some(i)]), f.additional);
    PresentUpdate(v, f.slots, k, i);
  }

  lemma ExtraShrinks(v: Version, f: Fields, i: IE)
    ensures NoLonger(v, f.(additional := f.additional + [i]), f, i)
  {
    assert Canonical(f.(additional := f.additional + [i])) == Canonical(f) + [i];
    LenAllAppend(v, Canonical(f), [i]);
    assert [i][1..] == [];
  }

  lemma PlaceShrinks(v: Version, table: seq<byte>, keep: bool, f: Fields, i: IE)
    requires |f.slots| == |table|
    ensures NoLonger(v, Place(table, keep, f, i), f, i)
  {
    var k := Slot(table, i.typ);
    ExtraShrinks(v, f, i);
    if k < |table| {
      FieldShrinks(v, f, k, i);
      if Paired(table, k) {
        FieldShrinks(v, f, k + 1, i);
      }
    }
  }

  /** The canonical form of a list is never longer than the list, and holds no
      IE that was not in it. */
  lemma {:induction false} CanonicalIsNoLonger(v: Version, ies: seq<IE>)
    ensures LenAll(v, Canonical(Build(v, ies))) <= LenAll(v, ies)
    ensures forall i :: i in Canonical(Build(v, ies)) ==> i in ies
    decreases |ies|
  {
    var table, keep := Table(v), KeepsThird(v);
    if ies == [] {
      NothingPresent(|table|);
    } else {
      var before, last := ies[..|ies| - 1], ies[|ies| - 1];
      assert ies == before + [last];
      CanonicalIsNoLonger(v, before);
      PlaceAllAppend(table, keep, Empty(|table|), before, [last]);
      PlaceOne(table, keep, Build(v, before), last);
      PlaceShrinks(v, table, keep, Build(v, before), last);
      LenAllAppend(v, before, [last]);
      assert [last][1..] == [];
    }
  }

  lemma {:induction false} NothingPresent(n: nat)
    ensures Canonical(Empty(n)) == []
    decreases n
  {
    if n > 0 {
      NothingPresent(n - 1);
      assert Empty(n).slots[1..] == Empty(n - 1).slots;
    }
  }

  /* ---- by type number ---- */

  /** The types a message has a field for, by number. */
  predicate Known(v: Version, typ: byte) {
    match v
    case V0 => typ in {3, 6, 14, 15, 16, 17, 128, 131, 132, 133, 134, 255}
    case V1 =>
      typ in {2, 3, 14, 15, 16, 17, 20, 26, 27, 28, 128, 131, 132, 133, 134, 135, 137, 142, 143, 148, 149, 151, 152,
              153, 154, 155, 162, 183, 191, 193, 194, 198, 203, 216, 223, 224, 255}
  }

  /** Those it has two fields for. */
  predicate Double(v: Version, typ: byte) {
    match v
    case V0 => typ == 133
    case V1 => typ in {20, 133}
  }

  lemma TableKnows(v: Version, k: nat)
    requires k < |Table(v)|
    ensures Known(v, Table(v)[k])
  {
    var t := Table(v)[k];
    if k < 13 {
      assert Known(v, t);
    } else if k < 26 {
      assert Known(v, t);
    }
  }

  lemma KnownIsInTable(v: Version, typ: byte)
    requires Known(v, typ)
    ensures typ in Table(v)
  {
  }

  lemma DoubleIff(v: Version, k: nat)
    requires k < |Table(v)|
    ensures Paired(Table(v), k) ==> Double(v, Table(v)[k])
    ensures Double(v, Table(v)[k]) ==> Paired(Table(v), k) || (k > 0 && Paired(Table(v), k - 1))
  {
    var table := Table(v);
    if k < 13 {
      assert Paired(table, k) ==> Double(v, table[k]);
    } else if k < 26 {
      assert Paired(table, k) ==> Double(v, table[k]);
    }
  }

  lemma {:induction false} PresentOne(n: nat, a: nat, i: IE)
    requires a < n
    ensures Present(Empty(n).slots[a := Some(i)]) == [i]
    decreases n
  {
    var s := Empty(n).slots[a := Some(i)];
    if a > 0 {
      assert s[1..] == Empty(n - 1).slots[a - 1 := Some(i)];
      PresentOne(n - 1, a - 1, i);
    } else {
      assert s[1..] == Empty(n - 1).slots;
      NothingPresent(n - 1);
      assert Present(s[1..]) + [] == Canonical(Empty(n - 1));
    }
  }

  lemma {:induction false} PresentTwo(n: nat, a: nat, b: nat, i: IE, j: IE)
    requires a < b < n
    ensures Present(Empty(n).slots[a := Some(i)][b := Some(j)]) == [i, j]
    decreases n
  {
    var s := Empty(n).slots[a := Some(i)][b := Some(j)];
    if a > 0 {
      assert s[1..] == Empty(n - 1).slots[a - 1 := Some(i)][b - 1 := Some(j)];
      PresentTwo(n - 1, a - 1, b - 1, i, j);
    } else {
      assert s[1..] == Empty(n - 1).slots[b - 1 := Some(j)];
      PresentOne(n - 1, b - 1, j);
    }
  }

  /** The field for a type, and whether there is one, and a second one. */
  lemma SlotOf(v: Version, typ: byte) returns (k: nat)
    ensures k == Slot(Table(v), typ)
    ensures k < |Table(v)| <==> Known(v, typ)
    ensures k < |Table(v)| ==> (Paired(Table(v), k) <==> Double(v, typ))
  {
    k := Slot(Table(v), typ);
    if k < |Table(v)| {
      TableKnows(v, k);
      DoubleIff(v, k);
      if k > 0 {
        assert Table(v)[k - 1] != typ;
      }
    } else if Known(v, typ) {
      KnownIsInTable(v, typ);
    }
  }

  lemma SlotsOrdered(v: Version, i: byte, j: byte)
    requires i < j && Known(v, i) && Known(v, j)
    ensures Slot(Table(v), i) < Slot(Table(v), j) < |Table(v)|
  {
    var a := SlotOf(v, i);
    var b := SlotOf(v, j);
    if b <= a {
      TablesAscend(v, b, a);
    }
  }

  lemma TablesAscend(v: Version, i: nat, j: nat)
    requires i <= j < |Table(v)|
    ensures Table(v)[i] <= Table(v)[j]
  {
    var table := Table(v);
    forall k | 0 <= k < |table| - 1 ensures table[k] <= table[k + 1] { TableSteps(v, k); }
    forall k | 0 <= k < |table| - 2 ensures table[k] < table[k + 2] { TableSkips(v, k); }
    if i < j {
      EqualMeansNeighbours(table, i, j);
    }
  }

  /** A single IE goes into a field if its type is one of those, and is written
      again; otherwise it is additional. */
  lemma OneIE(v: Version, i: IE)
    ensures Canonical(Build(v, [i])) == [i]
    ensures Build(v, [i]).additional == if Known(v, i.typ) then [] else [i]
  {
    var k := SlotOf(v, i.typ);
    var n := |Table(v)|;
    PlaceOne(Table(v), KeepsThird(v), Empty(n), i);
    if k < n {
      PresentOne(n, k, i);
    } else {
      NothingPresent(n);
    }
  }

  lemma PlacedTwo(table: seq<byte>, keep: bool, f: Fields, i: IE, j: IE)
    requires |f.slots| == |table|
    ensures PlaceAll(table, keep, f, [i, j]) == Place(table, keep, Place(table, keep, f, i), j)
  {
    assert [i, j][0] == i && [i, j][1..] == [j];
    PlaceOne(table, keep, Place(table, keep, f, i), j);
  }

  /** The two IEs as the fields `a` and `b` take them. */
  lemma TwoWritten(table: seq<byte>, keep: bool, n: nat, i: IE, j: IE, a: nat, b: nat)
    requires n == |table| && a == Slot(table, i.typ) < n && b == Slot(table, j.typ) < n
    ensures var g := PlaceAll(table, keep, Empty(n), [i, j]);
      && g.additional == []
      && (a < b ==> Canonical(g) == [i, j])
      && (a > b ==> Canonical(g) == [j, i])
      && (a == b ==> Canonical(g) == if Paired(table, a) then [i, j] else [j])
  {
    var e := Empty(n).slots;
    PlacedTwo(table, keep, Empty(n), i, j);
    if a < b {
      PresentTwo(n, a, b, i, j);
    } else if a > b {
      PresentTwo(n, b, a, j, i);
      assert e[a := Some(i)][b := Some(j)] == e[b := Some(j)][a := Some(i)];
    } else if Paired(table, a) {
      PresentTwo(n, a, a + 1, i, j);
    } else {
      PresentOne(n, a, j);
      assert e[a := Some(i)][a := Some(j)] == e[a := Some(j)];
    }
  }

  lemma ThreeWritten(table: seq<byte>, keep: bool, n: nat, i: IE, j: IE, k: IE, a: nat)
    requires n == |table| && a == Slot(table, i.typ) < n && Paired(table, a) && i.typ == j.typ == k.typ
    ensures var g := PlaceAll(table, keep, Empty(n), [i, j, k]);
      if keep then g.additional == [k] && Canonical(g) == [i, j, k] else g.additional == [] && Canonical(g) == [i, k]
  {
    var e := Empty(n).slots;
    assert [i, j, k] == [i, j] + [k];
    PlaceAllAppend(table, keep, Empty(n), [i, j], [k]);
    PlacedTwo(table, keep, Empty(n), i, j);
    PlaceOne(table, keep, PlaceAll(table, keep, Empty(n), [i, j]), k);
    PresentTwo(n, a, a + 1, i, j);
    PresentTwo(n, a, a + 1, i, k);
    assert e[a := Some(i)][a + 1 := Some(j)][a + 1 := Some(k)] == e[a := Some(i)][a + 1 := Some(k)];
  }

  /** IEs of two such types are written in the order of the type numbers, however
      they were given; of two of one type the second replaces the first, unless
      it has two fields. */
  lemma TwoIEs(v: Version, i: IE, j: IE)
    requires Known(v, i.typ) && Known(v, j.typ)
    ensures Build(v, [i, j]).additional == []
    ensures i.typ < j.typ ==> Canonical(Build(v, [i, j])) == [i, j]
    ensures i.typ > j.typ ==> Canonical(Build(v, [i, j])) == [j, i]
    ensures i.typ == j.typ ==> Canonical(Build(v, [i, j])) == if Double(v, i.typ) then [i, j] else [j]
  {
    var a := SlotOf(v, i.typ);
    var b := SlotOf(v, j.typ);
    TwoWritten(Table(v), KeepsThird(v), |Table(v)|, i, j, a, b);
    if i.typ < j.typ {
      SlotsOrdered(v, i.typ, j.typ);
    } else if i.typ > j.typ {
      SlotsOrdered(v, j.typ, i.typ);
    }
  }

  /** A third one of a type with two fields is additional in GTPv1, and replaces
      the second in GTPv0. */
  lemma ThreeIEs(v: Version, i: IE, j: IE, k: IE)
    requires i.typ == j.typ == k.typ && Double(v, i.typ)
    ensures v == V1 ==> Build(v, [i, j, k]).additional == [k] && Canonical(Build(v, [i, j, k])) == [i, j, k]
    ensures v == V0 ==> Build(v, [i, j, k]).additional == [] && Canonical(Build(v, [i, j, k])) == [i, k]
  {
    var a := SlotOf(v, i.typ);
    ThreeWritten(Table(v), KeepsThird(v), |Table(v)|, i, j, k, a);
  }
}
