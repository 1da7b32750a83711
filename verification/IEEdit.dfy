/** Building and editing grouped IEs, as functions from trees to trees, and
    what a whole run of edits keeps. */
module IEEdit {
  import opened Octets
  import opened IETree

  /** The instance as `Instance()` reports it: the low four bits of the octet. */
  function Instance(t: Tree): byte {
    t.instance % 16
  }

  predicate Matches(t: Tree, typ: byte, instance: byte) {
    t.typ == typ && Instance(t) == instance
  }

  /** `New`: the length field wraps at 16 bits. */
  function New(typ: byte, instance: byte, data: seq<byte>): Tree {
    Tree(typ, |data| % 0x1_0000, instance % 16, data, [])
  }

  /** Payload and length field recomputed from the children.  `SetLength` always
      ends with the size of the payload. */
  function Refresh(t: Tree, children: seq<Tree>): Tree {
    var payload := EncodeAll(children);
    t.(children := children, payload := payload, length := |payload| % 0x1_0000)
  }

  /** `newGroupedIE`, which takes any type. */
  function NewGrouped(typ: byte, ies: seq<Tree>): Tree {
    Refresh(New(typ, 0, []), ies)
  }

  function Add(t: Tree, ies: seq<Tree>): Tree {
    if IsGrouped(t.typ) then Refresh(t, t.children + ies) else t
  }

  function Remove(t: Tree, typ: byte, instance: byte): Tree {
    if IsGrouped(t.typ) then Refresh(t, Without(t.children, typ, instance)) else t
  }

  /** The elements that do not match, in their order. */
  function Without(ts: seq<Tree>, typ: byte, instance: byte): (r: seq<Tree>)
    ensures |r| <= |ts|
    ensures forall u :: u in r <==> u in ts && !Matches(u, typ, instance)
  {
    if ts == [] then []
    else
      var rest := Without(ts[1..], typ, instance);
      if Matches(ts[0], typ, instance) then rest else [ts[0]] + rest
  }

  /** Position of the first element that matches. */
  function FirstMatch(ts: seq<Tree>, typ: byte, instance: byte): (r: Option<nat>)
    ensures match r
      case None => forall t :: t in ts ==> !Matches(t, typ, instance)
      case Some(k) =>
        && k < |ts| && Matches(ts[k], typ, instance)
        && forall j :: 0 <= j < k ==> !Matches(ts[j], typ, instance)
  {
    if ts == [] then None
    else if Matches(ts[0], typ, instance) then Some(0)
    else
      match FirstMatch(ts[1..], typ, instance)
      case None => None
      case Some(k) => Some(k + 1)
  }

  lemma {:induction false} WithoutAppend(ts: seq<Tree>, us: seq<Tree>, typ: byte, instance: byte)
    ensures Without(ts + us, typ, instance) == Without(ts, typ, instance) + Without(us, typ, instance)
  {
    if ts == [] {
      assert ts + us == us;
    } else {
      assert (ts + us)[1..] == ts[1..] + us;
      WithoutAppend(ts[1..], us, typ, instance);
    }
  }

  /** The three laws that make it the order-preserving filter: lists are taken
      apart anywhere, and a single element stays unless it matches. */
  lemma WithoutFilters(ts: seq<Tree>, us: seq<Tree>, t: Tree, typ: byte, instance: byte)
    ensures Without(ts + us, typ, instance) == Without(ts, typ, instance) + Without(us, typ, instance)
    ensures Without([t], typ, instance) == if t.typ == typ && t.instance % 16 == instance then [] else [t]
    ensures Without([], typ, instance) == []
    ensures t in Without(ts, typ, instance) <==> t in ts && !(t.typ == typ && t.instance % 16 == instance)
  {
    WithoutAppend(ts, us, typ, instance);
  }

  /** What a lookup finds is the first child with the type and the instance. */
  lemma FirstMatchIff(ts: seq<Tree>, typ: byte, instance: byte, k: nat)
    ensures FirstMatch(ts, typ, instance) == Some(k) <==>
      && k < |ts| && ts[k].typ == typ && ts[k].instance % 16 == instance
      && forall j :: 0 <= j < k ==> !(ts[j].typ == typ && ts[j].instance % 16 == instance)
    ensures FirstMatch(ts, typ, instance) == None <==>
      forall j :: 0 <= j < |ts| ==> !(ts[j].typ == typ && ts[j].instance % 16 == instance)
  {
    if k < |ts| && FirstMatch(ts, typ, instance).Some? {
      assert Matches(ts[k], typ, instance) <==> ts[k].typ == typ && ts[k].instance % 16 == instance;
    }
    if FirstMatch(ts, typ, instance) == None {
      forall j | 0 <= j < |ts| ensures !(ts[j].typ == typ && ts[j].instance % 16 == instance) {
        assert ts[j] in ts;
      }
    }
  }

  /** The children of one type and instance, in order. */
  function Select(ts: seq<Tree>, typ: byte, instance: byte): seq<Tree> {
    if ts == [] then []
    else (if ts[0].typ == typ && ts[0].instance % 16 == instance then [ts[0]] else []) + Select(ts[1..], typ, instance)
  }

  /** A removal leaves no child of its type and instance, and leaves those of any
      other type or instance as they were, in order. */
  lemma {:induction false} WithoutSelects(ts: seq<Tree>, typ: byte, instance: byte, typ': byte, instance': byte)
    ensures Select(Without(ts, typ, instance), typ', instance')
         == if typ == typ' && instance == instance' then [] else Select(ts, typ', instance')
  {
    if ts != [] {
      WithoutSelects(ts[1..], typ, instance, typ', instance');
      var rest := Without(ts[1..], typ, instance);
      assert ([ts[0]] + rest)[1..] == rest;
    }
  }

  /** Two children of one type are told apart by their instances. */
  lemma TwoOfOneType(t: Tree, a: Tree, b: Tree)
    requires t.typ in {93, 109, 180, 181, 191, 195, 208, 209} && t.children == [a, b]
    requires a.typ == b.typ && a.instance % 16 != b.instance % 16
    ensures FirstMatch(t.children, a.typ, a.instance % 16) == Some(0)
    ensures FirstMatch(t.children, b.typ, b.instance % 16) == Some(1)
    ensures Remove(t, a.typ, a.instance % 16).children == [b] && Remove(t, b.typ, b.instance % 16).children == [a]
  {
    FirstMatchIff(t.children, a.typ, a.instance % 16, 0);
    FirstMatchIff(t.children, b.typ, b.instance % 16, 1);
    WithoutFilters([a], [b], a, a.typ, a.instance % 16);
    WithoutFilters([a], [b], b, a.typ, a.instance % 16);
    WithoutFilters([a], [b], a, b.typ, b.instance % 16);
    WithoutFilters([a], [b], b, b.typ, b.instance % 16);
    assert t.children == [a] + [b];
  }

  lemma {:induction false} EncodeAllAppend(ts: seq<Tree>, us: seq<Tree>)
    ensures EncodeAll(ts + us) == EncodeAll(ts) + EncodeAll(us)
    ensures AllWellFormed(ts + us) <==> AllWellFormed(ts) && AllWellFormed(us)
  {
    if ts == [] {
      assert ts + us == us;
    } else {
      assert (ts + us)[1..] == ts[1..] + us;
      EncodeAllAppend(ts[1..], us);
    }
  }

  lemma SurvivesIffWellFormed(t: Tree)
    ensures Parse(Encode(t)) == Ok(t) <==> WellFormed(t)
  {
    assert Encode(t) <= Encode(t);
    ParseCharacterised(Encode(t), t);
  }

  /** A plain IE built by `New` survives the wire exactly when its data fits the
      16-bit length field (and a grouped type, whose octets come from children
      it does not have, was given no data). */
  lemma NewSurvivesIff(typ: byte, instance: byte, data: seq<byte>)
    ensures Parse(Encode(New(typ, instance, data))) == Ok(New(typ, instance, data))
      <==> |data| < 0x1_0000 && (IsGrouped(typ) ==> data == [])
  {
    SurvivesIffWellFormed(New(typ, instance, data));
  }

  /** The octets of a plain new IE: four bits of instance, sixteen of length. */
  lemma NewOctets(typ: byte, instance: byte, data: seq<byte>)
    requires typ !in {93, 109, 180, 181, 191, 195, 208, 209}
    ensures Encode(New(typ, instance, data)) ==
      [typ, |data| / 0x100 % 0x100, |data| % 0x100, instance % 16] + data
  {
    LowHalf(|data|, |data| / 0x1_0000, |data| % 0x1_0000);
  }

  /** Children, payload and length field agree. */
  predicate InStep(t: Tree) {
    t.payload == EncodeAll(t.children) && t.length as int == |t.payload| % 0x1_0000
  }

  lemma InStepWellFormedIff(t: Tree, kids: seq<byte>)
    requires kids == EncodeAll(t.children) == t.payload
    requires t.length as int == |kids| % 0x1_0000
    ensures WellFormed(t) <==>
      |kids| < 0x1_0000 && AllWellFormed(t.children) && (IsGrouped(t.typ) || t.children == [])
  {
  }

  lemma InStepSurvivesIff(t: Tree)
    requires InStep(t)
    ensures Parse(Encode(t)) == Ok(t) <==>
      LenAll(t.children) < 0x1_0000 && AllWellFormed(t.children) && (IsGrouped(t.typ) || t.children == [])
  {
    SurvivesIffWellFormed(t);
    InStepWellFormedIff(t, t.payload);
  }

  /** A grouped IE survives the wire exactly when its children are well formed
      and their encodings together fit the length field; a type that is not
      grouped keeps children that no parser gives back. */
  lemma NewGroupedSurvivesIff(typ: byte, ies: seq<Tree>)
    ensures Parse(Encode(NewGrouped(typ, ies))) == Ok(NewGrouped(typ, ies))
      <==> LenAll(ies) < 0x1_0000 && AllWellFormed(ies) && (IsGrouped(typ) || ies == [])
  {
    InStepSurvivesIff(NewGrouped(typ, ies));
  }

  /** The octets of a new IE with children: instance 0, and the length of all of
      them at sixteen bits. */
  lemma NewGroupedOctets(typ: byte, ies: seq<Tree>)
    ensures Encode(NewGrouped(typ, ies)) ==
      [typ, LenAll(ies) / 0x100 % 0x100, LenAll(ies) % 0x100, 0] + EncodeAll(ies)
  {
    LowHalf(LenAll(ies), LenAll(ies) / 0x1_0000, LenAll(ies) % 0x1_0000);
    EncodedLayout(NewGrouped(typ, ies));
  }

  /** The length field wraps: 65536 octets of data are announced as none. */
  lemma OversizedDataIsLost(typ: byte)
    requires !IsGrouped(typ)
    ensures Parse(Encode(New(typ, 0, Zeros(0x1_0000)))) == Ok(New(typ, 0, []))
  {
    var t, rest := New(typ, 0, []), Zeros(0x1_0000);
    assert Encode(New(typ, 0, rest)) == Encode(t) + rest;
    EncodeThenParse(t, rest);
  }

  datatype Edit = AddIEs(ies: seq<Tree>) | RemoveIE(typ: byte, instance: byte)

  function Apply(t: Tree, e: Edit): Tree {
    match e
    case AddIEs(ies) => Add(t, ies)
    case RemoveIE(typ, instance) => Remove(t, typ, instance)
  }

  /** An edit of an IE of these eight types sets its children, payload and length;
      of any other type it does nothing. */
  lemma ApplyByType(t: Tree, e: Edit)
    ensures t.typ !in {93, 109, 180, 181, 191, 195, 208, 209} ==> Apply(t, e) == t
    ensures t.typ in {93, 109, 180, 181, 191, 195, 208, 209} ==>
      var kids := if e.AddIEs? then t.children + e.ies else Without(t.children, e.typ, e.instance);
      Apply(t, e) == Tree(t.typ, LenAll(kids) % 0x1_0000, t.instance, EncodeAll(kids), kids)
  {
  }

  function Run(t: Tree, es: seq<Edit>): Tree
    decreases |es|
  {
    if es == [] then t else Run(Apply(t, es[0]), es[1..])
  }

  /** The same run on the bare list of children, with no octets anywhere. */
  function RunOnList(ts: seq<Tree>, es: seq<Edit>): seq<Tree>
    decreases |es|
  {
    if es == [] then ts
    else
      match es[0]
      case AddIEs(ies) => RunOnList(ts + ies, es[1..])
      case RemoveIE(typ, instance) => RunOnList(Without(ts, typ, instance), es[1..])
  }

  predicate EditsWellFormed(es: seq<Edit>) {
    forall k :: 0 <= k < |es| && es[k].AddIEs? ==> AllWellFormed(es[k].ies)
  }

  lemma {:induction false} WithoutWellFormed(ts: seq<Tree>, typ: byte, instance: byte)
    requires AllWellFormed(ts)
    ensures AllWellFormed(Without(ts, typ, instance))
  {
    if ts != [] {
      WithoutWellFormed(ts[1..], typ, instance);
      var rest := Without(ts[1..], typ, instance);
      assert ([ts[0]] + rest)[1..] == rest;
    }
  }

  lemma {:induction false} RunOnListWellFormed(ts: seq<Tree>, es: seq<Edit>)
    requires AllWellFormed(ts) && EditsWellFormed(es)
    ensures AllWellFormed(RunOnList(ts, es))
    decreases |es|
  {
    if es != [] {
      match es[0]
      case AddIEs(ies) =>
        EncodeAllAppend(ts, ies);
        RunOnListWellFormed(ts + ies, es[1..]);
      case RemoveIE(typ, instance) =>
        WithoutWellFormed(ts, typ, instance);
        RunOnListWellFormed(Without(ts, typ, instance), es[1..]);
    }
  }

  /** Every run of edits on a grouped IE does to its children what the run does
      to a plain list, and leaves payload and length in step with them. */
  lemma {:induction false} RunFollowsList(t: Tree, es: seq<Edit>)
    requires IsGrouped(t.typ)
    ensures Run(t, es).children == RunOnList(t.children, es)
    ensures Run(t, es).typ == t.typ && Run(t, es).instance == t.instance
    ensures es != [] || InStep(t) ==> InStep(Run(t, es))
    decreases |es|
  {
    if es != [] {
      RunFollowsList(Apply(t, es[0]), es[1..]);
    }
  }

  /** After any run of edits, the IE is accepted by a peer and read back
      unchanged exactly when the children left are well formed and fit the length
      field, and, if there was no edit, payload and length agreed with them. */
  lemma RunSurvivesIff(t: Tree, es: seq<Edit>)
    requires IsGrouped(t.typ)
    ensures Parse(Encode(Run(t, es))) == Ok(Run(t, es)) <==>
      && LenAll(RunOnList(t.children, es)) < 0x1_0000 && AllWellFormed(RunOnList(t.children, es))
      && (es != [] || InStep(t))
  {
    RunFollowsList(t, es);
    if es != [] || InStep(t) {
      InStepSurvivesIff(Run(t, es));
    } else {
      SurvivesIffWellFormed(t);
    }
  }

  /** In particular, well-formed IEs stay so. */
  lemma RunKeepsWellFormed(t: Tree, es: seq<Edit>)
    requires IsGrouped(t.typ) && WellFormed(t) && EditsWellFormed(es)
    ensures Parse(Encode(Run(t, es))) == Ok(Run(t, es)) <==> LenAll(RunOnList(t.children, es)) < 0x1_0000
  {
    RunOnListWellFormed(t.children, es);
    RunSurvivesIff(t, es);
  }

  /** Removing what was just added undoes the addition, provided no child
      already matched: the children, the payload and the length are those of
      the same IE refreshed. */
  lemma AddThenRemove(t: Tree, ie: Tree)
    requires IsGrouped(t.typ) && InStep(t)
    requires forall u :: u in t.children ==> !Matches(u, ie.typ, Instance(ie))
    ensures Remove(Add(t, [ie]), ie.typ, Instance(ie)) == t
  {
    WithoutAppend(t.children, [ie], ie.typ, Instance(ie));
    WithoutNothing(t.children, ie.typ, Instance(ie));
    assert Without([ie], ie.typ, Instance(ie)) == [];
    assert t.children + [] == t.children;
  }

  lemma {:induction false} WithoutNothing(ts: seq<Tree>, typ: byte, instance: byte)
    requires forall u :: u in ts ==> !Matches(u, typ, instance)
    ensures Without(ts, typ, instance) == ts
  {
    if ts != [] {
      WithoutNothing(ts[1..], typ, instance);
    }
  }
}
