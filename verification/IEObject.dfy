/** The `IE` object of gtpv2/ie: mutable fields, children held by reference
    (possibly shared), marshalling into a caller's buffer and parsing in loops.
    Every method is specified by the functions of `IETree` and `IEEdit`. */
module IEObject {
  import opened Octets
  import opened IETree
  import IEEdit

  /** What the children loop of `MarshalTo` writes into `room` octets: it stops
      silently at the first child that does not fit. */
  function Fitting(ts: seq<Tree>, room: nat): (b: seq<byte>)
    ensures |b| <= room
  {
    if ts == [] || Len(ts[0]) > room then []
    else Encode(ts[0]) + Fitting(ts[1..], room - Len(ts[0]))
  }

  lemma {:induction false} AllFit(ts: seq<Tree>, room: nat)
    requires LenAll(ts) <= room
    ensures Fitting(ts, room) == EncodeAll(ts)
  {
    if ts != [] {
      AllFit(ts[1..], room - Len(ts[0]));
    }
  }

  /** The children loop itself, on the buffer's contents. */
  function Fill(s: seq<byte>, at: nat, ts: seq<Tree>, room: nat): (r: seq<byte>)
    requires at + room <= |s|
    decreases |ts|
  {
    if ts == [] || Len(ts[0]) > room then s
    else Fill(Overlay(s, at, Encode(ts[0])), at + Len(ts[0]), ts[1..], room - Len(ts[0]))
  }

  /** The children from the k-th on are still to be written behind `offset`. */
  ghost predicate InProgress(s: seq<byte>, offset: nat, k: nat, hi: nat, ts: seq<Tree>, result: seq<byte>) {
    k <= |ts| && offset <= hi <= |s| && Fill(s, offset, ts[k..], hi - offset) == result
  }

  lemma FillStep(s: seq<byte>, at: nat, ts: seq<Tree>, k: nat, room: nat)
    requires k < |ts| && at + room <= |s|
    ensures Fill(s, at, ts[k..], room) == if Len(ts[k]) > room then s
      else Fill(Overlay(s, at, Encode(ts[k])), at + Len(ts[k]), ts[k + 1..], room - Len(ts[k]))
  {
    assert ts[k..][0] == ts[k] && ts[k..][1..] == ts[k + 1..];
  }

  lemma {:induction false} FillWritesFitting(s: seq<byte>, at: nat, ts: seq<Tree>, room: nat)
    requires at + room <= |s|
    ensures Fill(s, at, ts, room) == Overlay(s, at, Fitting(ts, room))
    decreases |ts|
  {
    if ts != [] && Len(ts[0]) <= room {
      var e, rest := Encode(ts[0]), room - Len(ts[0]);
      FillWritesFitting(Overlay(s, at, e), at + |e|, ts[1..], rest);
      OverlayAppend(s, at, e, Fitting(ts[1..], rest));
    }
  }

  /** Octets written into a slice of `room >= 4` octets. */
  function Written(t: Tree, room: nat): (b: seq<byte>)
    requires 4 <= room
    ensures |b| <= room
  {
    if IsGrouped(t.typ) then Head(t) + Fitting(t.children, room - 4)
    else if Len(t) <= room then Encode(t)
    else Head(t)
  }

  /** The header and then the children loop. */
  lemma GroupedWritten(was: seq<byte>, lo: nat, t: Tree, room: nat)
    requires 4 <= room && lo + room <= |was| && IsGrouped(t.typ)
    ensures Fill(Overlay(was, lo, Head(t)), lo + 4, t.children, room - 4) == Overlay(was, lo, Written(t, room))
  {
    FillWritesFitting(Overlay(was, lo, Head(t)), lo + 4, t.children, room - 4);
    OverlayAppend(was, lo, Head(t), Fitting(t.children, room - 4));
  }

  /** A slice of at least `MarshalLen()` octets receives the whole encoding. */
  lemma WrittenWhole(t: Tree, room: nat)
    requires Len(t) <= room
    ensures Written(t, room) == Encode(t)
  {
    if IsGrouped(t.typ) {
      AllFit(t.children, room - 4);
    }
  }

  /** A slice that ends within a child gets the header and the children before. */
  lemma {:induction false} ShortSliceStops(t: Tree, k: nat, room: nat)
    requires t.typ in {93, 109, 180, 181, 191, 195, 208, 209} && k < |t.children|
    requires LenAll(t.children[..k]) <= room < LenAll(t.children[..k]) + Len(t.children[k])
    ensures Written(t, 4 + room) == Head(t) + EncodeAll(t.children[..k])
  {
    FittingStops(t.children, k, room);
  }

  lemma {:induction false} FittingStops(ts: seq<Tree>, k: nat, room: nat)
    requires k < |ts| && LenAll(ts[..k]) <= room < LenAll(ts[..k]) + Len(ts[k])
    ensures Fitting(ts, room) == EncodeAll(ts[..k])
    decreases k
  {
    if k > 0 {
      assert ts[..k][1..] == ts[1..][..k - 1];
      FittingStops(ts[1..], k - 1, room - Len(ts[0]));
    }
  }

  /** The objects `cs`, all of whose descendants are in `R`, stand for `ts`. */
  ghost predicate Hold(cs: seq<IE>, ts: seq<Tree>, R: set<IE>)
    reads R
    decreases R, 1
  {
    && |cs| == |ts|
    && forall k :: 0 <= k < |cs| ==> cs[k] in R && cs[k].Repr <= R && cs[k].Valid() && cs[k].tree == ts[k]
  }

  lemma HoldLast(cs: seq<IE>, ts: seq<Tree>, R: set<IE>, ie: IE)
    requires Hold(cs, ts, R) && ie in R && ie.Repr <= R && ie.Valid()
    ensures Hold(cs + [ie], ts + [ie.tree], R)
  {
  }

  lemma IsTree(ie: IE, t: Tree)
    requires ie.Valid() && ie.tree == t
    ensures ie.typ == t.typ && ie.instance == t.instance
  {
  }

  /** The source's two errors: the wrong type of parent, and nothing found. */
  datatype FindError = InvalidType | IENotFound

  /** What an IE becomes when octets are parsed into it. */
  function Overwritten(t: Tree, b: seq<byte>): Tree {
    if |b| < 4 then t
    else
      var headed := t.(typ := b[0], length := Uint16(b[1..3]));
      if headed.length as int > |b| - 4 then headed
      else
        var filled := headed.(instance := b[3], payload := b[4..4 + headed.length]);
        if !IsGrouped(filled.typ) then filled
        else filled.(children := ParseAll(filled.payload).GetOr([]))
  }

  /** That is what the octets say, except for the children of an IE that is not
      grouped. */
  lemma OverwrittenParses(t: Tree, b: seq<byte>)
    requires Parse(b).Ok?
    ensures Overwritten(t, b) == if IsGrouped(b[0]) then Parse(b).value else Parse(b).value.(children := t.children)
  {
  }

  /** What a failure leaves: nothing of fewer than four octets, type and length of
      an IE that is too short for its length, and everything but the children of
      one whose contents do not parse. */
  lemma OverwrittenFails(t: Tree, b: seq<byte>)
    ensures |b| < 4 ==> Overwritten(t, b) == t
    ensures |b| >= 4 ==>
      var length := b[1] as int * 0x100 + b[2] as int;
      && (length > |b| - 4 ==> Overwritten(t, b) == Tree(b[0], length, t.instance, t.payload, t.children))
      && (length <= |b| - 4 && b[0] in {93, 109, 180, 181, 191, 195, 208, 209} && ParseAll(b[4..4 + length]).Err? ==>
            Overwritten(t, b) == Tree(b[0], length, b[3], b[4..4 + length], []))
  {
  }

  class IE {
    var typ: byte
    var length: uint16
    var instance: byte
    var payload: seq<byte>
    var childIEs: seq<IE>
    /** This IE and all IEs below it.  Children may share descendants. */
    ghost var Repr: set<IE>
    /** The tree of values this object stands for. */
    ghost var tree: Tree

    ghost predicate Valid()
      reads this, Repr
      decreases Repr, 0
    {
      && this in Repr
      && tree == Tree(typ, length, instance, payload, tree.children)
      && Hold(childIEs, tree.children, Repr - {this})
    }

    /** `&IE{}` */
    constructor ()
      ensures Valid() && fresh(Repr) && Repr == {this}
      ensures tree == Tree(0, 0, 0, [], [])
    {
      typ, length, instance, payload, childIEs := 0, 0, 0, [], [];
      Repr, tree := {this}, Tree(0, 0, 0, [], []);
    }

    constructor New(typ: byte, instance: byte, data: seq<byte>)
      ensures Valid() && fresh(Repr) && Repr == {this}
      ensures tree == IEEdit.New(typ, instance, data)
    {
      this.typ, this.instance, payload, childIEs := typ, instance % 16, data, [];
      length := |data| % 0x1_0000;
      Repr, tree := {this}, IEEdit.New(typ, instance, data);
    }

    method MarshalLen() returns (l: nat)
      requires Valid()
      ensures l == Len(tree)
      decreases Repr
    {
      if IsGrouped(typ) {
        l := 4;
        ghost var ts := tree.children;
        for k := 0 to |childIEs|
          invariant l + LenAll(ts[k..]) == 4 + LenAll(ts)
        {
          var n := childIEs[k].MarshalLen();
          assert ts[k..][0] == ts[k] && ts[k..][1..] == ts[k + 1..];
          l := l + n;
        }
        return;
      }
      l := 4 + |payload|;
    }

    /** Writes into `b[lo..hi]`, the slice the source is handed.  The error path
        is part of the contract: a slice of 4 octets or more gets the header
        even when the payload then turns out not to fit. */
    method MarshalTo(b: array<byte>, lo: nat, hi: nat) returns (err: Option<Error>)
      requires Valid()
      requires lo <= hi <= b.Length
      modifies b
      ensures err.None? <==> 4 <= hi - lo && (IsGrouped(typ) || Len(tree) <= hi - lo)
      ensures b[..] == if hi - lo < 4 then old(b[..]) else Overlay(old(b[..]), lo, Written(tree, hi - lo))
      decreases Repr, 2
    {
      var l := hi - lo;
      if l < 4 {
        return Some(UnexpectedEOF);
      }
      ghost var t, was := tree, b[..];
      Copy(b, lo, [typ] + PutUint16(length) + [instance]);
      if IsGrouped(typ) {
        GroupedWritten(was, lo, t, l);
        MarshalChildren(b, lo, hi);
        return None;
      }
      var n := MarshalLen();
      if l < n {
        return Some(UnexpectedEOF);
      }
      Copy(b, lo + 4, payload);
      OverlayAppend(was, lo, Head(t), t.payload);
      err := None;
    }

    /** `MarshalTo` into a slice of exactly `MarshalLen()` octets cannot fail. */
    method MarshalWhole(b: array<byte>, lo: nat, n: nat)
      requires Valid() && n == Len(tree)
      requires lo + n <= b.Length
      modifies b
      ensures b[..] == Overlay(old(b[..]), lo, Encode(tree))
      decreases Repr, 3
    {
      var err := MarshalTo(b, lo, lo + n);
      WrittenWhole(tree, n);
    }

    /** The children loop of `MarshalTo`. */
    method MarshalChildren(b: array<byte>, lo: nat, hi: nat)
      requires Valid()
      requires lo + 4 <= hi <= b.Length
      modifies b
      ensures b[..] == Fill(old(b[..]), lo + 4, tree.children, hi - lo - 4)
      decreases Repr, 1
    {
      var offset: nat, k: nat := lo + 4, 0;
      ghost var result := Fill(b[..], lo + 4, tree.children, hi - lo - 4);
      assert tree.children[0..] == tree.children;
      while k < |childIEs|
        invariant k <= |childIEs| && InProgress(b[..], offset, k, hi, tree.children, result)
      {
        var n := MarshalChild(k, b, offset, hi, result);
        if n == 0 {
          return;
        }
        offset := offset + n;
        k := k + 1;
      }
    }

    /** One round of that loop: 0 if the child does not fit. */
    method MarshalChild(k: nat, b: array<byte>, offset: nat, hi: nat, ghost result: seq<byte>) returns (n: nat)
      requires Valid() && k < |childIEs| == |tree.children|
      requires InProgress(b[..], offset, k, hi, tree.children, result)
      modifies b
      ensures n == if Len(tree.children[k]) > hi - offset then 0 else Len(tree.children[k])
      ensures if n == 0 then b[..] == result else InProgress(b[..], offset + n, k + 1, hi, tree.children, result)
      decreases Repr, 0
    {
      FillStep(b[..], offset, tree.children, k, hi - offset);
      n := childIEs[k].MarshalLen();
      if hi - offset < n {
        return 0;
      }
      childIEs[k].MarshalWhole(b, offset, n);
    }

    /** Never fails: the buffer it makes is as long as the encoding. */
    method Marshal() returns (b: array<byte>)
      requires Valid()
      ensures fresh(b) && b[..] == Encode(tree)
    {
      var n := MarshalLen();
      b := new byte[n](_ => 0);
      MarshalWhole(b, 0, n);
    }

    /** Grouped or not, the length ends up as the payload size at 16 bits: the
        sum over the children is overwritten. */
    method SetLength(ghost ts: seq<Tree>, ghost R: set<IE>)
      requires this !in R && Hold(childIEs, ts, R)
      modifies this`length
      ensures length == |payload| % 0x1_0000
    {
      if IsGrouped(typ) {
        var l := 0;
        for k := 0 to |childIEs| {
          var n := childIEs[k].MarshalLen();
          l := l + n;
        }
        length := l % 0x1_0000;
      }
      length := |payload| % 0x1_0000;
    }

    /** The common end of `Add` and `Remove`: new children, the payload rebuilt
        from them, the length set from the payload. */
    method Refill(children: seq<IE>, ghost ts: seq<Tree>, ghost R: set<IE>)
      requires this !in R && Hold(children, ts, R)
      requires tree == Tree(typ, length, instance, payload, tree.children)
      modifies this
      ensures Valid() && Repr == R + {this}
      ensures tree == IEEdit.Refresh(old(tree), ts)
    {
      childIEs := children;
      payload := Serialize(children, ts, R);
      SetLength(ts, R);
      Repr, tree := R + {this}, IEEdit.Refresh(tree, ts);
      assert Repr - {this} == R;
    }

    /** `Add`; does nothing to an IE that is not grouped. */
    method Add(ies: seq<IE>, ghost us: seq<Tree>, ghost S: set<IE>)
      requires Valid() && this !in S && Hold(ies, us, S)
      modifies this
      ensures Valid() && Repr <= old(Repr) + S
      ensures tree == IEEdit.Add(old(tree), us)
    {
      if !IsGrouped(typ) {
        return;
      }
      ghost var R, ts := Repr - {this} + S, tree.children + us;
      Refill(childIEs + ies, ts, R);
    }

    method Remove(typ: byte, instance: byte)
      requires Valid()
      modifies this
      ensures Valid() && Repr == old(Repr)
      ensures tree == IEEdit.Remove(old(tree), typ, instance)
    {
      if !IsGrouped(this.typ) {
        return;
      }
      ghost var R := Repr - {this};
      ghost var us := IEEdit.Without(tree.children, typ, instance);
      var newChildren := ChildrenWithout(typ, instance);
      Refill(newChildren, us, R);
    }

    /** The loop of `Remove`.  `newChildren` starts as long as the child list and
        loses its last place with every match, so that `idx` never reaches its
        end. */
    method ChildrenWithout(typ: byte, instance: byte) returns (newChildren: seq<IE>)
      requires Valid()
      ensures Hold(newChildren, IEEdit.Without(tree.children, typ, instance), Repr - {this})
    {
      ghost var R, ts := Repr - {this}, tree.children;
      newChildren := childIEs;
      var idx := 0;
      for k := 0 to |childIEs|
        invariant Filtered(newChildren, idx, k, ts, typ, instance, R)
      {
        var ie := childIEs[k];
        IsTree(ie, ts[k]);
        FilterRound(newChildren, idx, k, ts, typ, instance, R, ie);
        if ie.typ == typ && ie.instance % 16 == instance {
          newChildren := newChildren[..|newChildren| - 1];
          continue;
        }
        newChildren := newChildren[idx := ie];
        idx := idx + 1;
      }
      assert ts[..|ts|] == ts && newChildren[..idx] == newChildren;
    }

    /** `FindByType`: the first child that matches, by reference. */
    method FindByType(typ: byte, instance: byte) returns (found: Result<IE, FindError>)
      requires Valid()
      ensures
        var k := IEEdit.FirstMatch(tree.children, typ, instance);
        if !IsGrouped(this.typ) then found == Err(InvalidType)
        else if k.None? then found == Err(IENotFound)
        else k.value < |childIEs| && found == Ok(childIEs[k.value])
    {
      if !IsGrouped(this.typ) {
        return Err(InvalidType);
      }
      for k := 0 to |childIEs|
        invariant forall j :: 0 <= j < k ==> !IEEdit.Matches(tree.children[j], typ, instance)
      {
        IsTree(childIEs[k], tree.children[k]);
        if childIEs[k].typ == typ && childIEs[k].instance % 16 == instance {
          assert IEEdit.Matches(tree.children[k], typ, instance);
          return Ok(childIEs[k]);
        }
      }
      found := Err(IENotFound);
    }

    /** Sets the fields from the octets, on failure those before the fault.  A
        type that is not grouped leaves the children the object already had. */
    method UnmarshalBinary(b: seq<byte>) returns (err: Option<Error>)
      requires Valid()
      modifies this
      ensures Valid() && fresh(Repr - old(Repr))
      ensures err == if Parse(b).Err? then Some(Parse(b).error) else None
      ensures tree == Overwritten(old(tree), b)
      decreases |b|, 0
    {
      var l := |b|;
      if l < 4 {
        return Some(UnexpectedEOF);
      }
      ghost var R := Repr - {this};
      typ := b[0];
      length := Uint16(b[1..3]);
      tree := tree.(typ := typ, length := length);
      if length as int > l - 4 {
        return Some(InvalidLength);
      }
      instance := b[3];
      payload := b[4..4 + length];
      tree := tree.(instance := instance, payload := payload);
      if IsGrouped(typ) {
        err := ReadChildren();
        return;
      }
      err := None;
    }

    /** The children of a grouped IE, from its payload; none if they are faulty. */
    method ReadChildren() returns (err: Option<Error>)
      requires Valid()
      modifies this`childIEs, this`Repr, this`tree
      ensures Valid() && fresh(Repr - old(Repr))
      ensures err == if ParseAll(payload).Err? then Some(ParseAll(payload).error) else None
      ensures tree == old(tree).(children := if ParseAll(payload).Ok? then ParseAll(payload).value else [])
      decreases |payload|, 3
    {
      var ies;
      ghost var ts, S;
      ies, err, ts, S := ParseMultiIEs(payload);
      childIEs := ies;
      Repr, tree := S + {this}, tree.(children := ts);
      assert Repr - {this} == S;
    }
  }

  /** The payload rebuilt by appending each child's octets. */
  method Serialize(cs: seq<IE>, ghost ts: seq<Tree>, ghost R: set<IE>) returns (payload: seq<byte>)
    requires Hold(cs, ts, R)
    ensures payload == EncodeAll(ts)
  {
    payload := [];
    for k := 0 to |cs|
      invariant payload == EncodeAll(ts[..k])
    {
      assert ts[..k + 1] == ts[..k] + [ts[k]];
      EncodeLast(ts[..k], ts[k]);
      var serialized := cs[k].Marshal();
      payload := payload + serialized[..];
    }
    assert ts[..|ts|] == ts;
  }

  lemma EncodeLast(ts: seq<Tree>, t: Tree)
    ensures EncodeAll(ts + [t]) == EncodeAll(ts) + Encode(t)
  {
    IEEdit.EncodeAllAppend(ts, [t]);
    assert [t][1..] == [];
    assert EncodeAll([t]) == Encode(t);
  }

  /** A child that matches is left out, any other is appended to those kept. */
  lemma OneMoreKept(kept: seq<IE>, ts: seq<Tree>, k: nat, typ: byte, instance: byte, R: set<IE>, ie: IE)
    requires k < |ts| && Hold(kept, IEEdit.Without(ts[..k], typ, instance), R)
    requires ie in R && ie.Repr <= R && ie.Valid() && ie.tree == ts[k]
    ensures var now := if IEEdit.Matches(ts[k], typ, instance) then kept else kept + [ie];
      Hold(now, IEEdit.Without(ts[..k + 1], typ, instance), R)
  {
    OneMore(ts, k, typ, instance);
    HoldLast(kept, IEEdit.Without(ts[..k], typ, instance), R, ie);
    var before := IEEdit.Without(ts[..k], typ, instance);
    assert before + [] == before;
  }

  lemma OneMore(ts: seq<Tree>, k: nat, typ: byte, instance: byte)
    requires k < |ts|
    ensures IEEdit.Without(ts[..k + 1], typ, instance)
      == IEEdit.Without(ts[..k], typ, instance) + if IEEdit.Matches(ts[k], typ, instance) then [] else [ts[k]]
  {
    assert ts[..k + 1] == ts[..k] + [ts[k]];
    IEEdit.WithoutAppend(ts[..k], [ts[k]], typ, instance);
    assert [ts[k]][1..] == [];
  }

  /** The filter loop when `k` children are done and `idx` of them are kept: the
      list has lost one place for each of the others. */
  ghost predicate Filtered(cs: seq<IE>, idx: nat, k: nat, ts: seq<Tree>, typ: byte, instance: byte, R: set<IE>)
    reads R
  {
    && idx <= k <= |ts| && |cs| == |ts| - (k - idx)
    && Hold(cs[..idx], IEEdit.Without(ts[..k], typ, instance), R)
  }

  /** One round: the last place goes, or the child takes the next one. */
  lemma FilterRound(cs: seq<IE>, idx: nat, k: nat, ts: seq<Tree>, typ: byte, instance: byte, R: set<IE>, ie: IE)
    requires Filtered(cs, idx, k, ts, typ, instance, R) && k < |ts|
    requires ie in R && ie.Repr <= R && ie.Valid() && ie.tree == ts[k]
    ensures |cs| > 0 && idx < |cs|
    ensures if IEEdit.Matches(ts[k], typ, instance) then Filtered(cs[..|cs| - 1], idx, k + 1, ts, typ, instance, R)
            else Filtered(cs[idx := ie], idx + 1, k + 1, ts, typ, instance, R)
  {
    OneMoreKept(cs[..idx], ts, k, typ, instance, R, ie);
    assert cs[..|cs| - 1][..idx] == cs[..idx];
    assert cs[idx := ie][..idx + 1] == cs[..idx] + [ie];
  }

  /** `newGroupedIE`: keeps the children whatever the type is. */
  method NewGroupedIE(typ: byte, ies: seq<IE>, ghost us: seq<Tree>, ghost R: set<IE>) returns (ie: IE)
    requires Hold(ies, us, R)
    ensures fresh(ie) && ie.Valid() && ie.tree == IEEdit.NewGrouped(typ, us)
  {
    ie := new IE.New(typ, 0, []);
    ie.Refill(ies, us, R);
  }

  /** `Parse`: a new object, filled by `UnmarshalBinary`. */
  method ParseIE(b: seq<byte>) returns (ie: IE, err: Option<Error>)
    ensures fresh(ie) && ie.Valid() && fresh(ie.Repr)
    ensures match Parse(b)
      case Err(e) => err == Some(e)
      case Ok(t) => err == None && ie.tree == t
    decreases |b|, 1
  {
    ie := new IE();
    err := ie.UnmarshalBinary(b);
    if err.None? {
      OverwrittenParses(Tree(0, 0, 0, [], []), b);
    }
  }

  /** The parsing loop: reslices the input by the length of each parsed IE until
      nothing is left.  On failure it returns no IEs. */
  method ParseMultiIEs(b: seq<byte>) returns (ies: seq<IE>, err: Option<Error>, ghost ts: seq<Tree>, ghost R: set<IE>)
    ensures fresh(R) && Hold(ies, ts, R)
    ensures match ParseAll(b)
      case Err(e) => err == Some(e) && ies == []
      case Ok(us) => err == None && ts == us
    decreases |b|, 2
  {
    var rest := b;
    ies, err, ts, R := [], None, [], {};
    PrependNothing(ParseAll(b));
    while |rest| != 0
      invariant |rest| <= |b|
      invariant fresh(R) && Hold(ies, ts, R)
      invariant ParseAll(b) == Prepend(ts, ParseAll(rest))
    {
      var i, e := ParseIE(rest);
      if e.Some? {
        return [], e, [], {};
      }
      PrependOne(ts, i.tree, ParseAll(rest[Len(i.tree)..]));
      ghost var R' := R + i.Repr;
      assert Hold(ies + [i], ts + [i.tree], R');
      ies, ts, R := ies + [i], ts + [i.tree], R';
      var n := i.MarshalLen();
      rest := rest[n..];
    }
  }
}
