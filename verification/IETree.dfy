/** GTPv2 information elements as trees of values: the octets a tree stands
    for, the two mutually recursive parsers, and the theorem that they are
    exact inverses on well-formed trees (TS 29.274, section 8.2.1). */
module IETree {
  import opened Octets

  datatype Error = UnexpectedEOF | InvalidLength

  /** One IE.  For a grouped type the octets after the header come from
      `children`; for any other type they come from `payload`. */
  datatype Tree = Tree(typ: byte, length: uint16, instance: byte, payload: seq<byte>, children: seq<Tree>)

  /** Bearer Context, PDN Connection, Overload Control Information, Load Control
      Information, Remote UE Context, SCEF PDN Connection, V2X Context and PC5
      QoS Parameters. */
  predicate IsGrouped(typ: byte) {
    typ in {93, 109, 180, 181, 191, 195, 208, 209}
  }

  function Len(t: Tree): (n: nat)
    ensures 4 <= n
  {
    if IsGrouped(t.typ) then 4 + LenAll(t.children) else 4 + |t.payload|
  }

  function LenAll(ts: seq<Tree>): (n: nat) {
    if ts == [] then 0 else Len(ts[0]) + LenAll(ts[1..])
  }

  function Head(t: Tree): (b: seq<byte>)
    ensures |b| == 4
  {
    [t.typ] + PutUint16(t.length) + [t.instance]
  }

  function Encode(t: Tree): (b: seq<byte>)
    ensures |b| == Len(t)
  {
    Head(t) + if IsGrouped(t.typ) then EncodeAll(t.children) else t.payload
  }

  function EncodeAll(ts: seq<Tree>): (b: seq<byte>)
    ensures |b| == LenAll(ts)
  {
    if ts == [] then [] else Encode(ts[0]) + EncodeAll(ts[1..])
  }

  /** Decodes the IE at the start of `b`.  The contract is what lets the list
      parser advance by a length that is recomputed from the parsed children. */
  function Parse(b: seq<byte>): (r: Result<Tree, Error>)
    ensures r.Ok? ==> Len(r.value) <= |b| && Len(r.value) == 4 + r.value.length as int
    decreases |b|, 0
  {
    if |b| < 4 then Err(UnexpectedEOF)
    else
      var length := Uint16(b[1..3]);
      if length as int > |b| - 4 then Err(InvalidLength)
      else
        var payload := b[4..4 + length];
        if IsGrouped(b[0]) then
          match ParseAll(payload)
          case Err(e) => Err(e)
          case Ok(kids) => Ok(Tree(b[0], length, b[3], payload, kids))
        else
          Ok(Tree(b[0], length, b[3], payload, []))
  }

  /** Decodes IEs until the input is used up. */
  function ParseAll(b: seq<byte>): (r: Result<seq<Tree>, Error>)
    ensures r.Ok? ==> LenAll(r.value) == |b|
    decreases |b|, 1
  {
    if |b| == 0 then Ok([])
    else
      match Parse(b)
      case Err(e) => Err(e)
      case Ok(t) =>
        match ParseAll(b[Len(t)..])
        case Err(e) => Err(e)
        case Ok(ts) => Ok([t] + ts)
  }

  /** The tree says of itself what the wire says of it: the length field is the
      payload size, a grouped payload is its encoded children, and only grouped
      types have children. */
  predicate WellFormed(t: Tree) {
    && t.length as int == |t.payload|
    && if IsGrouped(t.typ) then t.payload == EncodeAll(t.children) && AllWellFormed(t.children)
       else t.children == []
  }

  predicate AllWellFormed(ts: seq<Tree>) {
    ts == [] || (WellFormed(ts[0]) && AllWellFormed(ts[1..]))
  }

  /** Where the parts of an IE lie in its octets. */
  lemma EncodedLayout(t: Tree)
    ensures var b := Encode(t);
      && b[0] == t.typ && b[1] == t.length / 0x100 && b[2] == t.length % 0x100 && b[3] == t.instance
      && b[4..] == if IsGrouped(t.typ) then EncodeAll(t.children) else t.payload
  {
    assert Head(t) == [t.typ, t.length / 0x100, t.length % 0x100, t.instance];
  }

  /** An accepted IE is well formed and re-encodes to exactly the octets it was
      read from. */
  lemma {:induction false} ParseIsExact(b: seq<byte>)
    requires Parse(b).Ok?
    ensures WellFormed(Parse(b).value)
    ensures Encode(Parse(b).value) == b[..Len(Parse(b).value)]
    decreases |b|, 0
  {
    var t := Parse(b).value;
    Uint16Inverse(t.length, b[1..3]);
    assert Head(t) == b[..4];
    if IsGrouped(t.typ) {
      ParseAllIsExact(t.payload);
    }
    assert b[..4 + t.length] == b[..4] + b[4..4 + t.length];
  }

  /** An accepted octet string is the concatenation of its parsed IEs, at any
      depth of grouping. */
  lemma {:induction false} ParseAllIsExact(b: seq<byte>)
    requires ParseAll(b).Ok?
    ensures AllWellFormed(ParseAll(b).value)
    ensures EncodeAll(ParseAll(b).value) == b
    decreases |b|, 1
  {
    if |b| != 0 {
      var t := Parse(b).value;
      ParseIsExact(b);
      ParseAllIsExact(b[Len(t)..]);
      OneTreeMore(b, t, ParseAll(b[Len(t)..]).value);
    }
  }

  lemma OneTreeMore(b: seq<byte>, t: Tree, ts: seq<Tree>)
    requires WellFormed(t) && AllWellFormed(ts)
    requires Len(t) <= |b| && Encode(t) == b[..Len(t)] && EncodeAll(ts) == b[Len(t)..]
    ensures AllWellFormed([t] + ts) && EncodeAll([t] + ts) == b
  {
    assert ([t] + ts)[1..] == ts;
    assert b == b[..Len(t)] + b[Len(t)..];
  }

  /** A well-formed IE is read back from its encoding whatever follows it. */
  lemma {:induction false} EncodeThenParse(t: Tree, rest: seq<byte>)
    requires WellFormed(t)
    ensures Parse(Encode(t) + rest) == Ok(t)
    decreases t, 0
  {
    var b := Encode(t) + rest;
    Uint16Inverse(t.length, PutUint16(t.length));
    assert b[1..3] == PutUint16(t.length);
    assert b[4..4 + t.length] == t.payload;
    if IsGrouped(t.typ) {
      EncodeThenParseAll(t.children);
    }
  }

  lemma {:induction false} EncodeThenParseAll(ts: seq<Tree>)
    requires AllWellFormed(ts)
    ensures ParseAll(EncodeAll(ts)) == Ok(ts)
    decreases ts, 1
  {
    if ts != [] {
      var rest := EncodeAll(ts[1..]);
      EncodeThenParse(ts[0], rest);
      EncodeThenParseAll(ts[1..]);
      assert EncodeAll(ts)[Len(ts[0])..] == rest;
      assert [ts[0]] + ts[1..] == ts;
    }
  }

  /** What the single-IE parser computes, stated without it: the one
      well-formed tree whose encoding is a prefix of the input. */
  lemma ParseCharacterised(b: seq<byte>, t: Tree)
    ensures Parse(b) == Ok(t) <==> WellFormed(t) && Encode(t) <= b
  {
    if Parse(b) == Ok(t) {
      ParseIsExact(b);
    }
    if WellFormed(t) && Encode(t) <= b {
      EncodeThenParse(t, b[Len(t)..]);
      assert b == Encode(t) + b[Len(t)..];
    }
  }

  /** What the list parser computes, stated without it. */
  lemma ParseAllCharacterised(b: seq<byte>, ts: seq<Tree>)
    ensures ParseAll(b) == Ok(ts) <==> AllWellFormed(ts) && EncodeAll(ts) == b
  {
    if ParseAll(b) == Ok(ts) {
      ParseAllIsExact(b);
    }
    if AllWellFormed(ts) && EncodeAll(ts) == b {
      EncodeThenParseAll(ts);
    }
  }

  /* ---- by type number and octet ---- */

  /** An IE of one of these eight types holds the IEs its octets encode. */
  lemma GroupedParses(typ: byte, instance: byte, ts: seq<Tree>, rest: seq<byte>)
    requires typ in {93, 109, 180, 181, 191, 195, 208, 209}
    requires AllWellFormed(ts) && LenAll(ts) < 0x1_0000
    ensures Parse([typ, LenAll(ts) / 0x100, LenAll(ts) % 0x100, instance] + EncodeAll(ts) + rest)
         == Ok(Tree(typ, LenAll(ts), instance, EncodeAll(ts), ts))
  {
    var t := Tree(typ, LenAll(ts), instance, EncodeAll(ts), ts);
    EncodeThenParse(t, rest);
    assert Encode(t) == [typ, LenAll(ts) / 0x100, LenAll(ts) % 0x100, instance] + EncodeAll(ts);
  }

  /** One of any other type holds none, whatever its octets are. */
  lemma PlainParses(typ: byte, instance: byte, payload: seq<byte>, rest: seq<byte>)
    requires typ !in {93, 109, 180, 181, 191, 195, 208, 209} && |payload| < 0x1_0000
    ensures Parse([typ, |payload| / 0x100, |payload| % 0x100, instance] + payload + rest)
         == Ok(Tree(typ, |payload|, instance, payload, []))
  {
    var t := Tree(typ, |payload|, instance, payload, []);
    EncodeThenParse(t, rest);
    assert Encode(t) == [typ, |payload| / 0x100, |payload| % 0x100, instance] + payload;
  }

  /** A Bearer Context with an EPS Bearer ID in it. */
  lemma BearerContextParses()
    ensures Parse([93, 0, 5, 0, 73, 0, 1, 0, 5])
         == Ok(Tree(93, 5, 0, [73, 0, 1, 0, 5], [Tree(73, 1, 0, [5], [])]))
  {
    var ebi := Tree(73, 1, 0, [5], []);
    assert Encode(ebi) == [73, 0, 1, 0, 5] && WellFormed(ebi);
    assert [ebi][1..] == [];
    assert EncodeAll([ebi]) == [73, 0, 1, 0, 5] && AllWellFormed([ebi]);
    GroupedParses(93, 0, [ebi], []);
    assert [93, 0, 5, 0] + [73, 0, 1, 0, 5] + [] == [93, 0, 5, 0, 73, 0, 1, 0, 5];
  }

  /** Which error: fewer than four octets are one, a length beyond the end is
      another, and a grouped IE has that of its contents. */
  lemma ParseFails(b: seq<byte>)
    ensures |b| < 4 ==> Parse(b) == Err(UnexpectedEOF)
    ensures |b| >= 4 ==>
      var length := b[1] as int * 0x100 + b[2] as int;
      && (length > |b| - 4 ==> Parse(b) == Err(InvalidLength))
      && (length <= |b| - 4 ==>
            forall e :: Parse(b) == Err(e) <==>
              b[0] in {93, 109, 180, 181, 191, 195, 208, 209} && ParseAll(b[4..4 + length]) == Err(e))
  {
  }

  /** Behind the IEs `ts`, what follows does not parse. */
  ghost predicate FailsBehind(b: seq<byte>, ts: seq<Tree>, rest: seq<byte>, e: Error) {
    AllWellFormed(ts) && b == EncodeAll(ts) + rest && rest != [] && Parse(rest) == Err(e)
  }

  /** A list fails with the error of the first IE that does, and only so. */
  lemma {:induction false} ParseAllFailsIff(b: seq<byte>, e: Error)
    ensures ParseAll(b) == Err(e) <==> exists ts: seq<Tree>, rest: seq<byte> :: FailsBehind(b, ts, rest, e)
  {
    if ParseAll(b) == Err(e) {
      var ts, rest := FirstFault(b, e);
    }
    forall ts: seq<Tree>, rest: seq<byte> | FailsBehind(b, ts, rest, e) ensures ParseAll(b) == Err(e) {
      FaultFails(b, ts, rest, e);
    }
  }

  lemma {:induction false} FirstFault(b: seq<byte>, e: Error) returns (ts: seq<Tree>, rest: seq<byte>)
    requires ParseAll(b) == Err(e)
    ensures FailsBehind(b, ts, rest, e)
    decreases |b|
  {
    var r := Parse(b);
    if r.Err? {
      ts, rest := [], b;
    } else {
      ParseIsExact(b);
      var more;
      more, rest := FirstFault(b[Len(r.value)..], e);
      ts := [r.value] + more;
      assert ts[1..] == more;
      assert b == Encode(r.value) + b[Len(r.value)..];
    }
  }

  lemma {:induction false} FaultFails(b: seq<byte>, ts: seq<Tree>, rest: seq<byte>, e: Error)
    requires FailsBehind(b, ts, rest, e)
    ensures ParseAll(b) == Err(e)
    decreases |ts|
  {
    if ts == [] {
      assert b == rest;
    } else {
      var after := EncodeAll(ts[1..]) + rest;
      assert b == Encode(ts[0]) + after;
      EncodeThenParse(ts[0], after);
      FaultFails(after, ts[1..], rest, e);
      assert b[Len(ts[0])..] == after;
    }
  }

  /** No encoding of a well-formed IE is a proper prefix of another's, so a
      stream of IEs splits in only one way. */
  lemma UniquelyDecodable(t: Tree, after: seq<byte>, u: Tree, after': seq<byte>)
    requires WellFormed(t) && WellFormed(u)
    requires Encode(t) + after == Encode(u) + after'
    ensures t == u && after == after'
  {
    EncodeThenParse(t, after);
    EncodeThenParse(u, after');
    assert after == (Encode(t) + after)[Len(t)..];
    assert after' == (Encode(u) + after')[Len(u)..];
  }
}
