/** Names as labels with a length octet each: the APN and FQDN IEs of GTPv2 and
    the APN IE of GTPv1, which differ in what they make of a truncated label.
    Strings are octets, as in Go. */
module Labels {
  import opened Octets

  const DOT: byte := 0x2e

  datatype Error = UnexpectedEOF

  /** `strings.Split(s, ".")`: never empty. */
  function Split(s: seq<byte>): (ls: seq<seq<byte>>)
    ensures ls != []
  {
    if s == [] then [[]]
    else
      var rest := Split(s[1..]);
      if s[0] == DOT then [[]] + rest else [[s[0]] + rest[0]] + rest[1..]
  }

  /** `strings.Join(ls, ".")`. */
  function Join(ls: seq<seq<byte>>): seq<byte> {
    if ls == [] then [] else if |ls| == 1 then ls[0] else ls[0] + [DOT] + Join(ls[1..])
  }

  function EncodeLabels(ls: seq<seq<byte>>): seq<byte> {
    if ls == [] then [] else [|ls[0]| % 0x100] + ls[0] + EncodeLabels(ls[1..])
  }

  function Encode(s: seq<byte>): seq<byte> {
    EncodeLabels(Split(s))
  }

  /** The GTPv2 loop stops at a label that is cut off. */
  function Labels(b: seq<byte>): seq<seq<byte>>
    decreases |b|
  {
    if |b| == 0 || 1 + b[0] as int > |b| then [] else [b[1..1 + b[0]]] + Labels(b[1 + b[0]..])
  }

  function Decode(b: seq<byte>): seq<byte> {
    Join(Labels(b))
  }

  /** The GTPv1 loop reports it. */
  predicate Truncated(b: seq<byte>)
    decreases |b|
  {
    |b| != 0 && (1 + b[0] as int > |b| || Truncated(b[1 + b[0]..]))
  }

  function DecodeV1(b: seq<byte>): Result<seq<byte>, Error> {
    if Truncated(b) then Err(UnexpectedEOF) else Ok(Decode(b))
  }

  predicate DotFree(ls: seq<seq<byte>>) {
    forall l :: l in ls ==> DOT !in l
  }

  predicate AllShort(ls: seq<seq<byte>>) {
    forall l :: l in ls ==> |l| <= 255
  }

  lemma {:induction false} SplitParts(s: seq<byte>)
    ensures DotFree(Split(s)) && Join(Split(s)) == s
    ensures |EncodeLabels(Split(s))| == |s| + 1
  {
    if s != [] {
      var rest := Split(s[1..]);
      SplitParts(s[1..]);
      if s[0] == DOT {
        assert ([[]] + rest)[1..] == rest;
      } else {
        var ls := [[s[0]] + rest[0]] + rest[1..];
        assert ls[1..] == rest[1..] && Split(s) == ls;
        assert forall l :: l in rest[1..] ==> l in rest;
      }
    }
  }

  lemma {:induction false} SplitJoin(ls: seq<seq<byte>>)
    requires ls != [] && DotFree(ls)
    ensures Split(Join(ls)) == ls
    decreases |Join(ls)|, |ls|
  {
    var s := Join(ls);
    if ls[0] != [] {
      var more := [ls[0][1..]] + ls[1..];
      assert more[1..] == ls[1..] && s[1..] == Join(more);
      assert ls[0] in ls && forall l :: l in ls[1..] ==> l in ls;
      SplitJoin(more);
      assert [s[0]] + ls[0][1..] == ls[0] && [ls[0]] + ls[1..] == ls;
    } else if |ls| > 1 {
      assert s[1..] == Join(ls[1..]);
      SplitJoin(ls[1..]);
      assert [[]] + ls[1..] == ls;
    }
  }

  lemma {:induction false} ShortLabels(ls: seq<seq<byte>>)
    requires AllShort(ls)
    ensures Labels(EncodeLabels(ls)) == ls && !Truncated(EncodeLabels(ls))
  {
    if ls != [] {
      ShortLabels(ls[1..]);
      OneLabelBefore(ls[0], EncodeLabels(ls[1..]), EncodeLabels(ls));
      assert [ls[0]] + ls[1..] == ls;
    }
  }

  /** Labels come back as the same name exactly when all have at most 255
      octets: the first longer one is cut, and a dot or nothing stands where it
      went on. */
  lemma {:induction false} LabelsSurviveIff(ls: seq<seq<byte>>)
    requires ls != [] && DotFree(ls)
    ensures Labels(EncodeLabels(ls)) != []
    ensures Join(Labels(EncodeLabels(ls))) == Join(ls) <==> AllShort(ls)
  {
    var l, b, n := ls[0], EncodeLabels(ls), |ls[0]| % 0x100;
    assert b[1..1 + n] == l[..n];
    var more := Labels(b[1 + n..]);
    if |l| > 255 {
      if more != [] {
        assert ([l[..n]] + more)[1..] == more;
      }
      assert l in ls && Join(ls)[n] == l[n] != DOT;
    } else {
      assert b[1 + n..] == EncodeLabels(ls[1..]) && l[..n] == l;
      if |ls| > 1 {
        LabelsSurviveIff(ls[1..]);
        assert ([l] + more)[1..] == more;
        Prefixed(l, Join(more), Join(ls[1..]));
        assert AllShort(ls) <==> AllShort(ls[1..]);
      }
    }
  }

  lemma Prefixed(l: seq<byte>, x: seq<byte>, y: seq<byte>)
    ensures l + [DOT] + x == l + [DOT] + y <==> x == y
  {
    if l + [DOT] + x == l + [DOT] + y {
      assert (l + [DOT] + x)[|l| + 1..] == x && (l + [DOT] + y)[|l| + 1..] == y;
    }
  }

  /** The encoding fills the payload, and decodes to the name exactly when no
      label is longer than 255 octets. */
  lemma SurvivesIff(s: seq<byte>)
    ensures |Encode(s)| == |s| + 1
    ensures Decode(Encode(s)) == s <==> AllShort(Split(s))
  {
    SplitParts(s);
    LabelsSurviveIff(Split(s));
  }

  /** What is not truncated consists of its labels. */
  lemma {:induction false} LabelsExact(b: seq<byte>)
    requires !Truncated(b)
    ensures AllShort(Labels(b)) && EncodeLabels(Labels(b)) == b
    decreases |b|
  {
    if |b| != 0 {
      var n := 1 + b[0] as int;
      LabelsExact(b[n..]);
      OneLabelMore(b, n, Labels(b[n..]));
    }
  }

  lemma OneLabelMore(b: seq<byte>, n: nat, ls: seq<seq<byte>>)
    requires b != [] && n == 1 + b[0] as int <= |b| && AllShort(ls) && EncodeLabels(ls) == b[n..]
    ensures AllShort([b[1..n]] + ls) && EncodeLabels([b[1..n]] + ls) == b
  {
    assert ([b[1..n]] + ls)[1..] == ls;
    assert b == [b[0]] + b[1..n] + b[n..];
  }

  /** A payload the GTPv1 decoder accepts is restored by encoding the name
      exactly when it is not empty and no label contains a dot. */
  lemma RestoredIff(b: seq<byte>)
    requires DecodeV1(b).Ok?
    ensures Encode(DecodeV1(b).value) == b <==> b != [] && DotFree(Labels(b))
  {
    var ls, s := Labels(b), Decode(b);
    LabelsExact(b);
    SplitParts(s);
    if b != [] && DotFree(ls) {
      SplitJoin(ls);
    }
    if Encode(s) == b {
      SurvivesIff(s);
      ShortLabels(Split(s));
    }
  }

  /* ---- by octet ---- */

  /** One label, and two with a dot (0x2e) between them, in octets. */
  lemma LabelOctets(l: seq<byte>, m: seq<byte>)
    requires 0x2e !in l && 0x2e !in m
    ensures Encode(l) == [|l| % 0x100] + l
    ensures Encode(l + [0x2e] + m) == [|l| % 0x100] + l + ([|m| % 0x100] + m)
    ensures |l| <= 255 && |m| <= 255 ==> Decode(Encode(l + [0x2e] + m)) == l + [0x2e] + m
  {
    OneLabel(l);
    TwoLabels(l, m, [|l| % 0x100] + l, [|m| % 0x100] + m);
    SurvivesIff(l + [0x2e] + m);
  }

  lemma TwoLabels(l: seq<byte>, m: seq<byte>, e: seq<byte>, f: seq<byte>)
    requires 0x2e !in l && 0x2e !in m && e == [|l| % 0x100] + l && f == [|m| % 0x100] + m
    ensures Split(l + [0x2e] + m) == [l, m] && EncodeLabels([l, m]) == e + f
  {
    OneLabel(m);
    assert [l, m][1..] == [m] && Join([m]) == m;
    assert Join([l, m]) == l + [DOT] + m;
    SplitJoin([l, m]);
  }

  lemma OneLabel(l: seq<byte>)
    requires 0x2e !in l
    ensures Split(l) == [l] && EncodeLabels([l]) == [|l| % 0x100] + l
  {
    SplitJoin([l]);
    assert [l][1..] == [] && EncodeLabels([]) == [];
    assert [|l| % 0x100] + l + [] == [|l| % 0x100] + l;
  }

  /** A label that is cut off: GTPv2 gives the name before it, GTPv1 an error. */
  lemma CutLabel(ls: seq<seq<byte>>, n: byte, cut: seq<byte>)
    requires AllShort(ls) && |cut| < n as int
    ensures Decode(EncodeLabels(ls) + [n] + cut) == Join(ls)
    ensures DecodeV1(EncodeLabels(ls) + [n] + cut) == Err(UnexpectedEOF)
  {
    LabelsBeforeCut(ls, [n] + cut, EncodeLabels(ls) + [n] + cut);
  }

  lemma {:induction false} LabelsBeforeCut(ls: seq<seq<byte>>, rest: seq<byte>, b: seq<byte>)
    requires AllShort(ls) && rest != [] && |rest| < 1 + rest[0] as int && b == EncodeLabels(ls) + rest
    ensures Labels(b) == ls && Truncated(b)
    decreases |ls|
  {
    if ls == [] {
      assert b == rest;
    } else {
      var after := EncodeLabels(ls[1..]) + rest;
      LabelsBeforeCut(ls[1..], rest, after);
      Regroup([|ls[0]|] + ls[0], EncodeLabels(ls[1..]), rest);
      OneLabelBefore(ls[0], after, b);
      assert [ls[0]] + ls[1..] == ls;
    }
  }

  lemma Regroup(x: seq<byte>, y: seq<byte>, z: seq<byte>)
    ensures x + y + z == x + (y + z)
  {
  }

  lemma OneLabelBefore(l: seq<byte>, after: seq<byte>, b: seq<byte>)
    requires |l| <= 255 && b == [|l|] + l + after
    ensures Labels(b) == [l] + Labels(after) && Truncated(b) == Truncated(after)
  {
    assert b[1..1 + |l|] == l && b[1 + |l|..] == after;
  }

  /* ---- the loops ---- */

  /** A fresh payload, filled label by label. */
  method NewPayload(s: seq<byte>) returns (payload: array<byte>)
    ensures fresh(payload) && payload[..] == Encode(s)
  {
    payload := new byte[|s| + 1](_ => 0);
    var labels, offset := Split(s), 0;
    SplitParts(s);
    ghost var done: seq<byte>, was := [], payload[..];
    assert labels[0..] == labels && done + EncodeLabels(labels) == Encode(s);
    for k := 0 to |labels|
      invariant offset == |done| <= payload.Length
      invariant payload[..] == Overlay(was, 0, done)
      invariant Encode(s) == done + EncodeLabels(labels[k..])
    {
      var e := [|labels[k]| % 0x100] + labels[k];
      assert labels[k..][1..] == labels[k + 1..];
      Advance(Encode(s), done, e, EncodeLabels(labels[k + 1..]));
      OverlayAppend(was, 0, done, e);
      Copy(payload, offset, e);
      done := done + e;
      offset := offset + |e|;
    }
    assert done + [] == done;
  }

  /** The decoding loop, strict in GTPv1. */
  method Read(b: seq<byte>, strict: bool) returns (r: Result<seq<byte>, Error>)
    ensures r == if strict then DecodeV1(b) else Ok(Decode(b))
  {
    var labels: seq<seq<byte>>, offset := [], 0;
    assert b[0..] == b && [] + Labels(b) == Labels(b);
    while offset < |b|
      invariant 0 <= offset <= |b|
      invariant Labels(b) == labels + Labels(b[offset..])
      invariant Truncated(b) == Truncated(b[offset..])
    {
      var l: nat := b[offset];
      if offset + l + 1 > |b| {
        assert labels + [] == labels;
        return if strict then Err(UnexpectedEOF) else Ok(Join(labels));
      }
      LabelStep(b, offset, labels);
      labels := labels + [b[offset + 1..offset + l + 1]];
      offset := offset + l + 1;
    }
    assert labels + [] == labels;
    r := Ok(Join(labels));
  }

  lemma LabelStep(b: seq<byte>, offset: nat, labels: seq<seq<byte>>)
    requires offset < |b| && offset + b[offset] as int + 1 <= |b|
    ensures var n := offset + b[offset] as int + 1;
      && labels + Labels(b[offset..]) == labels + [b[offset + 1..n]] + Labels(b[n..])
      && Truncated(b[offset..]) == Truncated(b[n..])
  {
    var rest, l := b[offset..], b[offset] as int;
    assert rest[1..l + 1] == b[offset + 1..offset + l + 1] && rest[l + 1..] == b[offset + l + 1..];
    assert labels + ([rest[1..l + 1]] + Labels(rest[l + 1..])) == labels + [rest[1..l + 1]] + Labels(rest[l + 1..]);
  }
}
