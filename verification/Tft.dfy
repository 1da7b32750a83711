/** The Traffic Flow Template (section 10.5.6.12 of TS 24.008) as values: a
    template of packet filters, each a list of components, and parameters.  The
    layout depends on the operation code; counts have 4 bits, sizes 8. */
module Tft {
  import opened Octets

  datatype Error = UnexpectedEOF

  datatype Component = Component(typ: byte, contents: seq<byte>)

  datatype Filter = Filter(direction: byte, identifier: byte, precedence: byte, length: byte,
                           components: seq<Component>)

  datatype Parameter = Parameter(identifier: byte, length: byte, contents: seq<byte>)

  datatype Template = Template(op: byte, filters: seq<Filter>, ids: seq<byte>, params: seq<Parameter>)

  /* ---- components ---- */

  /** The size of a component's contents, which its type alone decides; a type
      that is not listed has none. */
  function ContentSize(typ: byte): nat {
    if typ in {0x10, 0x11} then 8
    else if typ == 0x20 then 32
    else if typ in {0x21, 0x23} then 17
    else if typ == 0x30 then 1
    else if typ in {0x40, 0x50} then 2
    else if typ in {0x41, 0x51, 0x60} then 4
    else if typ == 0x70 then 2
    else if typ == 0x80 then 3
    else if typ in {0x81, 0x82} then 6
    else if typ in {0x83, 0x84} then 2
    else if typ in {0x85, 0x86} then 1
    else if typ == 0x87 then 2
    else 0
  }

  function EncodeComponents(cs: seq<Component>): seq<byte> {
    if cs == [] then [] else [cs[0].typ] + cs[0].contents + EncodeComponents(cs[1..])
  }

  predicate Sized(c: Component) {
    |c.contents| == ContentSize(c.typ)
  }

  function ParseComponent(b: seq<byte>): (r: Result<Component, Error>)
    ensures r.Ok? ==> 1 + |r.value.contents| <= |b|
  {
    if |b| < 1 then Err(UnexpectedEOF)
    else
      var n := ContentSize(b[0]);
      if |b| < 1 + n then Err(UnexpectedEOF) else Ok(Component(b[0], b[1..1 + n]))
  }

  function ParseComponents(b: seq<byte>): (r: Result<seq<Component>, Error>)
    ensures r.Ok? ==> |EncodeComponents(r.value)| == |b|
    decreases |b|
  {
    if |b| == 0 then Ok([])
    else
      match ParseComponent(b)
      case Err(e) => Err(e)
      case Ok(c) =>
        match ParseComponents(b[1 + |c.contents|..])
        case Err(e) => Err(e)
        case Ok(cs) => Ok([c] + cs)
  }

  predicate AllSized(cs: seq<Component>) {
    forall c :: c in cs ==> Sized(c)
  }

  lemma {:induction false} ComponentsExact(b: seq<byte>)
    requires ParseComponents(b).Ok?
    ensures AllSized(ParseComponents(b).value) && EncodeComponents(ParseComponents(b).value) == b
    decreases |b|
  {
    if |b| != 0 {
      var c := ParseComponent(b).value;
      var n := 1 + |c.contents|;
      ComponentsExact(b[n..]);
      OneComponentMore(b, c, n, ParseComponents(b[n..]).value);
    }
  }

  lemma OneComponentMore(b: seq<byte>, c: Component, n: nat, cs: seq<Component>)
    requires 1 <= n <= |b| && c.typ == b[0] && c.contents == b[1..n] && Sized(c)
    requires AllSized(cs) && EncodeComponents(cs) == b[n..]
    ensures AllSized([c] + cs) && EncodeComponents([c] + cs) == b
  {
    assert ([c] + cs)[1..] == cs;
    assert b == [b[0]] + b[1..n] + b[n..];
  }

  lemma {:induction false} EncodeThenParseComponents(cs: seq<Component>)
    requires AllSized(cs)
    ensures ParseComponents(EncodeComponents(cs)) == Ok(cs)
  {
    if cs != [] {
      var c, b := cs[0], EncodeComponents(cs);
      var n := 1 + |c.contents|;
      assert b == [c.typ] + c.contents + EncodeComponents(cs[1..]);
      assert b[1..n] == c.contents && b[n..] == EncodeComponents(cs[1..]);
      assert Sized(c) && b[0] == c.typ;
      EncodeThenParseComponents(cs[1..]);
      assert [c] + cs[1..] == cs;
    }
  }

  /** Components are parsed exactly: the result is the one list of components of
      their types' sizes that encodes to the input. */
  lemma ComponentsCharacterised(b: seq<byte>, cs: seq<Component>)
    ensures ParseComponents(b) == Ok(cs) <==> AllSized(cs) && EncodeComponents(cs) == b
  {
    if ParseComponents(b) == Ok(cs) {
      ComponentsExact(b);
    }
    if AllSized(cs) && EncodeComponents(cs) == b {
      EncodeThenParseComponents(cs);
    }
  }

  /* ---- packet filters ---- */

  /** `MarshalLen`, which counts the components and not the length field. */
  function FilterLen(p: Filter): nat {
    3 + |EncodeComponents(p.components)|
  }

  function EncodeFilter(p: Filter): (b: seq<byte>)
    ensures |b| == FilterLen(p)
  {
    [p.direction % 4 * 16 + p.identifier % 16, p.precedence, p.length] + EncodeComponents(p.components)
  }

  /** Where the fields of a filter lie in its octets: two bits of direction, four
      of identifier. */
  lemma FilterLayout(p: Filter)
    ensures var b := EncodeFilter(p);
      && b[0] / 16 == p.direction % 4 && b[0] % 16 == p.identifier % 16
      && b[1] == p.precedence && b[2] == p.length && b[3..] == EncodeComponents(p.components)
  {
    assert EncodeFilter(p)[0] == p.direction % 4 * 16 + p.identifier % 16;
  }

  function ParseFilter(b: seq<byte>): (r: Result<Filter, Error>)
    ensures r.Ok? ==> FilterLen(r.value) <= |b| && FilterLen(r.value) == 3 + b[2] as int
  {
    if |b| < 3 then Err(UnexpectedEOF)
    else
      var n := 3 + b[2] as int;
      if |b| < n then Err(UnexpectedEOF)
      else
        match ParseComponents(b[3..n])
        case Err(e) => Err(e)
        case Ok(cs) => Ok(Filter(b[0] / 16 % 4, b[0] % 16, b[1], b[2], cs))
  }

  /** Fields within their bits, the length that of the components, and each
      component of its type's size. */
  predicate FilterFits(p: Filter) {
    && p.direction < 4 && p.identifier < 16
    && p.length as int == |EncodeComponents(p.components)|
    && AllSized(p.components)
  }

  /** The two top bits of a filter are spare: the parser ignores them. */
  function Masked(b: seq<byte>): seq<byte>
    requires b != []
  {
    [b[0] % 64] + b[1..]
  }

  /** On arbitrary octets: a filter is accepted exactly when it fits and its
      encoding is what the input starts with, spare bits aside.  In particular
      its components re-encode to its declared body. */
  lemma FilterCharacterised(b: seq<byte>, p: Filter)
    ensures ParseFilter(b) == Ok(p) <==> b != [] && FilterFits(p) && EncodeFilter(p) <= Masked(b)
  {
    if ParseFilter(b) == Ok(p) {
      FilterExact(b);
    }
    if b != [] && FilterFits(p) && EncodeFilter(p) <= Masked(b) {
      EncodeThenParseFilter(p, b);
    }
  }

  lemma HeadBits(x: byte, direction: byte, identifier: byte)
    requires direction < 4 && identifier < 16
    ensures x % 64 == direction * 16 + identifier <==> x / 16 % 4 == direction && x % 16 == identifier
  {
    assert x % 64 == x / 16 % 4 * 16 + x % 16;
  }

  lemma FilterExact(b: seq<byte>)
    requires ParseFilter(b).Ok?
    ensures FilterFits(ParseFilter(b).value) && EncodeFilter(ParseFilter(b).value) <= Masked(b)
  {
    var body := b[3..3 + b[2] as int];
    ComponentsExact(body);
    ReadFits(b, body, ParseComponents(body).value);
  }

  lemma ReadFits(b: seq<byte>, body: seq<byte>, cs: seq<Component>)
    requires 3 <= |b| && 3 + b[2] as int <= |b| && body == b[3..3 + b[2] as int]
    requires AllSized(cs) && EncodeComponents(cs) == body
    ensures var p := Filter(b[0] / 16 % 4, b[0] % 16, b[1], b[2], cs);
      FilterFits(p) && EncodeFilter(p) <= Masked(b)
  {
    var p := Filter(b[0] / 16 % 4, b[0] % 16, b[1], b[2], cs);
    HeadBits(b[0], p.direction, p.identifier);
    EncodeFitting(p);
    PrefixParts(b[0] % 64, b[1], b[2], body, b);
  }

  lemma EncodeFitting(p: Filter)
    requires FilterFits(p)
    ensures EncodeFilter(p) ==
      [p.direction * 16 + p.identifier, p.precedence, p.length] + EncodeComponents(p.components)
  {
  }

  lemma EncodeThenParseFilter(p: Filter, b: seq<byte>)
    requires b != [] && FilterFits(p) && EncodeFilter(p) <= Masked(b)
    ensures ParseFilter(b) == Ok(p)
  {
    var body := EncodeComponents(p.components);
    EncodeFitting(p);
    PrefixParts(p.direction * 16 + p.identifier, p.precedence, p.length, body, b);
    HeadBits(b[0], p.direction, p.identifier);
    EncodeThenParseComponents(p.components);
  }

  lemma PrefixParts(x: byte, y: byte, z: byte, body: seq<byte>, b: seq<byte>)
    requires b != []
    ensures [x, y, z] + body <= Masked(b) <==>
      |b| >= 3 + |body| && b[0] % 64 == x && b[1] == y && b[2] == z && b[3..3 + |body|] == body
  {
    var m, n := Masked(b), 3 + |body|;
    if [x, y, z] + body <= m {
      assert m[..n] == [x, y, z] + body;
      assert m[0] == x && m[1] == y && m[2] == z;
      assert b[3..n] == m[3..n];
    }
    if |b| >= n && b[3..n] == body {
      assert m[..n] == [b[0] % 64, b[1], b[2]] + b[3..n];
    }
  }

  function EncodeFilters(ps: seq<Filter>): seq<byte> {
    if ps == [] then [] else EncodeFilter(ps[0]) + EncodeFilters(ps[1..])
  }

  predicate FiltersFit(ps: seq<Filter>) {
    ps == [] || (FilterFits(ps[0]) && FiltersFit(ps[1..]))
  }

  /** `n` filters from the front of `b`, and the octets they took. */
  function ParseFilters(n: nat, b: seq<byte>): (r: Result<(seq<Filter>, nat), Error>)
    ensures r.Ok? ==> |r.value.0| == n && r.value.1 <= |b|
  {
    if n == 0 then Ok(([], 0))
    else
      match ParseFilter(b)
      case Err(e) => Err(e)
      case Ok(p) =>
        match ParseFilters(n - 1, b[FilterLen(p)..])
        case Err(e) => Err(e)
        case Ok(r) => Ok(([p] + r.0, FilterLen(p) + r.1))
  }

  lemma {:induction false} ParsedFiltersFit(n: nat, b: seq<byte>)
    requires ParseFilters(n, b).Ok?
    ensures FiltersFit(ParseFilters(n, b).value.0)
  {
    if n > 0 {
      var p := ParseFilter(b).value;
      FilterExact(b);
      ParsedFiltersFit(n - 1, b[FilterLen(p)..]);
      var ps := ParseFilters(n - 1, b[FilterLen(p)..]).value.0;
      assert ([p] + ps)[1..] == ps;
    }
  }

  lemma {:induction false} EncodeThenParseFilters(ps: seq<Filter>, b: seq<byte>, rest: seq<byte>)
    requires FiltersFit(ps) && b == EncodeFilters(ps) + rest
    ensures ParseFilters(|ps|, b) == Ok((ps, |EncodeFilters(ps)|))
  {
    if ps != [] {
      var more := b[FilterLen(ps[0])..];
      FirstFilter(ps, b, rest);
      EncodeThenParseFilters(ps[1..], more, rest);
      NextFilter(b, more, ps, |EncodeFilters(ps[1..])|);
    }
  }

  lemma FirstFilter(ps: seq<Filter>, b: seq<byte>, rest: seq<byte>)
    requires ps != [] && FilterFits(ps[0]) && b == EncodeFilters(ps) + rest
    ensures FilterLen(ps[0]) <= |b| && b[FilterLen(ps[0])..] == EncodeFilters(ps[1..]) + rest
    ensures ParseFilter(b) == Ok(ps[0])
  {
    SplitFirst(EncodeFilter(ps[0]), EncodeFilters(ps[1..]), rest, b);
    EncodeFitting(ps[0]);
    FilterAtStart(ps[0], EncodeFilter(ps[0]), b);
  }

  lemma SplitFirst(e: seq<byte>, more: seq<byte>, rest: seq<byte>, b: seq<byte>)
    requires b == e + more + rest
    ensures e <= b && b[|e|..] == more + rest
  {
  }

  lemma FilterAtStart(p: Filter, e: seq<byte>, b: seq<byte>)
    requires FilterFits(p) && e == EncodeFilter(p) && e <= b
    ensures ParseFilter(b) == Ok(p)
  {
    assert b[0] == e[0] < 64;
    assert Masked(b) == b;
    EncodeThenParseFilter(p, b);
  }

  lemma NextFilter(b: seq<byte>, more: seq<byte>, ps: seq<Filter>, n: nat)
    requires ps != [] && ParseFilter(b) == Ok(ps[0]) && more == b[FilterLen(ps[0])..]
    requires ParseFilters(|ps[1..]|, more) == Ok((ps[1..], n))
    ensures ParseFilters(|ps|, b) == Ok((ps, FilterLen(ps[0]) + n))
  {
    assert [ps[0]] + ps[1..] == ps;
  }

  /* ---- parameters ---- */

  function EncodeParameter(p: Parameter): (b: seq<byte>)
    ensures |b| == 2 + |p.contents|
  {
    [p.identifier, p.length] + p.contents
  }

  /** `2+p.Length` is computed in 8 bits: with a length of 254 or 255 it wraps
      to 0 or 1 and the slice is out of range. */
  function ParseParameter(b: seq<byte>): (r: Outcome<Parameter, Error>)
    ensures r.Done? ==> 2 + |r.value.contents| <= |b|
  {
    if |b| < 2 then Fail(UnexpectedEOF)
    else
      var end := (2 + b[1] as int) % 0x100;
      if |b| < end then Fail(UnexpectedEOF)
      else if end < 2 then Panic
      else Done(Parameter(b[0], b[1], b[2..end]))
  }

  function ParseParameters(b: seq<byte>): Outcome<seq<Parameter>, Error>
    decreases |b|
  {
    if |b| == 0 then Done([])
    else
      match ParseParameter(b)
      case Fail(e) => Fail(e)
      case Panic => Panic
      case Done(p) =>
        match ParseParameters(b[2 + |p.contents|..])
        case Fail(e) => Fail(e)
        case Panic => Panic
        case Done(ps) => Done([p] + ps)
  }

  predicate ParameterFits(p: Parameter) {
    p.length as int == |p.contents| <= 253
  }

  function EncodeParameters(ps: seq<Parameter>): seq<byte> {
    if ps == [] then [] else EncodeParameter(ps[0]) + EncodeParameters(ps[1..])
  }

  lemma ParameterCharacterised(b: seq<byte>, p: Parameter)
    ensures ParseParameter(b) == Done(p) <==> ParameterFits(p) && EncodeParameter(p) <= b
  {
    if ParseParameter(b) == Done(p) {
      assert b[..2 + |p.contents|] == [b[0], b[1]] + b[2..2 + |p.contents|];
    }
    if ParameterFits(p) && EncodeParameter(p) <= b {
      assert b[..2 + |p.contents|] == EncodeParameter(p);
      assert b[2..2 + |p.contents|] == EncodeParameter(p)[2..];
    }
  }

  predicate AllFit(ps: seq<Parameter>) {
    forall p :: p in ps ==> ParameterFits(p)
  }

  lemma OneParameterMore(b: seq<byte>, p: Parameter, rest: seq<byte>, ps: seq<Parameter>)
    requires EncodeParameter(p) <= b && rest == b[2 + |p.contents|..] && EncodeParameters(ps) == rest
    ensures EncodeParameters([p] + ps) == b
  {
    assert ([p] + ps)[1..] == ps;
    assert b == EncodeParameter(p) + rest;
  }

  lemma {:induction false} ParametersExact(b: seq<byte>)
    requires ParseParameters(b).Done?
    ensures AllFit(ParseParameters(b).value) && EncodeParameters(ParseParameters(b).value) == b
    decreases |b|
  {
    if |b| != 0 {
      var p := ParseParameter(b).value;
      var rest := b[2 + |p.contents|..];
      ParameterCharacterised(b, p);
      ParametersExact(rest);
      OneParameterMore(b, p, rest, ParseParameters(rest).value);
    }
  }

  lemma {:induction false} EncodeThenParseParameters(ps: seq<Parameter>)
    requires AllFit(ps)
    ensures ParseParameters(EncodeParameters(ps)) == Done(ps)
  {
    if ps != [] {
      var b := EncodeParameters(ps);
      ParameterCharacterised(b, ps[0]);
      assert b[2 + |ps[0].contents|..] == EncodeParameters(ps[1..]);
      EncodeThenParseParameters(ps[1..]);
      assert [ps[0]] + ps[1..] == ps;
    }
  }

  /** A parameter list is accepted exactly when it consists of parameters of up
      to 253 octets, and it is then read byte for byte. */
  lemma ParametersCharacterised(b: seq<byte>, ps: seq<Parameter>)
    ensures ParseParameters(b) == Done(ps) <==> AllFit(ps) && EncodeParameters(ps) == b
  {
    if ParseParameters(b) == Done(ps) {
      ParametersExact(b);
    }
    if AllFit(ps) && EncodeParameters(ps) == b {
      EncodeThenParseParameters(ps);
    }
  }

  /** The parser panics exactly when, behind some well-formed parameters, it
      meets one that announces 254 or 255 octets. */
  lemma {:induction false} ParametersPanicIff(b: seq<byte>)
    ensures ParseParameters(b) == Panic <==>
      exists ps: seq<Parameter>, rest: seq<byte> :: PanicsBehind(b, ps, rest)
    decreases |b|
  {
    if ParseParameters(b) == Panic {
      var ps, rest := PanicWitness(b);
    }
    forall ps: seq<Parameter>, rest: seq<byte> | PanicsBehind(b, ps, rest) ensures ParseParameters(b) == Panic {
      PanicsThere(b, ps, rest);
    }
  }

  predicate PanicsBehind(b: seq<byte>, ps: seq<Parameter>, rest: seq<byte>) {
    && AllFit(ps)
    && b == EncodeParameters(ps) + rest
    && |rest| >= 2 && rest[1] >= 254
  }

  lemma {:induction false} PanicWitness(b: seq<byte>) returns (ps: seq<Parameter>, rest: seq<byte>)
    requires ParseParameters(b) == Panic
    ensures PanicsBehind(b, ps, rest)
    decreases |b|
  {
    var r := ParseParameter(b);
    if r.Done? {
      var p := r.value;
      ParameterCharacterised(b, p);
      var n := 2 + |p.contents|;
      ps, rest := PanicWitness(b[n..]);
      assert b == b[..n] + b[n..];
      assert EncodeParameters([p] + ps) == EncodeParameter(p) + EncodeParameters(ps);
      ps := [p] + ps;
    } else {
      ps, rest := [], b;
    }
  }

  lemma {:induction false} PanicsThere(b: seq<byte>, ps: seq<Parameter>, rest: seq<byte>)
    requires PanicsBehind(b, ps, rest)
    ensures ParseParameters(b) == Panic
    decreases |ps|
  {
    if ps == [] {
      assert b == rest;
    } else {
      var n := 2 + |ps[0].contents|;
      assert b == EncodeParameter(ps[0]) + (EncodeParameters(ps[1..]) + rest);
      ParameterCharacterised(b, ps[0]);
      assert b[n..] == EncodeParameters(ps[1..]) + rest;
      PanicsThere(b[n..], ps[1..], rest);
    }
  }

  /* ---- templates ---- */

  predicate HasFilters(op: byte) {
    op in {1, 3, 4}
  }

  const DELETE_FILTERS: byte := 5

  /** The number `MarshalTo` puts into the low four bits. */
  function Count(t: Template): nat {
    if t.op == DELETE_FILTERS then |t.ids| else |t.filters|
  }

  /** Operation code, E bit and count in one octet.  The E bit is the parity of
      the number of parameters. */
  function FirstOctet(t: Template): byte {
    t.op % 8 * 32 + |t.params| % 2 * 16 + Count(t) % 16
  }

  function Body(t: Template): seq<byte> {
    if HasFilters(t.op) then EncodeFilters(t.filters) else if t.op == DELETE_FILTERS then t.ids else []
  }

  /** What `MarshalTo` writes. */
  function Written(t: Template): seq<byte> {
    [FirstOctet(t)] + Body(t) + EncodeParameters(t.params)
  }

  /** `MarshalLen` counts filters and identifiers whatever the operation. */
  function Len(t: Template): nat {
    1 + |EncodeFilters(t.filters)| + |t.ids| + |EncodeParameters(t.params)|
  }

  lemma WrittenFits(t: Template)
    ensures |Written(t)| <= Len(t)
  {
  }

  /** `Marshal`: a buffer of zeros, written to. */
  function Marshal(t: Template): seq<byte> {
    WrittenFits(t);
    Written(t) + Zeros(Len(t) - |Written(t)|)
  }

  /** `beyond` is what the backing array holds after the slice `b`.  For the one
      operation that lists identifiers the parser slices without looking at the
      length, and Go allows that up to the capacity. */
  function Parse(b: seq<byte>, beyond: seq<byte>): Outcome<Template, Error> {
    if |b| < 1 then Fail(UnexpectedEOF)
    else
      match ParseMiddle(b, beyond)
      case Fail(e) => Fail(e)
      case Panic => Panic
      case Done(m) => ParseRest(Template(b[0] / 32, m.filters, m.ids, []), b[0] / 16 % 2 == 1, b, m.end)
  }

  /** What stands between the first octet and the parameters, and where it ends. */
  datatype Middle = Middle(filters: seq<Filter>, ids: seq<byte>, end: nat)

  function ParseMiddle(b: seq<byte>, beyond: seq<byte>): Outcome<Middle, Error>
    requires 1 <= |b|
  {
    var op, n := b[0] / 32, b[0] % 16;
    if HasFilters(op) then
      match ParseFilters(n, b[1..])
      case Err(e) => Fail(e)
      case Ok(r) => Done(Middle(r.0, [], 1 + r.1))
    else if op == DELETE_FILTERS then
      if 1 + n as int > |b + beyond| then Panic else Done(Middle([], (b + beyond)[1..1 + n], 1 + n))
    else Done(Middle([], [], 1))
  }

  function ParseRest(t: Template, hasParams: bool, b: seq<byte>, offset: nat): Outcome<Template, Error> {
    if !hasParams then Done(t)
    else if offset > |b| then Panic
    else
      match ParseParameters(b[offset..])
      case Fail(e) => Fail(e)
      case Panic => Panic
      case Done(ps) => Done(t.(params := ps))
  }

  /** Parsing panics exactly when more identifiers are announced than the backing
      array holds, or when parameters are announced that begin behind the slice
      or make their own parser panic. */
  lemma TemplatePanicsIff(b: seq<byte>, beyond: seq<byte>)
    requires 1 <= |b|
    ensures var m := ParseMiddle(b, beyond);
      && (m == Panic <==> b[0] / 32 == DELETE_FILTERS && 1 + b[0] as int % 16 > |b| + |beyond|)
      && (m.Done? && b[0] / 32 == DELETE_FILTERS ==> m.value.end == 1 + b[0] as int % 16)
      && (Parse(b, beyond) == Panic <==>
            || m == Panic
            || (m.Done? && b[0] / 16 % 2 == 1 &&
                  (|b| < m.value.end ||
                   exists ps: seq<Parameter>, rest: seq<byte> :: PanicsBehind(b[m.value.end..], ps, rest))))
  {
    var m := ParseMiddle(b, beyond);
    if m.Done? && m.value.end <= |b| {
      ParametersPanicIff(b[m.value.end..]);
    }
  }

  /** Everything within its bits, and filters and identifiers only where the
      operation has them. */
  predicate Fits(t: Template) {
    && t.op < 8 && Count(t) < 16
    && (t.filters != [] ==> HasFilters(t.op))
    && (t.ids != [] ==> t.op == DELETE_FILTERS)
    && FiltersFit(t.filters)
    && AllFit(t.params)
  }

  /** Whatever is accepted fits. */
  lemma ParsedFits(b: seq<byte>, beyond: seq<byte>)
    requires Parse(b, beyond).Done?
    ensures Fits(Parse(b, beyond).value)
  {
    var t := Parse(b, beyond).value;
    if HasFilters(t.op) {
      ParsedFiltersFit(b[0] % 16, b[1..]);
    }
    var offset :=
      if HasFilters(t.op) then 1 + ParseFilters(b[0] % 16, b[1..]).value.1
      else if t.op == DELETE_FILTERS then 1 + |t.ids|
      else 1;
    if b[0] / 16 % 2 == 1 {
      ParametersExact(b[offset..]);
    }
  }

  /** A template that fits parses back to itself, less its parameters if their
      number is even. */
  lemma FittingParses(t: Template, beyond: seq<byte>)
    requires Fits(t)
    ensures Parse(Marshal(t), beyond) == Done(if |t.params| % 2 == 1 then t else t.(params := []))
  {
    var ps, odd := EncodeParameters(t.params), |t.params| % 2 == 1;
    var b := [FirstOctet(t)] + Body(t) + ps;
    assert Marshal(t) == b by {
      assert Zeros(0) == [];
    }
    FirstOctetParts(t);
    BodyParses(t, b, ps, beyond);
    assert b[1 + |Body(t)|..] == ps;
    EncodeThenParseParameters(t.params);
  }

  lemma BodyParses(t: Template, b: seq<byte>, ps: seq<byte>, beyond: seq<byte>)
    requires Fits(t) && b == [FirstOctet(t)] + Body(t) + ps
    ensures Parse(b, beyond) == ParseRest(t.(params := []), |t.params| % 2 == 1, b, 1 + |Body(t)|)
  {
    FirstOctetParts(t);
    assert b[1..] == Body(t) + ps;
    if HasFilters(t.op) {
      EncodeThenParseFilters(t.filters, b[1..], ps);
    } else if t.op == DELETE_FILTERS {
      assert (b + beyond)[1..1 + |t.ids|] == t.ids;
    }
  }

  lemma FirstOctetParts(t: Template)
    requires t.op < 8 && Count(t) < 16
    ensures FirstOctet(t) / 32 == t.op && FirstOctet(t) / 16 % 2 == |t.params| % 2 && FirstOctet(t) % 16 == Count(t)
  {
    assert FirstOctet(t) / 16 == t.op * 2 + |t.params| % 2;
  }

  /** Which templates survive the wire: exactly those that fit and whose number
      of parameters is zero or odd. */
  lemma SurvivesIff(t: Template, beyond: seq<byte>)
    ensures Parse(Marshal(t), beyond) == Done(t) <==> Fits(t) && (t.params == [] || |t.params| % 2 == 1)
  {
    if Fits(t) {
      FittingParses(t, beyond);
    }
    if Parse(Marshal(t), beyond) == Done(t) {
      ParsedFits(Marshal(t), beyond);
    }
  }

  /** The smallest template that does not: an operation with two parameters
      comes back with none. */
  lemma TwoParametersAreLost()
    ensures var p := Parameter(1, 1, [0]);
      Parse(Marshal(Template(6, [], [], [p, p])), []) == Done(Template(6, [], [], []))
  {
    var p := Parameter(1, 1, [0]);
    FittingParses(Template(6, [], [], [p, p]), []);
  }

  /* ---- by operation code, type number and octet ---- */

  /** The octets of every template: which operations have filters, which one has
      identifiers, and what `MarshalLen` counts in vain. */
  lemma TemplateOctets(t: Template)
    ensures var n := if t.op == 5 then |t.ids| else |t.filters|;
      var middle :=
        if t.op in {1, 3, 4} then EncodeFilters(t.filters) else if t.op == 5 then t.ids else [];
      && |middle| <= |EncodeFilters(t.filters)| + |t.ids|
      && Marshal(t) ==
           [t.op % 8 * 32 + |t.params| % 2 * 16 + n % 16] + middle + EncodeParameters(t.params)
           + Zeros(|EncodeFilters(t.filters)| + |t.ids| - |middle|)
  {
  }

  /** Operations 1, 3 and 4 carry up to 15 filters. */
  lemma FiltersSurvive(op: byte, fs: seq<Filter>, b: seq<byte>, beyond: seq<byte>)
    requires op in {1, 3, 4} && |fs| <= 15 && FiltersFit(fs) && b == [op * 32 + |fs|] + EncodeFilters(fs)
    ensures Marshal(Template(op, fs, [], [])) == b
    ensures Parse(b, beyond) == Done(Template(op, fs, [], []))
  {
    var t := Template(op, fs, [], []);
    FiltersMarshal(t, EncodeFilters(fs));
    FittingParses(t, beyond);
  }

  lemma FiltersMarshal(t: Template, e: seq<byte>)
    requires t.op in {1, 3, 4} && |t.filters| <= 15 && t.ids == [] && t.params == [] && e == EncodeFilters(t.filters)
    ensures Marshal(t) == [t.op * 32 + |t.filters|] + e
  {
    assert EncodeParameters(t.params) == [] && Written(t) == [FirstOctet(t)] + e + [];
    NothingBehind([FirstOctet(t)] + e);
  }

  /** Operation 5 carries up to 15 identifiers. */
  lemma IdentifiersSurvive(ids: seq<byte>, beyond: seq<byte>)
    requires |ids| <= 15
    ensures Marshal(Template(5, [], ids, [])) == [160 + |ids|] + ids
    ensures Parse([160 + |ids|] + ids, beyond) == Done(Template(5, [], ids, []))
  {
    var t := Template(5, [], ids, []);
    TemplateOctets(t);
    NothingBehind([160 + |ids|] + ids);
    FittingParses(t, beyond);
  }

  lemma NothingBehind(b: seq<byte>)
    ensures b + [] + Zeros(0) == b
  {
  }

  /** The other operations carry parameters only, from octet 1 on, whatever count
      the first octet gives, and none without the E bit. */
  lemma OthersCarryParameters(op: byte, n: byte, ps: seq<Parameter>, rest: seq<byte>, beyond: seq<byte>)
    requires op in {0, 2, 6, 7} && n < 16 && AllFit(ps)
    ensures Parse([op * 32 + 16 + n] + EncodeParameters(ps), beyond) == Done(Template(op, [], [], ps))
    ensures Parse([op * 32 + n] + rest, beyond) == Done(Template(op, [], [], []))
  {
    FirstBits(op, 1, n);
    FirstBits(op, 0, n);
    EncodeThenParseParameters(ps);
    assert ([op * 32 + 16 + n] + EncodeParameters(ps))[1..] == EncodeParameters(ps);
  }

  lemma FirstBits(op: byte, e: nat, n: byte)
    requires op < 8 && e < 2 && n < 16
    ensures var x := op * 32 + e * 16 + n; x < 0x100 && x / 32 == op && x / 16 % 2 == e && x % 16 == n
  {
    assert (op * 32 + e * 16 + n) / 16 == op * 2 + e;
  }

  /** A new template with one bidirectional filter for protocol 6. */
  lemma NewTemplateParses()
    ensures Parse([0x21, 0x31, 1, 2, 0x30, 6], [])
         == Done(Template(1, [Filter(3, 1, 1, 2, [Component(0x30, [6])])], [], []))
  {
    var f := Filter(3, 1, 1, 2, [Component(0x30, [6])]);
    OneProtocolFilter(f);
    assert [0x21, 0x31, 1, 2, 0x30, 6] == [0x21] + [0x31, 1, 2, 0x30, 6];
    FiltersSurvive(1, [f], [0x21, 0x31, 1, 2, 0x30, 6], []);
  }

  lemma OneProtocolFilter(f: Filter)
    requires f == Filter(3, 1, 1, 2, [Component(0x30, [6])])
    ensures EncodeFilters([f]) == [0x31, 1, 2, 0x30, 6] && FiltersFit([f])
  {
    var c := Component(0x30, [6]);
    assert [c][1..] == [] && [f][1..] == [];
    assert EncodeComponents([c]) == [0x30, 6];
    assert EncodeFilter(f) == [0x31, 1, 2, 0x30, 6] && FilterFits(f);
  }

  /** The type and these contents are one component, and nothing else is. */
  predicate OneComponent(typ: byte, contents: seq<byte>) {
    ParseComponents([typ] + contents) == Ok([Component(typ, contents)])
  }

  /** The sizes of component contents, by type number. */
  lemma ComponentSizes(typ: byte, contents: seq<byte>)
    ensures typ in {0x10, 0x11} ==> (OneComponent(typ, contents) <==> |contents| == 8)
    ensures typ == 0x20 ==> (OneComponent(typ, contents) <==> |contents| == 32)
    ensures typ in {0x21, 0x23} ==> (OneComponent(typ, contents) <==> |contents| == 17)
    ensures typ in {0x30, 0x85, 0x86} ==> (OneComponent(typ, contents) <==> |contents| == 1)
    ensures typ in {0x40, 0x50, 0x70, 0x83, 0x84, 0x87} ==> (OneComponent(typ, contents) <==> |contents| == 2)
    ensures typ in {0x41, 0x51, 0x60} ==> (OneComponent(typ, contents) <==> |contents| == 4)
    ensures typ == 0x80 ==> (OneComponent(typ, contents) <==> |contents| == 3)
    ensures typ in {0x81, 0x82} ==> (OneComponent(typ, contents) <==> |contents| == 6)
    ensures
      var listed := {0x10, 0x11, 0x20, 0x21, 0x23, 0x30, 0x40, 0x41, 0x50, 0x51, 0x60, 0x70, 0x80, 0x81, 0x82, 0x83,
                     0x84, 0x85, 0x86, 0x87};
      typ !in listed ==> (OneComponent(typ, contents) <==> contents == [])
  {
    var c := Component(typ, contents);
    assert [c][1..] == [] && EncodeComponents([c]) == [typ] + contents;
    ComponentsCharacterised([typ] + contents, [c]);
    assert OneComponent(typ, contents) <==> Sized(c);
  }

  /** Identifier, length and contents of a parameter in its octets, and every way
      in which reading one ends. */
  lemma ParameterOctets(identifier: byte, contents: seq<byte>, b: seq<byte>, rest: seq<byte>)
    requires |contents| <= 253
    ensures var p := Parameter(identifier, |contents|, contents);
      && EncodeParameter(p) == [identifier, |contents|] + contents
      && ParseParameter([identifier, |contents|] + contents + rest) == Done(p)
    ensures ParseParameter(b) == Panic <==> |b| >= 2 && b[1] >= 254
    ensures ParseParameter(b) == Fail(UnexpectedEOF) <==> |b| < 2 || (b[1] < 254 && |b| < 2 + b[1] as int)
  {
    var p := Parameter(identifier, |contents|, contents);
    ParameterCharacterised([identifier, |contents|] + contents + rest, p);
  }
}
