/** The Traffic Flow Template as the program works on it: an object whose fields
    are set by parsing, loops with a running offset, and buffers written in
    place.  Each is proved against the functions of module `Tft`. */
module TftTemplate {
  import opened Octets
  import opened Tft

  /* ---- writing ---- */

  /** `MarshalTo` of a packet filter into `b[at:]`, where `b` is a slice of
      length `l` of the array. */
  method MarshalFilter(p: Filter, b: array<byte>, l: nat, at: nat) returns (ok: bool)
    requires at <= l <= b.Length
    modifies b
    ensures ok <==> at + FilterLen(p) <= l
    ensures ok ==> b[..] == Overlay(old(b[..]), at, EncodeFilter(p))
  {
    if l - at < 3 {
      return false;
    }
    var head := [p.direction % 4 * 16 + p.identifier % 16, p.precedence, p.length];
    Copy(b, at, head);
    ok := MarshalComponents(p.components, b, l, at, head, old(b[..]));
  }

  /** The component loop, behind a `head` that is already written. */
  method MarshalComponents(cs: seq<Component>, b: array<byte>, l: nat, at: nat, ghost head: seq<byte>,
                           ghost was: seq<byte>)
    returns (ok: bool)
    requires |head| == 3 && at + 3 <= l <= b.Length == |was| && b[..] == Overlay(was, at, head)
    modifies b
    ensures ok <==> at + 3 + |EncodeComponents(cs)| <= l
    ensures ok ==> b[..] == Overlay(was, at, head + EncodeComponents(cs))
  {
    var offset := at + 3;
    ghost var done, whole := head, head + EncodeComponents(cs);
    for k := 0 to |cs|
      invariant offset == at + |done| <= l
      invariant whole == done + EncodeComponents(cs[k..])
      invariant b[..] == Overlay(was, at, done)
    {
      var c := cs[k];
      var n := 1 + |c.contents|;
      var e := [c.typ] + c.contents;
      ComponentsFrom(cs, k, e);
      Advance(whole, done, e, EncodeComponents(cs[k + 1..]));
      if l < offset + n {
        return false;
      }
      OverlayAppend(was, at, done, e);
      Copy(b, offset, e);
      done := done + e;
      offset := offset + n;
    }
    assert done + [] == done;
    ok := true;
  }

  lemma ComponentsFrom(cs: seq<Component>, k: nat, e: seq<byte>)
    requires k < |cs| && e == [cs[k].typ] + cs[k].contents
    ensures EncodeComponents(cs[k..]) == e + EncodeComponents(cs[k + 1..])
  {
    assert cs[k..][1..] == cs[k + 1..];
  }

  /** `MarshalTo` of a parameter into `b[at:]`. */
  method MarshalParameter(p: Parameter, b: array<byte>, l: nat, at: nat) returns (ok: bool)
    requires at <= l <= b.Length
    modifies b
    ensures ok <==> at + 2 + |p.contents| <= l
    ensures ok ==> b[..] == Overlay(old(b[..]), at, EncodeParameter(p))
  {
    if l - at < 2 {
      return false;
    }
    var head := [p.identifier, p.length];
    Copy(b, at, head);
    if l - at < 2 + |p.contents| {
      return false;
    }
    OverlayAppend(old(b[..]), at, head, p.contents);
    Copy(b, at + 2, p.contents);
    ok := true;
  }

  /* ---- reading ---- */

  method ParseMultiComponents(b: seq<byte>) returns (r: Result<seq<Component>, Error>)
    ensures r == ParseComponents(b)
  {
    var rest := b;
    var cs: seq<Component> := [];
    PrependNothing(ParseComponents(b));
    while |rest| != 0
      invariant ParseComponents(b) == Prepend(cs, ParseComponents(rest))
      decreases |rest|
    {
      var i := ParseComponent(rest);
      if i.Err? {
        return Err(i.error);
      }
      var n := 1 + |i.value.contents|;
      PrependOne(cs, i.value, ParseComponents(rest[n..]));
      cs := cs + [i.value];
      rest := rest[n..];
    }
    assert cs + [] == cs;
    r := Ok(cs);
  }

  method UnmarshalFilter(b: seq<byte>) returns (r: Result<Filter, Error>)
    ensures r == ParseFilter(b)
  {
    if |b| < 3 {
      return Err(UnexpectedEOF);
    }
    var n := 3 + b[2] as int;
    if |b| < n {
      return Err(UnexpectedEOF);
    }
    var comps := ParseMultiComponents(b[3..n]);
    if comps.Err? {
      return Err(comps.error);
    }
    r := Ok(Filter(b[0] / 16 % 4, b[0] % 16, b[1], b[2], comps.value));
  }

  method ParseMultiParameters(b: seq<byte>) returns (r: Outcome<seq<Parameter>, Error>)
    ensures r == ParseParameters(b)
  {
    var rest := b;
    var ps: seq<Parameter> := [];
    BehindNothing(ParseParameters(b));
    while |rest| != 0
      invariant ParseParameters(b) == Behind(ps, ParseParameters(rest))
      decreases |rest|
    {
      var i := ParseParameter(rest);
      if i.Fail? {
        return Fail(i.error);
      }
      if i.Panic? {
        return Panic;
      }
      var n := 2 + |i.value.contents|;
      BehindMore(ps, [i.value], ParseParameters(rest[n..]));
      ps := ps + [i.value];
      rest := rest[n..];
    }
    assert ps + [] == ps;
    r := Done(ps);
  }

  /** The filter loop.  Its offset, advanced by what each filter re-encodes to,
      never leaves the buffer. */
  method ParseMultiFilters(n: nat, b: seq<byte>) returns (r: Result<(seq<Filter>, nat), Error>)
    requires 1 <= |b|
    ensures r == From([], 1, ParseFilters(n, b[1..]))
    ensures r.Ok? ==> r.value.1 <= |b|
  {
    ghost var all := FiltersStart(n, b);
    r := FilterLoop(n, b, all);
  }

  method FilterLoop(n: nat, b: seq<byte>, ghost all: Result<(seq<Filter>, nat), Error>)
    returns (r: Result<(seq<Filter>, nat), Error>)
    requires FiltersLeft(all, [], 1, n, b)
    ensures r == all && (r.Ok? ==> r.value.1 <= |b|)
  {
    var ps: seq<Filter>, offset: nat := [], 1;
    ghost var left := n;
    for i := 0 to n
      invariant left == n - i && 1 <= offset && FiltersLeft(all, ps, offset, left, b)
    {
      var p := FilterAt(b, offset, all, ps, left);
      if p.Err? {
        return Err(p.error);
      }
      ps := ps + [p.value];
      offset := offset + FilterLen(p.value);
      left := left - 1;
    }
    FiltersEnd(all, ps, offset, b);
    r := Ok((ps, offset));
  }

  method FilterAt(b: seq<byte>, offset: nat, ghost all: Result<(seq<Filter>, nat), Error>, ghost ps: seq<Filter>,
                  ghost left: nat)
    returns (p: Result<Filter, Error>)
    requires left > 0 && FiltersLeft(all, ps, offset, left, b)
    ensures p.Err? ==> all == Err(p.error)
    ensures p.Ok? ==> FiltersLeft(all, ps + [p.value], offset + FilterLen(p.value), left - 1, b)
  {
    FilterStep(all, ps, offset, left, b);
    p := UnmarshalFilter(b[offset..]);
  }

  lemma FiltersStart(n: nat, b: seq<byte>) returns (all: Result<(seq<Filter>, nat), Error>)
    requires 1 <= |b|
    ensures all == From([], 1, ParseFilters(n, b[1..])) && FiltersLeft(all, [], 1, n, b)
  {
    all := From([], 1, ParseFilters(n, b[1..]));
  }

  lemma FiltersEnd(all: Result<(seq<Filter>, nat), Error>, ps: seq<Filter>, offset: nat, b: seq<byte>)
    requires FiltersLeft(all, ps, offset, 0, b)
    ensures all == Ok((ps, offset))
  {
    assert ps + [] == ps;
  }

  /** The result of the filter loop when `ps` are parsed, `offset` is reached and
      what is left gives `r`. */
  ghost function From(ps: seq<Filter>, offset: nat,
                      r: Result<(seq<Filter>, nat), Error>): Result<(seq<Filter>, nat), Error> {
    match r
    case Err(e) => Err(e)
    case Ok(more) => Ok((ps + more.0, offset + more.1))
  }

  /** `n` filters are left to be parsed from `offset` on. */
  ghost predicate FiltersLeft(all: Result<(seq<Filter>, nat), Error>, ps: seq<Filter>, offset: nat, n: nat,
                              b: seq<byte>) {
    offset <= |b| && all == From(ps, offset, ParseFilters(n, b[offset..]))
  }

  lemma FilterStep(all: Result<(seq<Filter>, nat), Error>, ps: seq<Filter>, offset: nat, n: nat, b: seq<byte>)
    requires n > 0 && FiltersLeft(all, ps, offset, n, b)
    ensures ParseFilter(b[offset..]).Err? ==> all == Err(ParseFilter(b[offset..]).error)
    ensures ParseFilter(b[offset..]).Ok? ==>
      var p := ParseFilter(b[offset..]).value;
      FiltersLeft(all, ps + [p], offset + FilterLen(p), n - 1, b)
  {
    var rest := b[offset..];
    var q := ParseFilter(rest);
    if q.Ok? {
      assert rest[FilterLen(q.value)..] == b[offset + FilterLen(q.value)..];
      var r := ParseFilters(n - 1, rest[FilterLen(q.value)..]);
      if r.Ok? {
        assert ps + ([q.value] + r.value.0) == ps + [q.value] + r.value.0;
      }
    }
  }

  /* ---- the template object ---- */

  method DropNils<T>(xs: seq<Option<T>>) returns (r: seq<T>)
    ensures r == Present(xs)
  {
    r := [];
    for k := 0 to |xs|
      invariant r + Present(xs[k..]) == Present(xs)
    {
      assert xs[k..][1..] == xs[k + 1..];
      if xs[k].Some? {
        assert r + Present(xs[k..]) == r + [xs[k].value] + Present(xs[k + 1..]);
        r := r + [xs[k].value];
      }
    }
    assert r + [] == r;
  }

  class TrafficFlowTemplate {
    var op: byte
    var filters: seq<Filter>
    var ids: seq<byte>
    var params: seq<Parameter>

    function Value(): Template
      reads this
    {
      Template(op, filters, ids, params)
    }

    constructor (op: byte, filters: seq<Option<Filter>>, ids: seq<byte>, params: seq<Option<Parameter>>)
      ensures Value() == Template(op, Present(filters), ids, Present(params))
    {
      var fs := DropNils(filters);
      var ps := DropNils(params);
      this.op, this.filters, this.ids, this.params := op, fs, ids, ps;
    }

    /** The zero value, as the parser starts from. */
    constructor Empty()
      ensures Value() == Template(0, [], [], [])
    {
      op, filters, ids, params := 0, [], [], [];
    }

    /** Into any slice, of length `l` in an array that ends with its capacity:
        succeeds when what is to be written fits, and then changes those octets
        only.  A short slice makes it fail, unless it ends within the
        identifiers: these are copied as far as the capacity allows, which is a
        success if there are no parameters and a panic in all other cases. */
    method MarshalTo(b: array<byte>, l: nat) returns (out: Outcome<(), Error>)
      requires l <= b.Length
      modifies b
      ensures out == if 1 <= l < 1 + |ids| && op == DELETE_FILTERS then
                       if params == [] && 1 + |ids| <= b.Length then Done(()) else Panic
                     else if l >= |Written(Value())| then Done(())
                     else Fail(UnexpectedEOF)
      ensures out.Done? ==> |Written(Value())| <= b.Length && b[..] == Overlay(old(b[..]), 0, Written(Value()))
    {
      if l < 1 {
        return Fail(UnexpectedEOF);
      }
      ghost var was := b[..];
      var pf := if op == DELETE_FILTERS then |ids| else |filters|;
      var first: byte := op % 8 * 32 + |params| % 2 * 16 + pf % 16;
      assert first == FirstOctet(Value());
      Copy(b, 0, [first]);
      var end := MarshalMiddle(b, l, first, was);
      if end.Fail? {
        return Fail(end.error);
      }
      if end.Panic? {
        return Panic;
      }
      if params == [] {
        assert Written(Value()) == [first] + Body(Value());
        return Done(());
      }
      if end.value > l {
        return Panic;
      }
      var ok := MarshalParameters(b, l, end.value, [first] + Body(Value()), was);
      out := if ok then Done(()) else Fail(UnexpectedEOF);
    }

    /** The filters or the identifiers, by operation code, and where they end. */
    method MarshalMiddle(b: array<byte>, l: nat, first: byte, ghost was: seq<byte>) returns (end: Outcome<nat, Error>)
      requires 1 <= l <= b.Length == |was| && b[..] == Overlay(was, 0, [first])
      modifies b
      ensures end == if 1 + |Body(Value())| <= (if op == DELETE_FILTERS then b.Length else l)
                     then Done(1 + |Body(Value())|)
                     else if op == DELETE_FILTERS then Panic else Fail(UnexpectedEOF)
      ensures end.Done? ==> b[..] == Overlay(was, 0, [first] + Body(Value()))
    {
      if HasFilters(op) {
        var r := MarshalFilters(b, l, first, was);
        return if r.None? then Fail(UnexpectedEOF) else Done(r.value);
      }
      if op == DELETE_FILTERS {
        var fits := MarshalIdentifiers(b, first, was);
        return if fits then Done(1 + |ids|) else Panic;
      }
      assert [first] + [] == [first];
      end := Done(1);
    }

    /** `copy` of the identifiers behind the first octet, within the capacity. */
    method MarshalIdentifiers(b: array<byte>, first: byte, ghost was: seq<byte>) returns (fits: bool)
      requires 1 <= b.Length == |was| && b[..] == Overlay(was, 0, [first])
      modifies b
      ensures fits <==> 1 + |ids| <= b.Length
      ensures fits ==> b[..] == Overlay(was, 0, [first] + ids)
    {
      fits := 1 + |ids| <= b.Length;
      if fits {
        OverlayAppend(was, 0, [first], ids);
        Copy(b, 1, ids);
      }
    }

    /** The filter loop of `MarshalTo`; the offset behind the last filter. */
    method MarshalFilters(b: array<byte>, l: nat, first: byte, ghost was: seq<byte>) returns (r: Option<nat>)
      requires 1 <= l <= b.Length == |was| && b[..] == Overlay(was, 0, [first])
      modifies b
      ensures r == if 1 + |EncodeFilters(filters)| <= l then Some(1 + |EncodeFilters(filters)|) else None
      ensures r.Some? ==> b[..] == Overlay(was, 0, [first] + EncodeFilters(filters))
    {
      var offset := 1;
      ghost var done, whole := [first], [first] + EncodeFilters(filters);
      for k := 0 to |filters|
        invariant offset == |done| <= l
        invariant whole == done + EncodeFilters(filters[k..])
        invariant b[..] == Overlay(was, 0, done)
      {
        ghost var e := EncodeFilter(filters[k]);
        FiltersFrom(filters, k, e);
        Advance(whole, done, e, EncodeFilters(filters[k + 1..]));
        var ok := MarshalFilter(filters[k], b, l, offset);
        if !ok {
          return None;
        }
        OverlayAppend(was, 0, done, e);
        done := done + e;
        offset := offset + FilterLen(filters[k]);
      }
      assert done + [] == done;
      r := Some(offset);
    }

    /** The parameter loop of `MarshalTo`. */
    method MarshalParameters(b: array<byte>, l: nat, at: nat, ghost head: seq<byte>, ghost was: seq<byte>)
      returns (ok: bool)
      requires at == |head| <= l <= b.Length == |was| && b[..] == Overlay(was, 0, head)
      modifies b
      ensures ok <==> |head + EncodeParameters(params)| <= l
      ensures ok ==> b[..] == Overlay(was, 0, head + EncodeParameters(params))
    {
      var offset := at;
      ghost var done, whole := head, head + EncodeParameters(params);
      for k := 0 to |params|
        invariant offset == |done| <= l
        invariant whole == done + EncodeParameters(params[k..])
        invariant b[..] == Overlay(was, 0, done)
      {
        ghost var e := EncodeParameter(params[k]);
        ParametersFrom(params, k, e);
        Advance(whole, done, e, EncodeParameters(params[k + 1..]));
        var one := MarshalParameter(params[k], b, l, offset);
        if !one {
          return false;
        }
        OverlayAppend(was, 0, done, e);
        done := done + e;
        offset := offset + 2 + |params[k].contents|;
      }
      assert done + [] == done;
      ok := true;
    }

    /** Marshalling into a fresh buffer never fails. */
    method Marshal() returns (b: array<byte>)
      ensures fresh(b) && b[..] == Tft.Marshal(Value())
    {
      WrittenFits(Value());
      b := new byte[Len(Value())](_ => 0);
      assert b[..] == Zeros(b.Length);
      var out := MarshalTo(b, b.Length);
      assert b[..] == Tft.Marshal(Value());
    }

    /** Filters, identifiers and parameters are replaced only if the octets have
        a place for them. */
    method UnmarshalBinary(b: seq<byte>, beyond: seq<byte>) returns (out: Outcome<(), Error>)
      modifies this
      ensures match Parse(b, beyond)
        case Done(t) => out == Done(()) && Value() == Replaced(old(Value()), t, b[0] / 16 % 2 == 1)
        case Fail(e) => out == Fail(e)
        case Panic => out == Panic
    {
      if |b| < 1 {
        return Fail(UnexpectedEOF);
      }
      op := b[0] / 32;
      var end := ReadMiddle(b, beyond);
      if end.Fail? {
        return Fail(end.error);
      }
      if end.Panic? {
        return Panic;
      }
      ghost var m := ParseMiddle(b, beyond).value;
      RestReplaces(Value(), Template(op, m.filters, m.ids, []), b[0] / 16 % 2 == 1, b, end.value);
      out := ReadParameters(b, end.value, b[0] / 16 % 2 == 1);
    }

    /** The filters or the identifiers, by operation code. */
    method ReadMiddle(b: seq<byte>, beyond: seq<byte>) returns (end: Outcome<nat, Error>)
      requires 1 <= |b| && op == b[0] / 32
      modifies this`filters, this`ids
      ensures match ParseMiddle(b, beyond)
        case Fail(e) => end == Fail(e)
        case Panic => end == Panic
        case Done(m) =>
          && end == Done(m.end)
          && filters == (if HasFilters(op) then m.filters else old(filters))
          && ids == (if op == DELETE_FILTERS then m.ids else old(ids))
    {
      var n: nat := b[0] % 16;
      if HasFilters(op) {
        var fs := ParseMultiFilters(n, b);
        if fs.Err? {
          return Fail(fs.error);
        }
        filters := fs.value.0;
        return Done(fs.value.1);
      }
      if op == DELETE_FILTERS {
        if 1 + n > |b + beyond| {
          return Panic;
        }
        ids := (b + beyond)[1..1 + n];
        return Done(1 + n);
      }
      end := Done(1);
    }

    /** The parameters, if the E bit says that there are any. */
    method ReadParameters(b: seq<byte>, offset: nat, hasParams: bool) returns (out: Outcome<(), Error>)
      modifies this`params
      ensures match ParseRest(old(Value()), hasParams, b, offset)
        case Done(t) => out == Done(()) && Value() == t
        case Fail(e) => out == Fail(e)
        case Panic => out == Panic
    {
      if !hasParams {
        return Done(());
      }
      if offset > |b| {
        return Panic;
      }
      var ps := ParseMultiParameters(b[offset..]);
      if ps.Fail? {
        return Fail(ps.error);
      }
      if ps.Panic? {
        return Panic;
      }
      params := ps.value;
      out := Done(());
    }
  }

  /** `ParseTrafficFlowTemplate`: into a new object. */
  method ParseTemplate(b: seq<byte>, beyond: seq<byte>) returns (t: TrafficFlowTemplate, out: Outcome<(), Error>)
    ensures fresh(t)
    ensures match Parse(b, beyond)
      case Done(v) => out == Done(()) && t.Value() == v
      case Fail(e) => out == Fail(e)
      case Panic => out == Panic
  {
    t := new TrafficFlowTemplate.Empty();
    out := t.UnmarshalBinary(b, beyond);
  }

  /** A template into which another was parsed. */
  function Replaced(was: Template, t: Template, hasParams: bool): Template {
    Template(t.op, if HasFilters(t.op) then t.filters else was.filters,
             if t.op == DELETE_FILTERS then t.ids else was.ids, if hasParams then t.params else was.params)
  }

  /** Operations 1, 3 and 4 replace the filters, 5 the identifiers; what an
      operation does not have stays as it was. */
  lemma ReplacedByOperation(was: Template, t: Template, hasParams: bool)
    ensures var r := Replaced(was, t, hasParams);
      && r.op == t.op && r.params == (if hasParams then t.params else was.params)
      && (t.op in {1, 3, 4} ==> r.filters == t.filters && r.ids == was.ids)
      && (t.op == 5 ==> r.filters == was.filters && r.ids == t.ids)
      && (t.op !in {1, 3, 4, 5} ==> r.filters == was.filters && r.ids == was.ids)
  {
  }

  /** Reading the parameters does not depend on what is there already. */
  lemma RestReplaces(t: Template, u: Template, hasParams: bool, b: seq<byte>, offset: nat)
    ensures match ParseRest(u, hasParams, b, offset)
      case Fail(e) => ParseRest(t, hasParams, b, offset) == Fail(e)
      case Panic => ParseRest(t, hasParams, b, offset) == Panic
      case Done(v) =>
        && v == u.(params := v.params)
        && ParseRest(t, hasParams, b, offset) == Done(if hasParams then t.(params := v.params) else t)
  {
  }

  lemma FiltersFrom(ps: seq<Filter>, k: nat, e: seq<byte>)
    requires k < |ps| && e == EncodeFilter(ps[k])
    ensures EncodeFilters(ps[k..]) == e + EncodeFilters(ps[k + 1..])
  {
    assert ps[k..][1..] == ps[k + 1..];
  }

  lemma ParametersFrom(ps: seq<Parameter>, k: nat, e: seq<byte>)
    requires k < |ps| && e == EncodeParameter(ps[k])
    ensures EncodeParameters(ps[k..]) == e + EncodeParameters(ps[k + 1..])
  {
    assert ps[k..][1..] == ps[k + 1..];
  }
}
