/** What each handler of the serving gateway does, told from the fields of its
    message and from nothing else that the handlers compute.  Interface types
    are those of section 8.22 of TS 29.274, by number. */
module GatewayOutcomes {
  import opened Octets
  import U = UPlane
  import Q = Sequence
  import opened Registry
  import opened Gateway
  import opened GatewayRelays

  /* ---- bearer contexts ---- */

  /** Decodable and, if it is a Cause, accepted. */
  predicate Fine(c: Child) {
    c !in {UserPlane(None), Cause(None), Cause(Some(false)), Plain(false)}
  }

  predicate AllFine(cs: seq<Child>) {
    forall c :: c in cs ==> Fine(c)
  }

  /** The first child that is not fine is the k-th, a Cause that is not accepted. */
  predicate RejectedAt(cs: seq<Child>, k: nat) {
    k < |cs| && cs[k] == Cause(Some(false)) && forall j :: 0 <= j < k ==> Fine(cs[j])
  }

  ghost predicate RejectedFirst(cs: seq<Child>) {
    exists k: nat :: RejectedAt(cs, k)
  }

  /** The first child that is not fine is the k-th, one that is not decodable. */
  predicate FaultyAt(cs: seq<Child>, k: nat) {
    && k < |cs| && cs[k] in {UserPlane(None), Cause(None), Plain(false)}
    && forall j :: 0 <= j < k ==> Fine(cs[j])
  }

  ghost predicate FaultyFirst(cs: seq<Child>) {
    exists k: nat :: FaultyAt(cs, k)
  }

  /** Reading a bearer context in full goes on, drops or stops accordingly. */
  lemma {:induction false} ReadVerdict(d: SessionData, cs: seq<Child>)
    ensures var v := ReadChildren(d, cs, true).1;
      && (v == Go <==> AllFine(cs)) && (v == Drop <==> RejectedFirst(cs)) && (v == Stop <==> FaultyFirst(cs))
    decreases |cs|
  {
    if cs != [] {
      JudgedInFull(cs[0]);
      if Fine(cs[0]) {
        ReadVerdict(if cs[0].UserPlane? then WithFTEID(d, cs[0].fteid.value) else d, cs[1..]);
        FirstIsFine(cs);
      } else {
        FirstIsNot(cs);
      }
    }
  }

  lemma JudgedInFull(c: Child)
    ensures Judge(c, true) == Go <==> Fine(c)
    ensures Judge(c, true) == Drop <==> c == Cause(Some(false))
    ensures Judge(c, true) == Stop <==> c in {UserPlane(None), Cause(None), Plain(false)}
  {
    match c
    case UserPlane(f) => assert f == None || f.Some?;
    case Cause(ok) =>
      if ok.Some? {
        assert if ok.value then ok == Some(true) else ok == Some(false);
      }
    case Plain(ok) =>
    case Other =>
  }

  lemma FirstIsFine(cs: seq<Child>)
    requires cs != [] && Fine(cs[0])
    ensures AllFine(cs) <==> AllFine(cs[1..])
    ensures RejectedFirst(cs) <==> RejectedFirst(cs[1..])
    ensures FaultyFirst(cs) <==> FaultyFirst(cs[1..])
  {
    assert forall c :: c in cs <==> c == cs[0] || c in cs[1..];
    forall k: nat ensures RejectedAt(cs[1..], k) <==> RejectedAt(cs, k + 1) {
      Shift(cs, k);
    }
    forall k: nat ensures FaultyAt(cs[1..], k) <==> FaultyAt(cs, k + 1) {
      Shift(cs, k);
    }
    if RejectedFirst(cs) {
      var k: nat :| RejectedAt(cs, k);
      assert k > 0 && RejectedAt(cs[1..], k - 1);
    }
    if FaultyFirst(cs) {
      var k: nat :| FaultyAt(cs, k);
      assert k > 0 && FaultyAt(cs[1..], k - 1);
    }
  }

  lemma Shift(cs: seq<Child>, k: nat)
    requires cs != [] && Fine(cs[0])
    ensures RejectedAt(cs[1..], k) <==> RejectedAt(cs, k + 1)
    ensures FaultyAt(cs[1..], k) <==> FaultyAt(cs, k + 1)
  {
    var rest := cs[1..];
    assert forall j :: 0 <= j < |rest| ==> rest[j] == cs[j + 1];
    if forall j :: 0 <= j < k && j < |rest| ==> Fine(rest[j]) {
      forall j | 0 <= j < k + 1 && j < |cs| ensures Fine(cs[j]) {
        assert j == 0 || cs[j] == rest[j - 1];
      }
    }
  }

  lemma FirstIsNot(cs: seq<Child>)
    requires cs != [] && !Fine(cs[0])
    ensures !AllFine(cs)
    ensures RejectedFirst(cs) <==> cs[0] == Cause(Some(false))
    ensures FaultyFirst(cs) <==> cs[0] in {UserPlane(None), Cause(None), Plain(false)}
  {
    assert cs[0] in cs;
    assert RejectedAt(cs, 0) <==> cs[0] == Cause(Some(false));
    assert FaultyAt(cs, 0) <==> cs[0] in {UserPlane(None), Cause(None), Plain(false)};
  }

  /** The last F-TEID, and the last one of an interface type. */
  function LastFTEID(cs: seq<Child>): Option<FTEID> {
    if cs == [] then None
    else if cs[|cs| - 1].UserPlane? && cs[|cs| - 1].fteid.Some? then cs[|cs| - 1].fteid
    else LastFTEID(cs[..|cs| - 1])
  }

  function LastOfType(cs: seq<Child>, ifType: byte): Option<uint32> {
    if cs == [] then None
    else
      var last := cs[|cs| - 1];
      if last.UserPlane? && last.fteid.Some? && last.fteid.value.ifType == ifType then Some(last.fteid.value.teid)
      else LastOfType(cs[..|cs| - 1], ifType)
  }

  /** Where nothing stops the reading of a bearer context, the session gets the
      tunnel of the last F-TEID, to port 2152, and for each interface type the
      TEID of the last F-TEID of that type. */
  lemma ReadLeavesLast(d: SessionData, cs: seq<Child>, full: bool, ifType: byte)
    requires if full then AllFine(cs) else UserPlane(None) !in cs
    ensures var (e, v) := ReadChildren(d, cs, full);
      var f, t := LastFTEID(cs), LastOfType(cs, ifType);
      && v == Go && e == d.(teids := e.teids, tunnel := e.tunnel)
      && e.tunnel == (if f.Some? then Tunnel(f.value.teid, Some(f.value.ip + ":2152")) else d.tunnel)
      && (ifType in e.teids <==> t.Some? || ifType in d.teids)
      && (ifType in e.teids ==> e.teids[ifType] == if t.Some? then t.value else d.teids[ifType])
    decreases |cs|
  {
    if cs != [] {
      var before, last := cs[..|cs| - 1], cs[|cs| - 1];
      assert cs == before + [last] && last in cs;
      assert forall c :: c in before ==> c in cs;
      ReadLeavesLast(d, before, full, ifType);
      ReadOneMore(d, before, last, full);
      if full {
        JudgedInFull(last);
      }
    }
  }

  lemma {:induction false} ReadOneMore(d: SessionData, cs: seq<Child>, c: Child, full: bool)
    requires ReadChildren(d, cs, full).1 == Go
    ensures ReadChildren(d, cs + [c], full) == ReadChildren(ReadChildren(d, cs, full).0, [c], full)
    decreases |cs|
  {
    if cs == [] {
      assert cs + [c] == [c];
    } else {
      assert (cs + [c])[0] == cs[0] && (cs + [c])[1..] == cs[1..] + [c];
      ReadOneMore(if cs[0].UserPlane? then WithFTEID(d, cs[0].fteid.value) else d, cs[1..], c, full);
    }
  }

  /* ---- messages that find no session ---- */

  predicate Reserved<S(==)>(c: ConnData<S>, teid: uint32) {
    teid in c.byTEID && c.byTEID[teid] == None
  }

  /** The TEID is not in use, or its session has another peer. */
  predicate Stranger<S(==)>(c: ConnData<S>, teid: uint32, from: string)
    requires Closed(c)
  {
    teid !in c.byTEID || (c.byTEID[teid].Some? && c.sessions[c.byTEID[teid].value].peer != from)
  }

  /** A response or a request to a TEID that is only reserved panics; one that
      finds no session of the sender does nothing. */
  lemma UnknownSender<S, C>(st: State<S, C>, teid: uint32, from: string, m: Response, cs: Option<seq<Child>>)
    requires Sound(st)
    ensures Reserved(st.s5, teid) ==> Answer(st, teid, from, m) == None
    ensures Stranger(st.s5, teid, from) ==> Answer(st, teid, from, m) == Some(st)
    ensures Reserved(st.s11, teid) ==> Modify(st, teid, from, cs) == None
    ensures Stranger(st.s11, teid, from) ==> Modify(st, teid, from, cs) == Some(st)
  {
  }

  /* ---- Modify Bearer Request ---- */

  /** The TEID of a type once the request is read. */
  function Known(d: SessionData, cs: seq<Child>, ifType: byte): Option<uint32> {
    var t := LastOfType(cs, ifType);
    if t.Some? then t else if ifType in d.teids then Some(d.teids[ifType]) else None
  }

  /** A request without an F-TEID that is not decodable, or without a bearer
      context: the S11 session's tunnel becomes that of the last F-TEID, and if
      TEIDs of types 10 and 1 are known of it, and one of type 4 of the S5
      session, uplink packets at that of type 1 go to the S5 session's tunnel and
      downlink ones at that of type 4 to the S11 session's.  Otherwise no entry
      changes. */
  lemma ModifyOutcome<S, C>(st: State<S, C>, teid: uint32, from: string, cs: Option<seq<Child>>, s: S, x: S)
    requires Sound(st) && GetByTEID(st.s11, teid, from) == Done(s)
    requires GetByIMSI(st.s5, st.s11.sessions[s].imsi) == Some(x)
    requires UserPlane(None) !in cs.GetOr([])
    ensures var n, d, children := Modify(st, teid, from, cs), st.s11.sessions[s], cs.GetOr([]);
      var f, p := LastFTEID(children), st.s5.sessions[x];
      var mme, up, down := Known(d, children, 10), Known(d, children, 1), Known(p, [], 4);
      && n.Some? && n.value.s5 == st.s5 && n.value.waiting == st.waiting && s in n.value.s11.sessions
      && n.value.s11 == Put(st.s11, s, n.value.s11.sessions[s])
      && n.value.s11.sessions[s].tunnel ==
           (if f.Some? then Tunnel(f.value.teid, Some(f.value.ip + ":2152")) else d.tunnel)
      && (mme.Some? && up.Some? && down.Some? ==>
            && n.value.s1u.relay == st.s1u.relay[up.value := U.Peer(p.tunnel.teid, p.tunnel.addr, st.s5uConn)]
            && n.value.s5u.relay == st.s5u.relay[down.value :=
                 U.Peer(n.value.s11.sessions[s].tunnel.teid, n.value.s11.sessions[s].tunnel.addr, st.s1uConn)])
      && (mme.None? || up.None? || down.None? ==> n.value.s1u == st.s1u && n.value.s5u == st.s5u)
  {
    ReadLeavesLast(st.s11.sessions[s], cs.GetOr([]), false, 10);
    ReadLeavesLast(st.s11.sessions[s], cs.GetOr([]), false, 1);
  }

  /** A request for a subscriber without an S5 session does nothing. */
  lemma ModifyAlone<S, C>(st: State<S, C>, teid: uint32, from: string, cs: Option<seq<Child>>, s: S)
    requires Sound(st) && teid in st.s11.byTEID && st.s11.byTEID[teid] == Some(s)
    requires st.s11.sessions[s].imsi !in st.s5.byIMSI
    ensures Modify(st, teid, from, cs) == Some(st)
  {
  }

  /** With one that is not decodable no entry changes either. */
  lemma ModifyStops<S, C>(st: State<S, C>, teid: uint32, from: string, cs: seq<Child>)
    requires Sound(st) && UserPlane(None) in cs && Modify(st, teid, from, Some(cs)).Some?
    ensures var n := Modify(st, teid, from, Some(cs)).value; n == st.(s11 := n.s11)
  {
    var f := Found(st, teid, from);
    if f.Some? {
      ReadTunnel(st.s11.sessions[f.value.0], cs, false);
    }
  }

  /* ---- Create Session Response ---- */

  /** Everything mandatory is there, decodable and accepted. */
  predicate Complete(m: Response) {
    m.accepted == Given(true) && m.paa.Given? && m.pgw.Given? && m.bearer.Some? && AllFine(m.bearer.value)
  }

  /** What comes first is a Cause that is not accepted, or a missing IE. */
  ghost predicate Refused(m: Response) {
    if m.accepted != Given(true) then m.accepted in {Absent, Given(false)}
    else if !m.paa.Given? then m.paa == Absent
    else if !m.pgw.Given? then m.pgw == Absent
    else m.bearer == None || RejectedFirst(m.bearer.value)
  }

  /** What comes first is an IE that is not decodable. */
  ghost predicate Faulty(m: Response) {
    if m.accepted != Given(true) then m.accepted == Malformed
    else if !m.paa.Given? then m.paa == Malformed
    else if !m.pgw.Given? then m.pgw == Malformed
    else m.bearer.Some? && FaultyFirst(m.bearer.value)
  }

  lemma ReadsResponse(d: SessionData, m: Response)
    ensures var (e, v) := ReadResponse(d, m);
      && e.imsi == d.imsi && e.peer == d.peer && e.queue == d.queue
      && (v == Go <==> Complete(m) && d.imsi != "")
      && (v == Drop <==> Refused(m) || (Complete(m) && d.imsi == ""))
      && (v == Stop <==> Faulty(m))
      && (v == Go ==> e.active) && (v != Go ==> e.active == d.active)
  {
    if m.accepted.Given? {
      assert if m.accepted.value then m.accepted == Given(true) else m.accepted == Given(false);
    }
    if m.accepted == Given(true) && m.paa.Given? && m.pgw.Given? && m.bearer.Some? {
      var e := WithTEID(d, m.pgw.value.0, m.pgw.value.1);
      ReadVerdict(e, m.bearer.value);
      ReadLeaves(e, m.bearer.value, true, 0);
    }
  }

  /** A complete response for a session with an IMSI activates the session and is
      queued for the subscriber's S11 session, if that is found and its queue
      holds fewer than 1000 messages; one that is refused removes the session
      from both S5 indexes; one that is faulty stops.  Nothing else is passed on,
      and nothing else changes. */
  lemma AnswerOutcome<S, C>(st: State<S, C>, teid: uint32, from: string, m: Response, s: S)
    requires Sound(st) && GetByTEID(st.s5, teid, from) == Done(s)
    ensures var n, imsi := Answer(st, teid, from, m), st.s5.sessions[s].imsi;
      && (Complete(m) && imsi != "" ==>
            && n.Some? && n.value.s5.byIMSI == st.s5.byIMSI && n.value.s5.byTEID == st.s5.byTEID
            && n.value.s5.sessions[s].active
            && Bears(n.value.s5.sessions[s], st.s5.sessions[s], m.bearer.value)
            && n.value.s11 == WithResponse(st.s11, imsi, Passed(m.sequence, true)))
      && (Refused(m) || (Complete(m) && imsi == "") ==>
            n.Some? ==>
              && n.value.s11 == st.s11
              && imsi !in n.value.s5.byIMSI
              && s in n.value.s5.sessions
              && (st.s5.ifType in n.value.s5.sessions[s].teids ==>
                    n.value.s5.sessions[s].teids[st.s5.ifType] !in n.value.s5.byTEID))
      && (Faulty(m) ==>
            && n.Some? && n.value.s5.byIMSI == st.s5.byIMSI && n.value.s5.byTEID == st.s5.byTEID
            && s in n.value.s5.sessions && n.value.s5.sessions[s].active == st.s5.sessions[s].active
            && n.value.s11 == st.s11)
      && (n.Some? ==> n.value.s1u == st.s1u && n.value.s5u == st.s5u && n.value.waiting == st.waiting)
      && (n.None? ==> st.s5.ifType !in st.s5.sessions[s].teids && SomeReserved(st.s5.byTEID))
  {
    ReadsResponse(st.s5.sessions[s], m);
    ReadsTEIDs(st.s5.sessions[s], m, st.s5.ifType);
  }

  /** The bearer has the tunnel of the last F-TEID given. */
  predicate Bears(e: SessionData, d: SessionData, cs: seq<Child>) {
    var f := LastFTEID(cs);
    e.tunnel == if f.Some? then Tunnel(f.value.teid, Some(f.value.ip + ":2152")) else d.tunnel
  }

  lemma ReadsTEIDs(d: SessionData, m: Response, ifType: byte)
    ensures var e := ReadResponse(d, m).0;
      && (ifType in d.teids ==> ifType in e.teids)
      && (Complete(m) ==> Bears(e, d, m.bearer.value))
  {
    if m.accepted == Given(true) && m.paa.Given? && m.pgw.Given? && m.bearer.Some? {
      var e := WithTEID(d, m.pgw.value.0, m.pgw.value.1);
      ReadLeaves(e, m.bearer.value, true, ifType);
      if Complete(m) {
        ReadLeavesLast(e, m.bearer.value, true, ifType);
      }
    }
  }

  /** The three cases are all there are, and exclude each other. */
  lemma ResponseCases(m: Response)
    ensures Complete(m) || Refused(m) || Faulty(m)
    ensures !(Complete(m) && Refused(m)) && !(Complete(m) && Faulty(m)) && !(Refused(m) && Faulty(m))
  {
    var d := NewSession("", "1");
    ReadsResponse(d, m);
  }

  /** The message is behind the others in the queue of the subscriber's session. */
  function WithResponse<S>(c: ConnData<S>, imsi: string, msg: Passed): ConnData<S>
    requires Closed(c)
  {
    if imsi !in c.byIMSI then c
    else
      var x := c.byIMSI[imsi];
      var d := c.sessions[x];
      if |d.queue| < 1000 then c.(sessions := c.sessions[x := d.(queue := d.queue + [msg])]) else c
  }

  /* ---- Create Session Request ---- */

  /** The gateway starts with nothing, an S11 connection of interface type 11 and
      an S5-C connection of type 6. */
  lemma StartsEmpty<S, C>(s1uConn: C, s5uConn: C)
    ensures Initial<S, C>(s1uConn, s5uConn) ==
      State(ConnData(11, 0, map[], map[], map[]), ConnData(6, 0, map[], map[], map[]),
            U.Tables({}, map[]), U.Tables({}, map[]), {}, s1uConn, s5uConn)
  {
  }

  /** The IEs without which nothing is done. */
  predicate Sufficient(m: Request) {
    m.pgw.Given? && m.sender.Given? && m.resolvable && m.imsi.Given?
  }

  /** A request that lacks one of them is answered by an error alone.  With them
      the subscriber's previous session is removed; if another mandatory IE is
      missing, that is all. */
  lemma CreateNothing<S, C>(st: State<S, C>, m: Request, mme: string, e: Creation<S>)
    requires Sound(st)
    ensures !Sufficient(m) ==> Create(st, m, mme, e) == Some(st)
    ensures Sufficient(m) && !m.others && Create(st, m, mme, e).Some? ==>
      var n := Create(st, m, mme, e).value;
      && n == st.(s11 := n.s11) && n.s11.sessions == st.s11.sessions
      && (m.imsi.value in st.s11.byIMSI ==> Replaced(st.s11, n.s11, st.s11.byIMSI[m.imsi.value]))
      && (m.imsi.value !in st.s11.byIMSI ==> n == st)
  {
  }

  /** The previous session of the subscriber is found by its TEID no longer, nor by
      its IMSI. */
  predicate Replaced<S(==)>(c: ConnData<S>, n: ConnData<S>, x: S) {
    && x in c.sessions && GetByIMSI(n, c.sessions[x].imsi) != Some(x)
    && (11 in c.sessions[x].teids && c.ifType == 11 ==> Holder(n, c.sessions[x].teids[11]) != Some(x))
  }

  /** Everything a creation makes.  The S11 session holds the TEIDs of types 7
      (P-GW), 10 (MME) and 11 (its own), the S5 session that of type 4 and, once
      the request is out, that of type 6; all the S-GW's are drawn and new.  The
      handler waits exactly if the request went out, for its number. */
  lemma CreateMakes<S, C>(st: State<S, C>, m: Request, mme: string, e: Creation<S>)
    requires Sound(st) && e.s11 !in st.s11.sessions && e.s5 !in st.s5.sessions
    requires st.s11.ifType == 11 && st.s5.ifType == 6
    requires Sufficient(m) && m.others && Create(st, m, mme, e).Some?
    ensures var n, imsi, pgw := Create(st, m, mme, e).value, m.imsi.value, m.pgw.value;
      && e.s11 in n.s11.sessions && n.s11.sessions == st.s11.sessions[e.s11 := n.s11.sessions[e.s11]]
      && e.s5 in n.s5.sessions && n.s5.sessions == st.s5.sessions[e.s5 := n.s5.sessions[e.s5]]
      && MadeS11(n.s11, e.s11, imsi, mme, pgw.teid, m.sender.value, e.draws11)
      && (imsi in st.s11.byIMSI ==> Replaced(st.s11, n.s11, st.s11.byIMSI[imsi]))
      && MadeS5(n.s5, e.s5, imsi, pgw, n.s5u.taken - st.s5u.taken, if e.sent then e.draws5 else [])
      && n.s5u.relay == st.s5u.relay && n.s1u == st.s1u
      && n.s5.sequence == Q.Send(st.s5.sequence, e.sent)
      && n.waiting == st.waiting + if !e.sent then {}
         else {Waiting(e.s11, e.s5, n.s11.sessions[e.s11].teids[11], Q.Inc(st.s5.sequence))}
  {
    var c := WithoutPrevious(st.s11, m.imsi.value).value;
    var (c1, t11) := Reserve(c, e.draws11);
    CreatedMakes(st.(s11 := c), m, mme, e);
    if m.imsi.value in st.s11.byIMSI {
      PreviousReplaced(st.s11, m, mme, e.s11, t11.value, c1);
    }
  }

  lemma CreatedMakes<S, C>(st: State<S, C>, m: Request, mme: string, e: Creation<S>)
    requires e.s11 !in st.s11.sessions && e.s5 !in st.s5.sessions && st.s11.ifType == 11 && st.s5.ifType == 6
    requires Sufficient(m) && CreatedFrom(st, m, mme, e).Some?
    ensures var n, imsi, pgw := CreatedFrom(st, m, mme, e).value, m.imsi.value, m.pgw.value;
      && e.s11 in n.s11.sessions && n.s11.sessions == st.s11.sessions[e.s11 := n.s11.sessions[e.s11]]
      && e.s5 in n.s5.sessions && n.s5.sessions == st.s5.sessions[e.s5 := n.s5.sessions[e.s5]]
      && MadeS11(n.s11, e.s11, imsi, mme, pgw.teid, m.sender.value, e.draws11)
      && MadeS5(n.s5, e.s5, imsi, pgw, n.s5u.taken - st.s5u.taken, if e.sent then e.draws5 else [])
      && n.s5u.relay == st.s5u.relay && n.s1u == st.s1u
      && n.s5.sequence == Q.Send(st.s5.sequence, e.sent)
      && n.waiting == st.waiting + if !e.sent then {}
         else {Waiting(e.s11, e.s5, n.s11.sessions[e.s11].teids[11], Q.Inc(st.s5.sequence))}
  {
    var (c1, t11) := Reserve(st.s11, e.draws11);
    var (p1, t5) := Reserve(st.s5, e.draws5);
    var t5u := U.FirstUsable(st.s5u.taken, e.draws5u).value;
    assert st.s5u.taken + {t5u} - st.s5u.taken == {t5u};
    RegisteredS11(c1, e.s11, m, mme, t11.value);
    CreatedS5Leaves(p1, e.s5, m.imsi.value, t5, m.pgw.value, t5u, e.sent);
    CreatedS5Session(p1, e.s5, m.imsi.value, t5, m.pgw.value, t5u, e.sent);
  }

  lemma PreviousReplaced<S>(c: ConnData<S>, m: Request, mme: string, s: S, t: uint32, c1: ConnData<S>)
    requires Closed(c) && Sufficient(m) && m.imsi.value in c.byIMSI && s !in c.sessions
    requires WithoutPrevious(c, m.imsi.value).Some?
    requires c1 == WithoutPrevious(c, m.imsi.value).value.(byTEID := c1.byTEID)
    requires c1.byTEID == WithoutPrevious(c, m.imsi.value).value.byTEID[t := None]
    ensures Replaced(c, Register(Put(c1, s, NewS11Session(m, mme)), t, s), c.byIMSI[m.imsi.value])
  {
  }

  /** A creation panics exactly if removing the previous session does, or if no
      S11 or S5-U TEID is left, or if no S5-C TEID is and the request went out. */
  lemma CreatePanicsIff<S, C>(st: State<S, C>, m: Request, mme: string, e: Creation<S>)
    requires Sound(st) && Sufficient(m)
    ensures var removed := WithoutPrevious(st.s11, m.imsi.value);
      && (removed == None <==>
            && m.imsi.value in st.s11.byIMSI
            && st.s11.ifType !in st.s11.sessions[st.s11.byIMSI[m.imsi.value]].teids
            && exists t :: t in st.s11.byTEID && st.s11.byTEID[t] == None)
      && (Create(st, m, mme, e) == None <==>
            || removed == None
            || (m.others &&
                  (|| (forall t :: t in e.draws11 ==> t == 0 || t in removed.value.byTEID)
                   || (forall t :: t in e.draws5u ==> t == 0 || t in st.s5u.taken)
                   || (e.sent && forall t :: t in e.draws5 ==> t == 0 || t in st.s5.byTEID))))
  {
    if WithoutPrevious(st.s11, m.imsi.value).Some? {
      var c := WithoutPrevious(st.s11, m.imsi.value).value;
      forall t ensures U.Usable(c.byTEID.Keys, t) <==> t != 0 && t !in c.byTEID {
      }
      forall t ensures U.Usable(st.s5.byTEID.Keys, t) <==> t != 0 && t !in st.s5.byTEID {
      }
    }
  }

  predicate MadeS11<S(==)>(c: ConnData<S>, s: S, imsi: string, mme: string, pgwTEID: uint32, mmeTEID: uint32,
                           draws: seq<uint32>)
    requires s in c.sessions
  {
    var d := c.sessions[s];
    && d.imsi == imsi && d.peer == mme && d.tunnel == Tunnel(0, None) && d.queue == [] && !d.active
    && 11 in d.teids && d.teids == map[7 := pgwTEID, 10 := mmeTEID, 11 := d.teids[11]]
    && d.teids[11] in draws && d.teids[11] != 0
    && Holder(c, d.teids[11]) == Some(s) && GetByIMSI(c, imsi) == Some(s)
  }

  predicate MadeS5<S(==)>(c: ConnData<S>, s: S, imsi: string, pgw: FTEID, userPlane: set<uint32>, draws: seq<uint32>)
    requires s in c.sessions
  {
    var d := c.sessions[s];
    && d.imsi == imsi && d.peer == pgw.ip + ":2123" && d.tunnel == Tunnel(0, None) && d.queue == [] && !d.active
    && 4 in d.teids && userPlane == {d.teids[4]} && d.teids[4] != 0
    && (pgw.ifType !in {4, 6} ==> pgw.ifType in d.teids && d.teids[pgw.ifType] == pgw.teid)
    && (draws != [] ==>
          && 6 in d.teids && d.teids[6] in draws && d.teids[6] != 0
          && Holder(c, d.teids[6]) == Some(s) && GetByIMSI(c, imsi) == Some(s))
  }

  lemma RegisteredS11<S>(c: ConnData<S>, s: S, m: Request, mme: string, t: uint32)
    requires Sufficient(m) && c.ifType == 11 && t != 0
    ensures var r := Register(Put(c, s, NewS11Session(m, mme)), t, s);
      && s in r.sessions && r.sessions == c.sessions[s := r.sessions[s]] && r.sessions[s].teids[11] == t
      && MadeS11(r, s, m.imsi.value, mme, m.pgw.value.teid, m.sender.value, [t])
  {
    var r := Register(Put(c, s, NewS11Session(m, mme)), t, s);
    assert r.sessions[s].teids == map[7 := m.pgw.value.teid, 10 := m.sender.value, 11 := t];
  }

  lemma CreatedS5Session<S>(c: ConnData<S>, s: S, imsi: string, own: Option<uint32>, pgw: FTEID, userPlane: uint32,
                            sent: bool)
    requires c.ifType == 6 && (sent ==> own.Some?) && (own.Some? ==> own.value != 0) && userPlane != 0
    ensures var r := CreatedS5(c, s, imsi, own, pgw, userPlane, sent);
      s in r.sessions && MadeS5(r, s, imsi, pgw, {userPlane}, if sent then [own.value] else [])
  {
  }

  /* ---- the rest of the creation ---- */

  /** The message that wakes the handler up is the one it waits for. */
  predicate Awakened<S>(d: SessionData, w: Waiting<S>, timeout: bool) {
    !timeout && d.queue != [] && d.queue[0].sequence == w.sequence && d.queue[0].created
  }

  /** What the session's queue holds after it. */
  function Drained(d: SessionData, timeout: bool): SessionData {
    if timeout || d.queue == [] then d else d.(queue := d.queue[1..])
  }

  /** The rest of the handler.  Without the message it waits for, or when sending
      the answer fails, the session is removed from both indexes.  Otherwise it
      stores its TEID of type 11 and a new one of type 1 and, if the S5 session
      knows those of types 6 and 7, is active; if not, it is removed.  When no
      TEID is left the program panics. */
  lemma ResumeOutcome<S, C>(st: State<S, C>, w: Waiting<S>, timeout: bool, draws: seq<uint32>, responded: bool)
    requires Sound(st) && w in st.waiting && st.s11.ifType == 11
    ensures var n, d := Resume(st, w, timeout, draws, responded), st.s11.sessions[w.s11];
      var ready, t := Awakened(d, w, timeout), U.FirstUsable(st.s1u.taken, draws);
      var complete := 6 in st.s5.sessions[w.s5].teids && 7 in st.s5.sessions[w.s5].teids && d.imsi != "";
      && (n.None? <==>
            || (ready && t.None?)
            || (!(ready && responded) && 11 !in d.teids && SomeReserved(st.s11.byTEID)))
      && (ready && t.Some? && responded && complete ==>
            n == Some(st.(s11 := Put(st.s11, w.s11, Drained(d, timeout).(
                            teids := d.teids[11 := w.teid][1 := t.value], active := true)),
                          s1u := st.s1u.(taken := st.s1u.taken + {t.value}), waiting := st.waiting - {w})))
      && (n.Some? && !(ready && responded && complete) ==>
            && Gone(n.value.s11, w.s11)
            && n.value.s5 == st.s5 && n.value.s5u == st.s5u && n.value.waiting == st.waiting - {w}
            && n.value.s1u.relay == st.s1u.relay
            && n.value.s1u.taken == st.s1u.taken + (if ready then {t.value} else {}))
  {
    var st1 := st.(s11 := Put(st.s11, w.s11, Drained(st.s11.sessions[w.s11], timeout)), waiting := st.waiting - {w});
    assert Awaited(st, w, timeout) == st1;
    if Awakened(st.s11.sessions[w.s11], w, timeout) && U.FirstUsable(st.s1u.taken, draws).Some? && responded {
      var t := U.FirstUsable(st.s1u.taken, draws).value;
      FinishOutcome(st1.(s1u := st1.s1u.(taken := st1.s1u.taken + {t})), w, t);
      PutAgain(st.s11, w.s11, st1.s11.sessions[w.s11],
               st1.s11.sessions[w.s11].(teids := st1.s11.sessions[w.s11].teids[11 := w.teid][1 := t], active := true));
    }
  }

  lemma FinishOutcome<S, C>(st: State<S, C>, w: Waiting<S>, t: uint32)
    requires Closed(st.s11) && st.s11.ifType == 11 && w.s11 in st.s11.sessions && w.s5 in st.s5.sessions
    ensures var n, d := Finish(st, w, t), st.s11.sessions[w.s11];
      var complete := 6 in st.s5.sessions[w.s5].teids && 7 in st.s5.sessions[w.s5].teids && d.imsi != "";
      if complete then
        n == Some(st.(s11 := Put(st.s11, w.s11, d.(teids := d.teids[11 := w.teid][1 := t], active := true))))
      else n.Some? && n.value == st.(s11 := n.value.s11) && Gone(n.value.s11, w.s11)
  {
    var d := st.s11.sessions[w.s11];
    var e := d.(teids := d.teids[11 := w.teid][1 := t]);
    PutAgain(st.s11, w.s11, e, e.(active := true));
  }

  lemma PutAgain<S>(c: ConnData<S>, s: S, d: SessionData, e: SessionData)
    ensures Put(Put(c, s, d), s, e) == Put(c, s, e)
  {
    assert c.sessions[s := d][s := e] == c.sessions[s := e];
  }

  /** Neither the session's IMSI nor its TEID finds anything. */
  predicate Gone<S(==)>(c: ConnData<S>, s: S) {
    && s in c.sessions && c.sessions[s].imsi !in c.byIMSI
    && (11 in c.sessions[s].teids ==> c.sessions[s].teids[11] !in c.byTEID)
  }
}
