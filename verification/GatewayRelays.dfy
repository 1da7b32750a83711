/** Which tunnels the relay entries lead to: those stored in the default bearers
    when a Modify Bearer Request set them, and from then on as long as no message
    changes a bearer without relaying again. */
module GatewayRelays {
  import opened Octets
  import U = UPlane
  import opened Registry
  import opened Gateway
  import opened GatewaySafety

  /* ---- what messages say about tunnels ---- */

  /** The tunnel of the last F-TEID that is read. */
  function LastTunnel(cs: seq<Child>, full: bool): Option<Tunnel> {
    if cs == [] || Judge(cs[0], full) != Go then None
    else
      var later := LastTunnel(cs[1..], full);
      if later.Some? then later
      else if cs[0].UserPlane? then Some(TunnelOf(cs[0].fteid.value))
      else None
  }

  predicate Decodable(cs: seq<Child>) {
    forall c :: c in cs && c.UserPlane? ==> c.fteid.Some?
  }

  /** Reading a request stores the last tunnel before the first F-TEID that is not
      decodable, and goes on exactly if there is none such. */
  lemma {:induction false} ReadTunnel(d: SessionData, cs: seq<Child>, full: bool)
    ensures ReadChildren(d, cs, full).0.tunnel == LastTunnel(cs, full).GetOr(d.tunnel)
    ensures !full ==> (ReadChildren(d, cs, full).1 == Go <==> Decodable(cs))
    decreases |cs|
  {
    if cs != [] {
      assert cs[0] in cs && forall c :: c in cs <==> c == cs[0] || c in cs[1..];
      if Judge(cs[0], full) == Go {
        ReadTunnel(if cs[0].UserPlane? then WithFTEID(d, cs[0].fteid.value) else d, cs[1..], full);
      }
    }
  }

  /** The tunnel a Create Session Response leaves in the bearer, if any. */
  function ResponseTunnel(m: Response): Option<Tunnel> {
    if m.accepted != Given(true) || !m.paa.Given? || !m.pgw.Given? then None
    else LastTunnel(m.bearer.GetOr([]), true)
  }

  lemma ResponseStores(d: SessionData, m: Response)
    ensures ReadResponse(d, m).0.tunnel == ResponseTunnel(m).GetOr(d.tunnel)
  {
    if m.pgw.Given? && m.bearer.Some? {
      ReadTunnel(WithTEID(d, m.pgw.value.0, m.pgw.value.1), m.bearer.value, true);
    }
  }

  function Either<T>(first: Option<T>, second: Option<T>): Option<T> {
    if first.Some? then first else second
  }

  /** The S11 and the S5 session a Modify Bearer Request is about. */
  function Found<S, C>(st: State<S, C>, teid: uint32, from: string): Option<(S, S)>
    requires Sound(st)
  {
    var r := GetByTEID(st.s11, teid, from);
    if !r.Done? then None
    else
      var x := GetByIMSI(st.s5, st.s11.sessions[r.value].imsi);
      if x.None? then None else Some((r.value, x.value))
  }

  /** The TEIDs that it relays at, uplink and downlink; none if it does not get
      so far.  This can be seen from the message before it is handled. */
  function RelayTEIDs(d: SessionData, p: SessionData, cs: seq<Child>): Option<(uint32, uint32)> {
    var up := Either(LastClaim(cs, S1U_SGW, false), TEIDOf(d, S1U_SGW));
    var mme := Either(LastClaim(cs, S11_MME, false), TEIDOf(d, S11_MME));
    var down := TEIDOf(p, S5U_SGW);
    if !Decodable(cs) || up.None? || mme.None? || down.None? then None else Some((up.value, down.value))
  }

  datatype Relays<S> = Relays(s11: S, s5: S, up: uint32, down: uint32)

  function RelaysOf<S, C>(st: State<S, C>, teid: uint32, from: string, cs: Option<seq<Child>>): Option<Relays<S>>
    requires Sound(st)
  {
    var f := Found(st, teid, from);
    if f.None? then None
    else
      var t := RelayTEIDs(st.s11.sessions[f.value.0], st.s5.sessions[f.value.1], cs.GetOr([]));
      if t.None? then None else Some(Relays(f.value.0, f.value.1, t.value.0, t.value.1))
  }

  /* ---- a Modify Bearer Request ---- */

  /** It stores a tunnel in the S11 session's bearer and, if it gets so far, sets
      one entry in each direction: to the tunnel now stored in the other side's
      bearer.  It changes no other entry, no S5 session and no other tunnel. */
  lemma ModifyRelays<S, C>(st: State<S, C>, teid: uint32, from: string, cs: Option<seq<Child>>)
    requires Sound(st) && Modify(st, teid, from, cs).Some?
    ensures var n, f, r := Modify(st, teid, from, cs).value, Found(st, teid, from), RelaysOf(st, teid, from, cs);
      && n.s5 == st.s5 && n.s11.sessions.Keys == st.s11.sessions.Keys
      && n.s1uConn == st.s1uConn && n.s5uConn == st.s5uConn
      && (forall s :: s in st.s11.sessions ==>
            n.s11.sessions[s].tunnel ==
              (if f.Some? && s == f.value.0 then LastTunnel(cs.GetOr([]), false).GetOr(st.s11.sessions[s].tunnel)
               else st.s11.sessions[s].tunnel))
      && (r.None? ==> n.s1u == st.s1u && n.s5u == st.s5u)
      && (r.Some? ==>
            && n.s1u.relay == st.s1u.relay[r.value.up := PeerOf(n.s5.sessions[r.value.s5].tunnel, st.s5uConn)]
            && n.s5u.relay == st.s5u.relay[r.value.down := PeerOf(n.s11.sessions[r.value.s11].tunnel, st.s1uConn)])
  {
    var f := Found(st, teid, from);
    if f.Some? {
      ModifiedRelays(st, f.value.0, f.value.1, cs.GetOr([]));
    }
  }

  lemma ModifiedRelays<S, C>(st: State<S, C>, s: S, x: S, cs: seq<Child>)
    requires s in st.s11.sessions && x in st.s5.sessions
    ensures var n, t := Modified(st, s, x, cs), RelayTEIDs(st.s11.sessions[s], st.s5.sessions[x], cs);
      && n.s5 == st.s5 && n.s1uConn == st.s1uConn && n.s5uConn == st.s5uConn
      && n.s11 == Put(st.s11, s, ReadChildren(st.s11.sessions[s], cs, false).0)
      && n.s11.sessions[s].tunnel == LastTunnel(cs, false).GetOr(st.s11.sessions[s].tunnel)
      && (t.None? ==> n.s1u == st.s1u && n.s5u == st.s5u)
      && (t.Some? ==>
            && n.s1u.relay == st.s1u.relay[t.value.0 := PeerOf(n.s5.sessions[x].tunnel, st.s5uConn)]
            && n.s5u.relay == st.s5u.relay[t.value.1 := PeerOf(n.s11.sessions[s].tunnel, st.s1uConn)])
  {
    var d := st.s11.sessions[s];
    ReadTunnel(d, cs, false);
    ReadLeaves(d, cs, false, S1U_SGW);
    ReadLeaves(d, cs, false, S11_MME);
  }

  /** One request misdirects packets exactly if it relays at a TEID that was not
      given out for the owner of the tunnel; that there is a claim in it which is
      not honest does no harm as long as it does not get so far. */
  lemma ModifyBoundIff<S, C>(st: State<S, C>, h: History, teid: uint32, from: string, cs: Option<seq<Child>>)
    requires Sound(st) && Modify(st, teid, from, cs).Some?
    requires Bound(st.s1u, h.s1u, h.pgw, st.s5uConn) && Bound(st.s5u, h.s5u, h.eNB, st.s1uConn)
    ensures var n, g := Modify(st, teid, from, cs).value, Note(st, h, DoModify(teid, from, cs));
      var r := RelaysOf(st, teid, from, cs);
      && (Bound(n.s1u, g.s1u, g.pgw, n.s5uConn) <==>
            (r.Some? ==> Leads(r.value.up, h.s1u, st.s5.sessions[r.value.s5].tunnel, h.pgw)))
      && (Bound(n.s5u, g.s5u, g.eNB, n.s1uConn) <==>
            (r.Some? ==>
               Leads(r.value.down, h.s5u, LastTunnel(cs.GetOr([]), false).GetOr(st.s11.sessions[r.value.s11].tunnel),
                     g.eNB)))
  {
    ModifyRelays(st, teid, from, cs);
    var n, g := Modify(st, teid, from, cs).value, Note(st, h, DoModify(teid, from, cs));
    var r := RelaysOf(st, teid, from, cs);
    assert Bound(st.s5u, g.s5u, g.eNB, st.s1uConn);
    if r.Some? {
      SetBoundIff(st.s1u, n.s1u, g.s1u, g.pgw, st.s5uConn, r.value.up, n.s5.sessions[r.value.s5].tunnel);
      SetBoundIff(st.s5u, n.s5u, g.s5u, g.eNB, st.s1uConn, r.value.down, n.s11.sessions[r.value.s11].tunnel);
    }
  }

  /** The TEID was given out for a subscriber for whom the tunnel was announced. */
  predicate Leads(t: uint32, issued: map<uint32, string>, tunnel: Tunnel, announced: set<(string, Tunnel)>) {
    t in issued && TunnelOK(issued[t], tunnel, announced)
  }

  lemma SetBoundIff<C>(s: U.Tables<C>, n: U.Tables<C>, issued: map<uint32, string>, announced: set<(string, Tunnel)>,
                       other: C, t: uint32, tunnel: Tunnel)
    requires Bound(s, issued, announced, other) && n.relay == s.relay[t := PeerOf(tunnel, other)]
    ensures Bound(n, issued, announced, other) <==> Leads(t, issued, tunnel, announced)
  {
    assert t in n.relay && Tunnel(n.relay[t].teid, n.relay[t].addr) == tunnel;
  }

  /* ---- entries that are up to date ---- */

  /** The uplink entry is to the tunnel stored for the S5 session. */
  ghost predicate UpCurrent<S, C>(st: State<S, C>, t: uint32, x: S) {
    x in st.s5.sessions && t in st.s1u.relay && st.s1u.relay[t] == PeerOf(st.s5.sessions[x].tunnel, st.s5uConn)
  }

  /** The downlink entry is to the tunnel stored for the S11 session. */
  ghost predicate DownCurrent<S, C>(st: State<S, C>, t: uint32, s: S) {
    s in st.s11.sessions && t in st.s5u.relay && st.s5u.relay[t] == PeerOf(st.s11.sessions[s].tunnel, st.s1uConn)
  }

  /** After a request that gets to the relays, both entries are up to date. */
  lemma RelayedCurrent<S, C>(st: State<S, C>, teid: uint32, from: string, cs: Option<seq<Child>>)
    requires Sound(st) && RelaysOf(st, teid, from, cs).Some?
    ensures var r := RelaysOf(st, teid, from, cs).value;
      && Modify(st, teid, from, cs).Some?
      && Current(Modify(st, teid, from, cs).value, r)
  {
    ModifyRelays(st, teid, from, cs);
  }

  /** The event leaves the uplink entry up to date: a response does not store
      another tunnel for the S5 session, and a request does not relay at its TEID
      to the other tunnel of another session. */
  ghost predicate KeepsUp<S, C>(st: State<S, C>, event: Event<S>, t: uint32, x: S)
    requires Sound(st) && x in st.s5.sessions
  {
    var stored := st.s5.sessions[x].tunnel;
    match event
    case DoCreate(_, _, _) => true
    case DoResume(_, _, _, _) => true
    case DoAnswer(teid, from, m) =>
      GetByTEID(st.s5, teid, from) == Done(x) ==> ResponseTunnel(m).GetOr(stored) == stored
    case DoModify(teid, from, cs) =>
      var r := RelaysOf(st, teid, from, cs);
      r.Some? && r.value.up == t ==> st.s5.sessions[r.value.s5].tunnel == stored
  }

  /** And the downlink entry: a request for the S11 session stores no other tunnel
      unless it relays at its TEID, and one for another session does not relay
      there to another tunnel. */
  ghost predicate KeepsDown<S, C>(st: State<S, C>, event: Event<S>, t: uint32, s: S)
    requires Sound(st) && s in st.s11.sessions
  {
    match event
    case DoCreate(_, _, _) => true
    case DoResume(_, _, _, _) => true
    case DoAnswer(_, _, _) => true
    case DoModify(teid, from, cs) =>
      var f, r := Found(st, teid, from), RelaysOf(st, teid, from, cs);
      f.Some? ==>
        var stored := st.s11.sessions[s].tunnel;
        var given := LastTunnel(cs.GetOr([]), false).GetOr(st.s11.sessions[f.value.0].tunnel);
        if r.Some? && r.value.down == t then f.value.0 == s || given == stored
        else f.value.0 == s ==> given == stored
  }

  /** An entry that is up to date stays so over a step exactly under these
      conditions. */
  lemma UpStaysIff<S, C>(st: State<S, C>, event: Event<S>, t: uint32, x: S)
    requires Sound(st) && Enabled(st, event) && Step(st, event).Some? && UpCurrent(st, t, x)
    ensures UpCurrent(Step(st, event).value, t, x) <==> KeepsUp(st, event, t, x)
  {
    match event
    case DoCreate(m, mme, e) => CreateLeaves(st, m, mme, e);
    case DoResume(w, timeout, draws, responded) => ResumeLeaves(st, w, timeout, draws, responded);
    case DoAnswer(teid, from, m) => AnswerLeaves(st, teid, from, m);
    case DoModify(teid, from, cs) =>
      ModifyRelays(st, teid, from, cs);
      PeersDiffer(st.s5uConn);
  }

  lemma DownStaysIff<S, C>(st: State<S, C>, event: Event<S>, t: uint32, s: S)
    requires Sound(st) && Enabled(st, event) && Step(st, event).Some? && DownCurrent(st, t, s)
    ensures DownCurrent(Step(st, event).value, t, s) <==> KeepsDown(st, event, t, s)
  {
    match event
    case DoCreate(m, mme, e) => CreateLeaves(st, m, mme, e);
    case DoResume(w, timeout, draws, responded) => ResumeLeaves(st, w, timeout, draws, responded);
    case DoAnswer(teid, from, m) => AnswerLeaves(st, teid, from, m);
    case DoModify(teid, from, cs) =>
      ModifyRelays(st, teid, from, cs);
      PeersDiffer(st.s1uConn);
  }

  /** Both together. */
  ghost predicate Current<S, C>(st: State<S, C>, r: Relays<S>) {
    UpCurrent(st, r.up, r.s5) && DownCurrent(st, r.down, r.s11)
  }

  ghost predicate Keeps<S, C>(st: State<S, C>, event: Event<S>, r: Relays<S>)
    requires Sound(st) && r.s5 in st.s5.sessions && r.s11 in st.s11.sessions
  {
    KeepsUp(st, event, r.up, r.s5) && KeepsDown(st, event, r.down, r.s11)
  }

  lemma CurrentStaysIff<S, C>(st: State<S, C>, event: Event<S>, r: Relays<S>)
    requires Sound(st) && Enabled(st, event) && Step(st, event).Some? && Current(st, r)
    ensures Current(Step(st, event).value, r) <==> Keeps(st, event, r)
  {
    UpStaysIff(st, event, r.up, r.s5);
    DownStaysIff(st, event, r.down, r.s11);
  }

  lemma PeersDiffer<C>(c: C)
    ensures forall t, u :: PeerOf(t, c) == PeerOf(u, c) ==> t == u
  {
  }

  /** The tables and all tunnels are as they were, but for the S5 session given. */
  ghost predicate SameBut<S, C>(st: State<S, C>, n: State<S, C>, x: Option<S>) {
    && n.s1u.relay == st.s1u.relay && n.s5u.relay == st.s5u.relay
    && n.s1uConn == st.s1uConn && n.s5uConn == st.s5uConn
    && (forall s :: s in st.s11.sessions ==>
          s in n.s11.sessions && n.s11.sessions[s].tunnel == st.s11.sessions[s].tunnel)
    && (forall s :: s in st.s5.sessions && Some(s) != x ==>
          s in n.s5.sessions && n.s5.sessions[s].tunnel == st.s5.sessions[s].tunnel)
  }

  lemma CreateLeaves<S, C>(st: State<S, C>, m: Request, mme: string, e: Creation<S>)
    requires Sound(st) && Enabled(st, DoCreate(m, mme, e)) && Create(st, m, mme, e).Some?
    ensures SameBut(st, Create(st, m, mme, e).value, None)
  {
    if Usable(m) && m.others {
      CreatedLeaves(st.(s11 := WithoutPrevious(st.s11, m.imsi.value).value), m, mme, e);
    }
  }

  lemma CreatedLeaves<S, C>(st: State<S, C>, m: Request, mme: string, e: Creation<S>)
    requires Usable(m) && e.s11 !in st.s11.sessions && e.s5 !in st.s5.sessions && CreatedFrom(st, m, mme, e).Some?
    ensures SameBut(st, CreatedFrom(st, m, mme, e).value, None)
  {
    var (p1, t5) := Reserve(st.s5, e.draws5);
    CreatedS5Leaves(p1, e.s5, m.imsi.value, t5, m.pgw.value, U.FirstUsable(st.s5u.taken, e.draws5u).value, e.sent);
  }

  lemma CreatedS5Leaves<S>(c: ConnData<S>, s: S, imsi: string, own: Option<uint32>, pgw: FTEID, userPlane: uint32,
                           sent: bool)
    requires sent ==> own.Some?
    ensures var r := CreatedS5(c, s, imsi, own, pgw, userPlane, sent);
      s in r.sessions && r.sessions == c.sessions[s := r.sessions[s]]
  {
    var c0 := Put(c, s, NewSession(ControlAddr(pgw.ip), imsi));
    var c1 := WithOwn(c0, s, own);
    if own.Some? {
      ClaimLeaves(c0, s, c0.ifType, own.value);
    }
    ClaimLeaves(c1, s, pgw.ifType, pgw.teid);
  }

  lemma ResumeLeaves<S, C>(st: State<S, C>, w: Waiting<S>, timeout: bool, draws: seq<uint32>, responded: bool)
    requires Sound(st) && w in st.waiting && Resume(st, w, timeout, draws, responded).Some?
    ensures SameBut(st, Resume(st, w, timeout, draws, responded).value, None)
  {
    var msg := Waited(st.s11.sessions[w.s11], w.sequence, timeout).0;
    var st1 := Awaited(st, w, timeout);
    assert SameBut(st, st1, None);
    if msg.Err? || !msg.value.created {
      RemoveLeaves(st1, w.s11);
    } else {
      var t := U.FirstUsable(st.s1u.taken, draws).value;
      var st2 := st1.(s1u := U.Step(st1.s1u, U.Alloc(draws)));
      if responded {
        FinishLeaves(st2, w, t);
      } else {
        RemoveLeaves(st2, w.s11);
      }
    }
  }

  lemma RemoveLeaves<S, C>(st: State<S, C>, s: S)
    requires Closed(st.s11) && s in st.s11.sessions && RemoveS11(st, s).Some?
    ensures SameBut(st, RemoveS11(st, s).value, None)
  {
  }

  lemma FinishLeaves<S, C>(st: State<S, C>, w: Waiting<S>, t: uint32)
    requires Closed(st.s11) && w.s11 in st.s11.sessions && w.s5 in st.s5.sessions && Finish(st, w, t).Some?
    ensures SameBut(st, Finish(st, w, t).value, None)
  {
  }

  lemma AnswerLeaves<S, C>(st: State<S, C>, teid: uint32, from: string, m: Response)
    requires Sound(st) && Answer(st, teid, from, m).Some?
    ensures var n, r := Answer(st, teid, from, m).value, GetByTEID(st.s5, teid, from);
      && SameBut(st, n, if r.Done? then Some(r.value) else None)
      && (r.Done? ==>
            && r.value in n.s5.sessions
            && n.s5.sessions[r.value].tunnel == ResponseTunnel(m).GetOr(st.s5.sessions[r.value].tunnel))
  {
    var r := GetByTEID(st.s5, teid, from);
    if r.Done? {
      ResponseStores(st.s5.sessions[r.value], m);
      var (d, v) := ReadResponse(st.s5.sessions[r.value], m);
      var st1 := st.(s5 := Put(st.s5, r.value, d));
      assert SameBut(st, st1, Some(r.value));
      var x := GetByIMSI(st.s11, d.imsi);
      if v == Go && x.Some? {
        EnqueueLeaves(st1, x.value, Passed(m.sequence, true));
      }
    }
  }

  lemma EnqueueLeaves<S, C>(st: State<S, C>, s: S, msg: Passed)
    requires s in st.s11.sessions
    ensures SameBut(st, st.(s11 := Enqueued(st.s11, s, msg)), None)
  {
  }

  /* ---- every run ---- */

  /** In every run, entries that were up to date at some time still are when every
      event since then has left them so. */
  lemma {:induction false} RunStaysCurrent<S, C>(s1uConn: C, s5uConn: C, events: seq<Event<S>>, k: nat, r: Relays<S>)
    requires Legal(s1uConn, s5uConn, events) && KeptSince(s1uConn, s5uConn, events, k, r)
    requires CurrentAfter(s1uConn, s5uConn, events[..k], r)
    ensures CurrentAfter(s1uConn, s5uConn, events, r)
    decreases |events|
  {
    if k == |events| {
      assert events[..k] == events;
    } else {
      assert events[..|events| - 1][..k] == events[..k];
      LegalBefore(s1uConn, s5uConn, events);
      RunStaysCurrent(s1uConn, s5uConn, events[..|events| - 1], k, r);
      LastKeepsCurrent(s1uConn, s5uConn, events, r);
    }
  }

  lemma LegalBefore<S, C>(s1uConn: C, s5uConn: C, events: seq<Event<S>>)
    requires Legal(s1uConn, s5uConn, events) && events != []
    ensures Legal(s1uConn, s5uConn, events[..|events| - 1])
  {
  }

  /** Every event from the one at `k` on finds a state in which it leaves the
      entries up to date. */
  ghost predicate KeptSince<S, C>(s1uConn: C, s5uConn: C, events: seq<Event<S>>, k: nat, r: Relays<S>) {
    && k <= |events|
    && (k < |events| ==>
          && KeepsAt(s1uConn, s5uConn, events[..|events| - 1], events[|events| - 1], r)
          && KeptSince(s1uConn, s5uConn, events[..|events| - 1], k, r))
  }

  ghost predicate CurrentAfter<S, C>(s1uConn: C, s5uConn: C, events: seq<Event<S>>, r: Relays<S>) {
    Legal(s1uConn, s5uConn, events) && Current(Run<S, C>(s1uConn, s5uConn, events).st, r)
  }

  ghost predicate KeepsAt<S, C>(s1uConn: C, s5uConn: C, events: seq<Event<S>>, event: Event<S>, r: Relays<S>) {
    && Legal(s1uConn, s5uConn, events)
    && r.s5 in Run<S, C>(s1uConn, s5uConn, events).st.s5.sessions
    && r.s11 in Run<S, C>(s1uConn, s5uConn, events).st.s11.sessions
    && Keeps(Run<S, C>(s1uConn, s5uConn, events).st, event, r)
  }

  lemma LastKeepsCurrent<S, C>(s1uConn: C, s5uConn: C, events: seq<Event<S>>, r: Relays<S>)
    requires events != [] && Legal(s1uConn, s5uConn, events)
    requires CurrentAfter(s1uConn, s5uConn, events[..|events| - 1], r)
    requires KeepsAt(s1uConn, s5uConn, events[..|events| - 1], events[|events| - 1], r)
    ensures CurrentAfter(s1uConn, s5uConn, events, r)
  {
    CurrentStaysIff(Run<S, C>(s1uConn, s5uConn, events[..|events| - 1]).st, events[|events| - 1], r);
  }

  /** The subscribers that the TEIDs in a table were given out for. */
  ghost function Subscribers<C>(relay: map<uint32, U.Peer<C>>, issued: map<uint32, string>): set<string> {
    set t | t in relay && t in issued :: issued[t]
  }

  ghost predicate Paired<S, C>(st: State<S, C>, h: History) {
    Subscribers(st.s1u.relay, h.s1u) == Subscribers(st.s5u.relay, h.s5u)
  }

  lemma SubscribersMore<C>(relay: map<uint32, U.Peer<C>>, issued: map<uint32, string>, t: uint32, p: U.Peer<C>)
    requires t in issued
    ensures Subscribers(relay[t := p], issued) == Subscribers(relay, issued) + {issued[t]}
  {
    assert t in relay[t := p];
    forall u | u in relay && u in issued ensures issued[u] in Subscribers(relay[t := p], issued) {
      assert u in relay[t := p];
    }
  }

  lemma SubscribersKept<C>(relay: map<uint32, U.Peer<C>>, issued: map<uint32, string>, more: map<uint32, string>)
    requires relay.Keys <= issued.Keys && Kept(issued, more)
    ensures Subscribers(relay, issued) == Subscribers(relay, more)
  {
    forall t | t in relay ensures t in issued && t in more && issued[t] == more[t] {
      assert t in relay.Keys;
    }
  }

  lemma StepKeepsPaired<S, C>(st: State<S, C>, h: History, event: Event<S>)
    requires Inv(st, h) && Enabled(st, event) && Step(st, event).Some? && Honest(st, h, event) && Paired(st, h)
    ensures Paired(Step(st, event).value, Note(st, h, event))
  {
    var n, g := Step(st, event).value, Note(st, h, event);
    OwnersStay(st, h, event);
    SubscribersKept(st.s1u.relay, h.s1u, g.s1u);
    SubscribersKept(st.s5u.relay, h.s5u, g.s5u);
    match event
    case DoCreate(m, mme, e) => CreateLeaves(st, m, mme, e);
    case DoResume(w, timeout, draws, responded) => ResumeLeaves(st, w, timeout, draws, responded);
    case DoAnswer(teid, from, m) => AnswerLeaves(st, teid, from, m);
    case DoModify(teid, from, cs) =>
      ModifyRelays(st, teid, from, cs);
      var r := RelaysOf(st, teid, from, cs);
      if r.Some? {
        RelayedOwners(st, h, teid, from, cs);
        SubscribersMore(st.s1u.relay, h.s1u, r.value.up, n.s1u.relay[r.value.up]);
        SubscribersMore(st.s5u.relay, h.s5u, r.value.down, n.s5u.relay[r.value.down]);
      }
  }

  /** An honest request relays at TEIDs given out for one subscriber. */
  lemma RelayedOwners<S, C>(st: State<S, C>, h: History, teid: uint32, from: string, cs: Option<seq<Child>>)
    requires Inv(st, h) && Honest(st, h, DoModify(teid, from, cs)) && RelaysOf(st, teid, from, cs).Some?
    ensures var r := RelaysOf(st, teid, from, cs).value; var imsi := st.s11.sessions[r.s11].imsi;
      IssuedTo(imsi, r.up, h.s1u) && IssuedTo(imsi, r.down, h.s5u)
  {
    var r := RelaysOf(st, teid, from, cs).value;
    assert Rightful(st.s11.sessions[r.s11], S1U_SGW, h.s1u, h.eNB);
    assert Rightful(st.s5.sessions[r.s5], S5U_SGW, h.s5u, h.pgw);
  }

  /** In every run, exactly the subscribers that have an uplink entry have a
      downlink entry. */
  lemma {:induction false} RunPaired<S, C>(s1uConn: C, s5uConn: C, events: seq<Event<S>>)
    requires Legal(s1uConn, s5uConn, events)
    ensures var w := Run<S, C>(s1uConn, s5uConn, events); Paired(w.st, w.h)
    decreases |events|
  {
    if events != [] {
      var before, event := events[..|events| - 1], events[|events| - 1];
      RunPaired<S, C>(s1uConn, s5uConn, before);
      var w := Run<S, C>(s1uConn, s5uConn, before);
      StepKeepsPaired(w.st, w.h, event);
    }
  }
}
