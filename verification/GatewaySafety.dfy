/** What the serving gateway promises over whole runs: every relay entry belongs
    to one subscriber and leads to a tunnel announced for that subscriber. */
module GatewaySafety {
  import opened Octets
  import U = UPlane
  import Q = Sequence
  import G = GtpuHeader
  import opened Registry
  import opened Gateway

  /** Whom a control-plane TEID was given to. */
  datatype Owner = Owner(imsi: string, peer: string)

  /** What an observer of the messages knows, without the gateway's tables: the
      TEIDs the gateway gave out and for whom, and the tunnels that eNB (by way
      of the MME) and P-GW announced for a subscriber, in messages from the peer
      a TEID was given to and addressed to that TEID. */
  datatype History = History(s11: map<uint32, Owner>, s5: map<uint32, Owner>, s1u: map<uint32, string>,
                             s5u: map<uint32, string>,
                             eNB: set<(string, Tunnel)>, pgw: set<(string, Tunnel)>)

  const NOTHING := History(map[], map[], map[], map[], {}, {})

  function Announced(owners: map<uint32, Owner>, teid: uint32, from: string, ts: set<Tunnel>): set<(string, Tunnel)> {
    if teid in owners && owners[teid].peer == from then set t | t in ts :: (owners[teid].imsi, t) else {}
  }

  /** The TEIDs a creation gives out, if it comes to that; none for S5-C when
      there is none left. */
  function GivenOut<S, C>(st: State<S, C>, m: Request, e: Creation<S>): Option<(uint32, Option<uint32>, uint32)>
    requires Sound(st)
  {
    if !Usable(m) || WithoutPrevious(st.s11, m.imsi.value).None? || !m.others then None
    else
      var t11 := Reserve(WithoutPrevious(st.s11, m.imsi.value).value, e.draws11).1;
      var t5 := Reserve(st.s5, e.draws5).1;
      var t5u := U.FirstUsable(st.s5u.taken, e.draws5u);
      if t11.None? || t5u.None? || (t5.None? && e.sent) then None else Some((t11.value, t5, t5u.value))
  }

  function NoteTEIDs(h: History, m: Request, mme: string, t11: uint32, t5: Option<uint32>, t5u: uint32): History
    requires Usable(m)
  {
    h.(s11 := h.s11[t11 := Owner(m.imsi.value, mme)],
       s5 := WithOwner(h.s5, t5, Owner(m.imsi.value, ControlAddr(m.pgw.value.ip))),
       s5u := h.s5u[t5u := m.imsi.value])
  }

  function WithOwner(owners: map<uint32, Owner>, t: Option<uint32>, o: Owner): map<uint32, Owner> {
    if t.Some? then owners[t.value := o] else owners
  }

  function Note<S, C>(st: State<S, C>, h: History, event: Event<S>): History
    requires Sound(st) && Enabled(st, event)
  {
    match event
    case DoCreate(m, mme, e) =>
      var g := GivenOut(st, m, e);
      if g.None? then h
      else NoteTEIDs(h, m, mme, g.value.0, g.value.1, g.value.2)
    case DoResume(w, timeout, draws, responded) =>
      var t := U.FirstUsable(st.s1u.taken, draws);
      var msg := Waited(st.s11.sessions[w.s11], w.sequence, timeout).0;
      if msg.Ok? && msg.value.created && responded && t.Some? then
        h.(s1u := h.s1u[t.value := st.s11.sessions[w.s11].imsi])
      else h
    case DoAnswer(teid, from, m) => h.(pgw := h.pgw + Announced(h.s5, teid, from, Tunnels(m.bearer.GetOr([]))))
    case DoModify(teid, from, cs) => h.(eNB := h.eNB + Announced(h.s11, teid, from, Tunnels(cs.GetOr([]))))
  }

  /* ---- the invariant ---- */

  /** Each index entry leads to a session of that IMSI, or of the owner of that
      TEID. */
  ghost predicate IndexOK<S>(c: ConnData<S>, owners: map<uint32, Owner>) {
    && Closed(c)
    && (forall i :: i in c.byIMSI ==> c.sessions[c.byIMSI[i]].imsi == i)
    && (forall t :: t in c.byTEID && c.byTEID[t].Some? ==> OwnedBy(c.sessions[c.byTEID[t].value], owners, t))
  }

  predicate OwnedBy(d: SessionData, owners: map<uint32, Owner>, t: uint32) {
    t in owners && owners[t] == Owner(d.imsi, d.peer)
  }

  predicate TunnelOK(imsi: string, t: Tunnel, announced: set<(string, Tunnel)>) {
    t == NO_TUNNEL || (imsi, t) in announced
  }

  predicate IssuedTo(imsi: string, t: uint32, issued: map<uint32, string>) {
    t in issued && issued[t] == imsi
  }

  /** The session's own user-plane TEID was given out for its subscriber, and its
      tunnel was announced for it. */
  predicate Rightful(d: SessionData, ifType: byte, issued: map<uint32, string>, announced: set<(string, Tunnel)>) {
    && (ifType in d.teids ==> IssuedTo(d.imsi, d.teids[ifType], issued))
    && TunnelOK(d.imsi, d.tunnel, announced)
  }

  ghost predicate AllRightful<S>(c: ConnData<S>, ifType: byte, issued: map<uint32, string>,
                                 announced: set<(string, Tunnel)>) {
    forall s :: s in c.sessions ==> Rightful(c.sessions[s], ifType, issued, announced)
  }

  /** Every relay entry sits at a TEID given out for some subscriber and leads,
      by the other connection, to a tunnel announced for that subscriber. */
  ghost predicate Bound<C>(s: U.Tables<C>, issued: map<uint32, string>, announced: set<(string, Tunnel)>, other: C) {
    forall t :: t in s.relay ==>
      && t in issued
      && s.relay[t].srcConn == other
      && TunnelOK(issued[t], Tunnel(s.relay[t].teid, s.relay[t].addr), announced)
  }

  ghost predicate Inv<S, C>(st: State<S, C>, h: History) {
    && Sound(st)
    && st.s11.ifType == S11_SGW && st.s5.ifType == S5C_SGW
    && IndexOK(st.s11, h.s11) && IndexOK(st.s5, h.s5)
    && AllRightful(st.s11, S1U_SGW, h.s1u, h.eNB) && AllRightful(st.s5, S5U_SGW, h.s5u, h.pgw)
    && h.s1u.Keys <= st.s1u.taken && h.s5u.Keys <= st.s5u.taken
    && Bound(st.s1u, h.s1u, h.pgw, st.s5uConn) && Bound(st.s5u, h.s5u, h.eNB, st.s1uConn)
  }

  /* ---- one step ---- */

  predicate ClaimOK(claim: Option<uint32>, imsi: string, issued: map<uint32, string>) {
    claim.Some? ==> IssuedTo(imsi, claim.value, issued)
  }

  /** The last F-TEID of the S-GW's own S5-U type in a response, as far as it is
      read: the control-plane one comes first. */
  function ResponseClaim(m: Response): Option<uint32> {
    if m.accepted != Given(true) || !m.paa.Given? || !m.pgw.Given? then None
    else
      var later := LastClaim(m.bearer.GetOr([]), S5U_SGW, true);
      if later.Some? then later
      else if m.pgw.value.0 == S5U_SGW then Some(m.pgw.value.1)
      else None
  }

  /** The P-GW's F-TEID is not of the S-GW's S5-C type, unless it is the TEID given
      out for this subscriber and peer. */
  predicate PGWClaimOK(m: Request, owners: map<uint32, Owner>)
    requires Usable(m)
  {
    m.pgw.value.ifType == S5C_SGW ==>
      OwnedBy(NewSession(ControlAddr(m.pgw.value.ip), m.imsi.value), owners, m.pgw.value.teid)
  }

  /** The peers do not use the S-GW's own interface types for TEIDs of others:
      what an F-TEID claims to be the S-GW's was given out by the S-GW for the
      same subscriber.  This can be seen from the message before it is handled. */
  ghost predicate Honest<S, C>(st: State<S, C>, h: History, event: Event<S>)
    requires Sound(st) && Enabled(st, event)
  {
    match event
    case DoCreate(m, mme, e) =>
      GivenOut(st, m, e).Some? ==> PGWClaimOK(m, Note(st, h, event).s5)
    case DoResume(_, _, _, _) => true
    case DoAnswer(teid, from, m) =>
      var r := GetByTEID(st.s5, teid, from);
      r.Done? ==> ClaimOK(ResponseClaim(m), st.s5.sessions[r.value].imsi, h.s5u)
    case DoModify(teid, from, cs) =>
      var r := GetByTEID(st.s11, teid, from);
      r.Done? && GetByIMSI(st.s5, st.s11.sessions[r.value].imsi).Some? ==>
        ClaimOK(LastClaim(cs.GetOr([]), S1U_SGW, false), st.s11.sessions[r.value].imsi, h.s1u)
  }

  /* ---- parts of steps ---- */

  /** A session may change as long as subscriber and peer stay. */
  lemma PutKeeps<S>(c: ConnData<S>, owners: map<uint32, Owner>, s: S, d: SessionData)
    requires s in c.sessions && d.imsi == c.sessions[s].imsi && d.peer == c.sessions[s].peer
    ensures IndexOK(Put(c, s, d), owners) <==> IndexOK(c, owners)
  {
    forall t | t in c.byTEID && c.byTEID[t].Some? && c.byTEID[t].value in c.sessions
      ensures OwnedBy(Put(c, s, d).sessions[c.byTEID[t].value], owners, t)
        <==> OwnedBy(c.sessions[c.byTEID[t].value], owners, t)
    {
    }
  }

  lemma PutNewKeeps<S>(c: ConnData<S>, owners: map<uint32, Owner>, s: S, d: SessionData)
    requires IndexOK(c, owners) && s !in c.sessions
    ensures IndexOK(Put(c, s, d), owners)
  {
  }

  lemma RegisterOK<S>(c: ConnData<S>, owners: map<uint32, Owner>, t: uint32, s: S)
    requires IndexOK(c, owners) && s in c.sessions
    ensures IndexOK(Register(c, t, s), owners) <==> OwnedBy(c.sessions[s], owners, t)
  {
    var d := Register(c, t, s);
    assert Holder(d, t) == Some(s);
    if OwnedBy(c.sessions[s], owners, t) {
      forall u | u in d.byTEID && d.byTEID[u].Some? ensures OwnedBy(d.sessions[d.byTEID[u].value], owners, u) {
        if u != t {
          assert OwnedBy(c.sessions[c.byTEID[u].value], owners, u);
        }
      }
    }
  }

  lemma RemoveKeeps<S>(c: ConnData<S>, owners: map<uint32, Owner>, s: S)
    requires IndexOK(c, owners) && s in c.sessions && Remove(c, s).Some?
    ensures IndexOK(Remove(c, s).value, owners)
    ensures Remove(c, s).value.sessions == c.sessions && Remove(c, s).value.ifType == c.ifType
    ensures Remove(c, s).value.byTEID.Keys <= c.byTEID.Keys
  {
  }

  /** A TEID that is not in use may get a new owner. */
  lemma ReserveKeepsIndex<S>(c: ConnData<S>, owners: map<uint32, Owner>, draws: seq<uint32>, o: Owner)
    requires IndexOK(c, owners)
    ensures IndexOK(Reserve(c, draws).0, WithOwner(owners, Reserve(c, draws).1, o))
  {
  }

  lemma PutRightful<S>(c: ConnData<S>, ifType: byte, issued: map<uint32, string>, announced: set<(string, Tunnel)>,
                       s: S, d: SessionData)
    requires AllRightful(c, ifType, issued, announced)
    ensures AllRightful(Put(c, s, d), ifType, issued, announced) <==> Rightful(d, ifType, issued, announced)
  {
    assert Put(c, s, d).sessions[s] == d;
  }

  /** Knowing of more announcements changes nothing. */
  lemma MoreAnnounced<S, C>(st: State<S, C>, h: History, eNB: set<(string, Tunnel)>, pgw: set<(string, Tunnel)>)
    requires Inv(st, h)
    ensures Inv(st, h.(eNB := h.eNB + eNB, pgw := h.pgw + pgw))
  {
  }

  /* ---- Modify Bearer Request ---- */

  lemma ModifyKeepsIff<S, C>(st: State<S, C>, h: History, teid: uint32, from: string, cs: Option<seq<Child>>)
    requires Inv(st, h) && Modify(st, teid, from, cs).Some?
    ensures var event := DoModify(teid, from, cs);
      Inv(Modify(st, teid, from, cs).value, Note(st, h, event)) <==> Honest(st, h, event)
  {
    var ts := Tunnels(cs.GetOr([]));
    var g := h.(eNB := h.eNB + Announced(h.s11, teid, from, ts));
    MoreAnnounced(st, h, Announced(h.s11, teid, from, ts), {});
    assert h.pgw + {} == h.pgw;
    var r := GetByTEID(st.s11, teid, from);
    if r.Done? && GetByIMSI(st.s5, st.s11.sessions[r.value].imsi).Some? {
      var d := st.s11.sessions[r.value];
      assert OwnedBy(d, h.s11, teid);
      forall t | t in ts ensures (d.imsi, t) in g.eNB {
      }
      ModifyFound(st, g, r.value, st.s5.byIMSI[d.imsi], cs.GetOr([]));
    }
  }

  lemma ModifyFound<S, C>(st: State<S, C>, h: History, s: S, x: S, cs: seq<Child>)
    requires Inv(st, h) && s in st.s11.sessions && x in st.s5.sessions
    requires st.s5.sessions[x].imsi == st.s11.sessions[s].imsi
    requires forall t :: t in Tunnels(cs) ==> (st.s11.sessions[s].imsi, t) in h.eNB
    ensures Inv(Modified(st, s, x, cs), h) <==> ClaimOK(LastClaim(cs, S1U_SGW, false), st.s11.sessions[s].imsi, h.s1u)
  {
    var (d, v) := ReadChildren(st.s11.sessions[s], cs, false);
    ReadLeaves(st.s11.sessions[s], cs, false, S1U_SGW);
    PutKeeps(st.s11, h.s11, s, d);
    PutRightful(st.s11, S1U_SGW, h.s1u, h.eNB, s, d);
    var st1 := st.(s11 := Put(st.s11, s, d));
    var p := st.s5.sessions[x];
    if Inv(st1, h) {
      RelayKeeps(st1, h, d, p);
    }
  }

  lemma RelayKeeps<S, C>(st: State<S, C>, h: History, d: SessionData, p: SessionData)
    requires Inv(st, h) && d.imsi == p.imsi
    requires Rightful(d, S1U_SGW, h.s1u, h.eNB) && Rightful(p, S5U_SGW, h.s5u, h.pgw)
    ensures Inv(RelayedIfKnown(st, d, p), h)
  {
  }

  /* ---- Create Session Response ---- */

  lemma AnswerKeepsIff<S, C>(st: State<S, C>, h: History, teid: uint32, from: string, m: Response)
    requires Inv(st, h) && Answer(st, teid, from, m).Some?
    ensures var event := DoAnswer(teid, from, m);
      Inv(Answer(st, teid, from, m).value, Note(st, h, event)) <==> Honest(st, h, event)
  {
    var ts := Tunnels(m.bearer.GetOr([]));
    var g := h.(pgw := h.pgw + Announced(h.s5, teid, from, ts));
    MoreAnnounced(st, h, {}, Announced(h.s5, teid, from, ts));
    assert h.eNB + {} == h.eNB;
    var r := GetByTEID(st.s5, teid, from);
    if r.Done? {
      var s, d := r.value, st.s5.sessions[r.value];
      assert OwnedBy(d, h.s5, teid);
      forall t | t in ts ensures (d.imsi, t) in g.pgw {
      }
      ResponseLeaves(d, m);
      var (e, v) := ReadResponse(d, m);
      PutKeeps(st.s5, g.s5, s, e);
      PutRightful(st.s5, S5U_SGW, g.s5u, g.pgw, s, e);
      var st1 := st.(s5 := Put(st.s5, s, e));
      assert Inv(st1, g) <==> ClaimOK(ResponseClaim(m), d.imsi, g.s5u);
      if v == Drop {
        RemoveKeeps(st1.s5, g.s5, s);
      } else if v == Go && GetByIMSI(st.s11, e.imsi).Some? {
        EnqueueKeeps(st1, g, GetByIMSI(st.s11, e.imsi).value, Passed(m.sequence, true));
      }
    }
  }

  lemma ResponseLeaves(d: SessionData, m: Response)
    ensures var e := ReadResponse(d, m).0;
      && e.imsi == d.imsi && e.peer == d.peer
      && (e.tunnel == d.tunnel || e.tunnel in Tunnels(m.bearer.GetOr([])))
      && TEIDOf(e, S5U_SGW) == if ResponseClaim(m).Some? then ResponseClaim(m) else TEIDOf(d, S5U_SGW)
  {
    if m.pgw.Given? && m.bearer.Some? {
      ReadLeaves(WithTEID(d, m.pgw.value.0, m.pgw.value.1), m.bearer.value, true, S5U_SGW);
    }
  }

  lemma EnqueueKeeps<S, C>(st: State<S, C>, h: History, s: S, msg: Passed)
    requires s in st.s11.sessions
    ensures Sound(st) && IndexOK(st.s11, h.s11) && AllRightful(st.s11, S1U_SGW, h.s1u, h.eNB) ==>
      (Inv(st.(s11 := Enqueued(st.s11, s, msg)), h) <==> Inv(st, h))
  {
    var d := st.s11.sessions[s];
    if Sound(st) && IndexOK(st.s11, h.s11) && AllRightful(st.s11, S1U_SGW, h.s1u, h.eNB) {
      PutKeeps(st.s11, h.s11, s, d.(queue := d.queue + [msg]));
      PutRightful(st.s11, S1U_SGW, h.s1u, h.eNB, s, d.(queue := d.queue + [msg]));
    }
  }

  /* ---- the rest of a creation ---- */

  lemma ResumeKeeps<S, C>(st: State<S, C>, h: History, w: Waiting<S>, timeout: bool, draws: seq<uint32>,
                          responded: bool)
    requires Inv(st, h) && w in st.waiting && Resume(st, w, timeout, draws, responded).Some?
    ensures Inv(Resume(st, w, timeout, draws, responded).value, Note(st, h, DoResume(w, timeout, draws, responded)))
  {
    var s := w.s11;
    var (msg, d) := Waited(st.s11.sessions[s], w.sequence, timeout);
    var st1 := st.(s11 := Put(st.s11, s, d), waiting := st.waiting - {w});
    PutKeeps(st.s11, h.s11, s, d);
    PutRightful(st.s11, S1U_SGW, h.s1u, h.eNB, s, d);
    assert Inv(st1, h);
    if msg.Err? || !msg.value.created {
      RemoveS11Keeps(st1, h, s);
    } else {
      var t := U.FirstUsable(st.s1u.taken, draws).value;
      var st2 := st1.(s1u := U.Step(st1.s1u, U.Alloc(draws)));
      if responded {
        FinishKeeps(st1, h, w, t);
      } else {
        RemoveS11Keeps(st2, h, s);
      }
    }
  }

  lemma FinishKeeps<S, C>(st: State<S, C>, h: History, w: Waiting<S>, t: uint32)
    requires Inv(st, h) && w.s11 in st.s11.sessions && w.s5 in st.s5.sessions && t !in st.s1u.taken
    ensures var r := Finish(st.(s1u := st.s1u.(taken := st.s1u.taken + {t})), w, t);
      r.Some? ==> Inv(r.value, h.(s1u := h.s1u[t := st.s11.sessions[w.s11].imsi]))
  {
    var s, d := w.s11, st.s11.sessions[w.s11];
    var e := WithTEID(WithTEID(d, S11_SGW, w.teid), S1U_SGW, t);
    Granted(st, h, s, t, e);
    var st1 := st.(s1u := st.s1u.(taken := st.s1u.taken + {t}), s11 := Put(st.s11, s, e));
    var g := h.(s1u := h.s1u[t := d.imsi]);
    SessionKeeps(st1, g, s, e.(active := true));
    if RemoveS11(st1, s).Some? {
      RemoveS11Keeps(st1, g, s);
    }
  }

  /** An S1-U TEID is given out for the subscriber of a session, and stored. */
  lemma Granted<S, C>(st: State<S, C>, h: History, s: S, t: uint32, e: SessionData)
    requires Inv(st, h) && s in st.s11.sessions && t !in st.s1u.taken
    requires var d := st.s11.sessions[s];
      e.imsi == d.imsi && e.peer == d.peer && e.tunnel == d.tunnel && TEIDOf(e, S1U_SGW) == Some(t)
    ensures Inv(st.(s1u := st.s1u.(taken := st.s1u.taken + {t}), s11 := Put(st.s11, s, e)),
                h.(s1u := h.s1u[t := e.imsi]))
  {
    var st1, g := st.(s1u := st.s1u.(taken := st.s1u.taken + {t})), h.(s1u := h.s1u[t := e.imsi]);
    assert Inv(st1, g);
    SessionKeeps(st1, g, s, e);
  }

  lemma RemoveS11Keeps<S, C>(st: State<S, C>, h: History, s: S)
    requires Inv(st, h) && s in st.s11.sessions && RemoveS11(st, s).Some?
    ensures Inv(RemoveS11(st, s).value, h)
  {
    RemoveKeeps(st.s11, h.s11, s);
  }

  lemma SessionKeeps<S, C>(st: State<S, C>, h: History, s: S, d: SessionData)
    requires Inv(st, h) && s in st.s11.sessions && Rightful(d, S1U_SGW, h.s1u, h.eNB)
    requires d.imsi == st.s11.sessions[s].imsi && d.peer == st.s11.sessions[s].peer
    ensures Inv(st.(s11 := Put(st.s11, s, d)), h)
  {
    PutKeeps(st.s11, h.s11, s, d);
    PutRightful(st.s11, S1U_SGW, h.s1u, h.eNB, s, d);
  }

  /* ---- Create Session Request ---- */

  lemma CreateKeepsIff<S, C>(st: State<S, C>, h: History, m: Request, mme: string, e: Creation<S>)
    requires Inv(st, h) && Enabled(st, DoCreate(m, mme, e)) && Create(st, m, mme, e).Some?
    ensures var event := DoCreate(m, mme, e);
      Inv(Create(st, m, mme, e).value, Note(st, h, event)) <==> Honest(st, h, event)
  {
    if Usable(m) {
      var imsi := m.imsi.value;
      if imsi in st.s11.byIMSI {
        RemoveKeeps(st.s11, h.s11, st.s11.byIMSI[imsi]);
      }
      var st1 := st.(s11 := WithoutPrevious(st.s11, imsi).value);
      assert Inv(st1, h);
      if m.others {
        CreatedFromKeepsIff(st1, h, m, mme, e, Note(st, h, DoCreate(m, mme, e)));
      }
    }
  }

  /** What `CreateSession` makes of the sessions: one more, whose S5-U TEID is
      the one given out, whatever the P-GW's F-TEID says. */
  lemma ParsedSession<S>(c: ConnData<S>, s: S, imsi: string, own: Option<uint32>, pgw: FTEID, userPlane: uint32)
    requires c.ifType == S5C_SGW
    ensures var r := ParseCreateSession(c, s, imsi, own, pgw, userPlane);
      && s in r.sessions && r.ifType == c.ifType
      && r.sessions == c.sessions[s := r.sessions[s]]
      && r.sessions[s].imsi == imsi && r.sessions[s].peer == ControlAddr(pgw.ip) && r.sessions[s].tunnel == NO_TUNNEL
      && TEIDOf(r.sessions[s], S5U_SGW) == Some(userPlane)
      && (pgw.ifType == S5C_SGW ==> Holder(r, pgw.teid) == Some(s))
  {
    var c0 := Put(c, s, NewSession(ControlAddr(pgw.ip), imsi));
    if own.Some? {
      ClaimLeaves(c0, s, c0.ifType, own.value);
    }
    ClaimLeaves(WithOwn(c0, s, own), s, pgw.ifType, pgw.teid);
  }

  lemma ClaimLeaves<S>(c: ConnData<S>, s: S, ifType: byte, teid: uint32)
    requires s in c.sessions
    ensures var r := WithClaim(c, s, ifType, teid);
      && s in r.sessions && r.ifType == c.ifType && r.sessions == c.sessions[s := r.sessions[s]]
      && r.sessions[s].imsi == c.sessions[s].imsi && r.sessions[s].peer == c.sessions[s].peer
      && r.sessions[s].tunnel == c.sessions[s].tunnel
      && (ifType == c.ifType ==> Holder(r, teid) == Some(s))
  {
  }

  predicate OwnOK(d: SessionData, owners: map<uint32, Owner>, own: Option<uint32>) {
    own.Some? ==> OwnedBy(d, owners, own.value)
  }

  /** Registering under a claimed TEID is sound exactly if that is the session's. */
  lemma ClaimKeepsIff<S>(c: ConnData<S>, owners: map<uint32, Owner>, s: S, ifType: byte, teid: uint32)
    requires IndexOK(c, owners) && s in c.sessions
    ensures var r := WithClaim(c, s, ifType, teid);
      && r.sessions.Keys == c.sessions.Keys && r.ifType == c.ifType
      && r.sessions[s].imsi == c.sessions[s].imsi && r.sessions[s].peer == c.sessions[s].peer
      && (IndexOK(r, owners) <==> (ifType == c.ifType ==> OwnedBy(c.sessions[s], owners, teid)))
  {
    var c1 := Put(c, s, WithTEID(c.sessions[s], ifType, teid));
    PutKeeps(c, owners, s, c1.sessions[s]);
    if ifType == c.ifType {
      RegisterOK(c1, owners, teid, s);
    }
  }

  /** What it makes of the index: the session is there under the S-GW's TEID, and
      under the P-GW's exactly if that claims to be of the S-GW's type. */
  lemma ParsedIndexIff<S>(c: ConnData<S>, owners: map<uint32, Owner>, s: S, imsi: string, own: Option<uint32>,
                          pgw: FTEID, userPlane: uint32)
    requires IndexOK(c, owners) && c.ifType == S5C_SGW && s !in c.sessions
    requires OwnOK(NewSession(ControlAddr(pgw.ip), imsi), owners, own)
    ensures IndexOK(ParseCreateSession(c, s, imsi, own, pgw, userPlane), owners) <==>
      (pgw.ifType == S5C_SGW ==> OwnedBy(NewSession(ControlAddr(pgw.ip), imsi), owners, pgw.teid))
  {
    var c0 := Put(c, s, NewSession(ControlAddr(pgw.ip), imsi));
    PutNewKeeps(c, owners, s, NewSession(ControlAddr(pgw.ip), imsi));
    if own.Some? {
      ClaimKeepsIff(c0, owners, s, c0.ifType, own.value);
    }
    var c1 := WithOwn(c0, s, own);
    ClaimKeepsIff(c1, owners, s, pgw.ifType, pgw.teid);
    var c2 := WithClaim(c1, s, pgw.ifType, pgw.teid);
    PutKeeps(c2, owners, s, WithTEID(c2.sessions[s], S5U_SGW, userPlane));
  }

  lemma ParseKeepsIff<S>(c: ConnData<S>, owners: map<uint32, Owner>, issued: map<uint32, string>,
                         announced: set<(string, Tunnel)>,
                         s: S, imsi: string, own: Option<uint32>, pgw: FTEID, userPlane: uint32, r: ConnData<S>)
    requires IndexOK(c, owners) && AllRightful(c, S5U_SGW, issued, announced) && c.ifType == S5C_SGW && s !in c.sessions
    requires OwnOK(NewSession(ControlAddr(pgw.ip), imsi), owners, own) && IssuedTo(imsi, userPlane, issued)
    requires r == ParseCreateSession(c, s, imsi, own, pgw, userPlane)
    ensures r.ifType == c.ifType && r.sessions.Keys == c.sessions.Keys + {s}
    ensures r.sessions[s].imsi == imsi && r.sessions[s].peer == ControlAddr(pgw.ip)
    ensures Rightful(r.sessions[s], S5U_SGW, issued, announced) && AllRightful(r, S5U_SGW, issued, announced)
    ensures pgw.ifType == S5C_SGW ==> Holder(r, pgw.teid) == Some(s)
    ensures IndexOK(r, owners) <==>
      (pgw.ifType == S5C_SGW ==> OwnedBy(NewSession(ControlAddr(pgw.ip), imsi), owners, pgw.teid))
  {
    ParsedSession(c, s, imsi, own, pgw, userPlane);
    ParsedIndexIff(c, owners, s, imsi, own, pgw, userPlane);
    PutRightful(c, S5U_SGW, issued, announced, s, r.sessions[s]);
  }

  /** The S5 side of a creation. */
  lemma CreatedS5KeepsIff<S>(c: ConnData<S>, owners: map<uint32, Owner>, issued: map<uint32, string>,
                             announced: set<(string, Tunnel)>,
                             s: S, imsi: string, own: Option<uint32>, pgw: FTEID, userPlane: uint32, sent: bool)
    requires IndexOK(c, owners) && AllRightful(c, S5U_SGW, issued, announced) && c.ifType == S5C_SGW && s !in c.sessions
    requires OwnOK(NewSession(ControlAddr(pgw.ip), imsi), owners, own) && IssuedTo(imsi, userPlane, issued)
    requires sent ==> own.Some?
    ensures var r := CreatedS5(c, s, imsi, own, pgw, userPlane, sent);
      && r.ifType == c.ifType && r.sessions.Keys == c.sessions.Keys + {s}
      && AllRightful(r, S5U_SGW, issued, announced)
      && (IndexOK(r, owners) <==>
           (pgw.ifType == S5C_SGW ==> OwnedBy(NewSession(ControlAddr(pgw.ip), imsi), owners, pgw.teid)))
  {
    var p2 := ParseCreateSession(c, s, imsi, own, pgw, userPlane);
    ParseKeepsIff(c, owners, issued, announced, s, imsi, own, pgw, userPlane, p2);
    var p3 := p2.(sequence := Q.Send(c.sequence, sent));
    CounterKeeps(p2, owners, issued, announced, p3.sequence);
    if sent {
      SentKeepsIff(p3, owners, issued, announced, s, own.value, pgw, userPlane);
    }
  }

  lemma CounterKeeps<S>(c: ConnData<S>, owners: map<uint32, Owner>, issued: map<uint32, string>,
                        announced: set<(string, Tunnel)>, sequence: uint32)
    ensures IndexOK(c.(sequence := sequence), owners) <==> IndexOK(c, owners)
    ensures AllRightful(c.(sequence := sequence), S5U_SGW, issued, announced) <==>
      AllRightful(c, S5U_SGW, issued, announced)
  {
  }

  /** Registering once more, after the request went out. */
  lemma SentKeepsIff<S>(c: ConnData<S>, owners: map<uint32, Owner>, issued: map<uint32, string>,
                        announced: set<(string, Tunnel)>,
                        s: S, own: uint32, pgw: FTEID, userPlane: uint32)
    requires s in c.sessions && IssuedTo(c.sessions[s].imsi, userPlane, issued)
    requires AllRightful(c, S5U_SGW, issued, announced)
    requires OwnedBy(c.sessions[s], owners, own) && c.ifType == S5C_SGW
    requires pgw.ifType == S5C_SGW ==> Holder(c, pgw.teid) == Some(s)
    requires IndexOK(c, owners) <==> (pgw.ifType == S5C_SGW ==> OwnedBy(c.sessions[s], owners, pgw.teid))
    ensures var r := Register(Put(c, s, WithTEID(c.sessions[s], S5U_SGW, userPlane)), own, s);
      AllRightful(r, S5U_SGW, issued, announced) && (IndexOK(r, owners) <==> IndexOK(c, owners))
  {
    var d := WithTEID(c.sessions[s], S5U_SGW, userPlane);
    var c1 := Put(c, s, d);
    PutKeeps(c, owners, s, d);
    PutRightful(c, S5U_SGW, issued, announced, s, d);
    var r := Register(c1, own, s);
    PutRightful(c1, S5U_SGW, issued, announced, s, r.sessions[s]);
    if IndexOK(c1, owners) {
      RegisterOK(c1, owners, own, s);
    } else {
      assert Holder(r, pgw.teid) == Some(s);
    }
  }

  /** The S11 side of a creation. */
  lemma CreatedS11Keeps<S>(c: ConnData<S>, owners: map<uint32, Owner>, issued: map<uint32, string>,
                           announced: set<(string, Tunnel)>,
                           s: S, m: Request, mme: string, own: uint32)
    requires IndexOK(c, owners) && AllRightful(c, S1U_SGW, issued, announced) && c.ifType == S11_SGW && s !in c.sessions
    requires Usable(m) && own in owners && owners[own] == Owner(m.imsi.value, mme)
    ensures var r := Register(Put(c, s, NewS11Session(m, mme)), own, s);
      && IndexOK(r, owners) && AllRightful(r, S1U_SGW, issued, announced)
      && r.ifType == c.ifType && r.sessions.Keys == c.sessions.Keys + {s}
  {
    var d := NewS11Session(m, mme);
    PutNewKeeps(c, owners, s, d);
    RegisterOK(Put(c, s, d), owners, own, s);
    assert Register(Put(c, s, d), own, s).sessions == c.sessions[s := WithTEID(d, S11_SGW, own)];
    PutRightful(c, S1U_SGW, issued, announced, s, WithTEID(d, S11_SGW, own));
  }

  lemma CreatedFromKeepsIff<S, C>(st: State<S, C>, h: History, m: Request, mme: string, e: Creation<S>, g: History)
    requires Inv(st, h) && Usable(m) && e.s11 !in st.s11.sessions && e.s5 !in st.s5.sessions
    requires CreatedFrom(st, m, mme, e).Some?
    requires g == NoteTEIDs(h, m, mme, Reserve(st.s11, e.draws11).1.value, Reserve(st.s5, e.draws5).1,
                            U.FirstUsable(st.s5u.taken, e.draws5u).value)
    ensures Inv(CreatedFrom(st, m, mme, e).value, g) <==> PGWClaimOK(m, g.s5)
  {
    var (c1, t11) := Reserve(st.s11, e.draws11);
    var (p1, t5) := Reserve(st.s5, e.draws5);
    CreatedKeepsIff(st, h, m, mme, e, c1, t11.value, p1, t5, U.FirstUsable(st.s5u.taken, e.draws5u).value, g);
  }

  /** The creation proper, the previous session being removed. */
  lemma CreatedKeepsIff<S, C>(st: State<S, C>, h: History, m: Request, mme: string, e: Creation<S>, c1: ConnData<S>,
                              t11: uint32,
                              p1: ConnData<S>, t5: Option<uint32>, t5u: uint32, g: History)
    requires Inv(st, h) && Usable(m) && e.s11 !in st.s11.sessions && e.s5 !in st.s5.sessions
    requires Reserve(st.s11, e.draws11) == (c1, Some(t11)) && Reserve(st.s5, e.draws5) == (p1, t5)
    requires e.sent ==> t5.Some?
    requires U.FirstUsable(st.s5u.taken, e.draws5u) == Some(t5u)
    requires g == NoteTEIDs(h, m, mme, t11, t5, t5u)
    ensures Inv(Created(st, m, mme, e, c1, t11, p1, t5, t5u), g) <==>
      PGWClaimOK(m, g.s5)
  {
    var c, p := CreatedSides(st, h, m, mme, e, c1, t11, p1, t5, t5u, g);
    Assembled(st, h, c, p, g, t5u, m.imsi.value, e.s11, e.s5, t11, p1.sequence, e.sent);
  }

  lemma CreatedSides<S, C>(st: State<S, C>, h: History, m: Request, mme: string, e: Creation<S>, c1: ConnData<S>,
                           t11: uint32,
                           p1: ConnData<S>, t5: Option<uint32>, t5u: uint32, g: History)
    returns (c: ConnData<S>, p: ConnData<S>)
    requires Inv(st, h) && Usable(m) && e.s11 !in st.s11.sessions && e.s5 !in st.s5.sessions
    requires Reserve(st.s11, e.draws11) == (c1, Some(t11)) && Reserve(st.s5, e.draws5) == (p1, t5)
    requires e.sent ==> t5.Some?
    requires t5u !in st.s5u.taken
    requires g == NoteTEIDs(h, m, mme, t11, t5, t5u)
    ensures Created(st, m, mme, e, c1, t11, p1, t5, t5u)
         == Assembly(st, c, p, t5u, NewlyWaiting(e.s11, e.s5, t11, p1.sequence, e.sent))
    ensures c.ifType == S11_SGW && p.ifType == S5C_SGW
    ensures st.s11.sessions.Keys <= c.sessions.Keys && st.s5.sessions.Keys <= p.sessions.Keys
    ensures e.s11 in c.sessions && e.s5 in p.sessions
    ensures IndexOK(c, g.s11) && AllRightful(c, S1U_SGW, g.s1u, g.eNB) && AllRightful(p, S5U_SGW, g.s5u, g.pgw)
    ensures IndexOK(p, g.s5) <==>
      PGWClaimOK(m, g.s5)
  {
    c := Register(Put(c1, e.s11, NewS11Session(m, mme)), t11, e.s11);
    p := CreatedS5(p1, e.s5, m.imsi.value, t5, m.pgw.value, t5u, e.sent);
    ReserveKeepsIndex(st.s11, h.s11, e.draws11, g.s11[t11]);
    ReserveKeepsIndex(st.s5, h.s5, e.draws5, Owner(m.imsi.value, ControlAddr(m.pgw.value.ip)));
    CreatedS11Keeps(c1, g.s11, h.s1u, h.eNB, e.s11, m, mme, t11);
    RightfulMore(p1, h, t5u, m.imsi.value);
    CreatedS5KeepsIff(p1, g.s5, g.s5u, h.pgw, e.s5, m.imsi.value, t5, m.pgw.value, t5u, e.sent);
  }

  lemma RightfulMore<S>(c: ConnData<S>, h: History, t: uint32, imsi: string)
    requires AllRightful(c, S5U_SGW, h.s5u, h.pgw) && t !in h.s5u
    ensures AllRightful(c, S5U_SGW, h.s5u[t := imsi], h.pgw)
  {
  }

  function Assembly<S, C>(st: State<S, C>, c: ConnData<S>, p: ConnData<S>, t: uint32,
                          more: set<Waiting<S>>): State<S, C> {
    st.(s11 := c, s5 := p, s5u := st.s5u.(taken := st.s5u.taken + {t}), waiting := st.waiting + more)
  }

  /** The state made of the two sides, and of one more S5-U TEID and handler. */
  lemma Assembled<S, C>(st: State<S, C>, h: History, c: ConnData<S>, p: ConnData<S>, g: History, t: uint32,
                        imsi: string,
                        s11: S, s5: S, teid: uint32, sequence: uint32, sent: bool)
    requires Inv(st, h) && t !in st.s5u.taken
    requires g == h.(s11 := g.s11, s5 := g.s5, s5u := h.s5u[t := imsi])
    requires c.ifType == S11_SGW && IndexOK(c, g.s11) && AllRightful(c, S1U_SGW, g.s1u, g.eNB)
    requires p.ifType == S5C_SGW && AllRightful(p, S5U_SGW, g.s5u, g.pgw)
    requires st.s11.sessions.Keys <= c.sessions.Keys && st.s5.sessions.Keys <= p.sessions.Keys
    requires s11 in c.sessions && s5 in p.sessions
    ensures Inv(Assembly(st, c, p, t, NewlyWaiting(s11, s5, teid, sequence, sent)), g) <==> IndexOK(p, g.s5)
  {
  }

  /* ---- every run ---- */

  /** A step that does not panic keeps the invariant exactly when it is honest. */
  lemma StepKeepsIff<S, C>(st: State<S, C>, h: History, event: Event<S>)
    requires Inv(st, h) && Enabled(st, event) && Step(st, event).Some?
    ensures Inv(Step(st, event).value, Note(st, h, event)) <==> Honest(st, h, event)
  {
    match event
    case DoCreate(m, mme, e) => CreateKeepsIff(st, h, m, mme, e);
    case DoResume(w, timeout, draws, responded) => ResumeKeeps(st, h, w, timeout, draws, responded);
    case DoAnswer(teid, from, m) => AnswerKeepsIff(st, h, teid, from, m);
    case DoModify(teid, from, cs) => ModifyKeepsIff(st, h, teid, from, cs);
  }

  lemma ConnsStay<S, C>(st: State<S, C>, event: Event<S>)
    requires Sound(st) && Enabled(st, event) && Step(st, event).Some?
    ensures Step(st, event).value.s1uConn == st.s1uConn && Step(st, event).value.s5uConn == st.s5uConn
  {
  }

  datatype World<S(==), C> = World(st: State<S, C>, h: History)

  /** An event that can happen, is honest, and does not bring the program down. */
  ghost predicate Proper<S, C>(w: World<S, C>, event: Event<S>)
    requires Sound(w.st)
  {
    Enabled(w.st, event) && Step(w.st, event).Some? && Honest(w.st, w.h, event)
  }

  ghost function Next<S, C>(w: World<S, C>, event: Event<S>): (n: World<S, C>)
    requires Inv(w.st, w.h) && Proper(w, event)
    ensures Inv(n.st, n.h) && n.st.s1uConn == w.st.s1uConn && n.st.s5uConn == w.st.s5uConn
  {
    StepKeepsIff(w.st, w.h, event);
    ConnsStay(w.st, event);
    World(Step(w.st, event).value, Note(w.st, w.h, event))
  }

  ghost function Start<S, C>(s1uConn: C, s5uConn: C): (w: World<S, C>)
    ensures Inv(w.st, w.h) && w.st.s1uConn == s1uConn && w.st.s5uConn == s5uConn
  {
    World(Initial(s1uConn, s5uConn), NOTHING)
  }

  /** A run of proper events. */
  ghost predicate Legal<S, C>(s1uConn: C, s5uConn: C, events: seq<Event<S>>)
    decreases |events|, 0
  {
    events == [] ||
    (Legal(s1uConn, s5uConn, events[..|events| - 1]) &&
     Proper(Run<S, C>(s1uConn, s5uConn, events[..|events| - 1]), events[|events| - 1]))
  }

  /** The gateway after a run, and what the observer has noted. */
  ghost function Run<S, C>(s1uConn: C, s5uConn: C, events: seq<Event<S>>): (w: World<S, C>)
    requires Legal(s1uConn, s5uConn, events)
    ensures Inv(w.st, w.h) && w.st.s1uConn == s1uConn && w.st.s5uConn == s5uConn
    decreases |events|, 1
  {
    if events == [] then Start(s1uConn, s5uConn)
    else Next(Run<S, C>(s1uConn, s5uConn, events[..|events| - 1]), events[|events| - 1])
  }

  predicate Kept(m: map<uint32, string>, n: map<uint32, string>) {
    forall t :: t in m ==> t in n && n[t] == m[t]
  }

  /** A user-plane TEID is given out for one subscriber only, whatever the next
      event is. */
  lemma OwnersStay<S, C>(st: State<S, C>, h: History, event: Event<S>)
    requires Inv(st, h) && Enabled(st, event)
    ensures Kept(h.s1u, Note(st, h, event).s1u) && Kept(h.s5u, Note(st, h, event).s5u)
  {
  }

  /** So in every run it stays that subscriber's; and since relay entries sit at
      TEIDs of their subscribers only, those of different subscribers never
      coincide, not even at different times. */
  lemma {:induction false} RunOwnersStay<S, C>(s1uConn: C, s5uConn: C, events: seq<Event<S>>, k: nat)
    requires k <= |events| && Legal(s1uConn, s5uConn, events)
    ensures Legal(s1uConn, s5uConn, events[..k])
    ensures var w, v := Run<S, C>(s1uConn, s5uConn, events[..k]), Run<S, C>(s1uConn, s5uConn, events);
      && Kept(w.h.s1u, v.h.s1u) && Kept(w.h.s5u, v.h.s5u)
      && (forall t :: t in w.st.s1u.relay ==> t in v.h.s1u && TunnelOK(v.h.s1u[t], EntryAt(w.st.s1u, t), w.h.pgw))
      && (forall t :: t in w.st.s5u.relay ==> t in v.h.s5u && TunnelOK(v.h.s5u[t], EntryAt(w.st.s5u, t), w.h.eNB))
    decreases |events|
  {
    if k == |events| {
      assert events[..k] == events;
    } else {
      var before, event := events[..|events| - 1], events[|events| - 1];
      RunOwnersStay<S, C>(s1uConn, s5uConn, before, k);
      assert before[..k] == events[..k];
      OwnersStay(Run<S, C>(s1uConn, s5uConn, before).st, Run<S, C>(s1uConn, s5uConn, before).h, event);
    }
  }

  function EntryAt<C>(s: U.Tables<C>, t: uint32): Tunnel
    requires t in s.relay
  {
    Tunnel(s.relay[t].teid, s.relay[t].addr)
  }

  /** In every run: an uplink packet that is forwarded came in on a TEID the
      gateway gave out for some subscriber; it leaves by S5-U, with as much of
      its payload as the buffer holds, into a tunnel the P-GW announced for that
      same subscriber (or none, if it announced none yet). */
  lemma UplinkStaysWithSubscriber<S, C>(s1uConn: C, s5uConn: C, events: seq<Event<S>>, packet: seq<byte>)
    requires Legal(s1uConn, s5uConn, events)
    ensures var w := Run<S, C>(s1uConn, s5uConn, events);
      FateOK(w.st.s1u.relay, packet, w.h.s1u, w.h.pgw, s5uConn)
  {
    BoundForwards(Run<S, C>(s1uConn, s5uConn, events).st.s1u, Run<S, C>(s1uConn, s5uConn, events).h.s1u,
                  Run<S, C>(s1uConn, s5uConn, events).h.pgw, s5uConn, packet);
  }

  /** And downlink packets alike, into tunnels of that subscriber's eNB. */
  lemma DownlinkStaysWithSubscriber<S, C>(s1uConn: C, s5uConn: C, events: seq<Event<S>>, packet: seq<byte>)
    requires Legal(s1uConn, s5uConn, events)
    ensures var w := Run<S, C>(s1uConn, s5uConn, events);
      FateOK(w.st.s5u.relay, packet, w.h.s5u, w.h.eNB, s1uConn)
  {
    BoundForwards(Run<S, C>(s1uConn, s5uConn, events).st.s5u, Run<S, C>(s1uConn, s5uConn, events).h.s5u,
                  Run<S, C>(s1uConn, s5uConn, events).h.eNB, s1uConn, packet);
  }

  /** A packet that is forwarded stays with the subscriber its TEID was given out
      for. */
  ghost predicate FateOK<C>(relay: map<uint32, U.Peer<C>>, packet: seq<byte>, issued: map<uint32, string>,
                            announced: set<(string, Tunnel)>, other: C) {
    var raw := G.Received(packet);
    var fate := U.FateOf(relay, raw);
    fate.Forwarded? ==>
      && |raw| >= 11
      && Uint32(raw[4..8]) in issued
      && fate.srcConn == other
      && exists t: Tunnel ::
           && TunnelOK(issued[Uint32(raw[4..8])], t, announced)
           && t.addr == fate.addr
           && CarriedOn(packet, U.PacketAfter(relay, raw), t.teid)
  }

  /** What leaves decapsulates to the TEID, and to the payload up to the end of
      the buffer. */
  predicate CarriedOn(packet: seq<byte>, sent: seq<byte>, teid: uint32) {
    && G.Decapsulate(sent) == G.Readdressed(G.Decapsulate(G.Received(packet)), teid)
    && (packet != [] && G.Decapsulate(packet).Done? ==>
          G.Decapsulate(sent) == Done((teid, U.Passing(packet, G.Decapsulate(packet).value.1))))
  }

  lemma BoundForwards<C>(s: U.Tables<C>, issued: map<uint32, string>, announced: set<(string, Tunnel)>, other: C,
                         packet: seq<byte>)
    requires Bound(s, issued, announced, other)
    ensures FateOK(s.relay, packet, issued, announced, other)
  {
    var raw := G.Received(packet);
    if U.FateOf(s.relay, raw).Forwarded? {
      U.ForwardingKeepsPayload(s.relay, packet);
      var key := Uint32(raw[4..8]);
      var t := Tunnel(s.relay[key].teid, s.relay[key].addr);
      assert TunnelOK(issued[key], t, announced);
    }
  }

  /* ---- where it fails ---- */

  /** An MME that sends, for one subscriber, an F-TEID of the S-GW's own S1-U type
      with the TEID given out for another, makes the gateway forward that other
      subscriber's packets to the first one's P-GW tunnel. */
  lemma ForeignClaimTakesOver<S, C>(st: State<S, C>, h: History, teid: uint32, from: string, cs: seq<Child>, s: S,
                                    x: S, t: uint32)
    requires Inv(st, h)
    requires GetByTEID(st.s11, teid, from) == Done(s) && GetByIMSI(st.s5, st.s11.sessions[s].imsi) == Some(x)
    requires ReadChildren(st.s11.sessions[s], cs, false).1 == Go && LastClaim(cs, S1U_SGW, false) == Some(t)
    requires S11_MME in st.s11.sessions[s].teids && S5U_SGW in st.s5.sessions[x].teids
    requires t in h.s1u && !TunnelOK(h.s1u[t], st.s5.sessions[x].tunnel, h.pgw)
    ensures var r := Modify(st, teid, from, Some(cs));
      && r.Some?
      && t in r.value.s1u.relay && r.value.s1u.relay[t] == PeerOf(st.s5.sessions[x].tunnel, st.s5uConn)
      && !Bound(r.value.s1u, h.s1u, h.pgw, st.s5uConn)
  {
    ReadLeaves(st.s11.sessions[s], cs, false, S1U_SGW);
    ReadLeaves(st.s11.sessions[s], cs, false, S11_MME);
  }
}
