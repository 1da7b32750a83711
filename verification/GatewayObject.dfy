/** The serving gateway as the object its handlers work on.  Each handler is
    proved against the step of module `Gateway` that it takes. */
module GatewayObject {
  import opened Octets
  import U = UPlane
  import Q = Sequence
  import opened Registry
  import C = Conn
  import G = Gateway

  class ServingGateway {
    const s11Conn: C.Conn
    const s5cConn: C.Conn
    const s1uConn: U.UPlaneConn
    const s5uConn: U.UPlaneConn
    /** The handlers that wait. */
    ghost var waiting: set<G.Waiting<C.Session>>

    ghost function State(): G.State<C.Session, U.UPlaneConn>
      reads this, s11Conn, s5cConn, s1uConn, s5uConn
    {
      G.State(s11Conn.Data(), s5cConn.Data(), s1uConn.State(), s5uConn.State(), waiting, s1uConn, s5uConn)
    }

    ghost predicate Valid()
      reads this, s11Conn, s11Conn.made.Keys, s5cConn, s5cConn.made.Keys, s1uConn, s5uConn
    {
      && s11Conn != s5cConn && s1uConn != s5uConn
      && s11Conn.made.Keys !! s5cConn.made.Keys
      && s11Conn.Valid() && s5cConn.Valid()
      && s11Conn.localIfType == G.S11_SGW && s5cConn.localIfType == G.S5C_SGW
      && !s1uConn.kernelGTP && !s5uConn.kernelGTP
      && G.Sound(State())
    }

    constructor ()
      ensures Valid() && State() == G.Initial(s1uConn, s5uConn)
    {
      s11Conn := new C.Conn(G.S11_SGW);
      s5cConn := new C.Conn(G.S5C_SGW);
      s1uConn := new U.UPlaneConn();
      s5uConn := new U.UPlaneConn();
      waiting := {};
    }

    method ReadTunnels(s: C.Session, children: seq<G.Child>) returns (v: G.Verdict)
      requires Valid() && s in s11Conn.made
      modifies s, s11Conn`made
      ensures Valid()
      ensures v == G.ReadChildren(old(State().s11.sessions[s]), children, false).1
      ensures State() == old(State()).(
        s11 := Put(old(State().s11), s, G.ReadChildren(old(State().s11.sessions[s]), children, false).0))
    {
      v := ReadChildren(s, children, false);
      s11Conn.Note(s);
    }

    /** Both relays of a subscriber, if all TEIDs are known. */
    method RelayBoth(s11Session: C.Session, s5Session: C.Session)
      requires Valid() && s11Session in s11Conn.made && s5Session in s5cConn.made
      modifies s1uConn`relayMap, s5uConn`relayMap
      ensures Valid()
      ensures State() == G.RelayedIfKnown(old(State()), s11Session.Data(), s5Session.Data())
    {
      var s11mmeTEID := s11Session.GetTEID(G.S11_MME);
      var s1usgwTEID := s11Session.GetTEID(G.S1U_SGW);
      var s5usgwTEID := s5Session.GetTEID(G.S5U_SGW);
      if s11mmeTEID.Some? && s1usgwTEID.Some? && s5usgwTEID.Some? {
        var up := s1uConn.RelayTo(s5uConn, s1usgwTEID.value, s5Session.tunnel.teid, s5Session.tunnel.addr);
        var down := s5uConn.RelayTo(s1uConn, s5usgwTEID.value, s11Session.tunnel.teid, s11Session.tunnel.addr);
      }
    }

    /** The first half of the Create Session Request handler, up to where it
        waits.  False when the program panics, as in all handlers below. */
    method HandleCreateSessionRequest(m: G.Request, mme: string, draws11: seq<uint32>, draws5: seq<uint32>,
                                      draws5u: seq<uint32>, sent: bool)
      returns (ok: bool, ghost e: G.Creation<C.Session>)
      requires Valid() && |draws11| == |draws5| == |draws5u| == 0xffff
      modifies this`waiting, s11Conn, s5cConn, s5uConn`taken
      ensures e == G.Creation(e.s11, e.s5, draws11, draws5, draws5u, sent) && fresh(e.s11) && fresh(e.s5)
      ensures ok == G.Create(old(State()), m, mme, e).Some?
      ensures ok ==> Valid() && State() == G.Create(old(State()), m, mme, e).value
    {
      var s11Session, usable := ReadRequest(m, mme);
      ok, e := true, G.Creation(s11Session, s11Session, draws11, draws5, draws5u, sent);
      if !usable {
        return;
      }
      ok := RemovePrevious(m.imsi.value);
      if !ok || !m.others {
        return;
      }
      ok, e := CreateBoth(m, mme, s11Session, draws11, draws5, draws5u, sent);
    }

    /** The TEIDs are reserved, both sessions registered and the request sent. */
    method CreateBoth(m: G.Request, mme: string, s11Session: C.Session, draws11: seq<uint32>, draws5: seq<uint32>,
                      draws5u: seq<uint32>,
                      sent: bool) returns (ok: bool, ghost e: G.Creation<C.Session>)
      requires Valid() && |draws11| == |draws5| == |draws5u| == 0xffff
      requires s11Session !in s11Conn.made && s11Session !in s5cConn.made
      requires G.Usable(m) && s11Session.Data() == G.NewS11Session(m, mme)
      modifies this`waiting, s11Session, s11Conn, s5cConn, s5uConn`taken
      ensures e == G.Creation(s11Session, e.s5, draws11, draws5, draws5u, sent) && (fresh(e.s5) || e.s5 == s11Session)
      ensures ok == G.CreatedFrom(old(State()), m, mme, e).Some?
      ensures ok ==> Valid() && State() == G.CreatedFrom(old(State()), m, mme, e).value
    {
      e := G.Creation(s11Session, s11Session, draws11, draws5, draws5u, sent);
      var t11 := RegisterNew(s11Session, draws11);
      if t11.None? {
        return false, e;
      }
      var t5, t5u := ReserveS5(draws5, draws5u);
      if t5u.None? || (t5.None? && sent) {
        return false, e;
      }
      var s5Session := CreateS5(s11Session, t11.value, m.imsi.value, t5, m.pgw.value, t5u.value, sent);
      ok, e := true, e.(s5 := s5Session);
    }

    method RemovePrevious(imsi: string) returns (ok: bool)
      requires Valid()
      modifies s11Conn`imsiSessionMap, s11Conn`iteiSessionMap
      ensures ok == WithoutPrevious(old(State().s11), imsi).Some?
      ensures ok ==> Valid() && State() == old(State()).(s11 := WithoutPrevious(old(State().s11), imsi).value)
    {
      var sess := s11Conn.GetSessionByIMSI(imsi);
      ok := true;
      if sess.Some? {
        ok := RemoveS11(sess.value);
      }
    }

    /** A TEID is reserved and the new session registered under it. */
    method RegisterNew(s: C.Session, draws: seq<uint32>) returns (t: Option<uint32>)
      requires Valid() && s !in s11Conn.made && s !in s5cConn.made && |draws| == 0xffff
      modifies s, s11Conn
      ensures t == Reserve(old(State().s11), draws).1
      ensures t.Some? ==> Valid()
      ensures t.Some? ==> State() == old(State()).(s11 :=
        Register(Put(Reserve(old(State().s11), draws).0, s, old(s.Data())), t.value, s))
    {
      t := s11Conn.NewSenderFTEID(draws);
      if t.Some? {
        s11Conn.Note(s);
        s11Conn.RegisterSession(t.value, s);
      }
    }

    method ReserveS5(draws5: seq<uint32>, draws5u: seq<uint32>) returns (t5: Option<uint32>, t5u: Option<uint32>)
      requires Valid() && |draws5| == |draws5u| == 0xffff
      modifies s5cConn`iteiSessionMap, s5uConn`taken
      ensures Valid()
      ensures t5 == Reserve(old(State().s5), draws5).1 && t5u == U.FirstUsable(old(State().s5u.taken), draws5u)
      ensures State() == old(State()).(s5 := Reserve(old(State().s5), draws5).0,
                                       s5u := U.Step(old(State().s5u), U.Alloc(draws5u)))
    {
      t5 := s5cConn.NewSenderFTEID(draws5);
      t5u := s5uConn.NewFTEID(draws5u);
    }

    /** `CreateSession`, and what the handler does with the session it returns. */
    method CreateS5(s11Session: C.Session, t11: uint32, imsi: string, own: Option<uint32>, pgw: G.FTEID,
                    userPlane: uint32, sent: bool)
      returns (s: C.Session)
      requires Valid() && s11Session in s11Conn.made && (sent ==> own.Some?)
      modifies this`waiting, s5cConn
      ensures Valid() && fresh(s)
      ensures State() == old(State()).(s5 := G.CreatedS5(old(State().s5), s, imsi, own, pgw, userPlane, sent),
        waiting := old(waiting) + G.NewlyWaiting(s11Session, s, t11, old(s5cConn.sequence), sent))
    {
      var sequence;
      s, sequence := CreateOnS5(imsi, own, pgw, userPlane, sent);
      if sent {
        StartWaiting(G.Waiting(s11Session, s, t11, sequence));
      }
    }

    ghost method StartWaiting(w: G.Waiting<C.Session>)
      requires Valid() && w.s11 in s11Conn.made && w.s5 in s5cConn.made
      modifies this`waiting
      ensures Valid() && State() == old(State()).(waiting := old(waiting) + {w})
    {
      waiting := waiting + {w};
    }

    method CreateOnS5(imsi: string, own: Option<uint32>, pgw: G.FTEID, userPlane: uint32, sent: bool)
      returns (s: C.Session, sequence: uint32)
      requires Valid() && (sent ==> own.Some?)
      modifies s5cConn
      ensures Valid() && fresh(s) && s in s5cConn.made && sequence == Q.Send(old(s5cConn.sequence), sent)
      ensures State() == old(State()).(s5 := G.CreatedS5(old(State().s5), s, imsi, own, pgw, userPlane, sent))
    {
      s, sequence := CreateOn(s5cConn, imsi, own, pgw, userPlane, sent);
    }

    /** The second half of the Create Session Request handler. */
    method ResumeCreateSessionRequest(w: G.Waiting<C.Session>, timeout: bool, draws: seq<uint32>, responded: bool)
      returns (ok: bool)
      requires Valid() && w in waiting && |draws| == 0xffff
      modifies this`waiting, w.s11, s11Conn`made, s11Conn`imsiSessionMap, s11Conn`iteiSessionMap, s1uConn`taken
      ensures ok == G.Resume(old(State()), w, timeout, draws, responded).Some?
      ensures ok ==> Valid() && State() == G.Resume(old(State()), w, timeout, draws, responded).value
    {
      var msg := Await(w, timeout);
      if msg.Err? || !msg.value.created {
        ok := RemoveS11(w.s11);
        return;
      }
      var t := AllocS1U(draws);
      if t.None? {
        return false;
      }
      if !responded {
        ok := RemoveS11(w.s11);
        return;
      }
      ok := FinishCreation(w, t.value);
    }

    method AllocS1U(draws: seq<uint32>) returns (t: Option<uint32>)
      requires Valid() && |draws| == 0xffff
      modifies s1uConn`taken
      ensures Valid() && t == U.FirstUsable(old(State().s1u.taken), draws)
      ensures State() == old(State()).(s1u := U.Step(old(State().s1u), U.Alloc(draws)))
    {
      t := s1uConn.NewFTEID(draws);
    }

    method Await(w: G.Waiting<C.Session>, timeout: bool) returns (msg: Result<Passed, WaitError>)
      requires Valid() && w in waiting
      modifies this`waiting, w.s11, s11Conn`made
      ensures Valid() && w.s11 in s11Conn.made && w.s5 in s5cConn.made
      ensures msg == Waited(old(State().s11.sessions[w.s11]), w.sequence, timeout).0
      ensures State() == G.Awaited(old(State()), w, timeout)
    {
      assert s11Conn.Synced(w.s11);
      msg := w.s11.WaitMessage(w.sequence, timeout);
      waiting := waiting - {w};
      s11Conn.Note(w.s11);
    }

    method FinishCreation(w: G.Waiting<C.Session>, t: uint32) returns (ok: bool)
      requires Valid() && w.s11 in s11Conn.made && w.s5 in s5cConn.made
      modifies w.s11, s11Conn`made, s11Conn`imsiSessionMap, s11Conn`iteiSessionMap
      ensures ok == G.Finish(old(State()), w, t).Some?
      ensures ok ==> Valid() && State() == G.Finish(old(State()), w, t).value
    {
      StoreTEIDs(w, t);
      ok := ActivateOrRemove(w.s11, w.s5);
    }

    method ActivateOrRemove(s11Session: C.Session, s5Session: C.Session) returns (ok: bool)
      requires Valid() && s11Session in s11Conn.made && s5Session in s5cConn.made
      modifies s11Session, s11Conn`made, s11Conn`imsiSessionMap, s11Conn`iteiSessionMap
      ensures ok == G.ActivateOrRemove(old(State()), s11Session, old(s5cConn.made[s5Session].teids)).Some?
      ensures ok ==> Valid()
      ensures ok ==> State() == G.ActivateOrRemove(old(State()), s11Session, old(s5cConn.made[s5Session].teids)).value
    {
      assert s5cConn.Synced(s5Session);
      var s5cpgwTEID := s5Session.GetTEID(G.S5C_PGW);
      if s5cpgwTEID.None? {
        ok := RemoveS11(s11Session);
        return;
      }
      var s5csgwTEID := s5Session.GetTEID(G.S5C_SGW);
      if s5csgwTEID.None? {
        ok := RemoveS11(s11Session);
        return;
      }
      ok := TryActivate(s11Session);
      if !ok {
        ok := RemoveS11(s11Session);
      }
    }

    method StoreTEIDs(w: G.Waiting<C.Session>, t: uint32)
      requires Valid() && w.s11 in s11Conn.made
      modifies w.s11, s11Conn`made
      ensures Valid()
      ensures State() == old(State()).(s11 := Put(old(State().s11), w.s11,
        WithTEID(WithTEID(old(State().s11.sessions[w.s11]), G.S11_SGW, w.teid), G.S1U_SGW, t)))
    {
      w.s11.AddTEID(G.S11_SGW, w.teid);
      w.s11.AddTEID(G.S1U_SGW, t);
      s11Conn.Note(w.s11);
    }

    method TryActivate(s: C.Session) returns (active: bool)
      requires Valid() && s in s11Conn.made
      modifies s, s11Conn`made
      ensures Valid()
      ensures active == (old(State().s11.sessions[s].imsi) != "")
      ensures State() == if !active then old(State())
        else old(State()).(s11 := Put(old(State().s11), s, old(State().s11.sessions[s]).(active := true)))
    {
      assert s11Conn.Synced(s);
      active := s.Activate();
      if active {
        s11Conn.Note(s);
      }
    }

    method HandleModifyBearerRequest(teid: uint32, mme: string, children: Option<seq<G.Child>>) returns (ok: bool)
      requires Valid()
      modifies s11Conn.made.Keys, s11Conn`made, s1uConn`relayMap, s5uConn`relayMap
      ensures ok == G.Modify(old(State()), teid, mme, children).Some?
      ensures ok ==> Valid() && State() == G.Modify(old(State()), teid, mme, children).value
    {
      var r := s11Conn.GetSessionByTEID(teid, mme);
      if !r.Done? {
        return r.Fail?;
      }
      var x := s5cConn.GetSessionByIMSI(r.value.imsi);
      assert s11Conn.Synced(r.value);
      if x.Some? {
        ModifySession(r.value, x.value, children.GetOr([]));
      }
      ok := true;
    }

    method ModifySession(s11Session: C.Session, s5Session: C.Session, children: seq<G.Child>)
      requires Valid() && s11Session in s11Conn.made && s5Session in s5cConn.made
      modifies s11Session, s11Conn`made, s1uConn`relayMap, s5uConn`relayMap
      ensures Valid()
      ensures State() == G.Modified(old(State()), s11Session, s5Session, children)
    {
      var v := ReadTunnels(s11Session, children);
      assert s11Conn.Synced(s11Session) && s5cConn.Synced(s5Session);
      if v == G.Go {
        RelayBoth(s11Session, s5Session);
      }
    }

    /** Takes what a response says into the session and, unless reading it
        stopped, removes the session or passes the response on. */
    method HandleCreateSessionResponse(teid: uint32, pgw: string, m: G.Response) returns (ok: bool)
      requires Valid()
      modifies s5cConn.made.Keys, s5cConn`made, s5cConn`imsiSessionMap, s5cConn`iteiSessionMap
      modifies s11Conn.made.Keys, s11Conn`made
      ensures ok == G.Answer(old(State()), teid, pgw, m).Some?
      ensures ok ==> Valid() && State() == G.Answer(old(State()), teid, pgw, m).value
    {
      var r := s5cConn.GetSessionByTEID(teid, pgw);
      if !r.Done? {
        return r.Fail?;
      }
      var v := ReadAnswer(r.value, m);
      ok := true;
      match v {
        case Stop =>
        case Drop => ok := RemoveS5(r.value);
        case Go =>
          assert s5cConn.Synced(r.value);
          var x := s11Conn.GetSessionByIMSI(r.value.imsi);
          if x.Some? {
            PassTo(x.value, Passed(m.sequence, true));
          }
      }
    }

    method ReadAnswer(s: C.Session, m: G.Response) returns (v: G.Verdict)
      requires Valid() && s in s5cConn.made
      modifies s, s5cConn`made
      ensures Valid()
      ensures v == G.ReadResponse(old(State().s5.sessions[s]), m).1
      ensures State() == old(State()).(s5 := Put(old(State().s5), s, G.ReadResponse(old(State().s5.sessions[s]), m).0))
    {
      v := ReadResponse(s, m);
      s5cConn.Note(s);
    }

    method PassTo(s: C.Session, msg: Passed)
      requires Valid() && s in s11Conn.made
      modifies s, s11Conn`made
      ensures Valid()
      ensures State() == old(State()).(s11 := G.Enqueued(old(State().s11), s, msg))
    {
      var done := s.PassMessageTo(msg);
      s11Conn.Note(s);
    }

    method RemoveS5(s: C.Session) returns (ok: bool)
      requires Valid() && s in s5cConn.made
      modifies s5cConn`imsiSessionMap, s5cConn`iteiSessionMap
      ensures ok == Remove(old(State().s5), s).Some?
      ensures ok ==> Valid() && State() == old(State()).(s5 := Remove(old(State().s5), s).value)
    {
      ok := s5cConn.RemoveSession(s);
    }

    method RemoveS11(s: C.Session) returns (ok: bool)
      requires Valid() && s in s11Conn.made
      modifies s11Conn`imsiSessionMap, s11Conn`iteiSessionMap
      ensures ok == Remove(old(State().s11), s).Some?
      ensures ok ==> Valid() && State() == old(State()).(s11 := Remove(old(State().s11), s).value)
    {
      ok := s11Conn.RemoveSession(s);
    }
  }

  method CreateOn(c: C.Conn, imsi: string, own: Option<uint32>, pgw: G.FTEID, userPlane: uint32, sent: bool)
    returns (s: C.Session, sequence: uint32)
    requires c.Valid() && (sent ==> own.Some?)
    modifies c
    ensures c.Valid() && fresh(s) && c.made.Keys == old(c.made.Keys) + {s}
    ensures sequence == Q.Send(old(c.sequence), sent)
    ensures c.Data() == G.CreatedS5(old(c.Data()), s, imsi, own, pgw, userPlane, sent)
  {
    s := ParseCreateSession(c, imsi, own, pgw, userPlane);
    var carried, ok;
    carried, sequence, ok := c.SendMessageTo(true, sent);
    if ok {
      AddUserPlane(c, s, own.value, userPlane);
    }
  }

  /** The session made out of the IEs of the request, in their order: IMSI, the
      S-GW's F-TEID unless that is nil, the P-GW's, the bearer context. */
  method ParseCreateSession(c: C.Conn, imsi: string, own: Option<uint32>, pgw: G.FTEID, userPlane: uint32)
    returns (s: C.Session)
    requires c.Valid()
    modifies c
    ensures c.Valid() && fresh(s) && s in c.made
    ensures c.made.Keys == old(c.made.Keys) + {s}
    ensures c.Data() == G.ParseCreateSession(old(c.Data()), s, imsi, own, pgw, userPlane)
  {
    s := NewFor(c, imsi, pgw.ip);
    if own.Some? {
      AddClaim(c, s, c.localIfType, own.value);
    }
    AddClaim(c, s, pgw.ifType, pgw.teid);
    Store(c, s, G.S5U_SGW, userPlane);
  }

  method NewFor(c: C.Conn, imsi: string, ip: string) returns (s: C.Session)
    requires c.Valid()
    modifies c`made
    ensures c.Valid() && fresh(s) && s in c.made
    ensures c.made.Keys == old(c.made.Keys) + {s}
    ensures c.Data() == Put(old(c.Data()), s, NewSession(G.ControlAddr(ip), imsi))
  {
    s := new C.Session(G.ControlAddr(ip), "");
    s.imsi := imsi;
    c.Note(s);
  }

  method Store(c: C.Conn, s: C.Session, ifType: byte, teid: uint32)
    requires c.Valid() && s in c.made
    modifies c`made, s
    ensures c.Valid() && c.made.Keys == old(c.made.Keys)
    ensures c.Data() == Put(old(c.Data()), s, WithTEID(old(c.made[s]), ifType, teid))
  {
    assert c.Synced(s);
    s.AddTEID(ifType, teid);
    c.Note(s);
  }

  method AddClaim(c: C.Conn, s: C.Session, ifType: byte, teid: uint32)
    requires c.Valid() && s in c.made
    modifies c`imsiSessionMap, c`iteiSessionMap, c`made, s
    ensures c.Valid() && c.made.Keys == old(c.made.Keys)
    ensures c.Data() == G.WithClaim(old(c.Data()), s, ifType, teid)
  {
    Store(c, s, ifType, teid);
    if ifType == c.localIfType {
      c.RegisterSession(teid, s);
    }
  }

  method AddUserPlane(c: C.Conn, s: C.Session, own: uint32, userPlane: uint32)
    requires c.Valid() && s in c.made
    modifies c`imsiSessionMap, c`iteiSessionMap, c`made, s
    ensures c.Valid() && c.made.Keys == old(c.made.Keys)
    ensures c.Data() == Register(Put(old(c.Data()), s, WithTEID(old(c.made[s]), G.S5U_SGW, userPlane)), own, s)
  {
    Store(c, s, G.S5U_SGW, userPlane);
    c.RegisterSession(own, s);
  }

  /** The checks of the response handler, in their order. */
  method ReadResponse(session: C.Session, m: G.Response) returns (v: G.Verdict)
    modifies session
    ensures (session.Data(), v) == G.ReadResponse(old(session.Data()), m)
  {
    if m.accepted != G.Given(true) {
      return if m.accepted.Malformed? then G.Stop else G.Drop;
    }
    if !m.paa.Given? {
      return if m.paa.Malformed? then G.Stop else G.Drop;
    }
    if !m.pgw.Given? {
      return if m.pgw.Malformed? then G.Stop else G.Drop;
    }
    session.AddTEID(m.pgw.value.0, m.pgw.value.1);
    if m.bearer.None? {
      return G.Drop;
    }
    v := ReadChildren(session, m.bearer.value, true);
    if v == G.Go {
      var active := session.Activate();
      if !active {
        v := G.Drop;
      }
    }
  }

  /** The session made from a request, if the first checks let it through. */
  method ReadRequest(m: G.Request, mme: string) returns (s: C.Session, usable: bool)
    ensures fresh(s) && usable == G.Usable(m)
    ensures usable ==> s.Data() == G.NewS11Session(m, mme)
  {
    s := new C.Session(mme, "");
    usable := false;
    if !m.pgw.Given? {
      return;
    }
    s.AddTEID(G.S5C_PGW, m.pgw.value.teid);
    if !m.sender.Given? {
      return;
    }
    s.AddTEID(G.S11_MME, m.sender.value);
    if !m.resolvable || !m.imsi.Given? {
      return;
    }
    s.imsi := m.imsi.value;
    usable := true;
  }

  /** The loop over the children of a bearer context. */
  method ReadChildren(session: C.Session, children: seq<G.Child>, full: bool) returns (v: G.Verdict)
    modifies session
    ensures (session.Data(), v) == G.ReadChildren(old(session.Data()), children, full)
  {
    for k := 0 to |children|
      invariant
        G.ReadChildren(session.Data(), children[k..], full) == G.ReadChildren(old(session.Data()), children, full)
    {
      assert children[k..][0] == children[k] && children[k..][1..] == children[k + 1..];
      v := G.Judge(children[k], full);
      if v != G.Go {
        return;
      }
      if children[k].UserPlane? {
        HandleFTEIDU(children[k].fteid.value, session);
      }
    }
    v := G.Go;
  }

  method HandleFTEIDU(f: G.FTEID, session: C.Session)
    modifies session
    ensures session.Data() == G.WithFTEID(old(session.Data()), f)
  {
    session.tunnel := session.tunnel.(addr := Some(f.ip + ":2152"));
    session.tunnel := session.tunnel.(teid := f.teid);
    session.AddTEID(f.ifType, f.teid);
  }
}
