/** Runs of the gateway, message by message, that show where its promises end. */
module GatewayExamples {
  import opened Octets
  import U = UPlane
  import Q = Sequence
  import opened Registry
  import opened Gateway
  import opened GatewaySafety
  import opened GatewayRelays

  const S1U_ENB: byte := 0
  const S5U_PGW: byte := 5

  /** A subscriber, the peers' addresses and TEIDs for it, and what the gateway
      draws for it. */
  datatype Attachment<S> = Attachment(imsi: string, mme: string, mmeTEID: uint32, pgw: FTEID, userPlane: FTEID, s11: S,
                                      s5: S, t11: uint32, t5: uint32, t1u: uint32, t5u: uint32)

  /* ---- the three messages of an attachment ---- */

  function CreateEvent<S>(a: Attachment<S>): Event<S> {
    DoCreate(Request(Given(a.pgw), Given(a.mmeTEID), true, Given(a.imsi), true), a.mme,
             Creation(a.s11, a.s5, [a.t11], [a.t5], [a.t5u], true))
  }

  /** An answer of the P-GW with one F-TEID in its bearer context. */
  function AnswerEvent<S>(a: Attachment<S>, sequence: uint32, userPlane: FTEID): Event<S> {
    DoAnswer(a.t5, ControlAddr(a.pgw.ip),
             Response(sequence, Given(true), Given(()), Given((a.pgw.ifType, a.pgw.teid)),
                      Some([UserPlane(Some(userPlane))])))
  }

  function ResumeEvent<S>(a: Attachment<S>, sequence: uint32): Event<S> {
    DoResume(Waiting(a.s11, a.s5, a.t11, sequence), false, [a.t1u], true)
  }

  function Messages<S>(a: Attachment<S>, sequence: uint32): seq<Event<S>> {
    [CreateEvent(a), AnswerEvent(a, sequence, a.userPlane), ResumeEvent(a, sequence)]
  }

  /* ---- what they leave ---- */

  function S11Data<S>(a: Attachment<S>): SessionData {
    SessionData(a.imsi, a.mme, map[S5C_PGW := a.pgw.teid, S11_MME := a.mmeTEID, S11_SGW := a.t11], NO_TUNNEL, [], false)
  }

  function S5Data<S>(a: Attachment<S>): SessionData {
    SessionData(a.imsi, ControlAddr(a.pgw.ip),
                map[S5C_SGW := a.t5, a.pgw.ifType := a.pgw.teid, S5U_SGW := a.t5u], NO_TUNNEL, [], false)
  }

  function Indexing<S>(c: ConnData<S>, imsi: string, teid: uint32, s: S, d: SessionData): ConnData<S> {
    c.(byIMSI := c.byIMSI[imsi := s], byTEID := c.byTEID[teid := Some(s)], sessions := c.sessions[s := d])
  }

  function AfterCreate<S, C>(w: World<S, C>, a: Attachment<S>): World<S, C> {
    var st, h := w.st, w.h;
    World(st.(s11 := Indexing(st.s11, a.imsi, a.t11, a.s11, S11Data(a)),
              s5 := Indexing(st.s5, a.imsi, a.t5, a.s5, S5Data(a)).(sequence := Q.Inc(st.s5.sequence)),
              s5u := st.s5u.(taken := st.s5u.taken + {a.t5u}),
              waiting := st.waiting + {Waiting(a.s11, a.s5, a.t11, Q.Inc(st.s5.sequence))}),
          h.(s11 := h.s11[a.t11 := Owner(a.imsi, a.mme)], s5 := h.s5[a.t5 := Owner(a.imsi, ControlAddr(a.pgw.ip))],
             s5u := h.s5u[a.t5u := a.imsi]))
  }

  /** Nothing of the attachment is in use yet. */
  ghost predicate Fresh<S, C>(st: State<S, C>, a: Attachment<S>) {
    && a.imsi !in st.s11.byIMSI && a.imsi != ""
    && a.s11 !in st.s11.sessions && a.s5 !in st.s5.sessions
    && U.Usable(st.s11.byTEID.Keys, a.t11) && U.Usable(st.s5.byTEID.Keys, a.t5)
    && U.Usable(st.s1u.taken, a.t1u) && U.Usable(st.s5u.taken, a.t5u)
    && a.pgw.ifType == S5C_PGW && a.userPlane.ifType == S5U_PGW
  }

  lemma RegisterPut<S>(c: ConnData<S>, t: uint32, s: S, d: SessionData)
    ensures Register(Put(c, s, d), t, s) == Indexing(c, d.imsi, t, s, WithTEID(d, c.ifType, t))
  {
    var e := WithTEID(d, c.ifType, t);
    assert c.sessions[s := d][s := e] == c.sessions[s := e];
  }

  lemma IndexingTwice<S>(c: ConnData<S>, imsi: string, t: uint32, s: S, d: SessionData, e: SessionData)
    ensures Indexing(Indexing(c, imsi, t, s, d), imsi, t, s, e) == Indexing(c, imsi, t, s, e)
    ensures Put(Indexing(c, imsi, t, s, d), s, e) == Indexing(c, imsi, t, s, e)
  {
    assert c.byIMSI[imsi := s][imsi := s] == c.byIMSI[imsi := s];
    assert c.byTEID[t := Some(s)][t := Some(s)] == c.byTEID[t := Some(s)];
    assert c.sessions[s := d][s := e] == c.sessions[s := e];
  }

  lemma CreatedS5Data<S>(c: ConnData<S>, a: Attachment<S>)
    requires c.ifType == S5C_SGW && a.pgw.ifType == S5C_PGW
    ensures CreatedS5(c, a.s5, a.imsi, Some(a.t5), a.pgw, a.t5u, true)
         == Indexing(c, a.imsi, a.t5, a.s5, S5Data(a)).(sequence := Q.Inc(c.sequence))
  {
    var d := NewSession(ControlAddr(a.pgw.ip), a.imsi);
    var d1 := WithTEID(d, S5C_SGW, a.t5);
    var d2 := WithTEID(d1, S5C_PGW, a.pgw.teid);
    var d3 := WithTEID(d2, S5U_SGW, a.t5u);
    ParsedData(c, a, d1, d2, d3);
    var p := ParseCreateSession(c, a.s5, a.imsi, Some(a.t5), a.pgw, a.t5u);
    var q := p.(sequence := Q.Inc(c.sequence));
    RegisterPut(q, a.t5, a.s5, WithTEID(d3, S5U_SGW, a.t5u));
    assert WithTEID(WithTEID(d3, S5U_SGW, a.t5u), S5C_SGW, a.t5).teids == d3.teids == S5Data(a).teids;
    IndexingTwice(c, a.imsi, a.t5, a.s5, d3, d3);
  }

  lemma ParsedData<S>(c: ConnData<S>, a: Attachment<S>, d1: SessionData, d2: SessionData, d3: SessionData)
    requires c.ifType == S5C_SGW && a.pgw.ifType == S5C_PGW
    requires d1 == WithTEID(NewSession(ControlAddr(a.pgw.ip), a.imsi), S5C_SGW, a.t5)
    requires d2 == WithTEID(d1, S5C_PGW, a.pgw.teid) && d3 == WithTEID(d2, S5U_SGW, a.t5u)
    ensures ParseCreateSession(c, a.s5, a.imsi, Some(a.t5), a.pgw, a.t5u) == Indexing(c, a.imsi, a.t5, a.s5, d3)
  {
    OwnClaim(c, a.s5, NewSession(ControlAddr(a.pgw.ip), a.imsi), a.t5);
    IndexingTwice(c, a.imsi, a.t5, a.s5, d1, d2);
    IndexingTwice(c, a.imsi, a.t5, a.s5, d2, d3);
  }

  lemma OwnClaim<S>(c: ConnData<S>, s: S, d: SessionData, t: uint32)
    ensures WithOwn(Put(c, s, d), s, Some(t)) == Indexing(c, d.imsi, t, s, WithTEID(d, c.ifType, t))
  {
    var e := WithTEID(d, c.ifType, t);
    assert c.sessions[s := d][s := e] == c.sessions[s := e];
    RegisterPut(c, t, s, e);
    assert e.teids[c.ifType := t] == e.teids;
  }

  lemma CreatedS11Data<S>(c: ConnData<S>, a: Attachment<S>)
    requires c.ifType == S11_SGW
    ensures Register(Put(c, a.s11, NewS11Session(CreateEvent(a).m, a.mme)), a.t11, a.s11)
         == Indexing(c, a.imsi, a.t11, a.s11, S11Data(a))
  {
    var d := NewS11Session(CreateEvent(a).m, a.mme);
    RegisterPut(c, a.t11, a.s11, d);
    assert WithTEID(d, S11_SGW, a.t11).teids == S11Data(a).teids;
  }

  /** Reserving a TEID and then using it is using it. */
  lemma ReserveThenIndex<S>(c: ConnData<S>, imsi: string, t: uint32, s: S, d: SessionData)
    requires U.Usable(c.byTEID.Keys, t)
    ensures Reserve(c, [t]).1 == Some(t) && Reserve(c, [t]).0.ifType == c.ifType
    ensures Reserve(c, [t]).0.sequence == c.sequence
    ensures Indexing(Reserve(c, [t]).0, imsi, t, s, d) == Indexing(c, imsi, t, s, d)
  {
    assert c.byTEID[t := None][t := Some(s)] == c.byTEID[t := Some(s)];
  }

  lemma CreateState<S, C>(st: State<S, C>, h: History, a: Attachment<S>)
    requires Sound(st) && st.s11.ifType == S11_SGW && st.s5.ifType == S5C_SGW && Fresh(st, a)
    ensures var event := CreateEvent(a);
      && Create(st, event.m, event.mme, event.e) == Some(AfterCreate(World(st, h), a).st)
      && GivenOut(st, event.m, event.e) == Some((a.t11, Some(a.t5), a.t5u))
  {
    var e := CreateEvent(a).e;
    ReserveThenIndex(st.s11, a.imsi, a.t11, a.s11, S11Data(a));
    ReserveThenIndex(st.s5, a.imsi, a.t5, a.s5, S5Data(a));
    CreatedS11Data(Reserve(st.s11, e.draws11).0, a);
    CreatedS5Data(Reserve(st.s5, e.draws5).0, a);
    assert st.(s11 := st.s11) == st;
  }

  lemma CreateStep<S, C>(w: World<S, C>, a: Attachment<S>)
    requires Inv(w.st, w.h) && Fresh(w.st, a)
    ensures Proper(w, CreateEvent(a)) && Next(w, CreateEvent(a)) == AfterCreate(w, a)
  {
    CreateState(w.st, w.h, a);
  }

  /* ---- the answer ---- */

  function AnsweredData<S>(d: SessionData, a: Attachment<S>, f: FTEID): SessionData {
    WithFTEID(WithTEID(d, a.pgw.ifType, a.pgw.teid), f).(active := true)
  }

  function AfterAnswer<S, C>(w: World<S, C>, a: Attachment<S>, sequence: uint32, f: FTEID): World<S, C>
    requires a.s5 in w.st.s5.sessions && a.s11 in w.st.s11.sessions
  {
    World(w.st.(s5 := Put(w.st.s5, a.s5, AnsweredData(w.st.s5.sessions[a.s5], a, f)),
                s11 := Enqueued(w.st.s11, a.s11, Passed(sequence, true))),
          w.h.(pgw := w.h.pgw + {(a.imsi, TunnelOf(f))}))
  }

  /** Both sessions are found, by IMSI and by TEID. */
  ghost predicate Attached<S, C>(st: State<S, C>, a: Attachment<S>)
    requires Sound(st)
  {
    && GetByTEID(st.s5, a.t5, ControlAddr(a.pgw.ip)) == Done(a.s5) && GetByIMSI(st.s5, a.imsi) == Some(a.s5)
    && GetByTEID(st.s11, a.t11, a.mme) == Done(a.s11) && GetByIMSI(st.s11, a.imsi) == Some(a.s11)
    && st.s5.sessions[a.s5].imsi == st.s11.sessions[a.s11].imsi == a.imsi != ""
    && a.pgw.ifType == S5C_PGW
  }

  lemma AnswerStep<S, C>(w: World<S, C>, a: Attachment<S>, sequence: uint32, f: FTEID)
    requires Inv(w.st, w.h) && Attached(w.st, a) && f.ifType == S5U_PGW
    ensures var event := AnswerEvent(a, sequence, f);
      Proper(w, event) && Next(w, event) == AfterAnswer(w, a, sequence, f)
  {
    var d, m := w.st.s5.sessions[a.s5], AnswerEvent(a, sequence, f).response;
    OneFTEID(WithTEID(d, S5C_PGW, a.pgw.teid), f);
    OneAnswer(d, a, sequence, f);
    assert OwnedBy(d, w.h.s5, a.t5);
    OneAnnounced(w.h.s5, a.t5, ControlAddr(a.pgw.ip), f);
  }

  lemma OneAnswer<S>(d: SessionData, a: Attachment<S>, sequence: uint32, f: FTEID)
    requires a.pgw.ifType == S5C_PGW && f.ifType == S5U_PGW && d.imsi != ""
    ensures var m := AnswerEvent(a, sequence, f).response;
      ReadResponse(d, m) == (AnsweredData(d, a, f), Go) && ResponseClaim(m) == None
  {
    OneFTEID(WithTEID(d, S5C_PGW, a.pgw.teid), f);
  }

  lemma OneFTEID(d: SessionData, f: FTEID)
    ensures forall full :: ReadChildren(d, [UserPlane(Some(f))], full) == (WithFTEID(d, f), Go)
    ensures forall full, ifType ::
      LastClaim([UserPlane(Some(f))], ifType, full) == (if f.ifType == ifType then Some(f.teid) else None)
  {
  }

  lemma OneAnnounced(owners: map<uint32, Owner>, t: uint32, from: string, f: FTEID)
    requires t in owners && owners[t].peer == from
    ensures Announced(owners, t, from, Tunnels([UserPlane(Some(f))])) == {(owners[t].imsi, TunnelOf(f))}
  {
    assert UserPlane(Some(f)) in [UserPlane(Some(f))];
    assert Tunnels([UserPlane(Some(f))]) == {TunnelOf(f)};
  }

  /* ---- the rest of the creation ---- */

  function CompletedData<S>(d: SessionData, a: Attachment<S>): SessionData {
    WithTEID(WithTEID(d, S11_SGW, a.t11), S1U_SGW, a.t1u).(queue := [], active := true)
  }

  function AfterResume<S, C>(w: World<S, C>, a: Attachment<S>, sequence: uint32): World<S, C>
    requires a.s11 in w.st.s11.sessions
  {
    World(w.st.(s11 := Put(w.st.s11, a.s11, CompletedData(w.st.s11.sessions[a.s11], a)),
                s1u := w.st.s1u.(taken := w.st.s1u.taken + {a.t1u}),
                waiting := w.st.waiting - {Waiting(a.s11, a.s5, a.t11, sequence)}),
          w.h.(s1u := w.h.s1u[a.t1u := a.imsi]))
  }

  lemma ResumeStep<S, C>(w: World<S, C>, a: Attachment<S>, sequence: uint32)
    requires Inv(w.st, w.h) && Attached(w.st, a) && U.Usable(w.st.s1u.taken, a.t1u)
    requires Waiting(a.s11, a.s5, a.t11, sequence) in w.st.waiting
    requires w.st.s11.sessions[a.s11].queue == [Passed(sequence, true)]
    requires S5C_PGW in w.st.s5.sessions[a.s5].teids && S5C_SGW in w.st.s5.sessions[a.s5].teids
    ensures Proper(w, ResumeEvent(a, sequence)) && Next(w, ResumeEvent(a, sequence)) == AfterResume(w, a, sequence)
  {
    var d, st := w.st.s11.sessions[a.s11], w.st;
    assert d.queue[1..] == [];
    PutTwice(st.s11, a.s11, d.(queue := []), CompletedData(d, a).(active := d.active));
    PutTwice(st.s11, a.s11, CompletedData(d, a).(active := d.active), CompletedData(d, a));
  }

  lemma PutTwice<S>(c: ConnData<S>, s: S, d: SessionData, e: SessionData)
    ensures Put(Put(c, s, d), s, e) == Put(c, s, e)
  {
    assert c.sessions[s := d][s := e] == c.sessions[s := e];
  }

  /* ---- an attachment in a run ---- */

  ghost predicate Reaches<S, C>(s1uConn: C, s5uConn: C, events: seq<Event<S>>, w: World<S, C>) {
    Legal(s1uConn, s5uConn, events) && Run<S, C>(s1uConn, s5uConn, events) == w
  }

  lemma Extend<S, C>(s1uConn: C, s5uConn: C, events: seq<Event<S>>, w: World<S, C>, event: Event<S>, n: World<S, C>)
    requires Reaches(s1uConn, s5uConn, events, w) && Inv(w.st, w.h) && Proper(w, event) && Next(w, event) == n
    ensures Reaches(s1uConn, s5uConn, events + [event], n) && Inv(n.st, n.h)
  {
    assert (events + [event])[..|events|] == events;
  }

  function Sequence<S, C>(w: World<S, C>): uint32 {
    Q.Inc(w.st.s5.sequence)
  }

  function AfterMessages<S, C>(w: World<S, C>, a: Attachment<S>): World<S, C> {
    AfterResume(AfterAnswer(AfterCreate(w, a), a, Sequence(w), a.userPlane), a, Sequence(w))
  }

  lemma CreatedAttached<S, C>(w: World<S, C>, a: Attachment<S>)
    requires Inv(w.st, w.h) && Fresh(w.st, a) && Sound(AfterCreate(w, a).st)
    ensures var n := AfterCreate(w, a).st;
      && Attached(n, a) && n.s11.sessions[a.s11] == S11Data(a) && n.s5.sessions[a.s5] == S5Data(a)
      && Waiting(a.s11, a.s5, a.t11, Sequence(w)) in n.waiting
  {
  }

  lemma AnsweredAttached<S, C>(w: World<S, C>, a: Attachment<S>, sequence: uint32)
    requires Sound(w.st) && Attached(w.st, a)
    requires w.st.s11.sessions[a.s11] == S11Data(a) && w.st.s5.sessions[a.s5] == S5Data(a)
    requires Sound(AfterAnswer(w, a, sequence, a.userPlane).st)
    ensures var n := AfterAnswer(w, a, sequence, a.userPlane).st;
      && Attached(n, a) && n.s11.sessions[a.s11] == S11Data(a).(queue := [Passed(sequence, true)])
      && n.s5.sessions[a.s5] == AnsweredData(S5Data(a), a, a.userPlane)
      && n.waiting == w.st.waiting && n.s1u == w.st.s1u
  {
  }

  lemma CreateReached<S, C>(s1uConn: C, s5uConn: C, events: seq<Event<S>>, w: World<S, C>, a: Attachment<S>)
    requires Reaches(s1uConn, s5uConn, events, w) && Inv(w.st, w.h) && Fresh(w.st, a)
    ensures var n := AfterCreate(w, a);
      && Reaches(s1uConn, s5uConn, events + [CreateEvent(a)], n)
      && Inv(n.st, n.h) && Attached(n.st, a)
      && n.st.s11.sessions[a.s11] == S11Data(a) && n.st.s5.sessions[a.s5] == S5Data(a)
      && Waiting(a.s11, a.s5, a.t11, Sequence(w)) in n.st.waiting && U.Usable(n.st.s1u.taken, a.t1u)
  {
    CreateStep(w, a);
    Extend(s1uConn, s5uConn, events, w, CreateEvent(a), AfterCreate(w, a));
    CreatedAttached(w, a);
  }

  lemma AnswerReached<S, C>(s1uConn: C, s5uConn: C, events: seq<Event<S>>, w: World<S, C>, a: Attachment<S>,
                            sequence: uint32, f: FTEID)
    requires Reaches(s1uConn, s5uConn, events, w) && Inv(w.st, w.h) && Attached(w.st, a) && f.ifType == S5U_PGW
    ensures var n := AfterAnswer(w, a, sequence, f);
      Reaches(s1uConn, s5uConn, events + [AnswerEvent(a, sequence, f)], n) && Inv(n.st, n.h)
  {
    AnswerStep(w, a, sequence, f);
    Extend(s1uConn, s5uConn, events, w, AnswerEvent(a, sequence, f), AfterAnswer(w, a, sequence, f));
  }

  lemma ResumeReached<S, C>(s1uConn: C, s5uConn: C, events: seq<Event<S>>, w: World<S, C>, a: Attachment<S>,
                            sequence: uint32)
    requires Reaches(s1uConn, s5uConn, events, w) && Inv(w.st, w.h) && Attached(w.st, a)
    requires w.st.s11.sessions[a.s11].queue == [Passed(sequence, true)]
    requires S5C_PGW in w.st.s5.sessions[a.s5].teids && S5C_SGW in w.st.s5.sessions[a.s5].teids
    requires Waiting(a.s11, a.s5, a.t11, sequence) in w.st.waiting && U.Usable(w.st.s1u.taken, a.t1u)
    ensures var n := AfterResume(w, a, sequence);
      Reaches(s1uConn, s5uConn, events + [ResumeEvent(a, sequence)], n) && Inv(n.st, n.h)
  {
    ResumeStep(w, a, sequence);
    Extend(s1uConn, s5uConn, events, w, ResumeEvent(a, sequence), AfterResume(w, a, sequence));
  }

  /** Attached, and the bearers and the history say so. */
  ghost predicate Ready<S, C>(w: World<S, C>, a: Attachment<S>)
    requires Sound(w.st)
  {
    && Attached(w.st, a)
    && TEIDOf(w.st.s11.sessions[a.s11], S11_MME) == Some(a.mmeTEID)
    && TEIDOf(w.st.s11.sessions[a.s11], S1U_SGW) == Some(a.t1u)
    && TEIDOf(w.st.s5.sessions[a.s5], S5U_SGW) == Some(a.t5u)
    && w.st.s5.sessions[a.s5].tunnel == TunnelOf(a.userPlane)
    && IssuedTo(a.imsi, a.t1u, w.h.s1u)
  }

  lemma ResumedReady<S, C>(w: World<S, C>, a: Attachment<S>, sequence: uint32)
    requires Sound(w.st) && Attached(w.st, a)
    requires w.st.s11.sessions[a.s11] == S11Data(a).(queue := [Passed(sequence, true)])
    requires w.st.s5.sessions[a.s5] == AnsweredData(S5Data(a), a, a.userPlane) && a.userPlane.ifType == S5U_PGW
    requires Sound(AfterResume(w, a, sequence).st)
    ensures Ready(AfterResume(w, a, sequence), a)
  {
  }

  lemma OneByOne<T>(s: seq<T>, x: T, y: T, z: T)
    ensures s + [x] + [y] + [z] == s + [x, y, z]
  {
  }

  /** The three messages of an attachment are proper, wherever nothing of it is
      in use yet. */
  lemma AttachReached<S, C>(s1uConn: C, s5uConn: C, events: seq<Event<S>>, w: World<S, C>, a: Attachment<S>)
    requires Reaches(s1uConn, s5uConn, events, w) && Inv(w.st, w.h) && Fresh(w.st, a)
    ensures var n := AfterMessages(w, a);
      Reaches(s1uConn, s5uConn, events + Messages(a, Sequence(w)), n) && Inv(n.st, n.h) && Ready(n, a)
  {
    var n := Sequence(w);
    OneByOne(events, CreateEvent(a), AnswerEvent(a, n, a.userPlane), ResumeEvent(a, n));
    CreateReached(s1uConn, s5uConn, events, w, a);
    var w1, es1 := AfterCreate(w, a), events + [CreateEvent(a)];
    AnswerReached(s1uConn, s5uConn, es1, w1, a, n, a.userPlane);
    AnsweredAttached(w1, a, n);
    ResumeReached(s1uConn, s5uConn, es1 + [AnswerEvent(a, n, a.userPlane)], AfterAnswer(w1, a, n, a.userPlane), a, n);
    ResumedReady(AfterAnswer(w1, a, n, a.userPlane), a, n);
  }

  /** The attachments have nothing in common. */
  predicate Apart<S(==)>(a: Attachment<S>, b: Attachment<S>) {
    && a.imsi != b.imsi && a.s11 != b.s11 && a.s5 != b.s5
    && a.t11 != b.t11 && a.t5 != b.t5 && a.t1u != b.t1u && a.t5u != b.t5u
  }

  lemma MessagesLeave<S, C>(w: World<S, C>, a: Attachment<S>, b: Attachment<S>)
    requires Fresh(w.st, a) && Apart(a, b)
    ensures var n := AfterMessages(w, a);
      && (Fresh(w.st, b) ==> Fresh(n.st, b))
      && n.h.s1u == w.h.s1u[a.t1u := a.imsi] && n.h.pgw == w.h.pgw + {(a.imsi, TunnelOf(a.userPlane))}
      && n.st.s5.sequence == Sequence(w)
  {
  }

  /* ---- a Modify Bearer Request ---- */

  function ModifyEvent<S>(a: Attachment<S>, children: seq<Child>): Event<S> {
    DoModify(a.t11, a.mme, Some(children))
  }

  function AfterModify<S, C>(w: World<S, C>, a: Attachment<S>, f: FTEID): World<S, C>
    requires a.s5 in w.st.s5.sessions && a.s11 in w.st.s11.sessions
  {
    var tunnel := w.st.s5.sessions[a.s5].tunnel;
    World(w.st.(s11 := Put(w.st.s11, a.s11, WithFTEID(w.st.s11.sessions[a.s11], f)),
                s1u := U.Step(w.st.s1u, U.Relay(a.t1u, PeerOf(tunnel, w.st.s5uConn))),
                s5u := U.Step(w.st.s5u, U.Relay(a.t5u, PeerOf(TunnelOf(f), w.st.s1uConn)))),
          w.h.(eNB := w.h.eNB + {(a.imsi, TunnelOf(f))}))
  }

  lemma ModifyStep<S, C>(w: World<S, C>, a: Attachment<S>, f: FTEID)
    requires Inv(w.st, w.h) && Ready(w, a) && f.ifType == S1U_ENB
    ensures var event := ModifyEvent(a, [UserPlane(Some(f))]);
      Proper(w, event) && Next(w, event) == AfterModify(w, a, f)
  {
    OneFTEID(w.st.s11.sessions[a.s11], f);
    OneAnnounced(w.h.s11, a.t11, a.mme, f);
    assert OwnedBy(w.st.s11.sessions[a.s11], w.h.s11, a.t11);
  }

  lemma ModifiedReady<S, C>(w: World<S, C>, a: Attachment<S>, f: FTEID)
    requires Inv(w.st, w.h) && Ready(w, a) && f.ifType == S1U_ENB && Sound(AfterModify(w, a, f).st)
    ensures Ready(AfterModify(w, a, f), a)
  {
  }

  lemma ModifyReached<S, C>(s1uConn: C, s5uConn: C, events: seq<Event<S>>, w: World<S, C>, a: Attachment<S>, f: FTEID)
    requires Reaches(s1uConn, s5uConn, events, w) && Inv(w.st, w.h) && Ready(w, a) && f.ifType == S1U_ENB
    ensures var n := AfterModify(w, a, f);
      && Reaches(s1uConn, s5uConn, events + [ModifyEvent(a, [UserPlane(Some(f))])], n)
      && Inv(n.st, n.h) && Ready(n, a)
  {
    ModifyStep(w, a, f);
    Extend(s1uConn, s5uConn, events, w, ModifyEvent(a, [UserPlane(Some(f))]), AfterModify(w, a, f));
    ModifiedReady(w, a, f);
  }

  /* ---- two subscribers ---- */

  /** Nothing of it is in use when the gateway starts. */
  predicate Sensible<S>(a: Attachment<S>) {
    a.imsi != "" && a.t11 != 0 && a.t5 != 0 && a.t1u != 0 && a.t5u != 0 &&
    a.pgw.ifType == S5C_PGW && a.userPlane.ifType == S5U_PGW
  }

  /** Two Create Session Requests, answered and completed one after the other. */
  function BothMessages<S>(a: Attachment<S>, b: Attachment<S>): seq<Event<S>> {
    Messages(a, 1) + Messages(b, 2)
  }

  lemma FromStart<S, C>(s1uConn: C, s5uConn: C, a: Attachment<S>, w: World<S, C>)
    requires Sensible(a) && w == Start(s1uConn, s5uConn)
    ensures Reaches(s1uConn, s5uConn, [], w) && Inv(w.st, w.h) && Fresh(w.st, a) && Sequence(w) == 1
    ensures w.h.s1u == map[] && w.h.pgw == {}
  {
  }

  lemma NothingBefore<T>(s: seq<T>)
    ensures [] + s == s
  {
  }

  lemma AloneReached<S, C>(s1uConn: C, s5uConn: C, a: Attachment<S>) returns (w: World<S, C>)
    requires Sensible(a)
    ensures Reaches(s1uConn, s5uConn, Messages(a, 1), w) && Inv(w.st, w.h) && Ready(w, a)
  {
    var start: World<S, C> := Start(s1uConn, s5uConn);
    FromStart(s1uConn, s5uConn, a, start);
    w := AfterMessages(start, a);
    AttachReached(s1uConn, s5uConn, [], start, a);
    NothingBefore(Messages(a, 1));
  }

  lemma FirstReached<S, C>(s1uConn: C, s5uConn: C, a: Attachment<S>, b: Attachment<S>) returns (w: World<S, C>)
    requires Sensible(a) && Sensible(b) && Apart(a, b)
    ensures Reaches(s1uConn, s5uConn, Messages(a, 1), w) && Inv(w.st, w.h) && Ready(w, a)
    ensures Fresh(w.st, b) && Sequence(w) == 2
    ensures w.h.s1u == map[a.t1u := a.imsi] && w.h.pgw == {(a.imsi, TunnelOf(a.userPlane))}
  {
    var start: World<S, C> := Start(s1uConn, s5uConn);
    FromStart(s1uConn, s5uConn, a, start);
    FromStart(s1uConn, s5uConn, b, start);
    w := FirstOf(s1uConn, s5uConn, [], start, a, b);
    NothingBefore(Messages(a, 1));
  }

  lemma FirstOf<S, C>(s1uConn: C, s5uConn: C, events: seq<Event<S>>, w: World<S, C>, a: Attachment<S>,
                      b: Attachment<S>)
    returns (n: World<S, C>)
    requires Reaches(s1uConn, s5uConn, events, w) && Inv(w.st, w.h) && Fresh(w.st, a) && Apart(a, b)
    ensures Reaches(s1uConn, s5uConn, events + Messages(a, Sequence(w)), n) && Inv(n.st, n.h) && Ready(n, a)
    ensures Fresh(w.st, b) ==> Fresh(n.st, b)
    ensures n.st.s5.sequence == Sequence(w)
    ensures n.h.s1u == w.h.s1u[a.t1u := a.imsi] && n.h.pgw == w.h.pgw + {(a.imsi, TunnelOf(a.userPlane))}
  {
    n := AfterMessages(w, a);
    AttachReached(s1uConn, s5uConn, events, w, a);
    MessagesLeave(w, a, b);
  }

  lemma BothReached<S, C>(s1uConn: C, s5uConn: C, a: Attachment<S>, b: Attachment<S>) returns (w: World<S, C>)
    requires Sensible(a) && Sensible(b) && Apart(a, b)
    ensures Reaches(s1uConn, s5uConn, BothMessages(a, b), w) && Inv(w.st, w.h) && Ready(w, b)
    ensures w.h.s1u == map[a.t1u := a.imsi, b.t1u := b.imsi]
    ensures w.h.pgw == {(a.imsi, TunnelOf(a.userPlane)), (b.imsi, TunnelOf(b.userPlane))}
  {
    var v := FirstReached<S, C>(s1uConn, s5uConn, a, b);
    w := FirstOf(s1uConn, s5uConn, Messages(a, 1), v, b, a);
  }

  /** After the attachment of any two subscribers, a request for the second one
      with the S1-U TEID of the first sends the first one's uplink packets into
      the tunnel of the second. */
  lemma ForeignClaimRun<S, C>(s1uConn: C, s5uConn: C, a: Attachment<S>, b: Attachment<S>, eNB: string)
    returns (w: World<S, C>)
    requires Sensible(a) && Sensible(b) && Apart(a, b) && TunnelOf(a.userPlane) != TunnelOf(b.userPlane)
    ensures Reaches(s1uConn, s5uConn, BothMessages(a, b), w) && Inv(w.st, w.h)
    ensures IssuedTo(a.imsi, a.t1u, w.h.s1u)
    ensures (b.imsi, TunnelOf(b.userPlane)) in w.h.pgw && (a.imsi, TunnelOf(b.userPlane)) !in w.h.pgw
    ensures var n := Modify(w.st, b.t11, b.mme, Some([UserPlane(Some(FTEID(S1U_SGW, a.t1u, eNB)))]));
      && n.Some? && a.t1u in n.value.s1u.relay
      && n.value.s1u.relay[a.t1u] == PeerOf(TunnelOf(b.userPlane), w.st.s5uConn)
  {
    w := BothReached<S, C>(s1uConn, s5uConn, a, b);
    ForeignClaimAt(w, a, b, FTEID(S1U_SGW, a.t1u, eNB));
  }

  lemma ForeignClaimAt<S, C>(w: World<S, C>, a: Attachment<S>, b: Attachment<S>, f: FTEID)
    requires Inv(w.st, w.h) && Ready(w, b) && f.ifType == S1U_SGW && f.teid == a.t1u
    requires IssuedTo(a.imsi, a.t1u, w.h.s1u) && a.imsi != b.imsi && TunnelOf(a.userPlane) != TunnelOf(b.userPlane)
    requires w.h.pgw == {(a.imsi, TunnelOf(a.userPlane)), (b.imsi, TunnelOf(b.userPlane))}
    ensures var n := Modify(w.st, b.t11, b.mme, Some([UserPlane(Some(f))]));
      && n.Some? && a.t1u in n.value.s1u.relay
      && n.value.s1u.relay[a.t1u] == PeerOf(TunnelOf(b.userPlane), w.st.s5uConn)
  {
    OneFTEID(w.st.s11.sessions[b.s11], f);
    ForeignClaimTakesOver(w.st, w.h, b.t11, b.mme, [UserPlane(Some(f))], b.s11, b.s5, a.t1u);
  }

  const FIRST := Attachment("1", "mme", 801, FTEID(S5C_PGW, 701, "10.0.0.7"), FTEID(S5U_PGW, 501, "10.0.0.7"), 1, 1,
                            101, 301, 201, 401)
  const SECOND := Attachment("2", "mme", 802, FTEID(S5C_PGW, 702, "10.0.0.7"), FTEID(S5U_PGW, 502, "10.0.0.7"), 2, 2,
                             102, 302, 202, 402)

  /** For instance: TEID 201 was given out for subscriber 1, and 502 is where the
      P-GW wants the packets of subscriber 2. */
  lemma ForeignClaimExample()
    ensures Legal(false, true, BothMessages(FIRST, SECOND))
    ensures var st := Run(false, true, BothMessages(FIRST, SECOND)).st;
      var n := Modify(st, 102, "mme", Some([UserPlane(Some(FTEID(S1U_SGW, 201, "10.0.0.1")))]));
      n.Some? && 201 in n.value.s1u.relay && n.value.s1u.relay[201].teid == 502
  {
    var w := ForeignClaimRun(false, true, FIRST, SECOND, "10.0.0.1");
  }

  /* ---- entries that are out of date ---- */

  /** A second answer of the P-GW, with another F-TEID in it. */
  function Again<S>(a: Attachment<S>, eNB: FTEID, other: FTEID): seq<Event<S>> {
    Messages(a, 1) + [ModifyEvent(a, [UserPlane(Some(eNB))])] + [AnswerEvent(a, 1, other)]
  }

  /** It is an honest message, and stores the new tunnel; the uplink entry goes on
      leading to the old one. */
  lemma SecondAnswerRun<S, C>(s1uConn: C, s5uConn: C, a: Attachment<S>, eNB: FTEID, other: FTEID)
    requires Sensible(a) && eNB.ifType == S1U_ENB && other.ifType == S5U_PGW
    ensures Legal(s1uConn, s5uConn, Again(a, eNB, other))
    ensures var st := Run<S, C>(s1uConn, s5uConn, Again(a, eNB, other)).st;
      && a.s5 in st.s5.sessions && st.s5.sessions[a.s5].tunnel == TunnelOf(other)
      && a.t1u in st.s1u.relay && st.s1u.relay[a.t1u] == PeerOf(TunnelOf(a.userPlane), s5uConn)
  {
    var w := AloneReached<S, C>(s1uConn, s5uConn, a);
    ModifyReached(s1uConn, s5uConn, Messages(a, 1), w, a, eNB);
    AnswerReached(s1uConn, s5uConn, Messages(a, 1) + [ModifyEvent(a, [UserPlane(Some(eNB))])], AfterModify(w, a, eNB),
                  a, 1, other);
  }

  /** A second request, for a handover to another eNB, with an F-TEID in it that
      is not decodable behind the first. */
  function HalfHandover<S>(a: Attachment<S>, eNB: FTEID, other: FTEID): seq<Event<S>> {
    Messages(a, 1) + [ModifyEvent(a, [UserPlane(Some(eNB))])] + [ModifyEvent(a, TwoChildren(other))]
  }

  function TwoChildren(f: FTEID): seq<Child> {
    [UserPlane(Some(f)), UserPlane(None)]
  }

  /** It stores the new tunnel; the downlink entry goes on leading to the old one. */
  lemma HalfHandoverRun<S, C>(s1uConn: C, s5uConn: C, a: Attachment<S>, eNB: FTEID, other: FTEID)
    requires Sensible(a) && eNB.ifType == S1U_ENB && other.ifType == S1U_ENB
    ensures Legal(s1uConn, s5uConn, HalfHandover(a, eNB, other))
    ensures var st := Run<S, C>(s1uConn, s5uConn, HalfHandover(a, eNB, other)).st;
      && a.s11 in st.s11.sessions && st.s11.sessions[a.s11].tunnel == TunnelOf(other)
      && a.t5u in st.s5u.relay && st.s5u.relay[a.t5u] == PeerOf(TunnelOf(eNB), s1uConn)
  {
    var w := AloneReached<S, C>(s1uConn, s5uConn, a);
    var events := Messages(a, 1) + [ModifyEvent(a, [UserPlane(Some(eNB))])];
    ModifyReached(s1uConn, s5uConn, Messages(a, 1), w, a, eNB);
    var v := AfterModify(w, a, eNB);
    HalfModify(v, a, other);
    var event := ModifyEvent(a, TwoChildren(other));
    Extend(s1uConn, s5uConn, events, v, event, Next(v, event));
  }

  lemma HalfModify<S, C>(w: World<S, C>, a: Attachment<S>, f: FTEID)
    requires Inv(w.st, w.h) && Ready(w, a) && f.ifType == S1U_ENB
    ensures var event := ModifyEvent(a, TwoChildren(f));
      && Proper(w, event) && Next(w, event).st.s5u == w.st.s5u
      && a.s11 in Next(w, event).st.s11.sessions && Next(w, event).st.s11.sessions[a.s11].tunnel == TunnelOf(f)
  {
    HalfStored(w.st, a, f);
    TwoChildrenRead(f);
  }

  lemma HalfStored<S, C>(st: State<S, C>, a: Attachment<S>, f: FTEID)
    requires Sound(st) && Attached(st, a) && f.ifType == S1U_ENB
    ensures var r := Modify(st, a.t11, a.mme, Some(TwoChildren(f)));
      && r.Some? && r.value.s5u == st.s5u
      && a.s11 in r.value.s11.sessions && r.value.s11.sessions[a.s11].tunnel == TunnelOf(f)
  {
    TwoChildrenRead(f);
    ModifyRelays(st, a.t11, a.mme, Some(TwoChildren(f)));
  }

  lemma TwoChildrenRead(f: FTEID)
    requires f.ifType == S1U_ENB
    ensures var cs := TwoChildren(f);
      LastTunnel(cs, false) == Some(TunnelOf(f)) && LastClaim(cs, S1U_SGW, false) == None && !Decodable(cs)
  {
    var cs := TwoChildren(f);
    assert cs[1] in cs && cs[1..][0] == cs[1];
  }
}
