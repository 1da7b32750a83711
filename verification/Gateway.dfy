/** The serving gateway as a system of steps.  Its handlers run from one message
    to the next; the one for a Create Session Request is cut in two where it
    waits for the other side.  A step is a function of the state, of the message
    and of what the environment decides: random draws, failed sends, timeouts. */
module Gateway {
  import opened Octets
  import U = UPlane
  import Q = Sequence
  import opened Registry

  const S1U_SGW: byte := 1
  const S5U_SGW: byte := 4
  const S5C_SGW: byte := 6
  const S5C_PGW: byte := 7
  const S11_MME: byte := 10
  const S11_SGW: byte := 11

  /** An IE that may be missing or not decodable. */
  datatype Field<+T> = Absent | Malformed | Given(value: T)

  /** A fully qualified TEID with the IP address in it. */
  datatype FTEID = FTEID(ifType: byte, teid: uint32, ip: string)

  function ControlAddr(ip: string): string {
    ip + ":2123"
  }

  function TunnelOf(f: FTEID): Tunnel {
    Tunnel(f.teid, Some(f.ip + ":2152"))
  }

  /** What the handler takes from a Create Session Request.  `others` says that
      MSISDN, MEI, APN, serving network and RAT type are all there and sound. */
  datatype Request = Request(pgw: Field<FTEID>, sender: Field<uint32>, resolvable: bool, imsi: Field<string>,
                             others: bool)

  /** A child of a bearer context: an F-TEID, a Cause (accepted or not), an EPS
      bearer ID or charging ID, or another IE.  None is one not decodable. */
  datatype Child = UserPlane(fteid: Option<FTEID>) | Cause(accepted: Option<bool>) | Plain(wellFormed: bool) | Other

  /** What is taken from a Create Session Response.  Of the control-plane F-TEID
      only interface type and TEID are read. */
  datatype Response = Response(sequence: uint32, accepted: Field<bool>, paa: Field<()>, pgw: Field<(byte, uint32)>,
                               bearer: Option<seq<Child>>)

  /** A handler that waits, with its local variables. */
  datatype Waiting<S> = Waiting(s11: S, s5: S, teid: uint32, sequence: uint32)

  datatype State<S(==), C> = State(s11: ConnData<S>, s5: ConnData<S>, s1u: U.Tables<C>, s5u: U.Tables<C>,
                                   waiting: set<Waiting<S>>, s1uConn: C, s5uConn: C)

  function Initial<S, C>(s1uConn: C, s5uConn: C): State<S, C> {
    State(ConnData(S11_SGW, 0, map[], map[], map[]), ConnData(S5C_SGW, 0, map[], map[], map[]),
          U.Tables({}, map[]), U.Tables({}, map[]), {}, s1uConn, s5uConn)
  }

  ghost predicate Sound<S, C>(st: State<S, C>) {
    && Closed(st.s11) && Closed(st.s5)
    && forall w :: w in st.waiting ==> w.s11 in st.s11.sessions && w.s5 in st.s5.sessions
  }

  /* ---- reading bearer contexts ---- */

  /** Go on, stop with an error, or remove the session and stop. */
  datatype Verdict = Go | Stop | Drop

  /** Modify Bearer Requests are read for F-TEIDs only, responses in full. */
  function Judge(c: Child, full: bool): Verdict {
    match c
    case UserPlane(f) => if f.Some? then Go else Stop
    case Cause(ok) => if !full || ok == Some(true) then Go else if ok == None then Stop else Drop
    case Plain(ok) => if !full || ok then Go else Stop
    case Other => Go
  }

  function ReadChildren(d: SessionData, cs: seq<Child>, full: bool): (SessionData, Verdict)
    decreases |cs|
  {
    if cs == [] then (d, Go)
    else if Judge(cs[0], full) != Go then (d, Judge(cs[0], full))
    else ReadChildren(if cs[0].UserPlane? then WithFTEID(d, cs[0].fteid.value) else d, cs[1..], full)
  }

  /** `handleFTEIDU`: the bearer gets the tunnel, and the session the TEID under
      whatever interface type the peer wrote. */
  function WithFTEID(d: SessionData, f: FTEID): SessionData {
    WithTEID(d.(tunnel := TunnelOf(f)), f.ifType, f.teid)
  }

  /** The TEID of the last F-TEID of a type that is read. */
  function LastClaim(cs: seq<Child>, ifType: byte, full: bool): Option<uint32> {
    if cs == [] || Judge(cs[0], full) != Go then None
    else
      var later := LastClaim(cs[1..], ifType, full);
      if later.Some? then later
      else if cs[0].UserPlane? && cs[0].fteid.value.ifType == ifType then Some(cs[0].fteid.value.teid)
      else None
  }

  function Tunnels(cs: seq<Child>): set<Tunnel> {
    set c | c in cs && c.UserPlane? && c.fteid.Some? :: TunnelOf(c.fteid.value)
  }

  function TEIDOf(d: SessionData, ifType: byte): Option<uint32> {
    if ifType in d.teids then Some(d.teids[ifType]) else None
  }

  /** What reading leaves: subscriber and peer are the same, the tunnel is the
      old one or one of those given, and a TEID is replaced exactly by the last
      F-TEID of its type. */
  lemma {:induction false} ReadLeaves(d: SessionData, cs: seq<Child>, full: bool, ifType: byte)
    ensures var e := ReadChildren(d, cs, full).0;
      && e.imsi == d.imsi && e.peer == d.peer && e.queue == d.queue && e.active == d.active
      && (e.tunnel == d.tunnel || e.tunnel in Tunnels(cs))
      && var claim := LastClaim(cs, ifType, full);
         TEIDOf(e, ifType) == if claim.Some? then claim else TEIDOf(d, ifType)
    decreases |cs|
  {
    if cs != [] && Judge(cs[0], full) == Go {
      ReadLeaves(if cs[0].UserPlane? then WithFTEID(d, cs[0].fteid.value) else d, cs[1..], full, ifType);
      assert forall c :: c in cs[1..] ==> c in cs;
      assert cs[0] in cs;
    }
  }

  /** A response read up to the point where it is accepted or not. */
  function ReadResponse(d: SessionData, m: Response): (SessionData, Verdict) {
    if m.accepted != Given(true) then (d, if m.accepted.Malformed? then Stop else Drop)
    else if !m.paa.Given? then (d, if m.paa.Malformed? then Stop else Drop)
    else if !m.pgw.Given? then (d, if m.pgw.Malformed? then Stop else Drop)
    else
      var e := WithTEID(d, m.pgw.value.0, m.pgw.value.1);
      if m.bearer.None? then (e, Drop)
      else
        var (f, v) := ReadChildren(e, m.bearer.value, true);
        if v != Go then (f, v)
        else if f.imsi == "" then (f, Drop)
        else (f.(active := true), Go)
  }

  /* ---- the steps; None is a panic ---- */

  /** What the environment decides in the first half of a creation: identities
      for the two sessions, random numbers, and whether the send succeeds. */
  datatype Creation<S> = Creation(s11: S, s5: S, draws11: seq<uint32>, draws5: seq<uint32>, draws5u: seq<uint32>,
                                  sent: bool)

  predicate Usable(m: Request) {
    m.pgw.Given? && m.sender.Given? && m.resolvable && m.imsi.Given?
  }

  function NewS11Session(m: Request, mme: string): SessionData
    requires Usable(m)
  {
    WithTEID(WithTEID(NewSession(mme, m.imsi.value), S5C_PGW, m.pgw.value.teid), S11_MME, m.sender.value)
  }

  /** The session `CreateSession` makes out of the IEs to be sent: it registers
      under every F-TEID of the connection's own type, also under that of the
      P-GW if that claims to be one.  The S-GW's own is missing when no TEID was
      left for it. */
  function ParseCreateSession<S>(c: ConnData<S>, s: S, imsi: string, own: Option<uint32>, pgw: FTEID,
                                 userPlane: uint32): ConnData<S> {
    var c1 := WithOwn(Put(c, s, NewSession(ControlAddr(pgw.ip), imsi)), s, own);
    var c2 := WithClaim(c1, s, pgw.ifType, pgw.teid);
    Put(c2, s, WithTEID(c2.sessions[s], S5U_SGW, userPlane))
  }

  function WithOwn<S>(c: ConnData<S>, s: S, own: Option<uint32>): ConnData<S>
    requires s in c.sessions
  {
    if own.Some? then WithClaim(c, s, c.ifType, own.value) else c
  }

  /** The session gets a TEID and, if that claims to be the connection's own, is
      registered under it. */
  function WithClaim<S>(c: ConnData<S>, s: S, ifType: byte, teid: uint32): ConnData<S>
    requires s in c.sessions
  {
    var c1 := Put(c, s, WithTEID(c.sessions[s], ifType, teid));
    if ifType == c.ifType then Register(c1, teid, s) else c1
  }

  /** A Create Session Request up to the wait. */
  function Create<S, C>(st: State<S, C>, m: Request, mme: string, e: Creation<S>): Option<State<S, C>>
    requires Sound(st)
  {
    if !Usable(m) then Some(st)
    else
      var imsi := m.imsi.value;
      var removed := WithoutPrevious(st.s11, imsi);
      if removed.None? then None
      else
        var st1 := st.(s11 := removed.value);
        if m.others then CreatedFrom(st1, m, mme, e) else Some(st1)
  }

  /** The creation once the previous session is removed.  Without a TEID for S5-C
      the request is still sent, and the panic comes only if that succeeds. */
  function CreatedFrom<S, C>(st: State<S, C>, m: Request, mme: string, e: Creation<S>): Option<State<S, C>>
    requires Usable(m)
  {
    var (c1, t11) := Reserve(st.s11, e.draws11);
    var (p1, t5) := Reserve(st.s5, e.draws5);
    var t5u := U.FirstUsable(st.s5u.taken, e.draws5u);
    if t11.None? || t5u.None? || (t5.None? && e.sent) then None
    else Some(Created(st, m, mme, e, c1, t11.value, p1, t5, t5u.value))
  }

  function Created<S, C>(st: State<S, C>, m: Request, mme: string, e: Creation<S>, c1: ConnData<S>, t11: uint32,
                         p1: ConnData<S>, t5: Option<uint32>, t5u: uint32): State<S, C>
    requires Usable(m) && (e.sent ==> t5.Some?)
  {
    st.(s11 := Register(Put(c1, e.s11, NewS11Session(m, mme)), t11, e.s11),
        s5 := CreatedS5(p1, e.s5, m.imsi.value, t5, m.pgw.value, t5u, e.sent),
        s5u := st.s5u.(taken := st.s5u.taken + {t5u}),
        waiting := st.waiting + NewlyWaiting(e.s11, e.s5, t11, p1.sequence, e.sent))
  }

  /** The handler waits for the answer to the request, if that went out. */
  function NewlyWaiting<S(==)>(s11: S, s5: S, teid: uint32, sequence: uint32, sent: bool): set<Waiting<S>> {
    if sent then {Waiting(s11, s5, teid, Q.Inc(sequence))} else {}
  }

  /** `CreateSession` and, if the request went out, what the handler adds. */
  function CreatedS5<S>(c: ConnData<S>, s: S, imsi: string, own: Option<uint32>, pgw: FTEID, userPlane: uint32,
                        sent: bool): ConnData<S>
    requires sent ==> own.Some?
  {
    var p := ParseCreateSession(c, s, imsi, own, pgw, userPlane).(sequence := Q.Send(c.sequence, sent));
    if !sent then p else Register(Put(p, s, WithTEID(p.sessions[s], S5U_SGW, userPlane)), own.value, s)
  }

  function Awaited<S, C>(st: State<S, C>, w: Waiting<S>, timeout: bool): State<S, C>
    requires w.s11 in st.s11.sessions
  {
    st.(s11 := Put(st.s11, w.s11, Waited(st.s11.sessions[w.s11], w.sequence, timeout).1), waiting := st.waiting - {w})
  }

  /** The rest of the handler, when a message or the timeout wakes it up. */
  function Resume<S, C>(st: State<S, C>, w: Waiting<S>, timeout: bool, draws: seq<uint32>,
                        responded: bool): Option<State<S, C>>
    requires Sound(st) && w in st.waiting
  {
    var msg := Waited(st.s11.sessions[w.s11], w.sequence, timeout).0;
    var st1 := Awaited(st, w, timeout);
    if msg.Err? || !msg.value.created then RemoveS11(st1, w.s11)
    else
      var t := U.FirstUsable(st.s1u.taken, draws);
      if t.None? then None
      else
        var st2 := st1.(s1u := U.Step(st1.s1u, U.Alloc(draws)));
        if responded then Finish(st2, w, t.value) else RemoveS11(st2, w.s11)
  }

  /** The response is sent: the TEIDs are stored, and the session activated if
      the P-GW's and the S-GW's TEIDs are known. */
  function Finish<S, C>(st: State<S, C>, w: Waiting<S>, t: uint32): Option<State<S, C>>
    requires Closed(st.s11) && w.s11 in st.s11.sessions && w.s5 in st.s5.sessions
  {
    var e := WithTEID(WithTEID(st.s11.sessions[w.s11], S11_SGW, w.teid), S1U_SGW, t);
    ActivateOrRemove(st.(s11 := Put(st.s11, w.s11, e)), w.s11, st.s5.sessions[w.s5].teids)
  }

  function ActivateOrRemove<S, C>(st: State<S, C>, s: S, teids5: map<byte, uint32>): Option<State<S, C>>
    requires Closed(st.s11) && s in st.s11.sessions
  {
    var d := st.s11.sessions[s];
    if S5C_PGW !in teids5 || S5C_SGW !in teids5 || d.imsi == "" then RemoveS11(st, s)
    else Some(st.(s11 := Put(st.s11, s, d.(active := true))))
  }

  function RemoveS11<S, C>(st: State<S, C>, s: S): Option<State<S, C>>
    requires Closed(st.s11) && s in st.s11.sessions
  {
    var r := Remove(st.s11, s);
    if r.None? then None else Some(st.(s11 := r.value))
  }

  /** A Create Session Response from the P-GW. */
  function Answer<S, C>(st: State<S, C>, teid: uint32, pgw: string, m: Response): Option<State<S, C>>
    requires Sound(st)
  {
    match GetByTEID(st.s5, teid, pgw)
    case Panic => None
    case Fail(_) => Some(st)
    case Done(s) =>
      var (d, v) := ReadResponse(st.s5.sessions[s], m);
      var c := Put(st.s5, s, d);
      match v
      case Stop => Some(st.(s5 := c))
      case Drop =>
        var r := Remove(c, s);
        if r.None? then None else Some(st.(s5 := r.value))
      case Go =>
        var x := GetByIMSI(st.s11, d.imsi);
        if x.None? then Some(st.(s5 := c))
        else Some(st.(s5 := c, s11 := Enqueued(st.s11, x.value, Passed(m.sequence, true))))
  }

  /** `PassMessageTo`, which gives up when the queue is full. */
  function Enqueued<S>(c: ConnData<S>, s: S, msg: Passed): ConnData<S>
    requires s in c.sessions
  {
    var d := c.sessions[s];
    if |d.queue| < QUEUE_SIZE then Put(c, s, d.(queue := d.queue + [msg])) else c
  }

  /** A Modify Bearer Request from the MME. */
  function Modify<S, C>(st: State<S, C>, teid: uint32, mme: string, children: Option<seq<Child>>): Option<State<S, C>>
    requires Sound(st)
  {
    match GetByTEID(st.s11, teid, mme)
    case Panic => None
    case Fail(_) => Some(st)
    case Done(s) =>
      var x := GetByIMSI(st.s5, st.s11.sessions[s].imsi);
      if x.None? then Some(st)
      else
        Some(Modified(st, s, x.value, children.GetOr([])))
  }

  function Modified<S, C>(st: State<S, C>, s: S, x: S, children: seq<Child>): State<S, C>
    requires s in st.s11.sessions && x in st.s5.sessions
  {
    var (d, v) := ReadChildren(st.s11.sessions[s], children, false);
    var st1 := st.(s11 := Put(st.s11, s, d));
    if v == Go then RelayedIfKnown(st1, d, st.s5.sessions[x]) else st1
  }

  /** The relays for both directions, from what both sessions know. */
  function RelayedIfKnown<S, C>(st: State<S, C>, d: SessionData, p: SessionData): State<S, C> {
    if S11_MME !in d.teids || S1U_SGW !in d.teids || S5U_SGW !in p.teids then st
    else
      st.(s1u := U.Step(st.s1u, U.Relay(d.teids[S1U_SGW], PeerOf(p.tunnel, st.s5uConn))),
          s5u := U.Step(st.s5u, U.Relay(p.teids[S5U_SGW], PeerOf(d.tunnel, st.s1uConn))))
  }

  function PeerOf<C>(t: Tunnel, srcConn: C): U.Peer<C> {
    U.Peer(t.teid, t.addr, srcConn)
  }

  datatype Event<S> =
    | DoCreate(m: Request, mme: string, e: Creation<S>)
    | DoResume(w: Waiting<S>, timeout: bool, draws: seq<uint32>, responded: bool)
    | DoAnswer(teid: uint32, from: string, response: Response)
    | DoModify(teid: uint32, from: string, children: Option<seq<Child>>)

  predicate Enabled<S, C>(st: State<S, C>, event: Event<S>) {
    match event
    case DoCreate(_, _, e) => e.s11 !in st.s11.sessions && e.s5 !in st.s5.sessions
    case DoResume(w, _, _, _) => w in st.waiting
    case DoAnswer(_, _, _) => true
    case DoModify(_, _, _) => true
  }

  function Step<S, C>(st: State<S, C>, event: Event<S>): Option<State<S, C>>
    requires Sound(st) && Enabled(st, event)
  {
    match event
    case DoCreate(m, mme, e) => Create(st, m, mme, e)
    case DoResume(w, timeout, draws, responded) => Resume(st, w, timeout, draws, responded)
    case DoAnswer(teid, from, m) => Answer(st, teid, from, m)
    case DoModify(teid, from, children) => Modify(st, teid, from, children)
  }
}
