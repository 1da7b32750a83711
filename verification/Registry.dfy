/** The sessions of a GTPv2 connection and its two indexes over them, as values:
    by IMSI, and by incoming TEID, where a reserved TEID holds no session yet.
    Sessions are known by identities of any type `S`. */
module Registry {
  import opened Octets
  import U = UPlane

  /** Where user packets are sent: the outgoing TEID and the remote address of a
      bearer, both unset at first. */
  datatype Tunnel = Tunnel(teid: uint32, addr: Option<string>)

  const NO_TUNNEL := Tunnel(0, None)

  /** A message passed from one session to another: its sequence number, and
      whether it is a Create Session Response. */
  datatype Passed = Passed(sequence: uint32, created: bool)

  /** `tunnel` is that of the default bearer. */
  datatype SessionData = SessionData(imsi: string, peer: string, teids: map<byte, uint32>, tunnel: Tunnel,
                                     queue: seq<Passed>, active: bool)

  function NewSession(peer: string, imsi: string): SessionData {
    SessionData(imsi, peer, map[], NO_TUNNEL, [], false)
  }

  /** The capacity of a session's queue. */
  const QUEUE_SIZE := 1000

  datatype WaitError = Timeout | InvalidSequence(got: uint32)

  /** What waiting for the message with a number gives, and the session after. */
  function Waited(d: SessionData, sequence: uint32, timeout: bool): (Result<Passed, WaitError>, SessionData) {
    if timeout || d.queue == [] then (Err(Timeout), d)
    else
      var msg := d.queue[0];
      (if msg.sequence != sequence then Err(InvalidSequence(msg.sequence)) else Ok(msg), d.(queue := d.queue[1..]))
  }

  /** `sessions` are all those made for the connection, indexed or not. */
  datatype ConnData<S(==)> = ConnData(ifType: byte, sequence: uint32, byIMSI: map<string, S>,
                                      byTEID: map<uint32, Option<S>>, sessions: map<S, SessionData>)

  datatype Error = InvalidTEID

  /** Every indexed session is one of the connection's. */
  ghost predicate Closed<S>(c: ConnData<S>) {
    && (forall i :: i in c.byIMSI ==> c.byIMSI[i] in c.sessions)
    && AllKnown(c.byTEID, c.sessions)
  }

  function GetByIMSI<S>(c: ConnData<S>, imsi: string): Option<S> {
    if imsi in c.byIMSI then Some(c.byIMSI[imsi]) else None
  }

  /** The session a TEID is registered for, reserved TEIDs having none. */
  function Holder<S>(c: ConnData<S>, teid: uint32): Option<S> {
    if teid in c.byTEID then c.byTEID[teid] else None
  }

  /** `GetSessionByTEID`.  A reserved TEID is found, with a nil session whose
      peer is then asked for. */
  function GetByTEID<S>(c: ConnData<S>, teid: uint32, peer: string): Outcome<S, Error>
    requires Closed(c)
  {
    if teid !in c.byTEID then Fail(InvalidTEID)
    else if c.byTEID[teid] == None then Panic
    else if c.sessions[c.byTEID[teid].value].peer != peer then Fail(InvalidTEID)
    else Done(c.byTEID[teid].value)
  }

  function Put<S>(c: ConnData<S>, s: S, d: SessionData): ConnData<S> {
    c.(sessions := c.sessions[s := d])
  }

  function WithTEID(d: SessionData, ifType: byte, teid: uint32): SessionData {
    d.(teids := d.teids[ifType := teid])
  }

  /** `RegisterSession`. */
  function Register<S>(c: ConnData<S>, teid: uint32, s: S): ConnData<S>
    requires s in c.sessions
  {
    Put(c.(byTEID := c.byTEID[teid := Some(s)], byIMSI := c.byIMSI[c.sessions[s].imsi := s]), s,
        WithTEID(c.sessions[s], c.ifType, teid))
  }

  ghost predicate AllKnown<S>(byTEID: map<uint32, Option<S>>, sessions: map<S, SessionData>) {
    forall t :: t in byTEID && byTEID[t].Some? ==> byTEID[t].value in sessions
  }

  /** The TEIDs registered for sessions with the IMSI. */
  function TEIDsFor<S>(byTEID: map<uint32, Option<S>>, sessions: map<S, SessionData>, imsi: string): set<uint32>
    requires AllKnown(byTEID, sessions)
  {
    set t | t in byTEID && byTEID[t].Some? && sessions[byTEID[t].value].imsi == imsi
  }

  predicate SomeReserved<S>(byTEID: map<uint32, Option<S>>) {
    exists t :: t in byTEID && byTEID[t] == None
  }

  /** `RemoveSession`.  For a session that has no incoming TEID it walks through
      all TEIDs and asks each for its session's IMSI, which a reserved TEID does
      not survive. */
  function Remove<S>(c: ConnData<S>, s: S): Option<ConnData<S>>
    requires Closed(c) && s in c.sessions
  {
    var d := c.sessions[s];
    if c.ifType in d.teids then
      Some(c.(byIMSI := c.byIMSI - {d.imsi}, byTEID := c.byTEID - {d.teids[c.ifType]}))
    else if SomeReserved(c.byTEID) then None
    else Some(c.(byIMSI := c.byIMSI - {d.imsi}, byTEID := c.byTEID - TEIDsFor(c.byTEID, c.sessions, d.imsi)))
  }

  /** The subscriber's session is removed, if there is one. */
  function WithoutPrevious<S>(c: ConnData<S>, imsi: string): Option<ConnData<S>>
    requires Closed(c)
  {
    if imsi in c.byIMSI then Remove(c, c.byIMSI[imsi]) else Some(c)
  }

  /** `NewSenderFTEID`: the TEID found is in use from then on, without session. */
  function Reserve<S>(c: ConnData<S>, draws: seq<uint32>): (ConnData<S>, Option<uint32>) {
    var t := U.FirstUsable(c.byTEID.Keys, draws);
    (if t.Some? then c.(byTEID := c.byTEID[t.value := None]) else c, t)
  }

  /** What a reservation changes: one TEID that was free, and not zero, is in use;
      it finds no session, and a message to it panics, whoever sends it. */
  lemma ReservedPanics<S>(c: ConnData<S>, draws: seq<uint32>, peer: string)
    requires Closed(c)
    ensures var (d, t) := Reserve(c, draws);
      && (t.None? ==> d == c && forall u :: u in draws ==> u == 0 || u in c.byTEID)
      && (t.Some? ==>
            && t.value in draws && t.value != 0 && t.value !in c.byTEID
            && d == c.(byTEID := c.byTEID[t.value := None])
            && GetByTEID(d, t.value, peer) == Panic)
  {
    forall u ensures U.Usable(c.byTEID.Keys, u) <==> u != 0 && u !in c.byTEID {
    }
  }

  /** Every outcome of a lookup by TEID. */
  lemma LookupOutcomes<S>(c: ConnData<S>, teid: uint32, peer: string)
    requires Closed(c)
    ensures GetByTEID(c, teid, peer) == Panic <==> teid in c.byTEID && c.byTEID[teid] == None
    ensures forall s :: GetByTEID(c, teid, peer) == Done(s) <==>
      teid in c.byTEID && c.byTEID[teid] == Some(s) && c.sessions[s].peer == peer
  {
  }

  /* ---- the two indexes agree ---- */

  /** The session is found by its own IMSI and by its own incoming TEID. */
  ghost predicate Indexed<S>(c: ConnData<S>, s: S) {
    && s in c.sessions
    && GetByIMSI(c, c.sessions[s].imsi) == Some(s)
    && c.ifType in c.sessions[s].teids
    && Holder(c, c.sessions[s].teids[c.ifType]) == Some(s)
  }

  /** Both indexes describe the same sessions, one to one. */
  ghost predicate OneToOne<S>(c: ConnData<S>) {
    && (forall i :: i in c.byIMSI ==> Indexed(c, c.byIMSI[i]) && c.sessions[c.byIMSI[i]].imsi == i)
    && (forall t :: t in c.byTEID && c.byTEID[t].Some? ==>
          Indexed(c, c.byTEID[t].value) && c.sessions[c.byTEID[t].value].teids[c.ifType] == t)
  }

  /** While the indexes agree so do the lookups: a message finds a session by
      its TEID exactly when it comes from that session's peer and the session's
      IMSI finds the same session. */
  lemma LookupsAgree<S>(c: ConnData<S>, teid: uint32, peer: string, s: S)
    requires OneToOne(c) && Closed(c)
    ensures GetByTEID(c, teid, peer) == Done(s) <==>
      && s in c.sessions && c.sessions[s].peer == peer
      && GetByIMSI(c, c.sessions[s].imsi) == Some(s)
      && c.sessions[s].teids[c.ifType] == teid
  {
    if s in c.sessions && GetByIMSI(c, c.sessions[s].imsi) == Some(s) {
      assert Indexed(c, s);
    }
  }

  /** Registering a session keeps the indexes one to one exactly when the session
      that has its IMSI, if any, is the one that has the TEID; and then that one
      is replaced and every other session stays. */
  lemma RegisterKeepsIff<S>(c: ConnData<S>, teid: uint32, s: S)
    requires OneToOne(c) && s in c.sessions
    ensures OneToOne(Register(c, teid, s)) <==> GetByIMSI(c, c.sessions[s].imsi) == Holder(c, teid)
    ensures OneToOne(Register(c, teid, s)) ==> forall x ::
      Indexed(Register(c, teid, s), x) <==> x == s || (Indexed(c, x) && GetByIMSI(c, c.sessions[s].imsi) != Some(x))
  {
    var d, i := Register(c, teid, s), c.sessions[s].imsi;
    if GetByIMSI(c, i) == Holder(c, teid) {
      RegisterReplaces(c, teid, s);
    } else {
      HoldersIndexed(c, i, teid);
      if GetByIMSI(c, i).Some? {
        var u := c.sessions[c.byIMSI[i]].teids[c.ifType];
        assert u != teid && d.byTEID[u] == GetByIMSI(c, i);
      } else {
        var j := c.sessions[Holder(c, teid).value].imsi;
        assert j != i && d.byIMSI[j] == Holder(c, teid).value;
      }
    }
  }

  lemma RegisterReplaces<S>(c: ConnData<S>, teid: uint32, s: S)
    requires OneToOne(c) && s in c.sessions && GetByIMSI(c, c.sessions[s].imsi) == Holder(c, teid)
    ensures OneToOne(Register(c, teid, s))
    ensures forall x ::
      Indexed(Register(c, teid, s), x) <==> x == s || (Indexed(c, x) && GetByIMSI(c, c.sessions[s].imsi) != Some(x))
  {
    var d, i := Register(c, teid, s), c.sessions[s].imsi;
    assert Indexed(d, s);
    forall x | x != s ensures Indexed(d, x) <==> Indexed(c, x) && GetByIMSI(c, i) != Some(x) {
      RegisterOthers(c, teid, s, x);
    }
    forall j | j in d.byIMSI ensures Indexed(d, d.byIMSI[j]) && d.sessions[d.byIMSI[j]].imsi == j {
      if j != i {
        assert d.byIMSI[j] == c.byIMSI[j] && Indexed(c, c.byIMSI[j]);
      }
    }
  }

  lemma HoldersIndexed<S>(c: ConnData<S>, imsi: string, teid: uint32)
    requires OneToOne(c)
    ensures imsi in c.byIMSI ==> Indexed(c, c.byIMSI[imsi]) && c.sessions[c.byIMSI[imsi]].imsi == imsi
    ensures Holder(c, teid).Some? ==>
      Indexed(c, Holder(c, teid).value) && c.sessions[Holder(c, teid).value].teids[c.ifType] == teid
  {
  }

  lemma RegisterOthers<S>(c: ConnData<S>, teid: uint32, s: S, x: S)
    requires OneToOne(c) && s in c.sessions && GetByIMSI(c, c.sessions[s].imsi) == Holder(c, teid) && x != s
    ensures Indexed(Register(c, teid, s), x) <==> Indexed(c, x) && GetByIMSI(c, c.sessions[s].imsi) != Some(x)
  {
    if Indexed(c, x) && c.sessions[x].imsi != c.sessions[s].imsi {
      assert c.sessions[x].teids[c.ifType] != teid;
    }
  }

  /** Removing a session that was registered at some time keeps the indexes one
      to one exactly when its IMSI and its TEID are still, or no longer, those
      of one session; that session is then gone from both, and no other. */
  lemma RemoveKeepsIff<S>(c: ConnData<S>, s: S)
    requires OneToOne(c) && Closed(c) && s in c.sessions && c.ifType in c.sessions[s].teids
    ensures Remove(c, s).Some?
    ensures OneToOne(Remove(c, s).value) <==>
      GetByIMSI(c, c.sessions[s].imsi) == Holder(c, c.sessions[s].teids[c.ifType])
    ensures OneToOne(Remove(c, s).value) ==> forall x ::
      Indexed(Remove(c, s).value, x) <==> Indexed(c, x) && GetByIMSI(c, c.sessions[s].imsi) != Some(x)
  {
    var d, i, teid := Remove(c, s).value, c.sessions[s].imsi, c.sessions[s].teids[c.ifType];
    HoldersIndexed(c, i, teid);
    if GetByIMSI(c, i) == Holder(c, teid) {
      forall x ensures Indexed(d, x) <==> Indexed(c, x) && GetByIMSI(c, i) != Some(x) {
        if Indexed(c, x) && c.sessions[x].imsi != i {
          assert c.sessions[x].teids[c.ifType] != teid;
        }
      }
      forall j | j in d.byIMSI ensures Indexed(d, d.byIMSI[j]) && d.sessions[d.byIMSI[j]].imsi == j {
        assert d.byIMSI[j] == c.byIMSI[j] && Indexed(c, c.byIMSI[j]);
      }
    } else if GetByIMSI(c, i).Some? {
      var u := c.sessions[c.byIMSI[i]].teids[c.ifType];
      assert u != teid && d.byTEID[u] == GetByIMSI(c, i);
    } else {
      var j := c.sessions[Holder(c, teid).value].imsi;
      assert j != i && d.byIMSI[j] == Holder(c, teid).value;
    }
  }

  /** A session that never had an incoming TEID is removed, with all that share
      its IMSI, without harm to the others, unless a TEID is only reserved. */
  lemma RemoveUnregistered<S>(c: ConnData<S>, s: S)
    requires OneToOne(c) && Closed(c) && s in c.sessions && c.ifType !in c.sessions[s].teids
    ensures Remove(c, s) == None <==> SomeReserved(c.byTEID)
    ensures Remove(c, s).Some? ==> OneToOne(Remove(c, s).value) && forall x ::
      Indexed(Remove(c, s).value, x) <==> Indexed(c, x) && c.sessions[x].imsi != c.sessions[s].imsi
  {
    if !SomeReserved(c.byTEID) {
      var d, i := Remove(c, s).value, c.sessions[s].imsi;
      forall x ensures Indexed(d, x) <==> Indexed(c, x) && c.sessions[x].imsi != i {
      }
      forall j | j in d.byIMSI ensures Indexed(d, d.byIMSI[j]) && d.sessions[d.byIMSI[j]].imsi == j {
        assert d.byIMSI[j] == c.byIMSI[j] && Indexed(c, c.byIMSI[j]);
      }
    }
  }
}
