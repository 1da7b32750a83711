/** When the two indexes over the S11 sessions stay one to one while the gateway
    runs. */
module GatewayIndexes {
  import opened Octets
  import U = UPlane
  import R = RegistryRuns
  import opened Registry
  import opened Gateway
  import opened GatewaySafety
  import opened GatewayRelays

  /** The event keeps the indexes one to one, as far as can be seen before it is
      handled.  A request may not bring an F-TEID of the S-GW's own S11 type with
      another TEID than its session's, and a handler that was waiting may not
      remove a session of which IMSI and TEID are found no longer, or are found
      to be those of different sessions. */
  ghost predicate KeepsIndexes<S, C>(st: State<S, C>, event: Event<S>)
    requires Sound(st) && Enabled(st, event)
  {
    match event
    case DoCreate(_, _, _) => true
    case DoAnswer(_, _, _) => true
    case DoModify(teid, from, cs) =>
      Found(st, teid, from).Some? ==> LastClaim(cs.GetOr([]), S11_SGW, false) in {None, Some(teid)}
    case DoResume(w, timeout, draws, responded) =>
      var d := st.s11.sessions[w.s11];
      if Finishes(d, w, timeout, responded) then
        if Dropped(d, st.s5.sessions[w.s5]) then GetByIMSI(st.s11, d.imsi) == Holder(st.s11, w.teid)
        else GetByIMSI(st.s11, d.imsi) == Some(w.s11) ==> TEIDOf(d, S11_SGW) == Some(w.teid)
      else S11_SGW in d.teids ==> GetByIMSI(st.s11, d.imsi) == Holder(st.s11, d.teids[S11_SGW])
  }

  /** The handler gets to where it stores the TEIDs. */
  predicate Finishes<S>(d: SessionData, w: Waiting<S>, timeout: bool, responded: bool) {
    var msg := Waited(d, w.sequence, timeout).0;
    msg.Ok? && msg.value.created && responded
  }

  /** And then removes the session after all. */
  predicate Dropped(d: SessionData, p: SessionData) {
    S5C_PGW !in p.teids || S5C_SGW !in p.teids || d.imsi == ""
  }

  lemma StepKeepsOneToOneIff<S, C>(st: State<S, C>, event: Event<S>)
    requires Sound(st) && Enabled(st, event) && Step(st, event).Some?
    requires OneToOne(st.s11) && st.s11.ifType == S11_SGW
    ensures OneToOne(Step(st, event).value.s11) <==> KeepsIndexes(st, event)
  {
    match event
    case DoCreate(m, mme, e) => CreateKeepsOneToOne(st, m, mme, e);
    case DoAnswer(teid, from, m) => AnswerKeepsOneToOne(st, teid, from, m);
    case DoModify(teid, from, cs) => ModifyKeepsOneToOneIff(st, teid, from, cs);
    case DoResume(w, timeout, draws, responded) => ResumeKeepsOneToOneIff(st, w, timeout, draws, responded);
  }

  /* ---- sessions that change ---- */

  /** A session may change as long as, if it is indexed, its IMSI and TEID stay. */
  lemma PutKeepsIff<S>(c: ConnData<S>, s: S, d: SessionData)
    requires OneToOne(c) && s in c.sessions && d.imsi == c.sessions[s].imsi
    ensures OneToOne(Put(c, s, d)) <==>
      (GetByIMSI(c, d.imsi) == Some(s) ==> TEIDOf(d, c.ifType) == TEIDOf(c.sessions[s], c.ifType))
  {
    var n := Put(c, s, d);
    if GetByIMSI(c, d.imsi) == Some(s) {
      assert Indexed(c, s);
      if TEIDOf(d, c.ifType) != TEIDOf(c.sessions[s], c.ifType) {
        assert Holder(n, c.sessions[s].teids[c.ifType]) == Some(s);
      } else {
        PutSame(c, s, d);
      }
    } else {
      PutSame(c, s, d);
    }
  }

  lemma PutSame<S>(c: ConnData<S>, s: S, d: SessionData)
    requires OneToOne(c) && s in c.sessions && d.imsi == c.sessions[s].imsi
    requires GetByIMSI(c, d.imsi) == Some(s) ==> TEIDOf(d, c.ifType) == TEIDOf(c.sessions[s], c.ifType)
    ensures OneToOne(Put(c, s, d))
  {
    var n := Put(c, s, d);
    forall i | i in n.byIMSI ensures Indexed(n, n.byIMSI[i]) && n.sessions[n.byIMSI[i]].imsi == i {
      assert Indexed(c, c.byIMSI[i]);
    }
    forall t | t in n.byTEID && n.byTEID[t].Some?
      ensures Indexed(n, n.byTEID[t].value) && n.sessions[n.byTEID[t].value].teids[c.ifType] == t
    {
      assert Indexed(c, c.byTEID[t].value);
    }
  }

  /** Removing a session by another TEID than it has. */
  lemma PutRemoveIff<S>(c: ConnData<S>, s: S, d: SessionData)
    requires OneToOne(c) && Closed(c) && s in c.sessions && d.imsi == c.sessions[s].imsi && c.ifType in d.teids
    ensures Remove(Put(c, s, d), s).Some?
    ensures OneToOne(Remove(Put(c, s, d), s).value) <==> GetByIMSI(c, d.imsi) == Holder(c, d.teids[c.ifType])
  {
    var i, t := d.imsi, d.teids[c.ifType];
    var n := Remove(Put(c, s, d), s).value;
    HoldersIndexed(c, i, t);
    if GetByIMSI(c, i) == Holder(c, t) {
      PutSame(c, s, d);
      RemoveKeepsIff(Put(c, s, d), s);
    } else if GetByIMSI(c, i).Some? {
      var u := c.sessions[c.byIMSI[i]].teids[c.ifType];
      assert u != t && n.byTEID[u] == GetByIMSI(c, i);
    } else {
      var j := c.sessions[Holder(c, t).value].imsi;
      assert j != i && n.byIMSI[j] == Holder(c, t).value;
    }
  }

  /* ---- the steps ---- */

  lemma CreateKeepsOneToOne<S, C>(st: State<S, C>, m: Request, mme: string, e: Creation<S>)
    requires Sound(st) && Enabled(st, DoCreate(m, mme, e)) && Create(st, m, mme, e).Some?
    requires OneToOne(st.s11) && st.s11.ifType == S11_SGW
    ensures OneToOne(Create(st, m, mme, e).value.s11)
  {
    if Usable(m) {
      var c := WithoutPrevious(st.s11, m.imsi.value).value;
      R.DetachKeeps(st.s11, m.imsi.value);
      if m.others {
        R.ReserveKeeps(c, e.draws11);
        var (c1, t) := Reserve(c, e.draws11);
        R.PutFresh(c1, e.s11, NewS11Session(m, mme));
        RegisterKeepsIff(Put(c1, e.s11, NewS11Session(m, mme)), t.value, e.s11);
      }
    }
  }

  lemma AnswerKeepsOneToOne<S, C>(st: State<S, C>, teid: uint32, from: string, m: Response)
    requires Sound(st) && Answer(st, teid, from, m).Some? && OneToOne(st.s11)
    ensures OneToOne(Answer(st, teid, from, m).value.s11)
  {
    var r := GetByTEID(st.s5, teid, from);
    if r.Done? {
      var x := GetByIMSI(st.s11, ReadResponse(st.s5.sessions[r.value], m).0.imsi);
      if x.Some? {
        var d := st.s11.sessions[x.value];
        PutKeepsIff(st.s11, x.value, d.(queue := d.queue + [Passed(m.sequence, true)]));
      }
    }
  }

  lemma ModifyKeepsOneToOneIff<S, C>(st: State<S, C>, teid: uint32, from: string, cs: Option<seq<Child>>)
    requires Sound(st) && Modify(st, teid, from, cs).Some? && OneToOne(st.s11) && st.s11.ifType == S11_SGW
    ensures OneToOne(Modify(st, teid, from, cs).value.s11) <==> KeepsIndexes(st, DoModify(teid, from, cs))
  {
    var f := Found(st, teid, from);
    if f.Some? {
      var s := f.value.0;
      var d := st.s11.sessions[s];
      assert Indexed(st.s11, s);
      ReadLeaves(d, cs.GetOr([]), false, S11_SGW);
      PutKeepsIff(st.s11, s, ReadChildren(d, cs.GetOr([]), false).0);
      ModifiedRelays(st, s, f.value.1, cs.GetOr([]));
    }
  }

  lemma ResumeKeepsOneToOneIff<S, C>(st: State<S, C>, w: Waiting<S>, timeout: bool, draws: seq<uint32>,
                                     responded: bool)
    requires Sound(st) && w in st.waiting && Resume(st, w, timeout, draws, responded).Some?
    requires OneToOne(st.s11) && st.s11.ifType == S11_SGW
    ensures OneToOne(Resume(st, w, timeout, draws, responded).value.s11) <==>
      KeepsIndexes(st, DoResume(w, timeout, draws, responded))
  {
    var c, d := st.s11, st.s11.sessions[w.s11];
    var d1 := Waited(d, w.sequence, timeout).1;
    PutKeepsIff(c, w.s11, d1);
    var c1 := Put(c, w.s11, d1);
    if !Finishes(d, w, timeout, responded) {
      RemovedIff(c1, w.s11);
    } else {
      var t := U.FirstUsable(st.s1u.taken, draws).value;
      FinishedIff(c1, w, t, st.s5.sessions[w.s5]);
    }
  }

  lemma RemovedIff<S>(c: ConnData<S>, s: S)
    requires OneToOne(c) && Closed(c) && s in c.sessions && Remove(c, s).Some?
    ensures OneToOne(Remove(c, s).value) <==>
      (c.ifType in c.sessions[s].teids ==> GetByIMSI(c, c.sessions[s].imsi) == Holder(c, c.sessions[s].teids[c.ifType]))
  {
    if c.ifType in c.sessions[s].teids {
      RemoveKeepsIff(c, s);
    } else {
      RemoveUnregistered(c, s);
    }
  }

  /** The end of a creation, on the S11 side. */
  function Finished<S>(c: ConnData<S>, w: Waiting<S>, t: uint32, p: SessionData): Option<ConnData<S>>
    requires Closed(c) && w.s11 in c.sessions
  {
    var e := WithTEID(WithTEID(c.sessions[w.s11], S11_SGW, w.teid), S1U_SGW, t);
    if Dropped(e, p) then Remove(Put(c, w.s11, e), w.s11) else Some(Put(Put(c, w.s11, e), w.s11, e.(active := true)))
  }

  lemma FinishedIff<S>(c: ConnData<S>, w: Waiting<S>, t: uint32, p: SessionData)
    requires OneToOne(c) && Closed(c) && w.s11 in c.sessions && c.ifType == S11_SGW && Finished(c, w, t, p).Some?
    ensures var d := c.sessions[w.s11];
      OneToOne(Finished(c, w, t, p).value) <==>
        if Dropped(d, p) then GetByIMSI(c, d.imsi) == Holder(c, w.teid)
        else GetByIMSI(c, d.imsi) == Some(w.s11) ==> TEIDOf(d, S11_SGW) == Some(w.teid)
  {
    var d := c.sessions[w.s11];
    var e := WithTEID(WithTEID(d, S11_SGW, w.teid), S1U_SGW, t);
    if Dropped(d, p) {
      PutRemoveIff(c, w.s11, e);
    } else {
      PutKeepsIff(c, w.s11, e.(active := true));
      assert c.sessions[w.s11 := e][w.s11 := e.(active := true)] == c.sessions[w.s11 := e.(active := true)];
    }
  }

  /** In every run in which all events do, the indexes are one to one. */
  lemma {:induction false} RunKeepsOneToOne<S, C>(s1uConn: C, s5uConn: C, events: seq<Event<S>>)
    requires Legal(s1uConn, s5uConn, events)
    requires forall k :: 0 <= k < |events| ==> IndexesKeptAt(s1uConn, s5uConn, events, k)
    ensures OneToOne(Run<S, C>(s1uConn, s5uConn, events).st.s11)
    decreases |events|
  {
    if events != [] {
      var last := |events| - 1;
      var before := events[..last];
      forall k | 0 <= k < last ensures IndexesKeptAt(s1uConn, s5uConn, before, k) {
        assert IndexesKeptAt(s1uConn, s5uConn, events, k) && before[..k] == events[..k];
      }
      RunKeepsOneToOne(s1uConn, s5uConn, before);
      assert IndexesKeptAt(s1uConn, s5uConn, events, last);
      StepKeepsOneToOneIff(Run<S, C>(s1uConn, s5uConn, before).st, events[last]);
    }
  }

  ghost predicate IndexesKeptAt<S, C>(s1uConn: C, s5uConn: C, events: seq<Event<S>>, k: nat)
    requires k < |events|
  {
    && Legal(s1uConn, s5uConn, events[..k])
    && Enabled(Run<S, C>(s1uConn, s5uConn, events[..k]).st, events[k])
    && KeepsIndexes(Run<S, C>(s1uConn, s5uConn, events[..k]).st, events[k])
  }
}
