/** Whole runs of a GTPv2 connection whose owner replaces a subscriber's session
    as the S-GW does. */
module RegistryRuns {
  import opened Octets
  import opened Registry

  /** What the owner of a connection does, where `s` is a session just made:
      attach a subscriber as the S-GW does, detach one, reserve a TEID. */
  datatype Op<S(==)> = Attach(imsi: string, peer: string, s: S,
                draws: seq<uint32>) | Detach(imsi: string) | Spare(draws: seq<uint32>)

  function RemoveByIMSI<S>(c: ConnData<S>, imsi: string): ConnData<S>
    requires Closed(c)
  {
    WithoutPrevious(c, imsi).GetOr(c)
  }

  /** Remove the previous session, reserve a TEID, register under it. */
  function Step<S>(c: ConnData<S>, op: Op<S>): ConnData<S>
    requires Closed(c)
  {
    match op
    case Attach(imsi, peer, s, draws) =>
      var (r, teid) := Reserve(RemoveByIMSI(c, imsi), draws);
      if teid.Some? then Register(Put(r, s, NewSession(peer, imsi)), teid.value, s) else r
    case Detach(imsi) => RemoveByIMSI(c, imsi)
    case Spare(draws) => Reserve(c, draws).0
  }

  /** An operation on a session that is new, for which there is a free TEID. */
  predicate Possible<S>(c: ConnData<S>, op: Op<S>)
    requires Closed(c)
  {
    op.Attach? ==> op.s !in c.sessions && Reserve(RemoveByIMSI(c, op.imsi), op.draws).1.Some?
  }

  /** One operation keeps the indexes one to one.  An attachment puts the new
      session in the place of the one that had the IMSI, a detachment takes that
      one out, and no other subscriber is touched. */
  lemma StepKeeps<S>(c: ConnData<S>, op: Op<S>)
    requires OneToOne(c) && Closed(c) && Possible(c, op)
    ensures var d := Step(c, op);
      && OneToOne(d) && Closed(d)
      && d.sessions.Keys == c.sessions.Keys + (if op.Attach? then {op.s} else {})
      && (op.Attach? ==> Indexed(d, op.s) && d.sessions[op.s].imsi == op.imsi && d.sessions[op.s].peer == op.peer)
      && forall x :: x in c.sessions ==>
           (Indexed(d, x) <==> Indexed(c, x) && (op.Spare? || c.sessions[x].imsi != op.imsi))
  {
    match op
    case Spare(draws) => ReserveKeeps(c, draws);
    case Detach(imsi) => DetachKeeps(c, imsi);
    case Attach(imsi, peer, s, draws) =>
      var c1 := RemoveByIMSI(c, imsi);
      DetachKeeps(c, imsi);
      var (c2, teid) := Reserve(c1, draws);
      ReserveKeeps(c1, draws);
      var c3 := Put(c2, s, NewSession(peer, imsi));
      PutFresh(c2, s, NewSession(peer, imsi));
      RegisterKeepsIff(c3, teid.value, s);
  }

  lemma DetachKeeps<S>(c: ConnData<S>, imsi: string)
    requires OneToOne(c) && Closed(c)
    ensures var d := RemoveByIMSI(c, imsi);
      && OneToOne(d) && Closed(d) && d.sessions == c.sessions && d.ifType == c.ifType
      && GetByIMSI(d, imsi) == None
      && forall x :: Indexed(d, x) <==> Indexed(c, x) && c.sessions[x].imsi != imsi
  {
    if imsi in c.byIMSI {
      assert Indexed(c, c.byIMSI[imsi]);
      RemoveKeepsIff(c, c.byIMSI[imsi]);
    }
  }

  lemma ReserveKeeps<S>(c: ConnData<S>, draws: seq<uint32>)
    requires OneToOne(c) && Closed(c)
    ensures var (d, t) := Reserve(c, draws);
      && OneToOne(d) && Closed(d) && d.sessions == c.sessions && d.ifType == c.ifType && d.byIMSI == c.byIMSI
      && (t.Some? ==> Holder(d, t.value) == None)
      && forall x :: Indexed(d, x) <==> Indexed(c, x)
  {
    var (d, t) := Reserve(c, draws);
    forall x ensures Indexed(d, x) <==> Indexed(c, x) {
    }
    forall j | j in d.byIMSI ensures Indexed(d, d.byIMSI[j]) {
      assert Indexed(c, c.byIMSI[j]);
    }
  }

  lemma PutFresh<S>(c: ConnData<S>, s: S, d: SessionData)
    requires OneToOne(c) && s !in c.sessions
    ensures OneToOne(Put(c, s, d))
    ensures forall x :: Indexed(Put(c, s, d), x) <==> Indexed(c, x)
  {
    var e := Put(c, s, d);
    forall x ensures Indexed(e, x) <==> Indexed(c, x) {
    }
    forall j | j in e.byIMSI ensures Indexed(e, e.byIMSI[j]) {
      assert Indexed(c, c.byIMSI[j]);
    }
  }

  /** Runs from a new connection of operations each of which is possible. */
  ghost predicate Legal<S>(ifType: byte, ops: seq<Op<S>>)
    decreases |ops|, 0
  {
    ops == [] || (Legal(ifType, ops[..|ops| - 1]) && Possible(Run(ifType, ops[..|ops| - 1]), ops[|ops| - 1]))
  }

  ghost function Run<S>(ifType: byte, ops: seq<Op<S>>): (c: ConnData<S>)
    requires Legal(ifType, ops)
    ensures OneToOne(c) && Closed(c)
    decreases |ops|, 1
  {
    if ops == [] then ConnData(ifType, 0, map[], map[], map[])
    else
      var before := Run(ifType, ops[..|ops| - 1]);
      StepKeeps(before, ops[|ops| - 1]);
      Step(before, ops[|ops| - 1])
  }

  /** The session a subscriber should have: that of the last attachment, unless
      a detachment came after it.  Kept without the indexes. */
  function Attached<S>(ops: seq<Op<S>>, imsi: string): Option<S> {
    if ops == [] then None
    else
      var op := ops[|ops| - 1];
      if op.Attach? && op.imsi == imsi then Some(op.s)
      else if op.Detach? && op.imsi == imsi then None
      else Attached(ops[..|ops| - 1], imsi)
  }

  /** In every run, whatever TEIDs are drawn: the IMSI finds exactly the attached
      session; and any TEID finds, for its peer, exactly an attached session
      whose incoming TEID it is. */
  lemma {:induction false} RunFindsAttached<S>(ifType: byte, ops: seq<Op<S>>, imsi: string, teid: uint32,
                                               peer: string, s: S)
    requires Legal(ifType, ops)
    ensures var c := Run(ifType, ops);
      && GetByIMSI(c, imsi) == Attached(ops, imsi)
      && (GetByTEID(c, teid, peer) == Done(s) <==>
            && s in c.sessions && c.sessions[s].peer == peer
            && Attached(ops, c.sessions[s].imsi) == Some(s)
            && c.ifType in c.sessions[s].teids && c.sessions[s].teids[c.ifType] == teid)
  {
    var c := Run(ifType, ops);
    RunFindsByIMSI(ifType, ops, imsi);
    if s in c.sessions {
      RunFindsByIMSI(ifType, ops, c.sessions[s].imsi);
    }
    LookupsAgree(c, teid, peer, s);
  }

  lemma {:induction false} RunFindsByIMSI<S>(ifType: byte, ops: seq<Op<S>>, imsi: string)
    requires Legal(ifType, ops)
    ensures GetByIMSI(Run(ifType, ops), imsi) == Attached(ops, imsi)
    decreases |ops|
  {
    if ops != [] {
      var before, op := Run(ifType, ops[..|ops| - 1]), ops[|ops| - 1];
      RunFindsByIMSI(ifType, ops[..|ops| - 1], imsi);
      StepFinds(before, op, imsi);
    }
  }

  lemma StepFinds<S>(c: ConnData<S>, op: Op<S>, imsi: string)
    requires OneToOne(c) && Closed(c) && Possible(c, op)
    ensures GetByIMSI(Step(c, op), imsi) ==
      if op.Attach? && op.imsi == imsi then Some(op.s)
      else if op.Detach? && op.imsi == imsi then None
      else GetByIMSI(c, imsi)
  {
    StepKeeps(c, op);
    if imsi in c.byIMSI {
      assert Indexed(c, c.byIMSI[imsi]);
    }
  }

  /** The removal that breaks the indexes: a session that was replaced while its
      handler waited is removed by that handler; the subscriber's new session
      then is no longer found by IMSI, but still by TEID. */
  lemma StaleRemovalHides(imsi: string, peer: string)
    ensures var c0 := ConnData(11, 0, map[], map[], map[]);
      var c := Step(Step(c0, Attach(imsi, peer, 1, [5])), Attach(imsi, peer, 2, [6]));
      && GetByIMSI(c, imsi) == Some(2) && GetByTEID(c, 6, peer) == Done(2)
      && Remove(c, 1).Some?
      && GetByIMSI(Remove(c, 1).value, imsi) == None && GetByTEID(Remove(c, 1).value, 6, peer) == Done(2)
  {
    var c0: ConnData<int> := ConnData(11, 0, map[], map[], map[]);
    var c1 := Step(c0, Attach(imsi, peer, 1, [5]));
    StepKeeps(c0, Attach(imsi, peer, 1, [5]));
    assert c1 == ConnData(11, 0, map[imsi := 1], map[5 := Some(1)],
                          map[1 := WithTEID(NewSession(peer, imsi), 11, 5)]);
  }
}
