/** The user-plane connection of GTPv1: the pool of taken TEIDs, the relay
    table, and what both amount to over whole runs. */
module UPlane {
  import opened Octets
  import opened GtpuHeader

  /** Where a relayed packet goes: the TEID to put in, the address (absent when
      the bearer has none yet) and the connection to send it from. */
  datatype Peer<+C> = Peer(teid: uint32, addr: Option<string>, srcConn: C)

  datatype Tables<C> = Tables(taken: set<uint32>, relay: map<uint32, Peer<C>>)

  predicate Usable(taken: set<uint32>, t: uint32) {
    t != 0 && t !in taken
  }

  /** The first draw that is neither zero nor taken. */
  function FirstUsable(taken: set<uint32>, draws: seq<uint32>): (r: Option<uint32>)
    ensures r.None? <==> forall t :: t in draws ==> !Usable(taken, t)
    ensures r.Some? ==> r.value in draws && Usable(taken, r.value)
  {
    if draws == [] then None
    else if Usable(taken, draws[0]) then Some(draws[0])
    else FirstUsable(taken, draws[1..])
  }

  /** Which draw that is, by position. */
  lemma {:induction false} FirstUsableIsFirst(taken: set<uint32>, draws: seq<uint32>, k: nat)
    requires k < |draws| && draws[k] != 0 && draws[k] !in taken
    requires forall j :: 0 <= j < k ==> draws[j] == 0 || draws[j] in taken
    ensures FirstUsable(taken, draws) == Some(draws[k])
    decreases k
  {
    if k > 0 {
      assert draws[0] == 0 || draws[0] in taken;
      FirstUsableIsFirst(taken, draws[1..], k - 1);
    }
  }

  function Take(taken: set<uint32>, t: Option<uint32>): set<uint32> {
    if t.Some? then taken + {t.value} else taken
  }

  datatype Fate<+C> = Forwarded(srcConn: C, addr: Option<string>) | Handled | Dropped | Panicked

  /** What the receive loop does with the octets it has read.  With relays
      configured it looks at the second octet before checking any length. */
  function FateOf<C>(relay: map<uint32, Peer<C>>, raw: seq<byte>): Fate<C> {
    if relay == map[] then Handled
    else if |raw| < 2 then Panicked
    else if raw[1] != TPDU then Handled
    else if |raw| < 11 then Dropped
    else if Uint32(raw[4..8]) !in relay then Handled
    else
      var peer := relay[Uint32(raw[4..8])];
      Forwarded(peer.srcConn, peer.addr)
  }

  function PacketAfter<C>(relay: map<uint32, Peer<C>>, raw: seq<byte>): seq<byte> {
    if FateOf(relay, raw).Forwarded? then Rewrite(raw, relay[Uint32(raw[4..8])].teid) else raw
  }

  /** What becomes of every packet once there is a relay: a T-PDU (type 255) of 11
      octets or more for a TEID in the table goes to that TEID's peer, and only
      such; in all other cases the octets stay as they are. */
  lemma FateIff<C>(relay: map<uint32, Peer<C>>, raw: seq<byte>)
    requires relay != map[]
    ensures var fate, after := FateOf(relay, raw), PacketAfter(relay, raw);
      && (fate.Forwarded? <==> |raw| >= 11 && raw[1] == 255 && Uint32(raw[4..8]) in relay)
      && (fate.Forwarded? ==>
            var peer := relay[Uint32(raw[4..8])];
            fate == Forwarded(peer.srcConn, peer.addr) && after == raw[..4] + PutUint32(peer.teid) + raw[8..])
      && (!fate.Forwarded? ==> after == raw)
      && (fate == Panicked <==> |raw| < 2)
      && (fate == Dropped <==> 2 <= |raw| < 11 && raw[1] == 255)
  {
  }

  /** Without one, all packets go to the handlers. */
  lemma NoRelayNoFate<C>(raw: seq<byte>)
    ensures var none: map<uint32, Peer<C>> := map[]; FateOf(none, raw) == Handled && PacketAfter(none, raw) == raw
  {
  }

  /** A T-PDU on the wire. */
  function TPDUFor(teid: uint32, payload: seq<byte>): (b: seq<byte>)
    requires |payload| < 0x1_0000
    ensures |b| == 8 + |payload|
  {
    [0x30, 255, |payload| / 0x100, |payload| % 0x100] + PutUint32(teid) + payload
  }

  /** It is sent on to the peer, by the peer's connection, and decapsulates there
      to the peer's TEID and the same payload. */
  ghost predicate Carries<C>(relay: map<uint32, Peer<C>>, teid: uint32, payload: seq<byte>, peer: Peer<C>)
    requires |payload| < 0x1_0000
  {
    var raw := Received(TPDUFor(teid, payload));
    && FateOf(relay, raw) == Forwarded(peer.srcConn, peer.addr)
    && Decapsulate(PacketAfter(relay, raw)) == Done((peer.teid, payload))
  }

  /** What relaying is for: every T-PDU of 3 to 1492 octets for a TEID in the
      table arrives. */
  lemma EntryCarries<C>(relay: map<uint32, Peer<C>>, teid: uint32, payload: seq<byte>)
    requires teid in relay && 3 <= |payload| <= 1492
    ensures Carries(relay, teid, payload, relay[teid])
  {
    var b := TPDUFor(teid, payload);
    TPDUOctets(teid, 0, payload);
    assert b == Encode(NewTPDU(teid, payload), [0, 0]);
    EncodedParts(NewTPDU(teid, payload), [0, 0]);
    EncapsulateIff(teid, payload);
    DecapsulateHop(b, relay[teid].teid);
  }

  /** So from the moment `RelayTo` has set the entry. */
  lemma RelayCarries<C>(s: Tables<C>, teid: uint32, peer: Peer<C>, payload: seq<byte>)
    requires 3 <= |payload| <= 1492
    ensures Carries(Step(s, Relay(teid, peer)).relay, teid, payload, peer)
  {
    EntryCarries(Step(s, Relay(teid, peer)).relay, teid, payload);
  }

  /** The octets of a payload that a relay can pass on: those that lie within
      its buffer. */
  function Passing(packet: seq<byte>, payload: seq<byte>): seq<byte>
    requires packet != []
  {
    First(payload, BUFFER - Offset(packet[0]))
  }

  /** A packet that is forwarded carries, for whoever decapsulates it, the TEID of
      the table entry and the payload it came with, cut to what the buffer holds;
      the rewrite is in place, yet nothing but the TEID is different. */
  lemma ForwardingKeepsPayload<C>(relay: map<uint32, Peer<C>>, packet: seq<byte>)
    requires FateOf(relay, Received(packet)).Forwarded?
    ensures var raw := Received(packet); var sent := PacketAfter(relay, raw); var teid := relay[Uint32(raw[4..8])].teid;
      && sent == Hop(packet, teid)
      && Decapsulate(sent) == Readdressed(Decapsulate(raw), teid)
      && (Decapsulate(packet).Done? ==>
            Decapsulate(sent) == Done((teid, Passing(packet, Decapsulate(packet).value.1))))
  {
    var raw := Received(packet);
    DecapsulateHop(packet, relay[Uint32(raw[4..8])].teid);
    if Decapsulate(packet).Done? {
      ReceivedParse(packet);
      if |packet| <= BUFFER {
        PayloadWithin(packet);
      }
    }
  }

  lemma PayloadWithin(packet: seq<byte>)
    requires Parse(packet).Done?
    ensures |Parse(packet).value.payload| <= |packet| - Offset(packet[0])
  {
  }

  /** What the owner of a connection does with it; packets change nothing. */
  datatype Op<C> = Alloc(draws: seq<uint32>) | Relay(teidIn: uint32, peer: Peer<C>) | Close(teidIn: uint32)

  function Step<C>(s: Tables<C>, op: Op<C>): Tables<C> {
    match op
    case Alloc(draws) => s.(taken := Take(s.taken, FirstUsable(s.taken, draws)))
    case Relay(teidIn, peer) => s.(relay := s.relay[teidIn := peer])
    case Close(teidIn) => Tables(s.taken - {teidIn}, s.relay - {teidIn})
  }

  class UPlaneConn {
    var kernelGTP: bool
    /** The keys of `iteiMap`; the times stored with them are never read. */
    var taken: set<uint32>
    var relayMap: map<uint32, Peer<UPlaneConn>>

    constructor ()
      ensures taken == {} && relayMap == map[] && !kernelGTP
    {
      kernelGTP, taken, relayMap := false, {}, map[];
    }

    ghost function State(): Tables<UPlaneConn>
      reads this
    {
      Tables(taken, relayMap)
    }

    /** Tries one random number after another, 65535 at most. */
    method NewFTEID(draws: seq<uint32>) returns (teid: Option<uint32>)
      requires |draws| == 0xffff
      modifies this`taken
      ensures teid == FirstUsable(old(taken), draws)
      ensures State() == Step(old(State()), Alloc(draws))
    {
      teid := None;
      for try := 0 to 0xffff
        invariant taken == old(taken) && teid == None
        invariant FirstUsable(taken, draws) == FirstUsable(taken, draws[try..])
      {
        var t := draws[try];
        assert draws[try..][0] == t && draws[try..][1..] == draws[try + 1..];
        if t == 0 {
          continue;
        }
        if t in taken {
          continue;
        }
        taken := taken + {t};
        teid := Some(t);
        break;
      }
    }

    method RelayTo(c: UPlaneConn, teidIn: uint32, teidOut: uint32, raddr: Option<string>) returns (ok: bool)
      modifies this`relayMap
      ensures ok == !kernelGTP
      ensures State() == if ok then Step(old(State()), Relay(teidIn, Peer(teidOut, raddr, c))) else old(State())
    {
      if kernelGTP {
        return false;
      }
      relayMap := relayMap[teidIn := Peer(teidOut, raddr, c)];
      ok := true;
    }

    method CloseRelay(teidIn: uint32) returns (ok: bool)
      modifies this`relayMap, this`taken
      ensures ok == !kernelGTP
      ensures State() == if ok then Step(old(State()), Close(teidIn)) else old(State())
    {
      if kernelGTP {
        return false;
      }
      relayMap := relayMap - {teidIn};
      taken := taken - {teidIn};
      ok := true;
    }

    /** One packet on the wire: read into the buffer, copied out of it and, if it
        is forwarded, changed in place. */
    method Receive(packet: seq<byte>) returns (raw: array<byte>, fate: Fate<UPlaneConn>)
      ensures fresh(raw)
      ensures fate == FateOf(relayMap, Received(packet))
      ensures raw[..] == PacketAfter(relayMap, Received(packet))
    {
      var n := if |packet| <= BUFFER then |packet| else BUFFER;
      raw := new byte[n](k requires 0 <= k < n => packet[k]);
      assert raw[..] == Received(packet);
      fate := Forward(raw);
    }

    /** The relay branch. */
    method Forward(raw: array<byte>) returns (fate: Fate<UPlaneConn>)
      modifies raw
      ensures fate == FateOf(relayMap, old(raw[..]))
      ensures raw[..] == PacketAfter(relayMap, old(raw[..]))
    {
      var n := raw.Length;
      if relayMap != map[] {
        if n < 2 {
          return Panicked;
        }
        if raw[1] == TPDU {
          if n < 11 {
            return Dropped;
          }
          var key := Uint32(raw[4..8]);
          assert raw[4..8] == raw[..][4..8];
          if key !in relayMap {
            return Handled;
          }
          var peer := relayMap[key];
          Copy(raw, 4, PutUint32(peer.teid));
          return Forwarded(peer.srcConn, peer.addr);
        }
      }
      fate := Handled;
    }
  }

  function Run<C>(ops: seq<Op<C>>): Tables<C> {
    if ops == [] then Tables({}, map[]) else Step(Run(ops[..|ops| - 1]), ops[|ops| - 1])
  }

  /** The TEIDs handed out and not closed since, oldest first, kept as the
      owner would keep them, without the tables. */
  function Live<C>(ops: seq<Op<C>>): seq<uint32> {
    if ops == [] then []
    else
      var before, op := ops[..|ops| - 1], ops[|ops| - 1];
      match op
      case Alloc(draws) =>
        var t := FirstUsable(Run(before).taken, draws);
        Live(before) + if t.Some? then [t.value] else []
      case Relay(_, _) => Live(before)
      case Close(teidIn) => Drop(Live(before), teidIn)
  }

  function Drop(ts: seq<uint32>, t: uint32): (r: seq<uint32>)
    ensures forall u :: u in r <==> u in ts && u != t
  {
    if ts == [] then [] else (if ts[0] == t then [] else [ts[0]]) + Drop(ts[1..], t)
  }

  predicate Distinct(ts: seq<uint32>) {
    forall i, j :: 0 <= i < j < |ts| ==> ts[i] != ts[j]
  }

  lemma {:induction false} DropDistinct(ts: seq<uint32>, t: uint32)
    requires Distinct(ts)
    ensures Distinct(Drop(ts, t))
  {
    if ts != [] {
      DropDistinct(ts[1..], t);
      var rest := Drop(ts[1..], t);
      forall u | u in rest ensures u != ts[0] {
        assert u in ts[1..];
      }
      if ts[0] != t {
        DistinctCons(ts[0], rest);
      }
      assert Drop(ts, t) == if ts[0] == t then rest else [ts[0]] + rest;
    }
  }

  lemma DistinctCons(t: uint32, ts: seq<uint32>)
    requires Distinct(ts) && t !in ts
    ensures Distinct([t] + ts)
  {
  }

  /** The owner relays only on TEIDs it was given and has not closed. */
  predicate Disciplined<C>(ops: seq<Op<C>>) {
    forall k :: 0 <= k < |ops| && ops[k].Relay? ==> ops[k].teidIn in Live(ops[..k])
  }

  /** In every run: the pool is exactly the set of live TEIDs, these are pairwise
      distinct and none is zero; and in every disciplined run only live TEIDs
      have a relay. */
  lemma {:induction false} PoolIsLive<C>(ops: seq<Op<C>>)
    ensures Distinct(Live(ops)) && 0 !in Live(ops)
    ensures forall t :: t in Run(ops).taken <==> t in Live(ops)
    ensures Disciplined(ops) ==> Run(ops).relay.Keys <= Run(ops).taken
    decreases |ops|
  {
    if ops != [] {
      var before, op := ops[..|ops| - 1], ops[|ops| - 1];
      PoolIsLive(before);
      if Disciplined(ops) {
        DisciplinedBefore(ops);
      }
      if op.Close? {
        DropDistinct(Live(before), op.teidIn);
      }
    }
  }

  lemma DisciplinedBefore<C>(ops: seq<Op<C>>)
    requires ops != [] && Disciplined(ops)
    ensures Disciplined(ops[..|ops| - 1])
    ensures ops[|ops| - 1].Relay? ==> ops[|ops| - 1].teidIn in Live(ops[..|ops| - 1])
  {
    var before := ops[..|ops| - 1];
    forall k | 0 <= k < |before| && before[k].Relay? ensures before[k].teidIn in Live(before[..k]) {
      assert before[..k] == ops[..k] && before[k] == ops[k];
    }
  }

  /** The peer a TEID should have: that of the last relay for it, unless it was
      closed after that. */
  function LastPeer<C>(ops: seq<Op<C>>, t: uint32): Option<Peer<C>> {
    if ops == [] then None
    else
      var before, op := ops[..|ops| - 1], ops[|ops| - 1];
      if op.Relay? && op.teidIn == t then Some(op.peer)
      else if op.Close? && op.teidIn == t then None
      else LastPeer(before, t)
  }

  lemma {:induction false} TableIsLastPeer<C>(ops: seq<Op<C>>, t: uint32)
    ensures if t in Run(ops).relay then LastPeer(ops, t) == Some(Run(ops).relay[t]) else LastPeer(ops, t) == None
    decreases |ops|
  {
    if ops != [] {
      TableIsLastPeer(ops[..|ops| - 1], t);
    }
  }

  /** A TEID that is handed out, for the first time or again, has no peer until
      its new owner sets one: packets for it are never forwarded to where an
      earlier owner sent them. */
  lemma {:induction false} ReissuedHasNoPeer<C>(ops: seq<Op<C>>, draws: seq<uint32>, t: uint32, more: seq<Op<C>>)
    requires Disciplined(ops) && FirstUsable(Run(ops).taken, draws) == Some(t)
    requires forall op :: op in more && op.Relay? ==> op.teidIn != t
    ensures t !in Run(ops + [Alloc(draws)] + more).relay
    decreases |more|
  {
    var all := ops + [Alloc(draws)] + more;
    if more == [] {
      assert all[..|all| - 1] == ops;
      PoolIsLive(ops);
    } else {
      assert all[..|all| - 1] == ops + [Alloc(draws)] + more[..|more| - 1];
      assert all[|all| - 1] == more[|more| - 1] && more[|more| - 1] in more;
      ReissuedHasNoPeer(ops, draws, t, more[..|more| - 1]);
    }
  }

  /** Allocation fails only when all draws were zero or live. */
  lemma AllocFailsIff<C>(ops: seq<Op<C>>, draws: seq<uint32>)
    ensures FirstUsable(Run(ops).taken, draws) == None <==> forall t :: t in draws ==> t == 0 || t in Live(ops)
  {
    PoolIsLive(ops);
    forall t ensures Usable(Run(ops).taken, t) <==> t != 0 && t !in Live(ops) {
    }
  }
}
