/** That the gateway carries traffic: from a Modify Bearer Request that gets to
    the relays on, the T-PDUs of its subscriber are sent on in both directions. */
module GatewayTraffic {
  import opened Octets
  import U = UPlane
  import G = GtpuHeader
  import opened Registry
  import opened Gateway
  import opened GatewaySafety
  import opened GatewayRelays
  import opened GatewayExamples

  /** Right after the request, uplink T-PDUs go by S5-U to the tunnel stored in
      the S5 session's bearer, downlink ones by S1-U to that in the S11 session's. */
  lemma ModifyCarries<S, C>(st: State<S, C>, teid: uint32, from: string, cs: Option<seq<Child>>, payload: seq<byte>)
    requires Sound(st) && RelaysOf(st, teid, from, cs).Some? && 3 <= |payload| <= 1492
    ensures var r, n := RelaysOf(st, teid, from, cs).value, Modify(st, teid, from, cs);
      && n.Some? && r.s5 in n.value.s5.sessions && r.s11 in n.value.s11.sessions
      && var up, down := n.value.s5.sessions[r.s5].tunnel, n.value.s11.sessions[r.s11].tunnel;
      && U.Carries(n.value.s1u.relay, r.up, payload, U.Peer(up.teid, up.addr, st.s5uConn))
      && U.Carries(n.value.s5u.relay, r.down, payload, U.Peer(down.teid, down.addr, st.s1uConn))
  {
    RelayedCurrent(st, teid, from, cs);
    ModifyRelays(st, teid, from, cs);
    var r, n := RelaysOf(st, teid, from, cs).value, Modify(st, teid, from, cs).value;
    U.EntryCarries(n.s1u.relay, r.up, payload);
    U.EntryCarries(n.s5u.relay, r.down, payload);
  }

  /** No step of the gateway takes an entry out of the tables. */
  lemma StepKeepsEntries<S, C>(st: State<S, C>, event: Event<S>)
    requires Sound(st) && Enabled(st, event) && Step(st, event).Some?
    ensures st.s1u.relay.Keys <= Step(st, event).value.s1u.relay.Keys
    ensures st.s5u.relay.Keys <= Step(st, event).value.s5u.relay.Keys
  {
    match event
    case DoCreate(m, mme, e) => CreateLeaves(st, m, mme, e);
    case DoResume(w, timeout, draws, responded) => ResumeLeaves(st, w, timeout, draws, responded);
    case DoAnswer(teid, from, m) => AnswerLeaves(st, teid, from, m);
    case DoModify(teid, from, cs) => ModifyRelays(st, teid, from, cs);
  }

  ghost predicate HasEntries<S, C>(s1uConn: C, s5uConn: C, events: seq<Event<S>>, up: uint32, down: uint32) {
    && Legal(s1uConn, s5uConn, events)
    && up in Run<S, C>(s1uConn, s5uConn, events).st.s1u.relay
    && down in Run<S, C>(s1uConn, s5uConn, events).st.s5u.relay
  }

  lemma {:induction false} RunKeepsEntries<S, C>(s1uConn: C, s5uConn: C, events: seq<Event<S>>, k: nat, up: uint32,
                                                 down: uint32)
    requires k <= |events| && Legal(s1uConn, s5uConn, events)
    requires HasEntries(s1uConn, s5uConn, events[..k], up, down)
    ensures HasEntries(s1uConn, s5uConn, events, up, down)
    decreases |events|
  {
    if k == |events| {
      assert events[..k] == events;
    } else {
      PrefixOfPrefix(events, k);
      LegalBefore(s1uConn, s5uConn, events);
      RunKeepsEntries(s1uConn, s5uConn, events[..|events| - 1], k, up, down);
      LastKeepsEntries(s1uConn, s5uConn, events, up, down);
    }
  }

  lemma PrefixOfPrefix<T>(s: seq<T>, k: nat)
    requires k < |s|
    ensures s[..|s| - 1][..k] == s[..k]
  {
  }

  lemma LastKeepsEntries<S, C>(s1uConn: C, s5uConn: C, events: seq<Event<S>>, up: uint32, down: uint32)
    requires events != [] && Legal(s1uConn, s5uConn, events)
    requires HasEntries(s1uConn, s5uConn, events[..|events| - 1], up, down)
    ensures HasEntries(s1uConn, s5uConn, events, up, down)
  {
    StepKeepsEntries(Run<S, C>(s1uConn, s5uConn, events[..|events| - 1]).st, events[|events| - 1]);
  }

  /** After these events, the next one gets to the relays, at these TEIDs. */
  ghost predicate Opens<S, C>(s1uConn: C, s5uConn: C, events: seq<Event<S>>, event: Event<S>, up: uint32,
                              down: uint32) {
    && Legal(s1uConn, s5uConn, events)
    && event.DoModify?
    && var r := RelaysOf(Run<S, C>(s1uConn, s5uConn, events).st, event.teid, event.from, event.children);
       r.Some? && r.value.up == up && r.value.down == down
  }

  /** In every run, once a request of a subscriber has got to the relays, its
      T-PDUs of 3 to 1492 octets are sent on for ever after, uplink ones by S5-U
      and downlink ones by S1-U, into a tunnel of that subscriber and with their
      payload. */
  lemma RunCarries<S, C>(s1uConn: C, s5uConn: C, events: seq<Event<S>>, k: nat, up: uint32, down: uint32,
                         payload: seq<byte>)
    requires k < |events| && Legal(s1uConn, s5uConn, events)
    requires Opens(s1uConn, s5uConn, events[..k], events[k], up, down)
    requires 3 <= |payload| <= 1492
    ensures var w := Run<S, C>(s1uConn, s5uConn, events);
      && CarriedFor(w.st.s1u.relay, up, payload, w.h.s1u, w.h.pgw, s5uConn)
      && CarriedFor(w.st.s5u.relay, down, payload, w.h.s5u, w.h.eNB, s1uConn)
  {
    LegalPrefix(s1uConn, s5uConn, events, k + 1);
    PrefixOpens(s1uConn, s5uConn, events[..k + 1], events[..k], events[k], events, k, up, down);
    RunKeepsEntries(s1uConn, s5uConn, events, k + 1, up, down);
    BoundCarries(s1uConn, s5uConn, Run<S, C>(s1uConn, s5uConn, events), up, down, payload);
  }

  /** It goes by that connection into a tunnel of the TEID's subscriber. */
  ghost predicate CarriedFor<C>(relay: map<uint32, U.Peer<C>>, teid: uint32, payload: seq<byte>,
                                issued: map<uint32, string>, announced: set<(string, Tunnel)>, other: C)
    requires |payload| < 0x1_0000
  {
    teid in issued && exists t: Tunnel ::
      TunnelOK(issued[teid], t, announced) && U.Carries(relay, teid, payload, U.Peer(t.teid, t.addr, other))
  }

  lemma LegalPrefix<S, C>(s1uConn: C, s5uConn: C, events: seq<Event<S>>, k: nat)
    requires k <= |events| && Legal(s1uConn, s5uConn, events)
    ensures Legal(s1uConn, s5uConn, events[..k])
  {
    RunOwnersStay<S, C>(s1uConn, s5uConn, events, k);
  }

  lemma OpenedEntries<S, C>(s1uConn: C, s5uConn: C, events: seq<Event<S>>, before: seq<Event<S>>, event: Event<S>,
                            up: uint32, down: uint32)
    requires events != [] && Legal(s1uConn, s5uConn, events)
    requires before == events[..|events| - 1] && event == events[|events| - 1]
    requires Opens(s1uConn, s5uConn, before, event, up, down)
    ensures HasEntries(s1uConn, s5uConn, events, up, down)
  {
    ModifyRelays(Run<S, C>(s1uConn, s5uConn, before).st, event.teid, event.from, event.children);
  }

  lemma PrefixOpens<S, C>(s1uConn: C, s5uConn: C, es: seq<Event<S>>, before: seq<Event<S>>, event: Event<S>,
                          events: seq<Event<S>>, k: nat, up: uint32, down: uint32)
    requires k < |events| && es == events[..k + 1] && before == events[..k] && event == events[k]
    requires Legal(s1uConn, s5uConn, es) && Opens(s1uConn, s5uConn, before, event, up, down)
    ensures HasEntries(s1uConn, s5uConn, es, up, down)
  {
    PrefixParts(events, k);
    OpenedEntries(s1uConn, s5uConn, es, before, event, up, down);
  }

  lemma PrefixParts<T>(s: seq<T>, k: nat)
    requires k < |s|
    ensures s[..k + 1] != [] && s[..k + 1][..|s[..k + 1]| - 1] == s[..k] && s[..k + 1][|s[..k + 1]| - 1] == s[k]
  {
  }

  lemma BoundCarries<S, C>(s1uConn: C, s5uConn: C, w: World<S, C>, up: uint32, down: uint32, payload: seq<byte>)
    requires Inv(w.st, w.h) && w.st.s1uConn == s1uConn && w.st.s5uConn == s5uConn && 3 <= |payload| <= 1492
    requires up in w.st.s1u.relay && down in w.st.s5u.relay
    ensures CarriedFor(w.st.s1u.relay, up, payload, w.h.s1u, w.h.pgw, s5uConn)
    ensures CarriedFor(w.st.s5u.relay, down, payload, w.h.s5u, w.h.eNB, s1uConn)
  {
    EntryCarriedFor(w.st.s1u, up, payload, w.h.s1u, w.h.pgw, s5uConn);
    EntryCarriedFor(w.st.s5u, down, payload, w.h.s5u, w.h.eNB, s1uConn);
  }

  lemma EntryCarriedFor<C>(s: U.Tables<C>, teid: uint32, payload: seq<byte>, issued: map<uint32, string>,
                           announced: set<(string, Tunnel)>, other: C)
    requires Bound(s, issued, announced, other) && teid in s.relay && 3 <= |payload| <= 1492
    ensures CarriedFor(s.relay, teid, payload, issued, announced, other)
  {
    U.EntryCarries(s.relay, teid, payload);
    var t := EntryAt(s, teid);
    assert s.relay[teid] == U.Peer(t.teid, t.addr, other);
  }

  /** From the first message to the last octet, for any subscriber: it attaches,
      the MME names the eNB's tunnel (interface type 0), and then every uplink
      T-PDU is sent to port 2152 of the P-GW and every downlink one to port 2152
      of the eNB, under the TEIDs that these chose. */
  lemma AttachmentCarries<S, C>(s1uConn: C, s5uConn: C, a: Attachment<S>, eNB: FTEID, payload: seq<byte>)
    returns (w: World<S, C>)
    requires a.imsi != "" && a.t11 != 0 && a.t5 != 0 && a.t1u != 0 && a.t5u != 0
    requires a.pgw.ifType == 7 && a.userPlane.ifType == 5 && eNB.ifType == 0 && 3 <= |payload| <= 1492
    ensures Reaches(s1uConn, s5uConn, Messages(a, 1) + [DoModify(a.t11, a.mme, Some([UserPlane(Some(eNB))]))], w)
    ensures U.Carries(w.st.s1u.relay, a.t1u, payload,
                      U.Peer(a.userPlane.teid, Some(a.userPlane.ip + ":2152"), s5uConn))
    ensures U.Carries(w.st.s5u.relay, a.t5u, payload, U.Peer(eNB.teid, Some(eNB.ip + ":2152"), s1uConn))
  {
    var v := AloneReached<S, C>(s1uConn, s5uConn, a);
    ModifyReached(s1uConn, s5uConn, Messages(a, 1), v, a, eNB);
    w := AfterModify(v, a, eNB);
    U.EntryCarries(w.st.s1u.relay, a.t1u, payload);
    U.EntryCarries(w.st.s5u.relay, a.t5u, payload);
  }
}
