/** What the redirection keeps over whole runs of packets and cleanups. Queries read the tables
    between any two steps and change nothing, so every theorem about them speaks of the state
    they find.

    The environment is stated by `Admissible`: the clock does not run backwards, a lookup selects
    only listening ports, and a packet sent from a listening port is not itself selected for
    redirection. `Genuine` says that packets do not carry IPv4-mapped IPv6 addresses. */
module NatRuns {
  import opened Net
  import opened UdpTable
  import opened Flow
  import Runs

  datatype Event =
    | TcpPacket(e: Endpoints, flags: Flags, lookup: u16)
    | UdpPacket(e: Endpoints, lookup: u16, now: Instant)
    | Cleanup(now: Instant)

  datatype NatState = NatState(tcp: TcpTable, byFlow: FlowTable, byPeer: PeerIndex, clock: Instant)

  const INITIAL := NatState(map[], map[], map[], 0)

  ghost function Step(proxies: seq<ProxyPorts>, s: NatState, event: Event): NatState {
    match event
    case TcpPacket(e, flags, lookup) =>
      s.(tcp := TcpStep(s.tcp, proxies, e, flags, lookup).table)
    case UdpPacket(e, lookup, now) =>
      var o := UdpStep(s.byFlow, s.byPeer, proxies, e, now, lookup);
      s.(byFlow := o.byFlow, byPeer := o.byPeer, clock := now)
    case Cleanup(now) =>
      var kept := Retained(s.byFlow, FreshAt(now));
      s.(byFlow := kept, byPeer := RebuiltIndex(kept), clock := now)
  }

  ghost predicate Admissible(proxies: seq<ProxyPorts>, s: NatState, event: Event) {
    match event
    case TcpPacket(e, _, lookup) =>
      lookup != 0 ==> IsProxyPort(proxies, Tcp, lookup) && !IsProxyPort(proxies, Tcp, e.src.port)
    case UdpPacket(e, lookup, now) =>
      && s.clock <= now
      && (lookup != 0 ==> IsProxyPort(proxies, Udp, lookup) && !IsProxyPort(proxies, Udp, e.src.port))
    case Cleanup(now) => s.clock <= now
  }

  ghost function NextIn(proxies: seq<ProxyPorts>): (NatState, Event) -> Option<NatState> {
    (s, event) => if Admissible(proxies, s, event) then Some(Step(proxies, s, event)) else None
  }

  /** The state after a run, if every event of it is admissible where it happens. */
  ghost function After(proxies: seq<ProxyPorts>, s: NatState, events: seq<Event>): Option<NatState> {
    Runs.Run(NextIn(proxies), s, events)
  }

  ghost predicate Reachable(proxies: seq<ProxyPorts>, s: NatState) {
    Runs.Reachable(NextIn(proxies), INITIAL, s)
  }

  predicate Genuine(e: Endpoints) {
    !IsMapped(e.src.ip) && !IsMapped(e.dst.ip)
  }

  // ---- The invariant ----

  ghost predicate TcpInvariant(proxies: seq<ProxyPorts>, tcp: TcpTable) {
    forall k | k in tcp ::
      && tcp[k].dstIp == k.dstIp
      && !IsProxyPort(proxies, Tcp, k.srcPort)
      && tcp[k].proxyPort != 0 && IsProxyPort(proxies, Tcp, tcp[k].proxyPort)
  }

  ghost predicate FlowInvariant(proxies: seq<ProxyPorts>, k: UdpFlowKey, m: UdpPortMapping, clock: Instant) {
    && m.dstIp == k.dstIp
    && !IsProxyPort(proxies, Udp, k.srcPort)
    && m.proxyPort != 0 && IsProxyPort(proxies, Udp, m.proxyPort)
    && m.lastActive <= clock
  }

  ghost predicate UdpInvariant(proxies: seq<ProxyPorts>, byFlow: FlowTable, clock: Instant) {
    forall k | k in byFlow :: FlowInvariant(proxies, k, byFlow[k], clock)
  }

  ghost predicate Invariant(proxies: seq<ProxyPorts>, s: NatState) {
    && TcpInvariant(proxies, s.tcp)
    && UdpInvariant(proxies, s.byFlow, s.clock)
    && Agrees(s.byPeer, s.byFlow.Keys)
  }

  lemma UdpStepKeepsAgreement(proxies: seq<ProxyPorts>, s: NatState, e: Endpoints, lookup: u16, now: Instant)
    requires Agrees(s.byPeer, s.byFlow.Keys)
    ensures var o := UdpStep(s.byFlow, s.byPeer, proxies, e, now, lookup); Agrees(o.byPeer, o.byFlow.Keys)
  {
    var key := ClientUdpKey(e);
    var o := UdpStep(s.byFlow, s.byPeer, proxies, e, now, lookup);
    if key !in s.byFlow && lookup != 0 {
      InsertKeepsAgreement(s.byPeer, s.byFlow.Keys, key);
      assert o.byFlow.Keys == s.byFlow.Keys + {key};
    } else {
      assert o.byFlow.Keys == s.byFlow.Keys;
    }
  }

  lemma UdpStepKeepsFlows(proxies: seq<ProxyPorts>, s: NatState, e: Endpoints, lookup: u16, now: Instant)
    requires UdpInvariant(proxies, s.byFlow, s.clock) && Admissible(proxies, s, UdpPacket(e, lookup, now))
    ensures UdpInvariant(proxies, UdpStep(s.byFlow, s.byPeer, proxies, e, now, lookup).byFlow, now)
  {
    var after := UdpStep(s.byFlow, s.byPeer, proxies, e, now, lookup).byFlow;
    forall k | k in after ensures FlowInvariant(proxies, k, after[k], now) {
      assert k in s.byFlow ==> FlowInvariant(proxies, k, s.byFlow[k], s.clock);
    }
  }

  lemma TcpStepKeepsMappings(proxies: seq<ProxyPorts>, s: NatState, e: Endpoints, flags: Flags, lookup: u16)
    requires TcpInvariant(proxies, s.tcp) && Admissible(proxies, s, TcpPacket(e, flags, lookup))
    ensures TcpInvariant(proxies, TcpStep(s.tcp, proxies, e, flags, lookup).table)
  {
  }

  lemma StepKeepsInvariant(proxies: seq<ProxyPorts>, s: NatState, event: Event)
    requires Invariant(proxies, s) && Admissible(proxies, s, event)
    ensures Invariant(proxies, Step(proxies, s, event))
  {
    match event
    case TcpPacket(e, flags, lookup) => TcpStepKeepsMappings(proxies, s, e, flags, lookup);
    case UdpPacket(e, lookup, now) =>
      UdpStepKeepsAgreement(proxies, s, e, lookup, now);
      UdpStepKeepsFlows(proxies, s, e, lookup, now);
    case Cleanup(now) => RebuiltIndexAgrees(Retained(s.byFlow, FreshAt(now)));
  }

  lemma RunKeepsInvariant(proxies: seq<ProxyPorts>, s: NatState, events: seq<Event>)
    requires Invariant(proxies, s) && After(proxies, s, events).Some?
    ensures Invariant(proxies, After(proxies, s, events).value)
  {
    var next := NextIn(proxies);
    forall t, event | Invariant(proxies, t) && next(t, event).Some? ensures Invariant(proxies, next(t, event).value) {
      StepKeepsInvariant(proxies, t, event);
    }
    Runs.RunKeeps(next, t => Invariant(proxies, t), s, events);
  }

  /** In every reachable state the tables satisfy the invariant; in particular the peer index
      agrees with the flow table and no mapped client port is a listening port. */
  lemma ReachableInvariant(proxies: seq<ProxyPorts>, s: NatState)
    requires Reachable(proxies, s)
    ensures Invariant(proxies, s)
  {
    var events :| Runs.Run(NextIn(proxies), INITIAL, events) == Some(s);
    IndexInOrderAgrees([]);
    assert INITIAL.byFlow.Keys == Elements<UdpFlowKey>([]);
    RunKeepsInvariant(proxies, INITIAL, events);
  }

  // ---- TCP ----

  /** A FIN or RST of the flow under `k`, sent by the client or by the proxy. */
  ghost predicate ClosesFlow(proxies: seq<ProxyPorts>, event: Event, k: TcpKey) {
    && event.TcpPacket?
    && (event.flags.fin || event.flags.rst)
    && ((ClientTcpKey(event.e) == k && !(event.flags.syn && !event.flags.ack))
        || (ReplyTcpKey(event.e) == k && IsProxyPort(proxies, Tcp, event.e.src.port)))
  }

  /** A mapping survives a step, unchanged, exactly when the step does not close its flow. */
  lemma MappingEndsOnlyByClosing(proxies: seq<ProxyPorts>, s: NatState, event: Event, k: TcpKey)
    requires Invariant(proxies, s) && Admissible(proxies, s, event) && k in s.tcp
    ensures var after := Step(proxies, s, event).tcp;
            && (k in after <==> !ClosesFlow(proxies, event, k))
            && (k in after ==> after[k] == s.tcp[k])
  {
  }

  lemma {:induction false} MappingLasts(proxies: seq<ProxyPorts>, s: NatState, events: seq<Event>, k: TcpKey)
    requires Invariant(proxies, s) && After(proxies, s, events).Some? && k in s.tcp
    requires forall i | 0 <= i < |events| :: !ClosesFlow(proxies, events[i], k)
    ensures var after := After(proxies, s, events).value.tcp; k in after && after[k] == s.tcp[k]
    decreases |events|
  {
    if events != [] {
      MappingEndsOnlyByClosing(proxies, s, events[0], k);
      StepKeepsInvariant(proxies, s, events[0]);
      MappingLasts(proxies, Step(proxies, s, events[0]), events[1..], k);
    }
  }

  /** What a live mapping means for the three parties: the client's segments after the SYN are
      turned to the recorded port, the proxy is told the recorded destination, and its replies
      leave as the real server's. */
  ghost predicate TcpTransparent(proxies: seq<ProxyPorts>, tcp: TcpTable, c: Endpoints, proxyPort: u16) {
    var seen := Redirected(c, ToProxy(proxyPort));
    && (forall flags: Flags, lookup | !flags.Opens() ::
          TcpStep(tcp, proxies, c, flags, lookup).rewrite == Some(ToProxy(proxyPort)))
    && QueryTcp(tcp, AsSeenByListener(seen.src), AsSeenByListener(seen.dst)) == Some(c.dst)
    && (forall flags: Flags ::
          var r := TcpStep(tcp, proxies, Endpoints(seen.dst, seen.src), flags, 0).rewrite;
          && r.Some? && r.value.FromProxy?
          && Redirected(Endpoints(seen.dst, seen.src), r.value) == Endpoints(c.dst, c.src))
  }

  lemma LiveMappingIsTransparent(proxies: seq<ProxyPorts>, tcp: TcpTable, c: Endpoints)
    requires TcpInvariant(proxies, tcp) && Genuine(c)
    requires ClientTcpKey(c) in tcp && tcp[ClientTcpKey(c)].dstPort == c.dst.port
    ensures TcpTransparent(proxies, tcp, c, tcp[ClientTcpKey(c)].proxyPort)
  {
    var proxyPort := tcp[ClientTcpKey(c)].proxyPort;
    var seen := Redirected(c, ToProxy(proxyPort));
    NormalizeUndoesListener(seen.src);
    NormalizeUndoesListener(seen.dst);
    var reply := Endpoints(seen.dst, seen.src);
    assert ReplyTcpKey(reply) == ClientTcpKey(c);
    forall flags: Flags
      ensures TcpStep(tcp, proxies, reply, flags, 0).rewrite == Some(FromProxy(c.dst.port))
    {
      assert IsProxyPort(proxies, Tcp, reply.src.port);
      assert ClientTcpKey(reply) !in tcp;
    }
  }

  /** From the SYN that creates a mapping on, and as long as neither side has sent a FIN or RST
      of that flow, the redirection is transparent, whatever else the run contains. */
  lemma {:induction false} TcpTransparentOverRuns(proxies: seq<ProxyPorts>, s: NatState, c: Endpoints, flags: Flags,
                               lookup: u16, later: seq<Event>)
    requires Reachable(proxies, s) && Genuine(c)
    requires flags.Opens() && lookup != 0 && ClientTcpKey(c) !in s.tcp
    requires After(proxies, s, [TcpPacket(c, flags, lookup)] + later).Some?
    requires forall i | 0 <= i < |later| :: !ClosesFlow(proxies, later[i], ClientTcpKey(c))
    ensures TcpTransparent(proxies, After(proxies, s, [TcpPacket(c, flags, lookup)] + later).value.tcp, c, lookup)
  {
    var syn := TcpPacket(c, flags, lookup);
    var events := [syn] + later;
    assert events[0] == syn && events[1..] == later;
    ReachableInvariant(proxies, s);
    StepKeepsInvariant(proxies, s, syn);
    var s1 := Step(proxies, s, syn);
    MappingLasts(proxies, s1, later, ClientTcpKey(c));
    RunKeepsInvariant(proxies, s1, later);
    LiveMappingIsTransparent(proxies, After(proxies, s1, later).value.tcp, c);
  }

  /** The key of a mapping leaves out the destination port, and a later SYN does not replace a
      mapping. A redirected SYN is answered with its own destination exactly when no mapping was
      there or the one there already had that port. */
  lemma RedirectedSynQuery(proxies: seq<ProxyPorts>, s: NatState, c: Endpoints, flags: Flags, lookup: u16)
    requires Invariant(proxies, s) && Genuine(c) && flags.Opens() && lookup != 0
    ensures var seen := Redirected(c, ToProxy(lookup));
            var tcp := TcpStep(s.tcp, proxies, c, flags, lookup).table;
            QueryTcp(tcp, AsSeenByListener(seen.src), AsSeenByListener(seen.dst)) == Some(c.dst)
            <==> (ClientTcpKey(c) !in s.tcp || s.tcp[ClientTcpKey(c)].dstPort == c.dst.port)
  {
    var seen := Redirected(c, ToProxy(lookup));
    NormalizeUndoesListener(seen.src);
    NormalizeUndoesListener(seen.dst);
  }

  /** Two connections from one client port to ports 80 and 443 of one server: the second SYN is
      redirected, and the proxy is told port 80 for it. */
  lemma SecondConnectionIsMisdirected()
    ensures
      var client, server := V4([192, 168, 0, 2]), V4([203, 0, 113, 10]);
      var proxies := [ProxyPorts(1081, 1081, 1082, 1082)];
      var syn := Flags(true, false, false, false);
      var first := Endpoints(SocketAddr(client, 50000), SocketAddr(server, 80));
      var second := first.(dst := SocketAddr(server, 443));
      var events := [TcpPacket(first, syn, 1081), TcpPacket(second, syn, 1081)];
      && After(proxies, INITIAL, events).Some?
      && (var seen := Redirected(second, ToProxy(1081));
          var tcp := After(proxies, INITIAL, events).value.tcp;
          QueryTcp(tcp, AsSeenByListener(seen.src), AsSeenByListener(seen.dst)) == Some(first.dst))
  {
    var client, server := V4([192, 168, 0, 2]), V4([203, 0, 113, 10]);
    var proxies := [ProxyPorts(1081, 1081, 1082, 1082)];
    var syn := Flags(true, false, false, false);
    var first := Endpoints(SocketAddr(client, 50000), SocketAddr(server, 80));
    var second := first.(dst := SocketAddr(server, 443));
    var e1, e2 := TcpPacket(first, syn, 1081), TcpPacket(second, syn, 1081);
    assert proxies[0].Port(Tcp, false) == 1081;
    assert [e1, e2][1..] == [e2] && [e2][1..] == [];
    var s1 := Step(proxies, INITIAL, e1);
    assert Admissible(proxies, INITIAL, e1) && Admissible(proxies, s1, e2);
    assert After(proxies, s1, [e2]) == After(proxies, Step(proxies, s1, e2), []);
    var seen := Redirected(second, ToProxy(1081));
    NormalizeUndoesListener(seen.src);
    NormalizeUndoesListener(seen.dst);
  }

  /** In every reachable state, a segment the proxy sends back to the endpoints it received from is
      turned round exactly when its mapping is live, and it then leaves from the recorded server
      address and port to the client's. It ends the mapping exactly when it is a FIN or RST. */
  lemma TcpReplyInverts(proxies: seq<ProxyPorts>, s: NatState, c: Endpoints, proxyPort: u16, flags: Flags)
    requires Reachable(proxies, s) && IsProxyPort(proxies, Tcp, proxyPort)
    ensures var seen := Redirected(c, ToProxy(proxyPort));
            var reply := Endpoints(seen.dst, seen.src);
            var key := ClientTcpKey(c);
            var o := TcpStep(s.tcp, proxies, reply, flags, 0);
            && (o.rewrite.Some? <==> key in s.tcp)
            && (o.rewrite.Some? ==>
                  && o.rewrite.value.FromProxy?
                  && Redirected(reply, o.rewrite.value)
                     == Endpoints(SocketAddr(c.dst.ip, s.tcp[key].dstPort), c.src))
            && o.table == (if flags.Closes() then s.tcp - {key} else s.tcp)
  {
    ReachableInvariant(proxies, s);
    var seen := Redirected(c, ToProxy(proxyPort));
    var reply := Endpoints(seen.dst, seen.src);
    assert ReplyTcpKey(reply) == ClientTcpKey(c);
    assert ClientTcpKey(reply) !in s.tcp;
  }

  /** While the mapping of a SYN lasts, a segment from that client port to that server goes to the
      recorded proxy port exactly when it does not open a connection, or its own lookup selects
      that port; it is let through as it is exactly when it opens one and its lookup fails. */
  lemma {:induction false} SegmentReachesRecordedPort(
      proxies: seq<ProxyPorts>, s: NatState, c: Endpoints, flags: Flags, lookup: u16, later: seq<Event>,
      e: Endpoints, eFlags: Flags, eLookup: u16)
    requires Reachable(proxies, s) && flags.Opens() && lookup != 0 && ClientTcpKey(c) !in s.tcp
    requires After(proxies, s, [TcpPacket(c, flags, lookup)] + later).Some?
    requires forall i | 0 <= i < |later| :: !ClosesFlow(proxies, later[i], ClientTcpKey(c))
    requires ClientTcpKey(e) == ClientTcpKey(c)
    ensures var end := After(proxies, s, [TcpPacket(c, flags, lookup)] + later).value;
            var r := TcpStep(end.tcp, proxies, e, eFlags, eLookup).rewrite;
            && (r == Some(ToProxy(lookup)) <==> !eFlags.Opens() || eLookup == lookup)
            && (r == None <==> eFlags.Opens() && eLookup == 0)
  {
    var syn := TcpPacket(c, flags, lookup);
    assert ([syn] + later)[1..] == later;
    ReachableInvariant(proxies, s);
    StepKeepsInvariant(proxies, s, syn);
    MappingLasts(proxies, Step(proxies, s, syn), later, ClientTcpKey(c));
    RunKeepsInvariant(proxies, s, [syn] + later);
  }

  /** A SYN redirected and then sent again with a failing lookup: the second is let through. */
  lemma RetransmittedSynIsLetThrough()
    ensures
      var c := Endpoints(SocketAddr(V4([192, 168, 0, 2]), 50000), SocketAddr(V4([203, 0, 113, 10]), 80));
      var proxies := [ProxyPorts(1081, 1081, 1082, 1082)];
      var syn := Flags(true, false, false, false);
      var end := After(proxies, INITIAL, [TcpPacket(c, syn, 1081)]);
      && end.Some? && TcpStep(INITIAL.tcp, proxies, c, syn, 1081).rewrite == Some(ToProxy(1081))
      && ClientTcpKey(c) in end.value.tcp && TcpStep(end.value.tcp, proxies, c, syn, 0).rewrite == None
  {
    var c := Endpoints(SocketAddr(V4([192, 168, 0, 2]), 50000), SocketAddr(V4([203, 0, 113, 10]), 80));
    var proxies := [ProxyPorts(1081, 1081, 1082, 1082)];
    var first := TcpPacket(c, Flags(true, false, false, false), 1081);
    assert proxies[0].Port(Tcp, false) == 1081;
    OneStep(proxies, INITIAL, first);
  }

  lemma OneStep(proxies: seq<ProxyPorts>, s: NatState, event: Event)
    requires Admissible(proxies, s, event)
    ensures After(proxies, s, [event]) == Some(Step(proxies, s, event))
  {
    var next := Step(proxies, s, event);
    assert NextIn(proxies)(s, event) == Some(next);
    assert [event][1..] == [] && After(proxies, next, []) == Some(next);
  }

  // ---- UDP ----

  /** A cleanup that comes 60 seconds or more after `t`. */
  ghost predicate LateCleanup(event: Event, t: Instant) {
    event.Cleanup? && event.now >= t + 60 * SECOND
  }

  /** A flow survives a step, with its destination and proxy port, exactly when the step is not a
      cleanup 60 seconds or more after its last client packet; it never becomes less active. */
  lemma FlowEndsOnlyByLateCleanup(proxies: seq<ProxyPorts>, s: NatState, event: Event, k: UdpFlowKey)
    requires Invariant(proxies, s) && Admissible(proxies, s, event) && k in s.byFlow
    ensures var after := Step(proxies, s, event).byFlow;
            && (k in after <==> !LateCleanup(event, s.byFlow[k].lastActive))
            && (k in after ==>
                  && after[k].(lastActive := 0) == s.byFlow[k].(lastActive := 0)
                  && s.byFlow[k].lastActive <= after[k].lastActive)
  {
  }

  lemma {:induction false} FlowLasts(proxies: seq<ProxyPorts>, s: NatState, events: seq<Event>, k: UdpFlowKey,
                                     t: Instant)
    requires Invariant(proxies, s) && After(proxies, s, events).Some?
    requires k in s.byFlow && t <= s.byFlow[k].lastActive
    requires forall i | 0 <= i < |events| :: !LateCleanup(events[i], t)
    ensures var after := After(proxies, s, events).value.byFlow;
            && k in after && after[k].dstIp == s.byFlow[k].dstIp && after[k].dstPort == s.byFlow[k].dstPort
            && after[k].proxyPort == s.byFlow[k].proxyPort
    decreases |events|
  {
    if events != [] {
      FlowEndsOnlyByLateCleanup(proxies, s, events[0], k);
      StepKeepsInvariant(proxies, s, events[0]);
      FlowLasts(proxies, Step(proxies, s, events[0]), events[1..], k, t);
    }
  }

  /** What the proxy learns about a redirected datagram: its own destination, or, when another
      flow to that server uses the same client port, that the mapping is ambiguous; with the
      client's address at hand, always its own destination. */
  ghost predicate UdpAnswersAreOwn(s: NatState, c: Endpoints, proxyPort: u16) {
    var seen := Redirected(c, ToProxy(proxyPort));
    var wildcard := QueryUdp(s.byFlow, s.byPeer, AsSeenByListener(seen.src), SocketAddr(UNSPECIFIED_V6, proxyPort));
    var sharing := Sharing(s.byFlow.Keys, UdpIndexKey(c.dst.ip, c.src.port));
    && (wildcard == Ambiguous <==> sharing != {ClientUdpKey(c)})
    && (wildcard != Ambiguous ==> wildcard == Found(c.dst.ip, c.dst.port))
    && (!IsUnspecified(c.src.ip) ==>
          QueryUdp(s.byFlow, s.byPeer, AsSeenByListener(seen.src), AsSeenByListener(seen.dst))
              == Found(c.dst.ip, c.dst.port))
  }

  lemma LiveFlowAnswers(proxies: seq<ProxyPorts>, s: NatState, c: Endpoints, proxyPort: u16)
    requires Invariant(proxies, s) && Genuine(c)
    requires ClientUdpKey(c) in s.byFlow && s.byFlow[ClientUdpKey(c)].dstPort == c.dst.port
    ensures UdpAnswersAreOwn(s, c, proxyPort)
  {
    var key := ClientUdpKey(c);
    var seen := Redirected(c, ToProxy(proxyPort));
    NormalizeUndoesListener(seen.src);
    NormalizeUndoesListener(seen.dst);
    var ik := UdpIndexKey(c.dst.ip, c.src.port);
    var sharing := Sharing(s.byFlow.Keys, ik);
    assert key in sharing;
    QueryRefinesScan(s.byFlow, s.byPeer, AsSeenByListener(seen.src), SocketAddr(UNSPECIFIED_V6, proxyPort));
    if |sharing| < 2 {
      AtMostOne(sharing, key);
    }
  }

  /** A redirected datagram's flow is live, with its own destination, until a cleanup runs 60
      seconds or more after it. */
  lemma {:induction false} FlowLivesOn(proxies: seq<ProxyPorts>, s: NatState, c: Endpoints, lookup: u16, t: Instant,
                                       later: seq<Event>)
    requires Reachable(proxies, s)
    requires After(proxies, s, [UdpPacket(c, lookup, t)] + later).Some?
    requires var r := UdpStep(s.byFlow, s.byPeer, proxies, c, t, lookup).rewrite; r.Some? && r.value.ToProxy?
    requires forall i | 0 <= i < |later| :: !LateCleanup(later[i], t)
    ensures var s' := After(proxies, s, [UdpPacket(c, lookup, t)] + later).value;
            var key := ClientUdpKey(c);
            && Invariant(proxies, s')
            && key in s'.byFlow && s'.byFlow[key].dstPort == c.dst.port
            && s'.byFlow[key].proxyPort == UdpStep(s.byFlow, s.byPeer, proxies, c, t, lookup).rewrite.value.port
  {
    var packet := UdpPacket(c, lookup, t);
    assert ([packet] + later)[1..] == later;
    ReachableInvariant(proxies, s);
    StepKeepsInvariant(proxies, s, packet);
    var s1 := Step(proxies, s, packet);
    var key := ClientUdpKey(c);
    assert key in s1.byFlow && s1.byFlow[key].dstPort == c.dst.port && s1.byFlow[key].lastActive == t;
    FlowLasts(proxies, s1, later, key, t);
    RunKeepsInvariant(proxies, s1, later);
  }

  /** A datagram redirected at time t is never misdirected: until a cleanup runs at t + 60 s or
      later, every query about it returns its own destination or says "ambiguous". */
  lemma {:induction false} UdpNeverMisdirected(proxies: seq<ProxyPorts>, s: NatState, c: Endpoints, lookup: u16,
                                               t: Instant, later: seq<Event>)
    requires Reachable(proxies, s) && Genuine(c)
    requires After(proxies, s, [UdpPacket(c, lookup, t)] + later).Some?
    requires var r := UdpStep(s.byFlow, s.byPeer, proxies, c, t, lookup).rewrite; r.Some? && r.value.ToProxy?
    requires forall i | 0 <= i < |later| :: !LateCleanup(later[i], t)
    ensures UdpAnswersAreOwn(After(proxies, s, [UdpPacket(c, lookup, t)] + later).value, c,
                             UdpStep(s.byFlow, s.byPeer, proxies, c, t, lookup).rewrite.value.port)
  {
    FlowLivesOn(proxies, s, c, lookup, t, later);
    LiveFlowAnswers(proxies, After(proxies, s, [UdpPacket(c, lookup, t)] + later).value, c,
                    UdpStep(s.byFlow, s.byPeer, proxies, c, t, lookup).rewrite.value.port);
  }

  /** Whatever datagram is redirected in a reachable state, its port is a listening port, and an
      answer to it that follows at once leaves as the endpoint it was sent to. */
  lemma RedirectedDatagramIsAnswered(proxies: seq<ProxyPorts>, s: NatState, e: Endpoints, lookup: u16,
                                     now: Instant, later: Instant)
    requires Reachable(proxies, s) && Admissible(proxies, s, UdpPacket(e, lookup, now))
    requires var r := UdpStep(s.byFlow, s.byPeer, proxies, e, now, lookup).rewrite; r.Some? && r.value.ToProxy?
    ensures var o := UdpStep(s.byFlow, s.byPeer, proxies, e, now, lookup);
            var seen := Redirected(e, o.rewrite.value);
            var reply := Endpoints(seen.dst, seen.src);
            var back := UdpStep(o.byFlow, o.byPeer, proxies, reply, later, 0).rewrite;
            && IsProxyPort(proxies, Udp, o.rewrite.value.port)
            && back == Some(FromProxy(e.dst.port)) && Redirected(reply, back.value) == Endpoints(e.dst, e.src)
  {
    var packet := UdpPacket(e, lookup, now);
    ReachableInvariant(proxies, s);
    StepKeepsInvariant(proxies, s, packet);
    var port := UdpStep(s.byFlow, s.byPeer, proxies, e, now, lookup).rewrite.value.port;
    ReplyToLiveFlow(proxies, Step(proxies, s, packet), e, port, later);
  }

  /** While the flow of a redirected datagram lasts, a datagram from that client port to that server
      goes to the same proxy port exactly when it has the same destination port; otherwise it is let
      through as it is, whatever its lookup would select. */
  lemma {:induction false} DatagramReachesRecordedPort(
      proxies: seq<ProxyPorts>, s: NatState, c: Endpoints, lookup: u16, t: Instant, later: seq<Event>,
      e: Endpoints, eLookup: u16, now: Instant)
    requires Reachable(proxies, s) && ClientUdpKey(e) == ClientUdpKey(c)
    requires After(proxies, s, [UdpPacket(c, lookup, t)] + later).Some?
    requires var r := UdpStep(s.byFlow, s.byPeer, proxies, c, t, lookup).rewrite; r.Some? && r.value.ToProxy?
    requires forall i | 0 <= i < |later| :: !LateCleanup(later[i], t)
    ensures var end := After(proxies, s, [UdpPacket(c, lookup, t)] + later).value;
            var r := UdpStep(end.byFlow, end.byPeer, proxies, e, now, eLookup).rewrite;
            && (r == UdpStep(s.byFlow, s.byPeer, proxies, c, t, lookup).rewrite <==> e.dst.port == c.dst.port)
            && (r == None <==> e.dst.port != c.dst.port)
  {
    FlowLivesOn(proxies, s, c, lookup, t, later);
  }

  /** A datagram to port 53 redirected and then one to port 443 of the same server: the second is
      let through, although its lookup selects the proxy too. */
  lemma DatagramToAnotherPortIsLetThrough()
    ensures
      var c := Endpoints(SocketAddr(V4([192, 168, 0, 2]), 50000), SocketAddr(V4([203, 0, 113, 10]), 53));
      var other := c.(dst := SocketAddr(V4([203, 0, 113, 10]), 443));
      var proxies := [ProxyPorts(1081, 1081, 1082, 1082)];
      var end := After(proxies, INITIAL, [UdpPacket(c, 1082, 0)]);
      && end.Some? && UdpStep(INITIAL.byFlow, INITIAL.byPeer, proxies, c, 0, 1082).rewrite == Some(ToProxy(1082))
      && UdpStep(end.value.byFlow, end.value.byPeer, proxies, other, 0, 1082).rewrite == None
  {
    var c := Endpoints(SocketAddr(V4([192, 168, 0, 2]), 50000), SocketAddr(V4([203, 0, 113, 10]), 53));
    var proxies := [ProxyPorts(1081, 1081, 1082, 1082)];
    assert proxies[0].Port(Udp, false) == 1082;
    OneStep(proxies, INITIAL, UdpPacket(c, 1082, 0));
  }

  lemma ReplyToLiveFlow(proxies: seq<ProxyPorts>, s: NatState, c: Endpoints, proxyPort: u16, now: Instant)
    requires Invariant(proxies, s)
    requires ClientUdpKey(c) in s.byFlow && s.byFlow[ClientUdpKey(c)].proxyPort == proxyPort
    ensures var seen := Redirected(c, ToProxy(proxyPort));
            UdpStep(s.byFlow, s.byPeer, proxies, Endpoints(seen.dst, seen.src), now, 0).rewrite
            == Some(FromProxy(s.byFlow[ClientUdpKey(c)].dstPort))
  {
    var seen := Redirected(c, ToProxy(proxyPort));
    var reply := Endpoints(seen.dst, seen.src);
    assert ReplyUdpKey(reply) == ClientUdpKey(c);
    assert ClientUdpKey(reply) !in s.byFlow;
  }

  /** In every reachable state, a datagram the proxy sends back to the endpoints it received from
      is turned round exactly when its flow is live, and it then leaves from the real server's
      address and port to the client's. Nothing is remembered about it. */
  lemma UdpReplyInverts(proxies: seq<ProxyPorts>, s: NatState, c: Endpoints, proxyPort: u16, now: Instant)
    requires Reachable(proxies, s) && IsProxyPort(proxies, Udp, proxyPort)
    ensures var seen := Redirected(c, ToProxy(proxyPort));
            var reply := Endpoints(seen.dst, seen.src);
            var o := UdpStep(s.byFlow, s.byPeer, proxies, reply, now, 0);
            && (o.rewrite.Some? <==> ClientUdpKey(c) in s.byFlow)
            && (o.rewrite.Some? ==>
                  && o.rewrite.value.FromProxy?
                  && Redirected(reply, o.rewrite.value)
                     == Endpoints(SocketAddr(c.dst.ip, s.byFlow[ClientUdpKey(c)].dstPort), c.src))
            && o.byFlow == s.byFlow && o.byPeer == s.byPeer
  {
    ReachableInvariant(proxies, s);
    var seen := Redirected(c, ToProxy(proxyPort));
    var reply := Endpoints(seen.dst, seen.src);
    assert ReplyUdpKey(reply) == ClientUdpKey(c);
    assert ClientUdpKey(reply) !in s.byFlow;
  }
}
