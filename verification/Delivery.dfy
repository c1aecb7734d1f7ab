/** The router and the UDP associations of the proxy together, for what neither shows alone: under
    whose name a datagram that a server sends back reaches the client.

    A reader hands on whatever datagram its association receives and drops the sender the header
    names; the router then writes the destination of the flow that is live at that moment. */
module Delivery {
  import opened Net
  import opened UdpTable
  import opened Flow
  import Associations
  import NatRuns
  import Runs

  datatype System = System(router: NatRuns.NatState, proxy: Associations.State)

  const INITIAL := System(NatRuns.INITIAL, Associations.INITIAL)

  datatype Move = RouterMove(event: NatRuns.Event) | ProxyMove(action: Associations.Action)

  /** What the worker is told about a datagram the router redirected to that key's server. */
  function Destination(router: NatRuns.NatState, key: Associations.Key): QueryResult {
    QueryUdp(router.byFlow, router.byPeer, AsSeenByListener(SocketAddr(key.dstIp, key.clientPort)),
             SocketAddr(UNSPECIFIED_V6, 0))
  }

  predicate Timed(action: Associations.Action) {
    || action.Begin? || action.CleanBeforeAdmission? || action.Install? || action.PeriodicCleanup?
    || action.ReaderReplied?
  }

  /** Both halves read one clock, and the worker begins only with a datagram whose query succeeds. */
  ghost predicate Enabled(proxies: seq<ProxyPorts>, s: System, move: Move) {
    match move
    case RouterMove(event) =>
      && NatRuns.Admissible(proxies, s.router, event)
      && (!event.TcpPacket? ==> s.proxy.clock <= event.now)
    case ProxyMove(action) =>
      && Associations.Enabled(s.proxy, action)
      && (Timed(action) ==> s.router.clock <= action.now)
      && (action.Begin? ==> Destination(s.router, action.key).Found?)
  }

  ghost function Step(proxies: seq<ProxyPorts>, s: System, move: Move): System
    requires Enabled(proxies, s, move)
  {
    match move
    case RouterMove(event) => s.(router := NatRuns.Step(proxies, s.router, event))
    case ProxyMove(action) => s.(proxy := Associations.Step(s.proxy, action))
  }

  ghost function NextIn(proxies: seq<ProxyPorts>): (System, Move) -> Option<System> {
    (s, move) => if Enabled(proxies, s, move) then Some(Step(proxies, s, move)) else None
  }

  ghost function After(proxies: seq<ProxyPorts>, s: System, moves: seq<Move>): Option<System> {
    Runs.Run(NextIn(proxies), s, moves)
  }

  ghost predicate Reachable(proxies: seq<ProxyPorts>, s: System) {
    Runs.Reachable(NextIn(proxies), INITIAL, s)
  }

  /** The router of the system does only what it does alone. */
  lemma RouterIsReachable(proxies: seq<ProxyPorts>, s: System)
    requires Reachable(proxies, s)
    ensures NatRuns.Reachable(proxies, s.router)
  {
    var next := NextIn(proxies);
    Runs.InitialIsReachable(NatRuns.NextIn(proxies), NatRuns.INITIAL);
    forall t: System, move | NatRuns.Reachable(proxies, t.router) && next(t, move).Some?
      ensures NatRuns.Reachable(proxies, next(t, move).value.router)
    {
      if move.RouterMove? {
        Runs.StepIsReachable(NatRuns.NextIn(proxies), NatRuns.INITIAL, t.router, move.event);
      }
    }
    Runs.ReachableKeeps(next, (t: System) => NatRuns.Reachable(proxies, t.router), INITIAL, s);
  }

  /** The endpoints with which a datagram that reader `r` hands on leaves the router, if it is turned
      round. The listener sends it from `clientIp` and its own port. */
  function Delivered(proxies: seq<ProxyPorts>, s: System, r: nat, clientIp: IpAddr, proxyPort: u16,
                     now: Instant): Option<Endpoints>
    requires r in s.proxy.readers
  {
    var key := s.proxy.readers[r].key;
    var e := Endpoints(SocketAddr(clientIp, proxyPort), SocketAddr(key.dstIp, key.clientPort));
    match UdpStep(s.router.byFlow, s.router.byPeer, proxies, e, now, 0).rewrite
    case None => None
    case Some(rewrite) => Some(Redirected(e, rewrite))
  }

  /** In every state the system reaches, a datagram from `sender` is delivered under its true name
      exactly when the client's flow to the reader's server is live and `sender` is the destination
      of that flow at that moment; while the flow is live it is delivered to that client anyway. */
  lemma SenderNamedTrulyExactly(proxies: seq<ProxyPorts>, s: System, r: nat, sender: SocketAddr, clientIp: IpAddr,
                                proxyPort: u16, now: Instant)
    requires Reachable(proxies, s) && r in s.proxy.readers && IsProxyPort(proxies, Udp, proxyPort)
    ensures var key := s.proxy.readers[r].key;
            var client := SocketAddr(clientIp, key.clientPort);
            var flow := UdpFlowKey(key.dstIp, clientIp, key.clientPort);
            var d := Delivered(proxies, s, r, clientIp, proxyPort, now);
            && (d.Some? <==> flow in s.router.byFlow)
            && (d.Some? ==> d.value.dst == client)
            && (d == Some(Endpoints(sender, client))
                <==> flow in s.router.byFlow && sender == SocketAddr(key.dstIp, s.router.byFlow[flow].dstPort))
  {
    RouterIsReachable(proxies, s);
    var key := s.proxy.readers[r].key;
    var c := Endpoints(SocketAddr(clientIp, key.clientPort), SocketAddr(key.dstIp, 0));
    NatRuns.UdpReplyInverts(proxies, s.router, c, proxyPort, now);
  }

  lemma {:induction false} FlowLastsInSystem(proxies: seq<ProxyPorts>, s: System, moves: seq<Move>, k: UdpFlowKey,
                                             t: Instant)
    requires NatRuns.Invariant(proxies, s.router) && After(proxies, s, moves).Some?
    requires k in s.router.byFlow && t <= s.router.byFlow[k].lastActive
    requires forall i | 0 <= i < |moves| :: moves[i].RouterMove? ==> !NatRuns.LateCleanup(moves[i].event, t)
    ensures var after := After(proxies, s, moves).value.router.byFlow;
            k in after && after[k].dstPort == s.router.byFlow[k].dstPort
    decreases |moves|
  {
    if moves != [] {
      var s' := Step(proxies, s, moves[0]);
      if moves[0].RouterMove? {
        NatRuns.FlowEndsOnlyByLateCleanup(proxies, s.router, moves[0].event, k);
        NatRuns.StepKeepsInvariant(proxies, s.router, moves[0].event);
      }
      FlowLastsInSystem(proxies, s', moves[1..], k, t);
    }
  }

  /** From a datagram redirected at time t, over every run of the system until a cleanup at t + 60 s
      or later: whatever a reader for that server and client port hands on reaches the client as
      from the datagram's destination, so truly named exactly when that destination sent it. */
  lemma {:induction false} NamedTrulyOverRuns(
      proxies: seq<ProxyPorts>, s: System, c: Endpoints, lookup: u16, t: Instant, later: seq<Move>,
      r: nat, sender: SocketAddr, proxyPort: u16, now: Instant)
    requires Reachable(proxies, s) && IsProxyPort(proxies, Udp, proxyPort)
    requires After(proxies, s, [RouterMove(NatRuns.UdpPacket(c, lookup, t))] + later).Some?
    requires var o := UdpStep(s.router.byFlow, s.router.byPeer, proxies, c, t, lookup).rewrite;
             o.Some? && o.value.ToProxy?
    requires forall i | 0 <= i < |later| :: later[i].RouterMove? ==> !NatRuns.LateCleanup(later[i].event, t)
    requires var end := After(proxies, s, [RouterMove(NatRuns.UdpPacket(c, lookup, t))] + later).value;
             r in end.proxy.readers && end.proxy.readers[r].key == Associations.Key(c.dst.ip, c.src.port)
    ensures var end := After(proxies, s, [RouterMove(NatRuns.UdpPacket(c, lookup, t))] + later).value;
            && Delivered(proxies, end, r, c.src.ip, proxyPort, now) == Some(Endpoints(c.dst, c.src))
            && (Delivered(proxies, end, r, c.src.ip, proxyPort, now) == Some(Endpoints(sender, c.src))
                <==> sender == c.dst)
  {
    var first := RouterMove(NatRuns.UdpPacket(c, lookup, t));
    var moves := [first] + later;
    assert moves[0] == first && moves[1..] == later;
    var end := After(proxies, s, moves).value;
    RouterIsReachable(proxies, s);
    NatRuns.ReachableInvariant(proxies, s.router);
    NatRuns.StepKeepsInvariant(proxies, s.router, first.event);
    FlowLastsInSystem(proxies, Step(proxies, s, first), later, ClientUdpKey(c), t);
    ReachableAfter(proxies, s, moves);
    SenderNamedTrulyExactly(proxies, end, r, c.dst, c.src.ip, proxyPort, now);
  }

  lemma {:induction false} ReachableAfter(proxies: seq<ProxyPorts>, s: System, moves: seq<Move>)
    requires Reachable(proxies, s) && After(proxies, s, moves).Some?
    ensures Reachable(proxies, After(proxies, s, moves).value)
    decreases |moves|
  {
    if moves != [] {
      Runs.StepIsReachable(NextIn(proxies), INITIAL, s, moves[0]);
      ReachableAfter(proxies, Step(proxies, s, moves[0]), moves[1..]);
    }
  }

  // ---- A late answer under the wrong name ----

  const CLIENT := SocketAddr(V4([192, 168, 0, 2]), 50000)
  const SERVER := V4([203, 0, 113, 10])
  const PROXIES := [ProxyPorts(1081, 1081, 1082, 1082)]

  function To(port: u16): Endpoints {
    Endpoints(CLIENT, SocketAddr(SERVER, port))
  }

  lemma Moves(s: System, move: Move) returns (s': System)
    requires Reachable(PROXIES, s) && Enabled(PROXIES, s, move)
    ensures Reachable(PROXIES, s') && s' == Step(PROXIES, s, move)
  {
    Runs.StepIsReachable(NextIn(PROXIES), INITIAL, s, move);
    s' := Step(PROXIES, s, move);
  }

  /** A query to port 53 at time 0, and the association opened for it. */
  lemma AssociationForPort53() returns (s: System)
    ensures Reachable(PROXIES, s) && s.router.clock == s.proxy.clock == 0
    ensures s.router.byFlow == map[ClientUdpKey(To(53)) := UdpPortMapping(SERVER, 53, 1082, 0)]
    ensures 0 in s.proxy.readers && s.proxy.readers[0] == Associations.Reader(Associations.Key(SERVER, 50000), false)
  {
    var key := Associations.Key(SERVER, 50000);
    var s1 := FlowToPort53();
    DestinationFound(s1);
    var s2 := Moves(s1, ProxyMove(Associations.Begin(key, 0)));
    s := Admits(s2, key);
  }

  lemma FlowToPort53() returns (s: System)
    ensures Reachable(PROXIES, s) && s.router.clock == 0 && s.proxy == Associations.INITIAL
    ensures s.router.byFlow == map[ClientUdpKey(To(53)) := UdpPortMapping(SERVER, 53, 1082, 0)]
  {
    assert PROXIES[0].Port(Udp, false) == 1082;
    Runs.InitialIsReachable(NextIn(PROXIES), INITIAL);
    s := Moves(INITIAL, RouterMove(NatRuns.UdpPacket(To(53), 1082, 0)));
  }

  /** The worker goes on to open the association. */
  lemma Admits(s: System, key: Associations.Key) returns (s': System)
    requires Reachable(PROXIES, s) && s.router.clock == 0
    requires s.proxy == Associations.INITIAL.(worker := Associations.Missed(key))
    ensures Reachable(PROXIES, s') && s'.router == s.router && s'.proxy.clock == 0
    ensures s'.proxy.readers == map[0 := Associations.Reader(key, false)]
  {
    var s3 := Moves(s, ProxyMove(Associations.CleanBeforeAdmission(0)));
    assert s3.proxy.connections == map[];
    var s4 := Moves(s3, ProxyMove(Associations.CheckLimit));
    var s5 := Moves(s4, ProxyMove(Associations.AssociateSucceeds));
    s' := Moves(s5, ProxyMove(Associations.Install(0)));
  }

  lemma DestinationFound(s: System)
    requires Reachable(PROXIES, s)
    requires s.router.byFlow == map[ClientUdpKey(To(53)) := UdpPortMapping(SERVER, 53, 1082, 0)]
    ensures Destination(s.router, Associations.Key(SERVER, 50000)) == Found(SERVER, 53)
  {
    RouterIsReachable(PROXIES, s);
    NatRuns.ReachableInvariant(PROXIES, s.router);
    NatRuns.LiveFlowAnswers(PROXIES, s.router, To(53), 0);
    assert Sharing(s.router.byFlow.Keys, UdpIndexKey(SERVER, 50000)) == {ClientUdpKey(To(53))};
  }

  /** The association outlives the flow, which times out after 60 seconds and is made again for
      port 443. The same reader that delivered as from port 53 before then delivers as from port
      443, so that a late answer from port 53 comes under the wrong name. */
  lemma LateAnswerIsMisnamed() returns (s: System, s': System)
    ensures Reachable(PROXIES, s) && 0 in s.proxy.readers
    ensures Delivered(PROXIES, s, 0, CLIENT.ip, 1082, 0) == Some(Endpoints(SocketAddr(SERVER, 53), CLIENT))
    ensures After(PROXIES, s, [RouterMove(NatRuns.Cleanup(UDP_TIMEOUT)),
                               RouterMove(NatRuns.UdpPacket(To(443), 1082, UDP_TIMEOUT))]) == Some(s')
    ensures s'.proxy == s.proxy
    ensures Delivered(PROXIES, s', 0, CLIENT.ip, 1082, UDP_TIMEOUT) == Some(Endpoints(SocketAddr(SERVER, 443), CLIENT))
  {
    s := AssociationForPort53();
    assert PROXIES[0].Port(Udp, false) == 1082;
    SenderNamedTrulyExactly(PROXIES, s, 0, SocketAddr(SERVER, 53), CLIENT.ip, 1082, 0);
    var m1 := RouterMove(NatRuns.Cleanup(UDP_TIMEOUT));
    var m2 := RouterMove(NatRuns.UdpPacket(To(443), 1082, UDP_TIMEOUT));
    var s1 := Moves(s, m1);
    assert s1.router.byFlow == map[];
    s' := Moves(s1, m2);
    assert [m1, m2][1..] == [m2] && [m2][1..] == [];
    assert After(PROXIES, s1, [m2]) == After(PROXIES, s', []);
    SenderNamedTrulyExactly(PROXIES, s', 0, SocketAddr(SERVER, 443), CLIENT.ip, 1082, UDP_TIMEOUT);
  }
}
