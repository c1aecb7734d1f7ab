/** What the router has done in a run decides what it does next. Which mappings and flows are live,
    and whether a packet is redirected, turned back or let through, is stated here by the events of
    the run alone, for every run from the empty tables. */
module History {
  import opened Net
  import opened UdpTable
  import opened Flow
  import opened NatRuns
  import Runs

  ghost predicate IsRun(proxies: seq<ProxyPorts>, events: seq<Event>) {
    After(proxies, INITIAL, events).Some?
  }

  /** The state a run of the router ends in. */
  ghost function End(proxies: seq<ProxyPorts>, events: seq<Event>): NatState
    requires IsRun(proxies, events)
  {
    After(proxies, INITIAL, events).value
  }

  lemma LastEvent(proxies: seq<ProxyPorts>, events: seq<Event>)
    requires events != [] && IsRun(proxies, events)
    ensures var n := |events| - 1;
            && IsRun(proxies, events[..n])
            && Admissible(proxies, End(proxies, events[..n]), events[n])
            && End(proxies, events) == Step(proxies, End(proxies, events[..n]), events[n])
            && Invariant(proxies, End(proxies, events[..n]))
  {
    var n := |events| - 1;
    Runs.RunEnds(NextIn(proxies), INITIAL, events);
    EndIsReachable(proxies, events[..n]);
  }

  lemma EndIsReachable(proxies: seq<ProxyPorts>, events: seq<Event>)
    requires IsRun(proxies, events)
    ensures Reachable(proxies, End(proxies, events)) && Invariant(proxies, End(proxies, events))
  {
    assert Runs.Run(NextIn(proxies), INITIAL, events) == Some(End(proxies, events));
    ReachableInvariant(proxies, End(proxies, events));
  }

  // ---- TCP ----

  /** The segment opens a connection: SYN without ACK. */
  predicate Opening(flags: Flags) {
    flags.syn && !flags.ack
  }

  /** Event `i` is a selected SYN of key `k`, and nothing since has closed that flow. */
  ghost predicate MappedSince(proxies: seq<ProxyPorts>, events: seq<Event>, k: TcpKey, i: nat) {
    && i < |events|
    && events[i].TcpPacket? && Opening(events[i].flags) && events[i].lookup != 0 && ClientTcpKey(events[i].e) == k
    && forall j | i < j < |events| :: !ClosesFlow(proxies, events[j], k)
  }

  /** The first of them since the key was last without a mapping. */
  ghost predicate MadeBy(proxies: seq<ProxyPorts>, events: seq<Event>, k: TcpKey, i: nat) {
    && MappedSince(proxies, events, k, i)
    && forall j: nat :: !MappedSince(proxies, events[..i], k, j)
  }

  /** A mapping is live after a run exactly when a selected SYN of its key came and nothing has closed
      it since; it holds destination and proxy port of the first such SYN. */
  lemma TcpLiveExactly(proxies: seq<ProxyPorts>, events: seq<Event>, k: TcpKey)
    requires IsRun(proxies, events)
    ensures var tcp := End(proxies, events).tcp;
            && (k in tcp <==> exists i: nat :: MappedSince(proxies, events, k, i))
            && (k in tcp <==> exists i: nat :: MadeBy(proxies, events, k, i))
            && (forall i: nat | MadeBy(proxies, events, k, i) ::
                  k in tcp && tcp[k] == TcpPortMapping(events[i].e.dst.ip, events[i].e.dst.port, events[i].lookup))
  {
    if k in End(proxies, events).tcp {
      var i := MappingHasMaker(proxies, events, k);
    }
    forall i: nat | MappedSince(proxies, events, k, i) ensures k in End(proxies, events).tcp {
      MappedSinceIsLive(proxies, events, k, i);
    }
    forall i: nat | MadeBy(proxies, events, k, i)
      ensures End(proxies, events).tcp[k]
              == TcpPortMapping(events[i].e.dst.ip, events[i].e.dst.port, events[i].lookup)
    {
      MakerIsUnique(proxies, events, k, i);
    }
  }

  lemma {:induction false} MappedSinceIsLive(proxies: seq<ProxyPorts>, events: seq<Event>, k: TcpKey, i: nat)
    requires IsRun(proxies, events) && MappedSince(proxies, events, k, i)
    ensures k in End(proxies, events).tcp
    decreases |events|
  {
    LastEvent(proxies, events);
    var n := |events| - 1;
    if i < n {
      SameSince(proxies, events, k, i);
      MappedSinceIsLive(proxies, events[..n], k, i);
      MappingEndsOnlyByClosing(proxies, End(proxies, events[..n]), events[n], k);
    }
  }

  lemma SameSince(proxies: seq<ProxyPorts>, events: seq<Event>, k: TcpKey, i: nat)
    requires i < |events| - 1
    ensures var n := |events| - 1;
            && events[..i] == events[..n][..i]
            && (MappedSince(proxies, events, k, i)
                <==> MappedSince(proxies, events[..n], k, i) && !ClosesFlow(proxies, events[n], k))
            && (MadeBy(proxies, events, k, i)
                <==> MadeBy(proxies, events[..n], k, i) && !ClosesFlow(proxies, events[n], k))
  {
    var n := |events| - 1;
    assert events[..i] == events[..n][..i];
    assert forall j | i < j < n :: events[..n][j] == events[j];
  }

  lemma {:induction false} MappingHasMaker(proxies: seq<ProxyPorts>, events: seq<Event>, k: TcpKey) returns (i: nat)
    requires IsRun(proxies, events) && k in End(proxies, events).tcp
    ensures MadeBy(proxies, events, k, i)
    ensures End(proxies, events).tcp[k]
            == TcpPortMapping(events[i].e.dst.ip, events[i].e.dst.port, events[i].lookup)
    decreases |events|
  {
    LastEvent(proxies, events);
    var n := |events| - 1;
    var before := End(proxies, events[..n]);
    if k in before.tcp {
      i := MappingHasMaker(proxies, events[..n], k);
      MappingEndsOnlyByClosing(proxies, before, events[n], k);
      SameSince(proxies, events, k, i);
    } else {
      i := n;
      forall j: nat ensures !MappedSince(proxies, events[..n], k, j) {
        if MappedSince(proxies, events[..n], k, j) {
          MappedSinceIsLive(proxies, events[..n], k, j);
        }
      }
    }
  }

  lemma MakerIsUnique(proxies: seq<ProxyPorts>, events: seq<Event>, k: TcpKey, i: nat)
    requires IsRun(proxies, events) && MadeBy(proxies, events, k, i)
    ensures k in End(proxies, events).tcp
    ensures End(proxies, events).tcp[k]
            == TcpPortMapping(events[i].e.dst.ip, events[i].e.dst.port, events[i].lookup)
  {
    MappedSinceIsLive(proxies, events, k, i);
    var j := MappingHasMaker(proxies, events, k);
    if i < j {
      MappedBefore(proxies, events, k, i, j);
    } else if j < i {
      MappedBefore(proxies, events, k, j, i);
    }
  }

  lemma MappedBefore(proxies: seq<ProxyPorts>, events: seq<Event>, k: TcpKey, i: nat, j: nat)
    requires MappedSince(proxies, events, k, i) && i < j <= |events|
    ensures MappedSince(proxies, events[..j], k, i)
  {
    assert forall x | i < x < j :: events[..j][x] == events[x];
  }

  /** What becomes of a segment after a run. A selected SYN goes where its lookup says, and any other
      segment of a live mapping to the recorded port. Only what comes from a listening port and
      answers a SYN selected before is turned back, to that SYN's sender as from where it was sent.
      Everything else is let through, and the table stays. */
  lemma SegmentDecidedExactly(proxies: seq<ProxyPorts>, events: seq<Event>, e: Endpoints, flags: Flags, lookup: u16)
    requires IsRun(proxies, events)
    requires Admissible(proxies, End(proxies, events), TcpPacket(e, flags, lookup))
    ensures var tcp := End(proxies, events).tcp;
            var o := TcpStep(tcp, proxies, e, flags, lookup);
            var selected := Opening(flags) && lookup != 0;
            var own := exists i: nat :: MappedSince(proxies, events, ClientTcpKey(e), i);
            var answers := exists i: nat :: MappedSince(proxies, events, ReplyTcpKey(e), i);
            && (o.rewrite.Some? && o.rewrite.value.ToProxy? <==> selected || (own && !Opening(flags)))
            && (selected ==> o.rewrite == Some(ToProxy(lookup)))
            && (forall i: nat | MadeBy(proxies, events, ClientTcpKey(e), i) && !Opening(flags) ::
                  o.rewrite == Some(ToProxy(events[i].lookup)))
            && (o.rewrite.Some? && o.rewrite.value.FromProxy? <==> IsProxyPort(proxies, Tcp, e.src.port) && answers)
            && (forall i: nat | o.rewrite.Some? && o.rewrite.value.FromProxy?
                                && MadeBy(proxies, events, ReplyTcpKey(e), i) ::
                  Redirected(e, o.rewrite.value) == Endpoints(events[i].e.dst, events[i].e.src))
            && (o.rewrite == None ==> o.table == tcp)
  {
    EndIsReachable(proxies, events);
    TcpLiveExactly(proxies, events, ClientTcpKey(e));
    TcpLiveExactly(proxies, events, ReplyTcpKey(e));
  }

  /** Traffic of a key no SYN of which was ever selected is left alone, if it is not selected now and
      does not come from a listening port. */
  lemma UnselectedSegmentIsLetThrough(proxies: seq<ProxyPorts>, events: seq<Event>, e: Endpoints, flags: Flags,
                                      lookup: u16)
    requires IsRun(proxies, events)
    requires forall i | 0 <= i < |events| && events[i].TcpPacket? && ClientTcpKey(events[i].e) == ClientTcpKey(e) ::
               Opening(events[i].flags) ==> events[i].lookup == 0
    requires (Opening(flags) ==> lookup == 0) && !IsProxyPort(proxies, Tcp, e.src.port)
    ensures TcpStep(End(proxies, events).tcp, proxies, e, flags, lookup)
            == TcpOutcome(End(proxies, events).tcp, None)
  {
    TcpLiveExactly(proxies, events, ClientTcpKey(e));
  }

  // ---- UDP ----

  /** Event `i` is a datagram that was redirected when it came. */
  ghost predicate RedirectedAt(proxies: seq<ProxyPorts>, events: seq<Event>, i: nat)
    requires IsRun(proxies, events)
  {
    i < |events| && events[i].UdpPacket? && RewriteAt(proxies, events, i).Some?
    && RewriteAt(proxies, events, i).value.ToProxy?
  }

  /** What became of datagram `i` of a run. */
  ghost function RewriteAt(proxies: seq<ProxyPorts>, events: seq<Event>, i: nat): Option<PortRewrite>
    requires IsRun(proxies, events) && i < |events| && events[i].UdpPacket?
  {
    PrefixIsRun(proxies, events, i);
    var s := End(proxies, events[..i]);
    UdpStep(s.byFlow, s.byPeer, proxies, events[i].e, events[i].now, events[i].lookup).rewrite
  }

  lemma PrefixIsRun(proxies: seq<ProxyPorts>, events: seq<Event>, i: nat)
    requires IsRun(proxies, events) && i <= |events|
    ensures IsRun(proxies, events[..i])
    ensures After(proxies, End(proxies, events[..i]), events[i..]) == Some(End(proxies, events))
  {
    Runs.RunSplits(NextIn(proxies), INITIAL, events, i);
  }

  /** Datagram `i` of key `k` was redirected, and no cleanup has come 60 seconds or more after it. */
  ghost predicate OpenSince(proxies: seq<ProxyPorts>, events: seq<Event>, k: UdpFlowKey, i: nat)
    requires IsRun(proxies, events)
  {
    && RedirectedAt(proxies, events, i) && ClientUdpKey(events[i].e) == k
    && forall j | i < j < |events| :: !LateCleanup(events[j], events[i].now)
  }

  /** A flow is live after a run exactly when a datagram of its key was redirected and no cleanup has
      come 60 seconds or more after that; any such datagram has its destination and proxy port. */
  lemma UdpLiveExactly(proxies: seq<ProxyPorts>, events: seq<Event>, k: UdpFlowKey)
    requires IsRun(proxies, events)
    ensures var flows := End(proxies, events).byFlow;
            && (k in flows <==> exists i: nat :: OpenSince(proxies, events, k, i))
            && (forall i: nat | OpenSince(proxies, events, k, i) ::
                  && k in flows && flows[k].dstPort == events[i].e.dst.port
                  && Some(ToProxy(flows[k].proxyPort)) == RewriteAt(proxies, events, i))
  {
    forall i: nat | OpenSince(proxies, events, k, i)
      ensures var flows := End(proxies, events).byFlow;
              && k in flows && flows[k].dstPort == events[i].e.dst.port
              && Some(ToProxy(flows[k].proxyPort)) == RewriteAt(proxies, events, i)
    {
      OpenSinceIsLive(proxies, events, k, i);
    }
    if k in End(proxies, events).byFlow {
      var i := FlowHasOrigin(proxies, events, k);
    }
  }

  lemma OpenSinceIsLive(proxies: seq<ProxyPorts>, events: seq<Event>, k: UdpFlowKey, i: nat)
    requires IsRun(proxies, events) && OpenSince(proxies, events, k, i)
    ensures var flows := End(proxies, events).byFlow;
            && k in flows && flows[k].dstPort == events[i].e.dst.port
            && Some(ToProxy(flows[k].proxyPort)) == RewriteAt(proxies, events, i)
  {
    PrefixIsRun(proxies, events, i);
    EndIsReachable(proxies, events[..i]);
    var UdpPacket(c, lookup, t) := events[i];
    assert events[i..] == [events[i]] + events[i + 1..];
    FlowLivesOn(proxies, End(proxies, events[..i]), c, lookup, t, events[i + 1..]);
  }

  lemma {:induction false} FlowHasOrigin(proxies: seq<ProxyPorts>, events: seq<Event>, k: UdpFlowKey) returns (i: nat)
    requires IsRun(proxies, events) && k in End(proxies, events).byFlow
    ensures OpenSince(proxies, events, k, i) && events[i].now == End(proxies, events).byFlow[k].lastActive
    decreases |events|
  {
    LastEvent(proxies, events);
    var n := |events| - 1;
    var before, after := End(proxies, events[..n]), End(proxies, events);
    if k in before.byFlow && after.byFlow[k].lastActive == before.byFlow[k].lastActive {
      i := FlowHasOrigin(proxies, events[..n], k);
      FlowEndsOnlyByLateCleanup(proxies, before, events[n], k);
      StillOpen(proxies, events, k, i);
    } else {
      OnlyRedirectionRefreshes(proxies, before, events[n], k);
      i := n;
    }
  }

  lemma StillOpen(proxies: seq<ProxyPorts>, events: seq<Event>, k: UdpFlowKey, i: nat)
    requires events != [] && IsRun(proxies, events) && IsRun(proxies, events[..|events| - 1])
    requires OpenSince(proxies, events[..|events| - 1], k, i) && !LateCleanup(events[|events| - 1], events[i].now)
    ensures OpenSince(proxies, events, k, i)
  {
    var n := |events| - 1;
    assert events[..n][..i] == events[..i];
    assert forall j | i < j < n :: events[..n][j] == events[j];
  }

  /** A flow that is new, or active later than before, owes that to a datagram of its own that was
      redirected in this very step. */
  lemma OnlyRedirectionRefreshes(proxies: seq<ProxyPorts>, s: NatState, event: Event, k: UdpFlowKey)
    requires Invariant(proxies, s) && Admissible(proxies, s, event)
    requires k in Step(proxies, s, event).byFlow
    requires k in s.byFlow ==> Step(proxies, s, event).byFlow[k].lastActive != s.byFlow[k].lastActive
    ensures event.UdpPacket? && ClientUdpKey(event.e) == k && event.now == Step(proxies, s, event).byFlow[k].lastActive
    ensures var r := UdpStep(s.byFlow, s.byPeer, proxies, event.e, event.now, event.lookup).rewrite;
            r.Some? && r.value.ToProxy?
  {
  }

  /** What becomes of a datagram after a run. One of a live flow goes to the flow's proxy port if it
      goes to the flow's destination, and is let through otherwise. Without a flow a selected one goes
      where its lookup says. Only what comes from a listening port and answers a redirected datagram
      is turned back, to that datagram's sender as from where it was sent. Everything else is let
      through, and what is let through or turned back changes no table. */
  lemma DatagramDecidedExactly(proxies: seq<ProxyPorts>, events: seq<Event>, e: Endpoints, lookup: u16, now: Instant)
    requires IsRun(proxies, events)
    requires Admissible(proxies, End(proxies, events), UdpPacket(e, lookup, now))
    ensures var s := End(proxies, events);
            var o := UdpStep(s.byFlow, s.byPeer, proxies, e, now, lookup);
            var own := exists i: nat :: OpenSince(proxies, events, ClientUdpKey(e), i);
            var answers := exists i: nat :: OpenSince(proxies, events, ReplyUdpKey(e), i);
            && (forall i: nat | OpenSince(proxies, events, ClientUdpKey(e), i) ::
                  o.rewrite == if e.dst.port == events[i].e.dst.port then RewriteAt(proxies, events, i) else None)
            && (!own && lookup != 0 ==> o.rewrite == Some(ToProxy(lookup)))
            && (!own && lookup == 0 ==> o.rewrite == None || o.rewrite.value.FromProxy?)
            && (o.rewrite.Some? && o.rewrite.value.FromProxy? <==> IsProxyPort(proxies, Udp, e.src.port) && answers)
            && (forall i: nat | o.rewrite.Some? && o.rewrite.value.FromProxy?
                                && OpenSince(proxies, events, ReplyUdpKey(e), i) ::
                  Redirected(e, o.rewrite.value) == Endpoints(events[i].e.dst, events[i].e.src))
            && (o.rewrite == None || o.rewrite.value.FromProxy? ==> o.byFlow == s.byFlow && o.byPeer == s.byPeer)
  {
    EndIsReachable(proxies, events);
    UdpLiveExactly(proxies, events, ClientUdpKey(e));
    UdpLiveExactly(proxies, events, ReplyUdpKey(e));
  }

  lemma {:induction false} NeverSelectedNoFlow(proxies: seq<ProxyPorts>, events: seq<Event>, k: UdpFlowKey)
    requires IsRun(proxies, events)
    requires forall i | 0 <= i < |events| && events[i].UdpPacket? && ClientUdpKey(events[i].e) == k ::
               events[i].lookup == 0
    ensures k !in End(proxies, events).byFlow
    decreases |events|
  {
    if events != [] {
      LastEvent(proxies, events);
      NeverSelectedNoFlow(proxies, events[..|events| - 1], k);
    }
  }

  /** Traffic of a key no datagram of which was ever selected is left alone, if it is not selected now
      and does not come from a listening port. */
  lemma UnselectedDatagramIsLetThrough(proxies: seq<ProxyPorts>, events: seq<Event>, e: Endpoints, now: Instant)
    requires IsRun(proxies, events) && !IsProxyPort(proxies, Udp, e.src.port)
    requires forall i | 0 <= i < |events| && events[i].UdpPacket? && ClientUdpKey(events[i].e) == ClientUdpKey(e) ::
               events[i].lookup == 0
    ensures var s := End(proxies, events);
            UdpStep(s.byFlow, s.byPeer, proxies, e, now, 0) == UdpOutcome(s.byFlow, s.byPeer, None)
  {
    NeverSelectedNoFlow(proxies, events, ClientUdpKey(e));
  }

  // ---- Queries ----

  /** After a run the proxy's query with both addresses finds a destination exactly for a live mapping
      or flow, and then that of the SYN or datagram that made it. */
  lemma QueriesFindExactly(proxies: seq<ProxyPorts>, events: seq<Event>, peer: SocketAddr, local: SocketAddr)
    requires IsRun(proxies, events) && !IsMapped(peer.ip) && !IsMapped(local.ip) && !IsUnspecified(local.ip)
    ensures var s := End(proxies, events);
            var tcpKey, udpKey := TcpKey(peer.ip, local.ip, peer.port), UdpFlowKey(peer.ip, local.ip, peer.port);
            var tcp := QueryTcp(s.tcp, AsSeenByListener(peer), AsSeenByListener(local));
            var udp := QueryUdp(s.byFlow, s.byPeer, AsSeenByListener(peer), AsSeenByListener(local));
            && (tcp.Some? <==> exists i: nat :: MappedSince(proxies, events, tcpKey, i))
            && (forall i: nat | MadeBy(proxies, events, tcpKey, i) :: tcp == Some(events[i].e.dst))
            && (udp.Found? <==> exists i: nat :: OpenSince(proxies, events, udpKey, i))
            && (udp.Found? || udp.NotFound?)
            && (forall i: nat | OpenSince(proxies, events, udpKey, i) ::
                  udp == Found(events[i].e.dst.ip, events[i].e.dst.port))
  {
    NormalizeUndoesListener(peer);
    NormalizeUndoesListener(local);
    EndIsReachable(proxies, events);
    TcpLiveExactly(proxies, events, TcpKey(peer.ip, local.ip, peer.port));
    UdpLiveExactly(proxies, events, UdpFlowKey(peer.ip, local.ip, peer.port));
  }
}
