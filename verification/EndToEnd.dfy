/** The redirection at the level of frames: the bytes a client sends, the endpoints the proxy
    sees, the destination it is told, and the bytes the client gets back. */
module EndToEnd {
  import opened Net
  import opened Flow
  import opened NatRuns
  import opened Packet

  /** The endpoints read from a frame once the rewrite is applied to it. */
  function EndpointsAfter(frame: Bytes, rewrite: PortRewrite, sums: Checksums): Option<Endpoints> {
    match ParsePacketInfo(frame)
    case None => None
    case Some(info) =>
      match ParsePacketInfo(Rewritten(frame, info.kind, TransportSpan(frame, info.kind).value, rewrite, sums))
      case None => None
      case Some(after) => Some(after.e)
  }

  predicate ReadsAs(frame: Bytes, t: Transport, e: Endpoints) {
    var info := ParsePacketInfo(frame);
    info.Some? && info.value.kind.transport == t && info.value.e == e
  }

  lemma EndpointsAfterRewrite(frame: Bytes, t: Transport, e: Endpoints, rewrite: PortRewrite, sums: Checksums)
    requires ReadsAs(frame, t, e)
    ensures EndpointsAfter(frame, rewrite, sums) ==
              if t == Udp && IsGroupAddress(e.src.ip) then None else Some(Redirected(e, rewrite))
  {
    RewriteReparses(frame, rewrite, sums);
  }

  /** A SYN frame creates a mapping; any run without a FIN or RST of that flow follows, then a frame
      of the client, then a frame the proxy sends back to the endpoints it saw. The client's frame
      reaches the proxy. Behind it, the query gives the server the client named, and the proxy's
      frame is turned round, exactly when the client's frame was no FIN or RST; and a frame that is
      turned round reaches the client from that server's address and port. */
  lemma TcpFrames(proxies: seq<ProxyPorts>, s: NatState, c: Endpoints, syn: Flags, lookup: u16, later: seq<Event>,
                  data: Bytes, dataFlags: Flags, reply: Bytes, replyFlags: Flags, sums: Checksums)
    requires Reachable(proxies, s) && Genuine(c)
    requires syn.Opens() && lookup != 0 && ClientTcpKey(c) !in s.tcp
    requires After(proxies, s, [TcpPacket(c, syn, lookup)] + later).Some?
    requires forall i | 0 <= i < |later| :: !ClosesFlow(proxies, later[i], ClientTcpKey(c))
    requires ReadsAs(data, Tcp, c) && !dataFlags.Opens()
    ensures var before := After(proxies, s, [TcpPacket(c, syn, lookup)] + later).value.tcp;
            var TcpOutcome(tcp, out) := TcpStep(before, proxies, c, dataFlags, 0);
            && out.Some?
            && EndpointsAfter(data, out.value, sums) == Some(Redirected(c, ToProxy(lookup)))
            && (var seen := Redirected(c, ToProxy(lookup));
                var e := Endpoints(seen.dst, seen.src);
                var back := TcpStep(tcp, proxies, e, replyFlags, 0).rewrite;
                && (QueryTcp(tcp, AsSeenByListener(seen.src), AsSeenByListener(seen.dst)) == Some(c.dst)
                    <==> !dataFlags.Closes())
                && (back.Some? <==> !dataFlags.Closes())
                && (back.Some? && ReadsAs(reply, Tcp, e) ==>
                      EndpointsAfter(reply, back.value, sums) == Some(Endpoints(c.dst, c.src))))
  {
    TcpTransparentOverRuns(proxies, s, c, syn, lookup, later);
    var before := After(proxies, s, [TcpPacket(c, syn, lookup)] + later).value.tcp;
    EndpointsAfterRewrite(data, Tcp, c, ToProxy(lookup), sums);
    MappingHolds(proxies, s, c, syn, lookup, later);
    AnswerBehind(proxies, before, c, lookup, dataFlags, replyFlags);
    var seen := Redirected(c, ToProxy(lookup));
    var e := Endpoints(seen.dst, seen.src);
    if ReadsAs(reply, Tcp, e) {
      EndpointsAfterRewrite(reply, Tcp, e, FromProxy(c.dst.port), sums);
    }
  }

  lemma {:induction false} MappingHolds(proxies: seq<ProxyPorts>, s: NatState, c: Endpoints, syn: Flags, lookup: u16,
                                        later: seq<Event>)
    requires Reachable(proxies, s) && syn.Opens() && lookup != 0 && ClientTcpKey(c) !in s.tcp
    requires After(proxies, s, [TcpPacket(c, syn, lookup)] + later).Some?
    requires forall i | 0 <= i < |later| :: !ClosesFlow(proxies, later[i], ClientTcpKey(c))
    ensures var tcp := After(proxies, s, [TcpPacket(c, syn, lookup)] + later).value.tcp;
            && TcpInvariant(proxies, tcp) && ClientTcpKey(c) in tcp
            && tcp[ClientTcpKey(c)] == TcpPortMapping(c.dst.ip, c.dst.port, lookup)
  {
    var event := TcpPacket(c, syn, lookup);
    assert ([event] + later)[1..] == later;
    ReachableInvariant(proxies, s);
    StepKeepsInvariant(proxies, s, event);
    MappingLasts(proxies, Step(proxies, s, event), later, ClientTcpKey(c));
    RunKeepsInvariant(proxies, s, [event] + later);
  }

  /** What the proxy is told, and what becomes of its answer, behind a client segment of a live flow. */
  lemma AnswerBehind(proxies: seq<ProxyPorts>, before: TcpTable, c: Endpoints, lookup: u16, flags: Flags,
                     replyFlags: Flags)
    requires TcpInvariant(proxies, before) && Genuine(c) && !flags.Opens() && ClientTcpKey(c) in before
    requires before[ClientTcpKey(c)] == TcpPortMapping(c.dst.ip, c.dst.port, lookup)
    ensures var tcp := TcpStep(before, proxies, c, flags, 0).table;
            var seen := Redirected(c, ToProxy(lookup));
            var back := TcpStep(tcp, proxies, Endpoints(seen.dst, seen.src), replyFlags, 0).rewrite;
            && (QueryTcp(tcp, AsSeenByListener(seen.src), AsSeenByListener(seen.dst)) == Some(c.dst)
                <==> !flags.Closes())
            && back == if flags.Closes() then None else Some(FromProxy(c.dst.port))
  {
    var seen := Redirected(c, ToProxy(lookup));
    var reply := Endpoints(seen.dst, seen.src);
    NormalizeUndoesListener(seen.src);
    NormalizeUndoesListener(seen.dst);
    assert IsProxyPort(proxies, Tcp, lookup);
    assert ReplyTcpKey(reply) == ClientTcpKey(c) && ClientTcpKey(reply) !in before;
  }

  /** The same for a datagram redirected at time t, in any state a run reaches before a cleanup
      at t + 60 s or later: the answers the proxy gets are the datagram's own, and what it sends
      back reaches the client from the server. */
  lemma UdpFrames(proxies: seq<ProxyPorts>, s: NatState, c: Endpoints, lookup: u16, t: Instant, later: seq<Event>,
                  datagram: Bytes, reply: Bytes, now: Instant, sums: Checksums)
    requires Reachable(proxies, s) && Genuine(c)
    requires After(proxies, s, [UdpPacket(c, lookup, t)] + later).Some?
    requires forall i | 0 <= i < |later| :: !LateCleanup(later[i], t)
    requires ReadsAs(datagram, Udp, c) && !IsGroupAddress(c.src.ip)
    requires var r := UdpStep(s.byFlow, s.byPeer, proxies, c, t, lookup).rewrite; r.Some? && r.value.ToProxy?
    ensures var rewrite := UdpStep(s.byFlow, s.byPeer, proxies, c, t, lookup).rewrite.value;
            var s' := After(proxies, s, [UdpPacket(c, lookup, t)] + later).value;
            var seen := EndpointsAfter(datagram, rewrite, sums);
            && seen == Some(Redirected(c, rewrite))
            && UdpAnswersAreOwn(s', c, rewrite.port)
            && (ReadsAs(reply, Udp, Endpoints(seen.value.dst, seen.value.src)) ==>
                  var e := Endpoints(seen.value.dst, seen.value.src);
                  var back := UdpStep(s'.byFlow, s'.byPeer, proxies, e, now, 0).rewrite;
                  back.Some? && EndpointsAfter(reply, back.value, sums) == Some(Endpoints(c.dst, c.src)))
  {
    var rewrite := UdpStep(s.byFlow, s.byPeer, proxies, c, t, lookup).rewrite.value;
    UdpNeverMisdirected(proxies, s, c, lookup, t, later);
    EndpointsAfterRewrite(datagram, Udp, c, rewrite, sums);
    FlowLivesOn(proxies, s, c, lookup, t, later);
    var s' := After(proxies, s, [UdpPacket(c, lookup, t)] + later).value;
    UdpReplyFrame(proxies, s', c, rewrite.port, reply, now, sums);
  }

  lemma UdpReplyFrame(proxies: seq<ProxyPorts>, s: NatState, c: Endpoints, proxyPort: u16, reply: Bytes, now: Instant,
                      sums: Checksums)
    requires Invariant(proxies, s) && ClientUdpKey(c) in s.byFlow
    requires s.byFlow[ClientUdpKey(c)].dstPort == c.dst.port && s.byFlow[ClientUdpKey(c)].proxyPort == proxyPort
    requires !IsGroupAddress(c.src.ip)
    ensures var seen := Redirected(c, ToProxy(proxyPort));
            ReadsAs(reply, Udp, Endpoints(seen.dst, seen.src)) ==>
              var back := UdpStep(s.byFlow, s.byPeer, proxies, Endpoints(seen.dst, seen.src), now, 0).rewrite;
              back.Some? && EndpointsAfter(reply, back.value, sums) == Some(Endpoints(c.dst, c.src))
  {
    var seen := Redirected(c, ToProxy(proxyPort));
    var e := Endpoints(seen.dst, seen.src);
    ReplyToLiveFlow(proxies, s, c, proxyPort, now);
    if ReadsAs(reply, Udp, e) {
      EndpointsAfterRewrite(reply, Udp, e, FromProxy(c.dst.port), sums);
    }
  }
}
