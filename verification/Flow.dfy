/** The redirection decision: which packets are turned towards the proxy, which are turned back,
    and what the tables remember in between. The process lookup is an oracle: each packet comes
    with the path it found, if any. */
module Flow {
  import opened Net
  import opened UdpTable

  const UDP_TIMEOUT: nat := 60 * SECOND

  datatype ProxyPorts = ProxyPorts(tcpV4: u16, tcpV6: u16, udpV4: u16, udpV6: u16)
  {
    function Port(t: Transport, isV6: bool): u16 {
      match t
      case Tcp => if isV6 then tcpV6 else tcpV4
      case Udp => if isV6 then udpV6 else udpV4
    }
  }

  predicate IsProxyPort(proxies: seq<ProxyPorts>, t: Transport, port: u16) {
    exists i | 0 <= i < |proxies| :: proxies[i].Port(t, false) == port || proxies[i].Port(t, true) == port
  }

  datatype PortRewrite = ToProxy(port: u16) | FromProxy(port: u16)

  datatype Endpoints = Endpoints(src: SocketAddr, dst: SocketAddr)

  /** The endpoints of a packet once it is rewritten: addresses swapped, one port replaced. */
  function Redirected(e: Endpoints, rewrite: PortRewrite): Endpoints {
    match rewrite
    case ToProxy(port) => Endpoints(SocketAddr(e.dst.ip, e.src.port), SocketAddr(e.src.ip, port))
    case FromProxy(port) => Endpoints(SocketAddr(e.dst.ip, port), SocketAddr(e.src.ip, e.dst.port))
  }

  datatype Flags = Flags(syn: bool, ack: bool, rst: bool, fin: bool)
  {
    predicate Opens() { syn && !ack }
    predicate Closes() { rst || fin }
  }

  datatype TcpKey = TcpKey(dstIp: IpAddr, srcIp: IpAddr, srcPort: u16)

  datatype TcpPortMapping = TcpPortMapping(dstIp: IpAddr, dstPort: u16, proxyPort: u16)

  type TcpTable = map<TcpKey, TcpPortMapping>

  function ClientTcpKey(e: Endpoints): TcpKey {
    TcpKey(e.dst.ip, e.src.ip, e.src.port)
  }

  function ReplyTcpKey(e: Endpoints): TcpKey {
    TcpKey(e.dst.ip, e.src.ip, e.dst.port)
  }

  function ClientUdpKey(e: Endpoints): UdpFlowKey {
    UdpFlowKey(e.dst.ip, e.src.ip, e.src.port)
  }

  function ReplyUdpKey(e: Endpoints): UdpFlowKey {
    UdpFlowKey(e.dst.ip, e.src.ip, e.dst.port)
  }

  datatype TcpOutcome = TcpOutcome(table: TcpTable, rewrite: Option<PortRewrite>)

  /** The effect of one TCP segment when the lookup selects the proxy port `lookup` (0: none). */
  function TcpStep(table: TcpTable, proxies: seq<ProxyPorts>, e: Endpoints, flags: Flags, lookup: u16): TcpOutcome {
    var key, replyKey := ClientTcpKey(e), ReplyTcpKey(e);
    if flags.Opens() && lookup != 0 then
      TcpOutcome(
        if key in table then table else table[key := TcpPortMapping(e.dst.ip, e.dst.port, lookup)],
        Some(ToProxy(lookup)))
    else if !flags.Opens() && key in table then
      TcpOutcome(if flags.Closes() then table - {key} else table, Some(ToProxy(table[key].proxyPort)))
    else if IsProxyPort(proxies, Tcp, e.src.port) && replyKey in table then
      TcpOutcome(if flags.Closes() then table - {replyKey} else table, Some(FromProxy(table[replyKey].dstPort)))
    else
      TcpOutcome(table, None)
  }

  function QueryTcp(table: TcpTable, peer: SocketAddr, local: SocketAddr): Option<SocketAddr> {
    var peer := NormalizeMappedIpv6(peer);
    var local := NormalizeMappedIpv6(local);
    var key := TcpKey(peer.ip, local.ip, peer.port);
    if key in table then Some(SocketAddr(table[key].dstIp, table[key].dstPort)) else None
  }

  datatype UdpOutcome = UdpOutcome(byFlow: FlowTable, byPeer: PeerIndex, rewrite: Option<PortRewrite>)

  /** The effect of one UDP datagram read at `now` when the lookup selects `lookup` (0: none). */
  function UdpStep(byFlow: FlowTable, byPeer: PeerIndex, proxies: seq<ProxyPorts>, e: Endpoints, now: Instant,
                   lookup: u16): UdpOutcome {
    var key, replyKey := ClientUdpKey(e), ReplyUdpKey(e);
    if key in byFlow then
      if byFlow[key].dstPort == e.dst.port then
        UdpOutcome(byFlow[key := byFlow[key].(lastActive := now)], byPeer, Some(ToProxy(byFlow[key].proxyPort)))
      else
        UdpOutcome(byFlow, byPeer, None)
    else if lookup != 0 then
      UdpOutcome(
        byFlow[key := UdpPortMapping(e.dst.ip, e.dst.port, lookup, now)],
        InsertPeerIndex(byPeer, key),
        Some(ToProxy(lookup)))
    else if IsProxyPort(proxies, Udp, e.src.port) && replyKey in byFlow then
      UdpOutcome(byFlow, byPeer, Some(FromProxy(byFlow[replyKey].dstPort)))
    else
      UdpOutcome(byFlow, byPeer, None)
  }

  function FreshAt(now: Instant): UdpPortMapping -> bool {
    (entry: UdpPortMapping) => DurationSince(now, entry.lastActive) < UDP_TIMEOUT
  }

  predicate Contains(text: string, part: string) {
    part <= text || (text != [] && Contains(text[1..], part))
  }

  predicate NameMatches(nameToProxy: map<string, nat>, proxies: seq<ProxyPorts>, path: string, name: string) {
    name in nameToProxy && Contains(path, name) && nameToProxy[name] < |proxies|
  }

  /** What a lookup may select: the port of a proxy some configured name of which occurs in the
      path, whichever the map yields first; or 0 when there is no such name or no path. */
  ghost predicate Selects(nameToProxy: map<string, nat>, proxies: seq<ProxyPorts>, t: Transport,
                          isV6: bool, path: Option<string>, port: u16)
  {
    match path
    case None => port == 0
    case Some(p) =>
      if exists name :: NameMatches(nameToProxy, proxies, p, name) then
        exists name :: NameMatches(nameToProxy, proxies, p, name) && port == proxies[nameToProxy[name]].Port(t, isV6)
      else
        port == 0
  }

  lemma SomeSelection(nameToProxy: map<string, nat>, proxies: seq<ProxyPorts>, t: Transport,
                      isV6: bool, path: Option<string>) returns (port: u16)
    ensures Selects(nameToProxy, proxies, t, isV6, path, port)
  {
    if path.Some? && exists name :: NameMatches(nameToProxy, proxies, path.value, name) {
      var name :| NameMatches(nameToProxy, proxies, path.value, name);
      port := proxies[nameToProxy[name]].Port(t, isV6);
    } else {
      port := 0;
    }
  }

  lemma {:induction false} ContainsExactly(text: string, part: string)
    ensures Contains(text, part) <==> exists at: nat :: OccursAt(text, part, at)
    decreases |text|
  {
    assert part <= text <==> OccursAt(text, part, 0);
    if !(part <= text) && text != [] {
      ContainsExactly(text[1..], part);
      forall at: nat ensures OccursAt(text, part, at + 1) <==> OccursAt(text[1..], part, at) {
        if at + |part| <= |text| - 1 {
          assert text[1..][at..at + |part|] == text[at + 1..at + 1 + |part|];
        }
      }
      assert forall at: nat | OccursAt(text, part, at) :: at > 0 && OccursAt(text[1..], part, at - 1);
    }
  }

  /** The configured name is that of a proxy there is, and occurs somewhere in the path. */
  ghost predicate NamedIn(nameToProxy: map<string, nat>, proxies: seq<ProxyPorts>, path: string, name: string) {
    name in nameToProxy && nameToProxy[name] < |proxies| && exists at: nat :: OccursAt(path, name, at)
  }

  /** The port at which a proxy listens for that protocol and address family. */
  ghost predicate ListensAt(p: ProxyPorts, t: Transport, isV6: bool, port: u16) {
    match (t, isV6)
    case (Tcp, false) => port == p.tcpV4
    case (Tcp, true) => port == p.tcpV6
    case (Udp, false) => port == p.udpV4
    case (Udp, true) => port == p.udpV6
  }

  /** A program is selected for the listening port, of its protocol and address family, of a proxy one
      of whose names occurs in the program's path; and it is left alone exactly when there is no such
      name, or the port a name stands for is 0. */
  lemma SelectionMeans(nameToProxy: map<string, nat>, proxies: seq<ProxyPorts>, t: Transport, isV6: bool, path: string,
                       port: u16)
    ensures Selects(nameToProxy, proxies, t, isV6, Some(path), port)
            <==> if exists name :: NamedIn(nameToProxy, proxies, path, name) then
                   exists name :: && NamedIn(nameToProxy, proxies, path, name)
                                  && ListensAt(proxies[nameToProxy[name]], t, isV6, port)
                 else port == 0
  {
    forall name ensures NameMatches(nameToProxy, proxies, path, name) <==> NamedIn(nameToProxy, proxies, path, name) {
      ContainsExactly(path, name);
    }
    forall p: ProxyPorts ensures ListensAt(p, t, isV6, port) <==> port == p.Port(t, isV6) {}
  }

  /** A selected port is a listening port of some proxy. */
  lemma SelectedPortListens(nameToProxy: map<string, nat>, proxies: seq<ProxyPorts>, t: Transport,
                            isV6: bool, path: Option<string>, port: u16)
    requires Selects(nameToProxy, proxies, t, isV6, path, port) && port != 0
    ensures IsProxyPort(proxies, t, port)
  {
    var name :| NameMatches(nameToProxy, proxies, path.value, name) && port == proxies[nameToProxy[name]].Port(t, isV6);
  }

  class Router {
    var tcpConnections: TcpTable
    const udpEndpoints: UdpMappings
    var proxies: seq<ProxyPorts>
    var nameToProxy: map<string, nat>

    ghost predicate Valid()
      reads this, udpEndpoints
    {
      udpEndpoints.Valid()
    }

    constructor (proxies: seq<ProxyPorts>, nameToProxy: map<string, nat>)
      ensures Valid() && fresh(udpEndpoints)
      ensures tcpConnections == map[] && udpEndpoints.byFlow == map[]
      ensures this.proxies == proxies && this.nameToProxy == nameToProxy
    {
      tcpConnections := map[];
      udpEndpoints := new UdpMappings();
      this.proxies, this.nameToProxy := proxies, nameToProxy;
    }

    /** Visits the configured names in an arbitrary order. */
    method GetProxyPort(path: string, t: Transport, isV6: bool) returns (port: u16)
      ensures Selects(nameToProxy, proxies, t, isV6, Some(path), port)
    {
      var todo := nameToProxy.Keys;
      while todo != {}
        invariant todo <= nameToProxy.Keys
        invariant forall name :: NameMatches(nameToProxy, proxies, path, name) ==> name in todo
        decreases todo
      {
        var name :| name in todo;
        if Contains(path, name) && nameToProxy[name] < |proxies| {
          assert NameMatches(nameToProxy, proxies, path, name);
          return proxies[nameToProxy[name]].Port(t, isV6);
        }
        todo := todo - {name};
      }
      return 0;
    }

    method ProcessTcpPayload(e: Endpoints, isV6: bool, flags: Flags, path: Option<string>)
      returns (rewrite: Option<PortRewrite>, ghost lookup: u16)
      modifies `tcpConnections
      ensures Selects(nameToProxy, proxies, Tcp, isV6, path, lookup)
      ensures TcpOutcome(tcpConnections, rewrite) == TcpStep(old(tcpConnections), proxies, e, flags, lookup)
    {
      var redirected, proxyPort := false, 0;
      lookup := SomeSelection(nameToProxy, proxies, Tcp, isV6, path);
      if flags.syn && !flags.ack {
        if path.Some? {
          proxyPort := GetProxyPort(path.value, Tcp, isV6);
          lookup := proxyPort;
          if proxyPort != 0 {
            var key := ClientTcpKey(e);
            if key !in tcpConnections {
              tcpConnections := tcpConnections[key := TcpPortMapping(e.dst.ip, e.dst.port, proxyPort)];
            }
            redirected := true;
          }
        }
      } else {
        var key := ClientTcpKey(e);
        if key in tcpConnections {
          var entry := tcpConnections[key];
          if flags.rst || flags.fin {
            tcpConnections := tcpConnections - {key};
          }
          proxyPort := entry.proxyPort;
          redirected := true;
        }
      }

      if redirected {
        return Some(ToProxy(proxyPort)), lookup;
      }

      if IsProxyPort(proxies, Tcp, e.src.port) {
        var key := ReplyTcpKey(e);
        if key in tcpConnections {
          var entry := tcpConnections[key];
          if flags.rst || flags.fin {
            tcpConnections := tcpConnections - {key};
          }
          return Some(FromProxy(entry.dstPort)), lookup;
        }
      }
      return None, lookup;
    }

    method ProcessUdpPayload(e: Endpoints, isV6: bool, now: Instant, path: Option<string>)
      returns (rewrite: Option<PortRewrite>, ghost lookup: u16)
      requires Valid()
      modifies udpEndpoints
      ensures Valid()
      ensures Selects(nameToProxy, proxies, Udp, isV6, path, lookup)
      ensures UdpOutcome(udpEndpoints.byFlow, udpEndpoints.byPeer, rewrite)
           == UdpStep(old(udpEndpoints.byFlow), old(udpEndpoints.byPeer), proxies, e, now, lookup)
    {
      var redirected, proxyPort := false, 0;
      lookup := SomeSelection(nameToProxy, proxies, Udp, isV6, path);
      var key := ClientUdpKey(e);
      if key in udpEndpoints.byFlow {
        var entry := udpEndpoints.byFlow[key];
        if entry.dstPort == e.dst.port {
          udpEndpoints.Touch(key, now);
          return Some(ToProxy(entry.proxyPort)), lookup;
        } else {
          return None, lookup;
        }
      }

      if path.Some? {
        proxyPort := GetProxyPort(path.value, Udp, isV6);
        lookup := proxyPort;
        if proxyPort != 0 {
          udpEndpoints.Insert(key, UdpPortMapping(e.dst.ip, e.dst.port, proxyPort, now));
          redirected := true;
        }
      }

      if redirected {
        return Some(ToProxy(proxyPort)), lookup;
      }

      if IsProxyPort(proxies, Udp, e.src.port) {
        var key := ReplyUdpKey(e);
        if key in udpEndpoints.byFlow {
          return Some(FromProxy(udpEndpoints.byFlow[key].dstPort)), lookup;
        }
      }
      return None, lookup;
    }

    method CleanupStaleUdpEndpoints(now: Instant)
      requires Valid()
      modifies udpEndpoints
      ensures Valid()
      ensures udpEndpoints.byFlow == Retained(old(udpEndpoints.byFlow), FreshAt(now))
      ensures udpEndpoints.byPeer == RebuiltIndex(udpEndpoints.byFlow)
    {
      udpEndpoints.RetainActive(FreshAt(now));
    }
  }
}
