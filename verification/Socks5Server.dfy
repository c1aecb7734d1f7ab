/** The other end of the wire: what a SOCKS5 server writes and how it reads the client, laid out by
    RFC 1928 and, for the credentials, RFC 1929. The client's formats and its acceptance of answers
    are proved against these. */
module Socks5Server {
  import opened Net
  import opened Socks5

  // ---- Addresses (section 5) ----

  datatype WireAddr = Ip4(octets: Octets4) | DomainName(name: Bytes) | Ip6(octets6: Octets16)
  {
    predicate WellFormed() {
      DomainName? ==> |name| < 256
    }

    /** The address with a port, the type byte in front. */
    function OnWire(port: u16): (r: Bytes)
      requires WellFormed()
      ensures r != []
    {
      (match this
       case Ip4(octets) => [0x01] + octets
       case DomainName(name) => [0x03, |name|] + name
       case Ip6(octets) => [0x04] + octets)
      + BigEndian(port)
    }

    /** The endpoint it stands for, unless it is a name that does not resolve. */
    function Meaning(port: u16, resolve: Resolver): Option<SocketAddr> {
      match this
      case Ip4(octets) => Some(SocketAddr(V4(octets), port))
      case DomainName(name) => resolve(name, port)
      case Ip6(octets) => Some(SocketAddr(V6(octets), port))
    }
  }

  /** The wire form of an endpoint. */
  function WireOf(ip: IpAddr): WireAddr {
    match ip case V4(v4) => Ip4(v4) case V6(v6) => Ip6(v6)
  }

  /** The encoder writes the address type of the endpoint, its octets and its port. */
  lemma EncodedOnWire(addr: SocketAddr)
    ensures EncodedAddr(addr) == WireOf(addr.ip).OnWire(addr.port)
  {
  }

  lemma WireDecodes(a: WireAddr, port: u16, rest: Bytes, resolve: Resolver)
    requires a.WellFormed()
    ensures var w := a.OnWire(port);
            DecodeAddr(w[0], w[1..] + rest, resolve)
            == match a.Meaning(port, resolve)
               case None => Err(Socks5Error.Unresolved)
               case Some(addr) => Ok(Decoded(addr, |w| - 1))
  {
    var w := a.OnWire(port);
    var b := w[1..] + rest;
    match a
    case Ip4(octets) => assert b[..4] == octets && U16At(b, 4) == port;
    case Ip6(octets) => assert b[..16] == octets && U16At(b, 16) == port;
    case DomainName(name) =>
      assert b == [|name|] + name + (BigEndian(port) + rest);
      assert b[1..1 + |name|] == name && b[1 + |name|] == port / 0x100 && b[1 + |name| + 1] == port % 0x100;
  }

  /** The bytes read as an address, for a type there is and when they are all there. */
  function Readable(atyp: byte, b: Bytes): Option<(WireAddr, u16)> {
    if atyp == 0x01 && |b| >= 6 then Some((Ip4(b[..4]), U16At(b, 4)))
    else if atyp == 0x04 && |b| >= 18 then Some((Ip6(b[..16]), U16At(b, 16)))
    else if atyp == 0x03 && |b| >= 1 && |b| >= Length(b[0]) + 3 then
      Some((DomainName(b[1..1 + Length(b[0])]), U16At(b, 1 + Length(b[0]))))
    else None
  }

  lemma ReadableOnWire(atyp: byte, b: Bytes)
    requires Readable(atyp, b).Some?
    ensures var (a, port) := Readable(atyp, b).value;
            a.WellFormed() && a.OnWire(port) <= [atyp] + b
  {
    var (a, port) := Readable(atyp, b).value;
    var w := a.OnWire(port);
    var n := |w| - 3;
    assert BigEndian(U16At(b, n)) == b[n..n + 2];
    match a {
      case Ip4(octets) => assert octets == b[..n];
      case Ip6(octets) => assert octets == b[..n];
      case DomainName(name) => assert [b[0]] + name == b[..n];
    }
    assert w == [atyp] + b[..n] + b[n..n + 2];
    assert [atyp] + b == w + b[n + 2..];
  }

  /** The decoders accept exactly the three address forms, given in full and, for a name, resolving;
      they take in exactly that form and yield what it stands for. Refused as unresolved is exactly a
      name given in full, and as unsupported a type there is not; what is left is cut short. */
  lemma DecodedExactly(atyp: byte, b: Bytes, resolve: Resolver, d: Decoded)
    ensures DecodeAddr(atyp, b, resolve) == Ok(d)
            <==> exists a: WireAddr, port: u16 ::
                   && a.WellFormed() && a.OnWire(port) <= [atyp] + b
                   && |a.OnWire(port)| == 1 + d.consumed && a.Meaning(port, resolve) == Some(d.addr)
    ensures DecodeAddr(atyp, b, resolve) == Err(Socks5Error.Unresolved)
            <==> exists a: WireAddr, port: u16 ::
                   && a.WellFormed() && a.OnWire(port) <= [atyp] + b && a.Meaning(port, resolve) == None
    ensures DecodeAddr(atyp, b, resolve) == Err(UnsupportedType(atyp)) <==> atyp !in {0x01, 0x03, 0x04}
  {
    if Readable(atyp, b).Some? {
      ReadableOnWire(atyp, b);
    }
    forall a: WireAddr, port: u16 | a.WellFormed() && a.OnWire(port) <= [atyp] + b
      ensures DecodeAddr(atyp, b, resolve)
              == match a.Meaning(port, resolve)
                 case None => Err(Socks5Error.Unresolved)
                 case Some(addr) => Ok(Decoded(addr, |a.OnWire(port)| - 1))
    {
      var w := a.OnWire(port);
      var rest := ([atyp] + b)[|w|..];
      assert [atyp] + b == w + rest;
      assert b == w[1..] + rest && w[0] == atyp;
      WireDecodes(a, port, rest, resolve);
    }
  }

  // ---- Reading the client (sections 3 and 4; section 2 of RFC 1929) ----

  datatype Transcript = Transcript(methods: Bytes, auth: Option<Socks5Auth>, cmd: Command, dst: SocketAddr)

  datatype Parsed<T> = Parsed(value: T, rest: Bytes)

  function ReadGreeting(b: Bytes): Option<Parsed<Bytes>> {
    if |b| < 2 || b[0] != 0x05 || |b| < 2 + Length(b[1]) then None
    else Some(Parsed(b[2..2 + Length(b[1])], b[2 + Length(b[1])..]))
  }

  /** Section 2 of RFC 1929. */
  function ReadAuth(b: Bytes): Option<Parsed<Socks5Auth>> {
    if |b| < 2 || b[0] != 0x01 || |b| < 2 + Length(b[1]) + 1 then None
    else
      var end := 2 + Length(b[1]);
      var username, b' := b[2..end], b[end..];
      if |b'| < 1 + Length(b'[0]) then None
      else Some(Parsed(Socks5Auth(username, b'[1..1 + Length(b'[0])]), b'[1 + Length(b'[0])..]))
  }

  /** The command codes of section 4 that the client uses. */
  function CommandOf(code: byte): Option<Command> {
    if code == 0x01 then Some(Connect) else if code == 0x03 then Some(UdpAssociate) else None
  }

  /** Section 4, for a request with an IP address. */
  function ReadRequest(b: Bytes): Option<Parsed<(Command, SocketAddr)>> {
    if |b| < 4 || b[0] != 0x05 || b[2] != 0x00 || CommandOf(b[1]) == None then None
    else
      match Readable(b[3], b[4..])
      case Some((Ip4(v4), port)) => Some(Parsed((CommandOf(b[1]).value, SocketAddr(V4(v4), port)), b[10..]))
      case Some((Ip6(v6), port)) => Some(Parsed((CommandOf(b[1]).value, SocketAddr(V6(v6), port)), b[22..]))
      case _ => None
  }

  /** How a server that chose `chosen` reads the whole of the client's side. */
  function ServerReads(b: Bytes, chosen: byte): Option<Transcript> {
    match ReadGreeting(b)
    case None => None
    case Some(Parsed(methods, b1)) =>
      if chosen == 0x02 then
        match ReadAuth(b1)
        case None => None
        case Some(Parsed(auth, b2)) => ReadLast(methods, Some(auth), b2)
      else
        ReadLast(methods, None, b1)
  }

  function ReadLast(methods: Bytes, auth: Option<Socks5Auth>, b: Bytes): Option<Transcript> {
    match ReadRequest(b)
    case None => None
    case Some(p) => if p.rest == [] then Some(Transcript(methods, auth, p.value.0, p.value.1)) else None
  }

  lemma GreetingReadsBack(auth: Option<Socks5Auth>, rest: Bytes)
    ensures ReadGreeting(Greeting(auth) + rest) == Some(Parsed(Offered(auth), rest))
  {
    var b := Greeting(auth) + rest;
    assert b[2..2 + b[1]] == Offered(auth) && b[2 + b[1]..] == rest;
  }

  lemma AuthReadsBack(auth: Socks5Auth, rest: Bytes)
    requires CredentialsFit(auth)
    ensures ReadAuth(AuthMessage(auth) + rest) == Some(Parsed(auth, rest))
  {
    var b := AuthMessage(auth) + rest;
    var n := |auth.username|;
    assert b[2..2 + n] == auth.username;
    var b' := b[2 + n..];
    assert b' == [|auth.password|] + auth.password + rest;
    assert b'[1..1 + |auth.password|] == auth.password;
    assert b'[1 + |auth.password|..] == rest;
  }

  lemma AddressReadsBack(addr: SocketAddr)
    ensures var w := WireOf(addr.ip).OnWire(addr.port); Readable(w[0], w[1..]) == Some((WireOf(addr.ip), addr.port))
  {
    var b := WireOf(addr.ip).OnWire(addr.port)[1..];
    match addr.ip
    case V4(v4) => assert b[..4] == v4 && b[4] == addr.port / 0x100 && b[5] == addr.port % 0x100;
    case V6(v6) => assert b[..16] == v6 && b[16] == addr.port / 0x100 && b[17] == addr.port % 0x100;
  }

  lemma RequestReadsBack(cmd: Command, dst: SocketAddr)
    ensures ReadRequest(RequestMessage(cmd, dst)) == Some(Parsed((cmd, dst), []))
  {
    var b := RequestMessage(cmd, dst);
    var w := WireOf(dst.ip).OnWire(dst.port);
    EncodedOnWire(dst);
    assert b[3] == w[0] && b[4..] == w[1..];
    AddressReadsBack(dst);
    assert Readable(b[3], b[4..]) == Some((WireOf(dst.ip), dst.port));
    assert |b| == 3 + |w|;
    assert dst.ip.V4? ==> b[10..] == [];
    assert dst.ip.V6? ==> b[22..] == [];
  }

  lemma LastReadsBack(methods: Bytes, auth: Option<Socks5Auth>, cmd: Command, dst: SocketAddr)
    ensures ReadLast(methods, auth, RequestMessage(cmd, dst)) == Some(Transcript(methods, auth, cmd, dst))
  {
    RequestReadsBack(cmd, dst);
  }

  /** The server recovers the credentials, the command and the destination from what the client sent,
      and as methods 0, and 2 exactly if the client has credentials. */
  lemma ServerRecoversClient(auth: Option<Socks5Auth>, chosen: byte, cmd: Command, dst: SocketAddr)
    requires chosen == 0x02 ==> auth.Some? && CredentialsFit(auth.value)
    ensures var methods := if auth.Some? then [0x00, 0x02] else [0x00];
            ServerReads(ClientBytes(auth, chosen, cmd, dst), chosen)
            == Some(Transcript(methods, if chosen == 0x02 then auth else None, cmd, dst))
  {
    var request := RequestMessage(cmd, dst);
    var b := ClientBytes(auth, chosen, cmd, dst);
    if chosen == 0x02 {
      var tail := AuthMessage(auth.value) + request;
      assert b == Greeting(auth) + tail;
      GreetingReadsBack(auth, tail);
      AuthReadsBack(auth.value, request);
    } else {
      assert b == Greeting(auth) + request;
      GreetingReadsBack(auth, request);
    }
    LastReadsBack(Offered(auth), if chosen == 0x02 then auth else None, cmd, dst);
  }

  // ---- Answering the client ----

  /** What a server sends in a dialogue that succeeds: the selection of a method, after method 2 the
      acceptance of the credentials, and the reply with the address it bound. */
  function ServerBytes(version: byte, chosen: byte, reserved: byte, bound: WireAddr, port: u16): Bytes
    requires bound.WellFormed()
  {
    [version, chosen] + (if chosen == 0x02 then [0x01, 0x00] else []) + [0x05, 0x00, reserved] + bound.OnWire(port)
  }

  /** The choice is one the client can follow: no authentication, under version 5, or the credentials
      it has, their lengths within an octet, under whatever version. */
  predicate CanFollow(auth: Option<Socks5Auth>, version: byte, chosen: byte) {
    || (version == 0x05 && chosen == 0x00)
    || (chosen == 0x02 && auth.Some? && |auth.value.username| < 256 && |auth.value.password| < 256)
  }

  /** Such answers are accepted, whatever follows them, which is left unread; and the address in the
      reply is the one the server bound. */
  lemma AnswersAccepted(auth: Option<Socks5Auth>, version: byte, chosen: byte, reserved: byte, bound: WireAddr,
                        port: u16, rest: Bytes, resolve: Resolver)
    requires CanFollow(auth, version, chosen) && bound.WellFormed() && bound.Meaning(port, resolve).Some?
    ensures var incoming := ServerBytes(version, chosen, reserved, bound, port) + rest;
            && DialogueAccepted(auth, incoming, resolve)
            && (var reply := incoming[HandshakeLength(incoming)..];
                var d := AcceptedReply(reply, resolve);
                && d.addr == bound.Meaning(port, resolve).value
                && d.consumed <= |reply| && reply[d.consumed..] == rest)
  {
    var incoming := ServerBytes(version, chosen, reserved, bound, port) + rest;
    var w := bound.OnWire(port);
    var front := [version, chosen] + (if chosen == 0x02 then [0x01, 0x00] else []);
    var reply := [0x05, 0x00, reserved] + w + rest;
    assert incoming == front + reply && |front| == HandshakeLength(incoming);
    assert incoming[|front|..] == reply;
    assert reply[3] == w[0] && reply[4..] == w[1..] + rest;
    WireDecodes(bound, port, rest, resolve);
    assert reply[3 + |w|..] == rest;
  }

  /** The client accepts exactly the answers of a server: its bytes start with what a server sends that
      made a choice the client can follow and bound an address that resolves. */
  lemma AcceptedExactly(auth: Option<Socks5Auth>, incoming: Bytes, resolve: Resolver)
    ensures DialogueAccepted(auth, incoming, resolve)
            <==> exists version: byte, chosen: byte, reserved: byte, bound: WireAddr, port: u16 ::
                   && bound.WellFormed() && bound.Meaning(port, resolve).Some? && CanFollow(auth, version, chosen)
                   && ServerBytes(version, chosen, reserved, bound, port) <= incoming
  {
    if DialogueAccepted(auth, incoming, resolve) {
      var n := HandshakeLength(incoming);
      var reply := incoming[n..];
      ReadableOnWire(reply[3], reply[4..]);
      var (bound, port) := Readable(reply[3], reply[4..]).value;
      AcceptedStarts(auth, incoming, resolve, bound, port);
      assert ServerBytes(incoming[0], incoming[1], reply[2], bound, port) <= incoming;
    }
    forall version: byte, chosen: byte, reserved: byte, bound: WireAddr, port: u16 |
      && bound.WellFormed() && bound.Meaning(port, resolve).Some? && CanFollow(auth, version, chosen)
      && ServerBytes(version, chosen, reserved, bound, port) <= incoming
      ensures DialogueAccepted(auth, incoming, resolve)
    {
      var b := ServerBytes(version, chosen, reserved, bound, port);
      assert incoming == b + incoming[|b|..];
      AnswersAccepted(auth, version, chosen, reserved, bound, port, incoming[|b|..], resolve);
    }
  }

  lemma AcceptedStarts(auth: Option<Socks5Auth>, incoming: Bytes, resolve: Resolver, bound: WireAddr, port: u16)
    requires DialogueAccepted(auth, incoming, resolve) && bound.WellFormed()
    requires var reply := incoming[HandshakeLength(incoming)..]; bound.OnWire(port) <= [reply[3]] + reply[4..]
    ensures var reply := incoming[HandshakeLength(incoming)..];
            ServerBytes(incoming[0], incoming[1], reply[2], bound, port) <= incoming
  {
    var n := HandshakeLength(incoming);
    var reply, w := incoming[n..], bound.OnWire(port);
    ReplyStarts(reply, w);
    var front := [incoming[0], incoming[1]] + (if incoming[1] == 0x02 then [0x01, 0x00] else []);
    assert incoming[..n] == front && incoming == incoming[..n] + reply;
    Regrouped(front, [0x05, 0x00, reply[2]], w, reply[3 + |w|..]);
  }

  lemma ReplyStarts(reply: Bytes, w: Bytes)
    requires |reply| >= 4 && reply[0] == 0x05 && reply[1] == 0x00 && w <= [reply[3]] + reply[4..]
    ensures |reply| >= 3 + |w| && reply == [0x05, 0x00, reply[2]] + w + reply[3 + |w|..]
  {
    assert [reply[3]] + reply[4..] == reply[3..];
    assert w == reply[3..][..|w|];
  }

  lemma Regrouped(a: Bytes, b: Bytes, c: Bytes, d: Bytes)
    ensures a + (b + c + d) == a + b + c + d && a + b + c <= a + b + c + d
  {
  }

  // ---- Datagrams (section 7) ----

  /** A datagram is accepted exactly when it is an unfragmented request in wire form with an address
      that resolves; the payload starts right behind that address. */
  lemma DatagramAcceptedExactly(b: Bytes, resolve: Resolver, offset: nat, addr: SocketAddr)
    ensures UdpResponse(b, resolve) == Ok((offset, addr))
            <==> exists a: WireAddr, port: u16 ::
                   && a.WellFormed() && [0x00, 0x00, 0x00] + a.OnWire(port) <= b
                   && offset == 3 + |a.OnWire(port)| && a.Meaning(port, resolve) == Some(addr)
    ensures UdpResponse(b, resolve) == Err(ReservedNotZero) <==> |b| >= 4 && !(b[0] == b[1] == 0x00)
    ensures UdpResponse(b, resolve) == Err(Fragmented) <==> |b| >= 4 && b[0] == b[1] == 0x00 && b[2] != 0x00
  {
    if |b| >= 4 {
      assert b[3..] == [b[3]] + b[4..];
      assert b == [b[0], b[1], b[2]] + b[3..];
      if offset >= 4 {
        DecodedExactly(b[3], b[4..], resolve, Decoded(addr, offset - 4));
      }
    }
    forall a: WireAddr, port: u16 | a.WellFormed()
      ensures [0x00, 0x00, 0x00] + a.OnWire(port) <= b
              <==> |b| >= 4 && b[0] == b[1] == b[2] == 0x00 && a.OnWire(port) <= [b[3]] + b[4..]
    {
      HeaderStarts(a.OnWire(port), b);
    }
  }

  lemma HeaderStarts(w: Bytes, b: Bytes)
    requires w != []
    ensures [0x00, 0x00, 0x00] + w <= b
            <==> |b| >= 4 && b[0] == b[1] == b[2] == 0x00 && w <= [b[3]] + b[4..]
  {
    if |b| >= 4 {
      assert b[3..] == [b[3]] + b[4..];
      assert b == b[..3] + b[3..];
      if [0x00, 0x00, 0x00] + w <= b {
        assert w == ([0x00, 0x00, 0x00] + w)[3..];
      }
    }
  }
}
