/** The SOCKS5 wire formats: addresses, the UDP request header and the dialogue that opens a
    connection or an association. Sections are those of RFC 1928 unless RFC 1929 is named. */
module Socks5 {
  import opened Net

  datatype Socks5Error =
    | Truncated
    | ReservedNotZero
    | Fragmented
    | UnsupportedType(atyp: byte)
    | Unresolved
    | MethodsRejected
    | MethodNotOffered
    | MethodUnknown
    | CredentialsTooLong
    | AuthFailed
    | BadReplyVersion(version: byte)
    | RequestFailed(code: byte)

  /** Name resolution, an oracle: host bytes and port to the first address found. */
  type Resolver = (Bytes, u16) -> Option<SocketAddr>

  const IPV4: byte := 0x01
  const DOMAIN: byte := 0x03
  const IPV6: byte := 0x04

  // ---- Addresses (section 5) ----

  /** A length octet as a number. */
  function Length(b: byte): nat {
    b
  }

  function EncodedType(addr: SocketAddr): byte {
    if addr.ip.V4? then IPV4 else IPV6
  }

  function EncodedAddr(addr: SocketAddr): Bytes {
    [EncodedType(addr)] + (match addr.ip case V4(v4) => v4 case V6(v6) => v6) + BigEndian(addr.port)
  }

  datatype Decoded = Decoded(addr: SocketAddr, consumed: nat)

  /** The address that starts `b`, read after its type byte. */
  function DecodeAddr(atyp: byte, b: Bytes, resolve: Resolver): Result<Decoded, Socks5Error> {
    if atyp == IPV4 then
      if |b| < 6 then Err(Truncated) else Ok(Decoded(SocketAddr(V4(b[..4]), U16At(b, 4)), 6))
    else if atyp == IPV6 then
      if |b| < 18 then Err(Truncated) else Ok(Decoded(SocketAddr(V6(b[..16]), U16At(b, 16)), 18))
    else if atyp == DOMAIN then
      if |b| < 1 || |b| < 1 + Length(b[0]) + 2 then Err(Truncated)
      else
        var end := 1 + Length(b[0]);
        match resolve(b[1..end], U16At(b, end))
        case None => Err(Unresolved)
        case Some(addr) => Ok(Decoded(addr, end + 2))
    else
      Err(UnsupportedType(atyp))
  }

  /** Decoding inverts encoding and leaves any suffix unread. */
  lemma DecodeInvertsEncode(addr: SocketAddr, rest: Bytes, resolve: Resolver)
    ensures var b := EncodedAddr(addr);
            DecodeAddr(b[0], b[1..] + rest, resolve) == Ok(Decoded(addr, |b| - 1))
  {
    var b := EncodedAddr(addr);
    var tail := b[1..] + rest;
    match addr.ip
    case V4(v4) => assert tail[..4] == v4 && tail[4..6] == BigEndian(addr.port);
    case V6(v6) => assert tail[..16] == v6 && tail[16..18] == BigEndian(addr.port);
  }

  /** A decoded IP address is exactly what the encoder writes for it. */
  lemma EncodeInvertsDecode(atyp: byte, b: Bytes, resolve: Resolver)
    requires atyp != DOMAIN && DecodeAddr(atyp, b, resolve).Ok?
    ensures var d := DecodeAddr(atyp, b, resolve).value;
            d.consumed <= |b| && [atyp] + b[..d.consumed] == EncodedAddr(d.addr)
  {
    var d := DecodeAddr(atyp, b, resolve).value;
    var n := d.consumed - 2;
    assert b[..d.consumed] == b[..n] + b[n..n + 2];
    assert BigEndian(U16At(b, n)) == b[n..n + 2];
  }

  // ---- UDP requests (section 7) ----

  function UdpRequest(dst: SocketAddr, payload: Bytes): Bytes {
    [0, 0, 0] + EncodedAddr(dst) + payload
  }

  function UdpResponse(b: Bytes, resolve: Resolver): Result<(nat, SocketAddr), Socks5Error> {
    if |b| < 4 then Err(Truncated)
    else if b[0] != 0 || b[1] != 0 then Err(ReservedNotZero)
    else if b[2] != 0 then Err(Fragmented)
    else
      match DecodeAddr(b[3], b[4..], resolve)
      case Err(e) => Err(e)
      case Ok(d) => Ok((4 + d.consumed, d.addr))
  }

  lemma UdpRequestReadsBack(dst: SocketAddr, payload: Bytes, resolve: Resolver)
    ensures var b := UdpRequest(dst, payload);
            var r := UdpResponse(b, resolve);
            r.Ok? && r.value.1 == dst && r.value.0 <= |b| && b[r.value.0..] == payload
  {
    var b := UdpRequest(dst, payload);
    assert b[4..] == EncodedAddr(dst)[1..] + payload;
    DecodeInvertsEncode(dst, payload, resolve);
  }

  /** Every accepted datagram splits into a header and a payload; for an IP address the header
      is the one the encoder writes, so that the datagram is the request of its parts. */
  lemma AcceptedResponseIsARequest(b: Bytes, resolve: Resolver)
    requires UdpResponse(b, resolve).Ok?
    ensures var (offset, addr) := UdpResponse(b, resolve).value;
            && offset <= |b|
            && (b[3] != DOMAIN ==> b == UdpRequest(addr, b[offset..]))
  {
    if b[3] != DOMAIN {
      EncodeInvertsDecode(b[3], b[4..], resolve);
      var (offset, addr) := UdpResponse(b, resolve).value;
      assert b == b[..3] + ([b[3]] + b[4..][..offset - 4]) + b[offset..];
    }
  }

  /** A growable byte vector, written in place. */
  class ByteVec {
    var bytes: Bytes

    constructor ()
      ensures bytes == []
    {
      bytes := [];
    }

    method Clear()
      modifies this
      ensures bytes == []
    {
      bytes := [];
    }

    method Push(b: byte)
      modifies this
      ensures bytes == old(bytes) + [b]
    {
      bytes := bytes + [b];
    }

    method Extend(bs: Bytes)
      modifies this
      ensures bytes == old(bytes) + bs
    {
      bytes := bytes + bs;
    }

    method EncodeAddr(addr: SocketAddr)
      modifies this
      ensures bytes == old(bytes) + EncodedAddr(addr)
    {
      match addr.ip {
        case V4(v4) =>
          Push(IPV4);
          Extend(v4);
        case V6(v6) =>
          Push(IPV6);
          Extend(v6);
      }
      Extend(BigEndian(addr.port));
    }

    method BuildUdpRequest(dst: SocketAddr, payload: Bytes)
      modifies this
      ensures bytes == UdpRequest(dst, payload)
    {
      Clear();
      Extend([0x00, 0x00, 0x00]);
      EncodeAddr(dst);
      Extend(payload);
    }
  }

  /** The datagram decoder: reads by offset, and checks the length before every read. */
  method ParseUdpResponse(buf: Bytes, resolve: Resolver) returns (r: Result<(nat, SocketAddr), Socks5Error>)
    ensures r == UdpResponse(buf, resolve)
  {
    if |buf| < 4 {
      return Err(Truncated);
    }
    if buf[0] != 0x00 || buf[1] != 0x00 {
      return Err(ReservedNotZero);
    }
    if buf[2] != 0x00 {
      return Err(Fragmented);
    }
    var atyp := buf[3];
    var offset := 4;
    ghost var body := buf[4..];
    var addr;
    if atyp == 0x01 {
      if |buf| < offset + 4 + 2 {
        return Err(Truncated);
      }
      var ip := [buf[offset], buf[offset + 1], buf[offset + 2], buf[offset + 3]];
      assert ip == body[..4];
      offset := offset + 4;
      var port := U16At(buf, offset);
      offset := offset + 2;
      addr := SocketAddr(V4(ip), port);
    } else if atyp == 0x04 {
      if |buf| < offset + 16 + 2 {
        return Err(Truncated);
      }
      var ip := buf[offset..offset + 16];
      assert ip == body[..16];
      offset := offset + 16;
      var port := U16At(buf, offset);
      offset := offset + 2;
      addr := SocketAddr(V6(ip), port);
    } else if atyp == 0x03 {
      if |buf| < offset + 1 {
        return Err(Truncated);
      }
      var len: nat := buf[offset];
      offset := offset + 1;
      if |buf| < offset + len + 2 {
        return Err(Truncated);
      }
      var host := buf[offset..offset + len];
      assert host == body[1..1 + len];
      offset := offset + len;
      var port := U16At(buf, offset);
      offset := offset + 2;
      var resolved := resolve(host, port);
      if resolved == None {
        return Err(Unresolved);
      }
      addr := resolved.value;
    } else {
      return Err(UnsupportedType(atyp));
    }
    return Ok((offset, addr));
  }

  /** Moves `buf[from..n]` to the front, where source and target may overlap. */
  method CopyToFront(buf: array<byte>, from: nat, n: nat)
    requires from <= n <= buf.Length
    modifies buf
    ensures buf[..n - from] == old(buf[from..n])
    ensures buf[n - from..] == old(buf[n - from..])
  {
    ghost var was := buf[..];
    for i := 0 to n - from
      invariant forall k | 0 <= k < i :: buf[k] == was[from + k]
      invariant forall k | i <= k < buf.Length :: buf[k] == was[k]
    {
      buf[i] := buf[from + i];
    }
  }

  /** A datagram of `n` bytes has been received at the front of `buf`; its header is checked and
      its payload shifted over it. */
  method RecvDatagram(buf: array<byte>, n: nat, resolve: Resolver)
    returns (r: Result<(nat, SocketAddr), Socks5Error>)
    requires n <= buf.Length
    modifies buf
    ensures match UdpResponse(old(buf[..n]), resolve)
            case Err(e) => r == Err(e) && buf[..] == old(buf[..])
            case Ok((offset, addr)) =>
              && offset <= n
              && r == Ok((n - offset, addr))
              && buf[..n - offset] == old(buf[offset..n])
              && buf[n - offset..] == old(buf[n - offset..])
  {
    var parsed := ParseUdpResponse(buf[..n], resolve);
    if parsed.Err? {
      return Err(parsed.error);
    }
    AcceptedResponseIsARequest(buf[..n], resolve);
    var (offset, addr) := parsed.value;
    var payloadLen := if n < offset then 0 else n - offset;
    CopyToFront(buf, offset, n);
    return Ok((payloadLen, addr));
  }

  function MaybeMapIpv4ToIpv6Mapped(addr: SocketAddr, preferMapped: bool): SocketAddr {
    if preferMapped && addr.ip.V4? then SocketAddr(V6(ToIpv6Mapped(addr.ip.v4)), addr.port) else addr
  }

  /** `Ipv6Addr::to_ipv4`: the IPv4 part of a mapped or IPv4-compatible address. */
  function ToIpv4(v6: Octets16): Option<Octets4> {
    if v6[..10] == MAPPED_PREFIX[..10] && (v6[10..12] == [0, 0] || v6[10..12] == [0xFF, 0xFF]) then Some(v6[12..])
    else None
  }

  /** A relay without an address of its own is taken to be at the proxy's address. */
  function NormalizeUdpRelay(relay: SocketAddr, proxyIp: IpAddr): SocketAddr {
    if !IsUnspecified(relay.ip) then relay
    else
      match (relay.ip, proxyIp)
      case (V4(_), V4(_)) => SocketAddr(proxyIp, relay.port)
      case (V4(_), V6(v6)) => if ToIpv4(v6).Some? then SocketAddr(V4(ToIpv4(v6).value), relay.port) else relay
      case (V6(_), V6(_)) => SocketAddr(proxyIp, relay.port)
      case (V6(_), V4(v4)) => SocketAddr(V6(ToIpv6Mapped(v4)), relay.port)
  }

  /** The relay's port, its family and any address it names are kept. For a relay that names none, the result is
      the proxy's own address exactly unless the relay is IPv4 and the proxy a genuine IPv6 address. */
  lemma RelayIsAtProxyExactly(relay: SocketAddr, proxyIp: IpAddr)
    ensures var r := NormalizeUdpRelay(relay, proxyIp);
            && r.port == relay.port && (r.ip.V6? <==> relay.ip.V6?)
            && (!IsUnspecified(relay.ip) ==> r == relay)
            && (IsUnspecified(relay.ip) ==>
                  (NormalizeMappedIpv6(r).ip == NormalizeMappedIpv6(SocketAddr(proxyIp, r.port)).ip
                   <==> !(relay.ip.V4? && proxyIp.V6? && !IsMapped(proxyIp))))
  {
    var r := NormalizeUdpRelay(relay, proxyIp);
    if proxyIp.V6? {
      var v6 := proxyIp.v6;
      assert v6[..12] == v6[..10] + v6[10..12];
      assert MAPPED_PREFIX == MAPPED_PREFIX[..10] + [0xFF, 0xFF];
      assert IsMapped(proxyIp) ==> v6[..10] == v6[..12][..10] && v6[10..12] == v6[..12][10..];
    } else {
      var m := ToIpv6Mapped(proxyIp.v4);
      assert m[..12] == MAPPED_PREFIX && m[12..] == proxyIp.v4;
    }
  }

  /** A proxy at the IPv6 loopback address that names no relay address in IPv4: the datagrams are
      sent to 0.0.0.1. */
  lemma LoopbackRelayIsElsewhere(port: u16)
    ensures NormalizeUdpRelay(SocketAddr(V4([0, 0, 0, 0]), port), V6([0, 0, 0, 0, 0, 0, 0, 0, 0, 0, 0, 0, 0, 0, 0, 1]))
         == SocketAddr(V4([0, 0, 0, 1]), port)
  {
    var v6: Octets16 := [0, 0, 0, 0, 0, 0, 0, 0, 0, 0, 0, 0, 0, 0, 0, 1];
    assert v6[..10] == MAPPED_PREFIX[..10] && v6[10..12] == [0, 0] && v6[12..] == [0, 0, 0, 1];
  }

  // ---- The dialogue (sections 3, 4 and 6; section 2 of RFC 1929) ----

  datatype Socks5Auth = Socks5Auth(username: Bytes, password: Bytes)

  datatype Command = Connect | UdpAssociate
  {
    function AsByte(): byte {
      match this case Connect => 0x01 case UdpAssociate => 0x03
    }
  }

  function Offered(auth: Option<Socks5Auth>): Bytes {
    if auth.Some? then [0x00, 0x02] else [0x00]
  }

  predicate CredentialsFit(auth: Socks5Auth) {
    |auth.username| <= 255 && |auth.password| <= 255
  }

  function Greeting(auth: Option<Socks5Auth>): Bytes {
    [0x05, |Offered(auth)|] + Offered(auth)
  }

  function AuthMessage(auth: Socks5Auth): Bytes
    requires CredentialsFit(auth)
  {
    [0x01, |auth.username|] + auth.username + [|auth.password|] + auth.password
  }

  function RequestMessage(cmd: Command, dst: SocketAddr): Bytes {
    [0x05, cmd.AsByte(), 0x00] + EncodedAddr(dst)
  }

  /** The server bytes on which the handshake succeeds. */
  predicate HandshakeAccepted(auth: Option<Socks5Auth>, incoming: Bytes) {
    && |incoming| >= 2
    && (|| (incoming[0] == 0x05 && incoming[1] == 0x00)
        || (&& incoming[1] == 0x02 && auth.Some? && CredentialsFit(auth.value)
            && |incoming| >= 4 && incoming[2] == 0x01 && incoming[3] == 0x00))
  }

  function HandshakeLength(incoming: Bytes): nat
    requires |incoming| >= 2
  {
    if incoming[1] == 0x02 then 4 else 2
  }

  predicate ReplyAccepted(reply: Bytes, resolve: Resolver) {
    && |reply| >= 4 && reply[0] == 0x05 && reply[1] == 0x00
    && DecodeAddr(reply[3], reply[4..], resolve).Ok?
  }

  /** The address in an accepted reply, and the length of the reply. */
  function AcceptedReply(reply: Bytes, resolve: Resolver): Decoded
    requires ReplyAccepted(reply, resolve)
  {
    var d := DecodeAddr(reply[3], reply[4..], resolve).value;
    Decoded(d.addr, 4 + d.consumed)
  }

  /** The server bytes on which the whole dialogue succeeds. */
  predicate DialogueAccepted(auth: Option<Socks5Auth>, incoming: Bytes, resolve: Resolver) {
    && HandshakeAccepted(auth, incoming)
    && ReplyAccepted(incoming[HandshakeLength(incoming)..], resolve)
  }

  /** What the client has sent by the time a dialogue succeeds in which the server chose `chosen`. */
  function ClientBytes(auth: Option<Socks5Auth>, chosen: byte, cmd: Command, dst: SocketAddr): Bytes
    requires chosen == 0x02 ==> auth.Some? && CredentialsFit(auth.value)
  {
    Greeting(auth) + (if chosen == 0x02 then AuthMessage(auth.value) else []) + RequestMessage(cmd, dst)
  }

  lemma Regroup(a: Bytes, b: Bytes, c: Bytes, d: Bytes)
    ensures a + b + c + d == a + (b + c + d)
  {
  }

  /** One TCP connection to the server: what it will still send, and what it has been sent. */
  class Stream {
    var incoming: Bytes
    var sent: Bytes

    constructor (incoming: Bytes)
      ensures this.incoming == incoming && sent == []
    {
      this.incoming, sent := incoming, [];
    }

    method WriteAll(b: Bytes)
      modifies `sent
      ensures sent == old(sent) + b
    {
      sent := sent + b;
    }

    method ReadExact(n: nat) returns (r: Option<Bytes>)
      modifies `incoming
      ensures r == None <==> |old(incoming)| < n
      ensures r.Some? ==> r.value == old(incoming)[..n] && incoming == old(incoming)[n..]
    {
      if |incoming| < n {
        incoming := [];
        return None;
      }
      r := Some(incoming[..n]);
      incoming := incoming[n..];
    }

    method ReadPort() returns (r: Option<u16>)
      modifies `incoming
      ensures r == None <==> |old(incoming)| < 2
      ensures r.Some? ==> r.value == U16At(old(incoming), 0) && incoming == old(incoming)[2..]
    {
      var b := ReadExact(2);
      return if b == None then None else Some(U16At(b.value, 0));
    }

    /** The stream decoder: agrees with the datagram decoder, both being `DecodeAddr`. */
    method ReadAddrWithAtyp(atyp: byte, resolve: Resolver) returns (r: Result<SocketAddr, Socks5Error>)
      modifies `incoming
      ensures match DecodeAddr(atyp, old(incoming), resolve)
              case Err(e) => r == Err(e)
              case Ok(d) => r == Ok(d.addr) && d.consumed <= |old(incoming)| && incoming == old(incoming)[d.consumed..]
    {
      ghost var b := incoming;
      if atyp == 0x01 {
        var addr := ReadExact(4);
        if addr == None { return Err(Truncated); }
        var port := ReadPort();
        if port == None { return Err(Truncated); }
        assert b[4..][..2] == b[4..6] && b[4..][2..] == b[6..];
        return Ok(SocketAddr(V4(addr.value), port.value));
      } else if atyp == 0x04 {
        var addr := ReadExact(16);
        if addr == None { return Err(Truncated); }
        var port := ReadPort();
        if port == None { return Err(Truncated); }
        assert b[16..][..2] == b[16..18] && b[16..][2..] == b[18..];
        return Ok(SocketAddr(V6(addr.value), port.value));
      } else if atyp == 0x03 {
        var len := ReadExact(1);
        if len == None { return Err(Truncated); }
        var n: nat := len.value[0];
        var host := ReadExact(n);
        if host == None { return Err(Truncated); }
        assert b[1..][..n] == b[1..1 + n] && b[1..][n..] == b[1 + n..];
        var port := ReadPort();
        if port == None { return Err(Truncated); }
        assert b[1 + n..][..2] == b[1 + n..1 + n + 2] && b[1 + n..][2..] == b[1 + n + 2..];
        var resolved := resolve(host.value, port.value);
        if resolved == None { return Err(Unresolved); }
        return Ok(resolved.value);
      } else {
        return Err(UnsupportedType(atyp));
      }
    }

    method UsernamePasswordAuth(auth: Socks5Auth) returns (r: Result<(), Socks5Error>)
      modifies this
      ensures r.Ok? <==>
                CredentialsFit(auth) && |old(incoming)| >= 2 && old(incoming)[0] == 0x01 && old(incoming)[1] == 0x00
      ensures r.Ok? ==> incoming == old(incoming)[2..]
      ensures sent == old(sent) + (if CredentialsFit(auth) then AuthMessage(auth) else [])
      ensures !CredentialsFit(auth) ==> r == Err(CredentialsTooLong) && incoming == old(incoming)
      ensures CredentialsFit(auth) && |old(incoming)| < 2 ==> r == Err(Truncated)
      ensures CredentialsFit(auth) && |old(incoming)| >= 2 && r.Err? ==> r == Err(AuthFailed)
    {
      var username, password := auth.username, auth.password;
      if |username| > 255 || |password| > 255 {
        return Err(CredentialsTooLong);
      }
      var buf := new ByteVec();
      buf.Push(0x01);
      buf.Push(|username|);
      buf.Extend(username);
      buf.Push(|password|);
      buf.Extend(password);
      assert buf.bytes == AuthMessage(auth);
      WriteAll(buf.bytes);
      var resp := ReadExact(2);
      if resp == None {
        return Err(Truncated);
      }
      if resp.value[0] != 0x01 || resp.value[1] != 0x00 {
        return Err(AuthFailed);
      }
      return Ok(());
    }

    method Handshake(auth: Option<Socks5Auth>) returns (r: Result<(), Socks5Error>)
      modifies this
      ensures r.Ok? <==> HandshakeAccepted(auth, old(incoming))
      ensures r.Ok? ==> incoming == old(incoming)[HandshakeLength(old(incoming))..]
      ensures var b := old(incoming);
              var authSent := |b| >= 2 && b[1] == 0x02 && auth.Some? && CredentialsFit(auth.value);
              sent == old(sent) + Greeting(auth) + (if authSent then AuthMessage(auth.value) else [])
      ensures |old(incoming)| < 2 ==> r == Err(Truncated)
      ensures |old(incoming)| >= 2 && old(incoming)[1] == 0x02 && auth == None ==> r == Err(MethodNotOffered)
      ensures |old(incoming)| >= 2 && old(incoming)[1] == 0xFF ==> r == Err(MethodsRejected)
      ensures var b := old(incoming);
              && (|b| >= 2 && b[1] !in {0x00, 0x02, 0xFF} ==> r == Err(MethodUnknown))
              && (|b| >= 2 && b[1] == 0x00 && b[0] != 0x05 ==> r == Err(MethodUnknown))
              && (|b| >= 2 && b[1] == 0x02 && auth.Some? && r.Err? ==>
                    r.error == if !CredentialsFit(auth.value) then CredentialsTooLong
                               else if |b| < 4 then Truncated else AuthFailed)
    {
      ghost var b, sentBefore := incoming, sent;
      if auth.Some? {
        WriteAll([0x05, 0x02, 0x00, 0x02]);
      } else {
        WriteAll([0x05, 0x01, 0x00]);
      }
      assert sent == sentBefore + Greeting(auth);
      var resp := ReadExact(2);
      if resp == None {
        return Err(Truncated);
      }
      if resp.value[0] != 0x05 || resp.value[1] != 0x00 {
        if resp.value[1] == 0x02 {
          if auth == None {
            return Err(MethodNotOffered);
          }
          assert |b| >= 4 ==> incoming[0] == b[2] && incoming[1] == b[3];
          r := UsernamePasswordAuth(auth.value);
          assert r.Ok? ==> incoming == b[4..];
          return;
        } else if resp.value[1] == 0xFF {
          return Err(MethodsRejected);
        } else {
          return Err(MethodUnknown);
        }
      }
      return Ok(());
    }

    method ReadReply(resolve: Resolver) returns (r: Result<SocketAddr, Socks5Error>)
      modifies `incoming
      ensures r.Ok? <==> ReplyAccepted(old(incoming), resolve)
      ensures r.Ok? ==> var d := AcceptedReply(old(incoming), resolve);
              r.value == d.addr && d.consumed <= |old(incoming)| && incoming == old(incoming)[d.consumed..]
      ensures var b := old(incoming);
              && (|b| < 4 ==> r == Err(Truncated))
              && (|b| >= 4 && b[0] != 0x05 ==> r == Err(BadReplyVersion(b[0])))
              && (|b| >= 4 && b[0] == 0x05 && b[1] != 0x00 ==> r == Err(RequestFailed(b[1])))
              && (|b| >= 4 && b[0] == 0x05 && b[1] == 0x00 && r.Err? ==>
                    DecodeAddr(b[3], b[4..], resolve) == Err(r.error))
    {
      var header := ReadExact(4);
      if header == None {
        return Err(Truncated);
      }
      if header.value[0] != 0x05 {
        return Err(BadReplyVersion(header.value[0]));
      }
      if header.value[1] != 0x00 {
        return Err(RequestFailed(header.value[1]));
      }
      var atyp := header.value[3];
      r := ReadAddrWithAtyp(atyp, resolve);
    }

    method SendRequest(cmd: Command, dst: SocketAddr, resolve: Resolver) returns (r: Result<SocketAddr, Socks5Error>)
      modifies this
      ensures r.Ok? <==> ReplyAccepted(old(incoming), resolve)
      ensures r.Ok? ==> var d := AcceptedReply(old(incoming), resolve);
              r.value == d.addr && d.consumed <= |old(incoming)| && incoming == old(incoming)[d.consumed..]
      ensures sent == old(sent) + RequestMessage(cmd, dst)
    {
      var req := new ByteVec();
      req.Push(0x05);
      req.Push(cmd.AsByte());
      req.Push(0x00);
      req.EncodeAddr(dst);
      WriteAll(req.bytes);
      r := ReadReply(resolve);
    }

    /** The handshake and request every connection opens with. It succeeds on exactly the accepted
        server bytes, and by then has sent exactly `ClientBytes`. */
    method Dialogue(auth: Option<Socks5Auth>, cmd: Command, dst: SocketAddr, resolve: Resolver)
      returns (r: Result<SocketAddr, Socks5Error>)
      modifies this
      ensures r.Ok? <==> DialogueAccepted(auth, old(incoming), resolve)
      ensures r.Ok? ==>
                var reply := old(incoming)[HandshakeLength(old(incoming))..];
                var d := AcceptedReply(reply, resolve);
                && r.value == d.addr && d.consumed <= |reply| && incoming == reply[d.consumed..]
                && sent == old(sent) + ClientBytes(auth, old(incoming)[1], cmd, dst)
    {
      ghost var before, sentBefore := incoming, sent;
      var shaken := Handshake(auth);
      if shaken.Err? {
        return Err(shaken.error);
      }
      ghost var authPart := if before[1] == 0x02 then AuthMessage(auth.value) else [];
      assert sent == sentBefore + Greeting(auth) + authPart;
      r := SendRequest(cmd, dst, resolve);
      Regroup(sentBefore, Greeting(auth), authPart, RequestMessage(cmd, dst));
    }

    /** The dialogue of a TCP connection: the destination is sent in mapped form to an IPv6 proxy,
        the address in the reply is dropped, and the stream is left right behind the reply. */
    method ConnectTcp(auth: Option<Socks5Auth>, proxyIp: IpAddr, dst: SocketAddr, resolve: Resolver)
      returns (r: Result<(), Socks5Error>)
      modifies this
      ensures r.Ok? <==> DialogueAccepted(auth, old(incoming), resolve)
      ensures r.Ok? ==>
                var reply := old(incoming)[HandshakeLength(old(incoming))..];
                var target := MaybeMapIpv4ToIpv6Mapped(dst, proxyIp.V6?);
                && AcceptedReply(reply, resolve).consumed <= |reply|
                && incoming == reply[AcceptedReply(reply, resolve).consumed..]
                && sent == old(sent) + ClientBytes(auth, old(incoming)[1], Connect, target)
    {
      var bound := Dialogue(auth, Connect, MaybeMapIpv4ToIpv6Mapped(dst, proxyIp.V6?), resolve);
      return if bound.Ok? then Ok(()) else Err(bound.error);
    }

    /** The dialogue of a UDP association: it asks for no particular address, and the relay to send
        to is the one in the reply, at the proxy's address if it names none. */
    method AssociateUdp(auth: Option<Socks5Auth>, proxyIp: IpAddr, resolve: Resolver)
      returns (r: Result<SocketAddr, Socks5Error>)
      modifies this
      ensures r.Ok? <==> DialogueAccepted(auth, old(incoming), resolve)
      ensures r.Ok? ==>
                var reply := old(incoming)[HandshakeLength(old(incoming))..];
                && r.value == NormalizeUdpRelay(AcceptedReply(reply, resolve).addr, proxyIp)
                && AcceptedReply(reply, resolve).consumed <= |reply|
                && incoming == reply[AcceptedReply(reply, resolve).consumed..]
                && sent == old(sent)
                           + ClientBytes(auth, old(incoming)[1], UdpAssociate, SocketAddr(V4([0, 0, 0, 0]), 0))
    {
      var bindAddr := SocketAddr(V4([0, 0, 0, 0]), 0);
      var relay := Dialogue(auth, UdpAssociate, bindAddr, resolve);
      return if relay.Ok? then Ok(NormalizeUdpRelay(relay.value, proxyIp)) else Err(relay.error);
    }
  }

  /** A successful dialogue means that the server chose an offered method, accepted the user when
      it chose method 2, and replied with version 5 and status 0. */
  lemma AcceptedMeans(auth: Option<Socks5Auth>, incoming: Bytes, resolve: Resolver)
    requires DialogueAccepted(auth, incoming, resolve)
    ensures incoming[1] in Offered(auth)
    ensures incoming[1] == 0x02 ==> auth.Some? && CredentialsFit(auth.value) && incoming[2..4] == [0x01, 0x00]
    ensures var n := HandshakeLength(incoming); |incoming| >= n + 4 && incoming[n..n + 2] == [0x05, 0x00]
  {
    var n := HandshakeLength(incoming);
    assert incoming[n..][0] == incoming[n] && incoming[n..][1] == incoming[n + 1];
    assert Offered(auth)[0] == 0x00;
    if incoming[1] == 0x02 {
      assert Offered(auth)[1] == 0x02;
    }
  }

  /** Section 3 has the server answer with version 5. The client looks at that byte only when it
      also has no method 2 to follow: putting another version in front of an accepted answer
      leaves it accepted exactly when the server chose method 2. */
  lemma SelectionVersionUncheckedWithAuth(auth: Option<Socks5Auth>, incoming: Bytes, version: byte)
    requires HandshakeAccepted(auth, incoming) && version != 0x05
    ensures HandshakeAccepted(auth, incoming[0 := version]) <==> incoming[1] == 0x02
  {
  }

  lemma WrongVersionAccepted()
    ensures HandshakeAccepted(Some(Socks5Auth([0x75], [0x70])), [0x04, 0x02, 0x01, 0x00])
  {
  }

  // ---- Mapped destinations ----

  /** A proxy reached over IPv6 is given IPv4 destinations in mapped form; the server that
      normalises what it reads gets the destination that was meant. */
  lemma MappedDestinationMeant(dst: SocketAddr, preferMapped: bool)
    requires !IsMapped(dst.ip)
    ensures var given := MaybeMapIpv4ToIpv6Mapped(dst, preferMapped);
            && NormalizeMappedIpv6(given) == dst
            && (given.ip.V6? <==> preferMapped || dst.ip.V6?)
  {
    NormalizeUndoesListener(dst);
  }
}
