/** Parsing an Ethernet frame and rewriting it in place.

    Header layouts follow section 3.1 of RFC 791 (IPv4), section 3 of RFC 8200 (IPv6), section 3.1
    of RFC 9293 (TCP) and RFC 768 (UDP); all offsets count from the start of the frame. The two
    checksum computations are parameters. */
module Packet {
  import opened Net
  import opened Flow

  datatype PacketKind = PacketKind(transport: Transport, isV6: bool)

  datatype PacketInfo = PacketInfo(kind: PacketKind, e: Endpoints, flags: Flags)

  datatype ProxyDirection = TowardsProxy | TowardsClient

  /** The transport header and its payload lie at `start..end`. */
  datatype Span = Span(start: nat, end: nat)

  datatype Checksums = Checksums(transport: (Bytes, Span) -> u16, ipHeader: Bytes -> u16)

  const MAC_LEN := 6
  const IP_START := 14
  const IPV4_CHECKSUM := 24

  // ---- Length checks of the headers ----

  function Ipv4Payload(b: Bytes): Option<Span> {
    if |b| < IP_START + 20 then None
    else
      var headerLen, totalLen := b[IP_START] % 16 * 4, U16At(b, 16);
      if headerLen < 20 || headerLen > totalLen || totalLen > |b| - IP_START then None
      else Some(Span(IP_START + headerLen, IP_START + totalLen))
  }

  function Ipv6Payload(b: Bytes): Option<Span> {
    if |b| < IP_START + 40 then None
    else
      var totalLen := 40 + U16At(b, 18);
      if totalLen > |b| - IP_START then None
      else Some(Span(IP_START + 40, IP_START + totalLen))
  }

  predicate TcpFits(b: Bytes, span: Span) {
    span.end <= |b| && span.end >= span.start + 20 && 20 <= b[span.start + 12] / 16 * 4 <= span.end - span.start
  }

  predicate UdpFits(b: Bytes, span: Span) {
    span.end <= |b| && span.end >= span.start + 8 && 8 <= U16At(b, span.start + 4) <= span.end - span.start
  }

  function IpPayload(b: Bytes, isV6: bool): Option<Span> {
    if isV6 then Ipv6Payload(b) else Ipv4Payload(b)
  }

  predicate TransportFits(b: Bytes, t: Transport, span: Span) {
    if t == Tcp then TcpFits(b, span) else UdpFits(b, span)
  }

  /** Where the transport header of a packet of that kind lies, when all the headers fit. */
  function TransportSpan(b: Bytes, kind: PacketKind): (r: Option<Span>) {
    match IpPayload(b, kind.isV6)
    case None => None
    case Some(span) => if TransportFits(b, kind.transport, span) then Some(span) else None
  }

  // ---- Parsing ----

  function KindOf(b: Bytes): Option<PacketKind> {
    if |b| < IP_START then None
    else if U16At(b, 12) == 0x0800 && Ipv4Payload(b).Some? then
      (match b[23] case 6 => Some(PacketKind(Tcp, false)) case 17 => Some(PacketKind(Udp, false)) case _ => None)
    else if U16At(b, 12) == 0x86DD && Ipv6Payload(b).Some? then
      (match b[20] case 6 => Some(PacketKind(Tcp, true)) case 17 => Some(PacketKind(Udp, true)) case _ => None)
    else None
  }

  function SrcAt(isV6: bool): nat { if isV6 then 22 else 26 }
  function DstAt(isV6: bool): nat { if isV6 then 38 else 30 }
  function AddrLen(isV6: bool): nat { if isV6 then 16 else 4 }

  function IpAt(b: Bytes, at: nat, isV6: bool): IpAddr
    requires at + AddrLen(isV6) <= |b|
  {
    if isV6 then V6(b[at..at + 16]) else V4(b[at..at + 4])
  }

  predicate IsGroupAddress(ip: IpAddr) {
    match ip
    case V4(v4) => 224 <= v4[0] < 240 || v4 == [255, 255, 255, 255]
    case V6(v6) => v6[0] == 0xFF
  }

  function EndpointsAt(b: Bytes, isV6: bool, span: Span): Endpoints
    requires |b| >= DstAt(isV6) + AddrLen(isV6) && span.start + 4 <= |b|
  {
    Endpoints(SocketAddr(IpAt(b, SrcAt(isV6), isV6), U16At(b, span.start)),
              SocketAddr(IpAt(b, DstAt(isV6), isV6), U16At(b, span.start + 2)))
  }

  function FlagsAt(b: Bytes, t: Transport, span: Span): Flags
    requires t == Tcp ==> span.start + 14 <= |b|
  {
    if t == Udp then Flags(false, false, false, false)
    else
      var f := b[span.start + 13];
      Flags(f / 2 % 2 == 1, f / 16 % 2 == 1, f / 4 % 2 == 1, f % 2 == 1)
  }

  function ParsePacketInfo(b: Bytes): Option<PacketInfo> {
    match KindOf(b)
    case None => None
    case Some(kind) =>
      match TransportSpan(b, kind)
      case None => None
      case Some(span) =>
        var e := EndpointsAt(b, kind.isV6, span);
        if kind.transport == Udp && IsGroupAddress(e.dst.ip) then None
        else Some(PacketInfo(kind, e, FlagsAt(b, kind.transport, span)))
  }

  // ---- Rewriting ----

  function PutU16(b: Bytes, at: nat, v: u16): (r: Bytes)
    requires at + 2 <= |b|
    ensures |r| == |b| && U16At(r, at) == v
    ensures forall i | 0 <= i < |b| && i != at && i != at + 1 :: r[i] == b[i]
  {
    b[at := v / 0x100][at + 1 := v % 0x100]
  }

  /** The `n` bytes at `i` and the `n` bytes at `j` exchanged. */
  function Swapped(b: Bytes, i: nat, j: nat, n: nat): (r: Bytes)
    requires i + n <= j && j + n <= |b|
    ensures |r| == |b| && r[i..i + n] == b[j..j + n] && r[j..j + n] == b[i..i + n]
    ensures forall k | 0 <= k < |b| && !(i <= k < i + n) && !(j <= k < j + n) :: r[k] == b[k]
  {
    seq(|b|, k requires 0 <= k < |b| =>
      if i <= k < i + n then b[k + (j - i)] else if j <= k < j + n then b[k - (j - i)] else b[k])
  }

  function PortAt(span: Span, rewrite: PortRewrite): nat {
    if rewrite.ToProxy? then span.start + 2 else span.start
  }

  function ChecksumAt(t: Transport, span: Span): nat {
    span.start + (if t == Tcp then 16 else 6)
  }

  function Readdressed(b: Bytes, kind: PacketKind, span: Span, rewrite: PortRewrite): Bytes
    requires TransportSpan(b, kind) == Some(span)
  {
    Swapped(PutU16(b, PortAt(span, rewrite), rewrite.port), SrcAt(kind.isV6), DstAt(kind.isV6), AddrLen(kind.isV6))
  }

  function Checksummed(b: Bytes, kind: PacketKind, span: Span, sums: Checksums): Bytes
    requires TransportSpan(b, kind) == Some(span)
  {
    var summed := PutU16(b, ChecksumAt(kind.transport, span), sums.transport(b, span));
    if kind.isV6 then summed else PutU16(summed, IPV4_CHECKSUM, sums.ipHeader(summed))
  }

  function Rewritten(b: Bytes, kind: PacketKind, span: Span, rewrite: PortRewrite, sums: Checksums): Bytes
    requires TransportSpan(b, kind) == Some(span)
  {
    ReaddressedMeaning(b, kind, span, rewrite);
    Swapped(Checksummed(Readdressed(b, kind, span, rewrite), kind, span, sums), 0, MAC_LEN, MAC_LEN)
  }

  /** The bytes a rewrite may change: MAC addresses, IP addresses, one port, the checksums. */
  predicate Touched(i: nat, kind: PacketKind, span: Span, rewrite: PortRewrite) {
    || i < 2 * MAC_LEN
    || SrcAt(kind.isV6) <= i < DstAt(kind.isV6) + AddrLen(kind.isV6)
    || PortAt(span, rewrite) <= i < PortAt(span, rewrite) + 2
    || ChecksumAt(kind.transport, span) <= i < ChecksumAt(kind.transport, span) + 2
    || (!kind.isV6 && IPV4_CHECKSUM <= i < IPV4_CHECKSUM + 2)
  }

  /** What every step of a rewrite keeps: the fields the length checks and the kind read. */
  lemma UntouchedKeepsShape(b: Bytes, r: Bytes, kind: PacketKind, span: Span, rewrite: PortRewrite)
    requires TransportSpan(b, kind) == Some(span) && |r| == |b|
    requires forall i | 0 <= i < |b| && !Touched(i, kind, span, rewrite) :: r[i] == b[i]
    ensures TransportSpan(r, kind) == Some(span)
    ensures KindOf(b) == Some(kind) ==> KindOf(r) == Some(kind)
    ensures FlagsAt(r, kind.transport, span) == FlagsAt(b, kind.transport, span)
  {
    assert r[12] == b[12] && r[13] == b[13] && r[IP_START] == b[IP_START];
    if kind.isV6 {
      assert r[18] == b[18] && r[19] == b[19] && r[20] == b[20];
    } else {
      assert r[16] == b[16] && r[17] == b[17] && r[23] == b[23];
    }
    if kind.transport == Tcp {
      assert r[span.start + 12] == b[span.start + 12] && r[span.start + 13] == b[span.start + 13];
    } else {
      assert r[span.start + 4] == b[span.start + 4] && r[span.start + 5] == b[span.start + 5];
    }
  }

  lemma ReaddressedEndpoints(b: Bytes, isV6: bool, span: Span, rewrite: PortRewrite)
    requires |b| >= DstAt(isV6) + AddrLen(isV6) && DstAt(isV6) + AddrLen(isV6) <= span.start && span.start + 4 <= |b|
    ensures var p := PutU16(b, PortAt(span, rewrite), rewrite.port);
            var r := Swapped(p, SrcAt(isV6), DstAt(isV6), AddrLen(isV6));
            EndpointsAt(r, isV6, span) == Redirected(EndpointsAt(b, isV6, span), rewrite)
  {
    var src, dst, n := SrcAt(isV6), DstAt(isV6), AddrLen(isV6);
    var p := PutU16(b, PortAt(span, rewrite), rewrite.port);
    var r := Swapped(p, src, dst, n);
    assert p[src..src + n] == b[src..src + n];
    assert p[dst..dst + n] == b[dst..dst + n];
    assert U16At(r, span.start) == U16At(p, span.start);
    assert U16At(r, span.start + 2) == U16At(p, span.start + 2);
  }

  lemma ReaddressedMeaning(b: Bytes, kind: PacketKind, span: Span, rewrite: PortRewrite)
    requires TransportSpan(b, kind) == Some(span)
    ensures var r := Readdressed(b, kind, span, rewrite);
            && |r| == |b|
            && TransportSpan(r, kind) == Some(span)
            && (forall i | 0 <= i < |b| && !Touched(i, kind, span, rewrite) :: r[i] == b[i])
            && r[..2 * MAC_LEN] == b[..2 * MAC_LEN]
            && EndpointsAt(r, kind.isV6, span) == Redirected(EndpointsAt(b, kind.isV6, span), rewrite)
  {
    var r := Readdressed(b, kind, span, rewrite);
    assert forall i | 0 <= i < |b| && !Touched(i, kind, span, rewrite) :: r[i] == b[i];
    UntouchedKeepsShape(b, r, kind, span, rewrite);
    ReaddressedEndpoints(b, kind.isV6, span, rewrite);
  }

  /** Outside the touched bytes nothing changes, the MAC addresses are exchanged, and the header
      fields read back as the redirected endpoints. */
  lemma RewriteMeaning(b: Bytes, kind: PacketKind, span: Span, rewrite: PortRewrite, sums: Checksums)
    requires TransportSpan(b, kind) == Some(span)
    ensures var r := Rewritten(b, kind, span, rewrite, sums);
            && |r| == |b|
            && r[..MAC_LEN] == b[MAC_LEN..2 * MAC_LEN] && r[MAC_LEN..2 * MAC_LEN] == b[..MAC_LEN]
            && (forall i | 0 <= i < |b| && !Touched(i, kind, span, rewrite) :: r[i] == b[i])
            && EndpointsAt(r, kind.isV6, span) == Redirected(EndpointsAt(b, kind.isV6, span), rewrite)
  {
    ReaddressedMeaning(b, kind, span, rewrite);
    var b1 := Readdressed(b, kind, span, rewrite);
    ChecksumsKeepEndpoints(b1, kind, span, sums);
    var b3 := Checksummed(b1, kind, span, sums);
    assert b3[..MAC_LEN] == b1[..2 * MAC_LEN][..MAC_LEN] == b[..2 * MAC_LEN][..MAC_LEN] == b[..MAC_LEN];
    assert b3[MAC_LEN..2 * MAC_LEN] == b1[..2 * MAC_LEN][MAC_LEN..];
    assert b1[..2 * MAC_LEN][MAC_LEN..] == b[..2 * MAC_LEN][MAC_LEN..] == b[MAC_LEN..2 * MAC_LEN];
    var r := Swapped(b3, 0, MAC_LEN, MAC_LEN);
    assert forall i | 2 * MAC_LEN <= i < |b| :: r[i] == b3[i];
    SameFieldsSameEndpoints(b3, r, kind.isV6, span);
  }

  lemma SameFieldsSameEndpoints(b: Bytes, r: Bytes, isV6: bool, span: Span)
    requires |r| == |b| >= DstAt(isV6) + AddrLen(isV6) && span.start + 4 <= |b|
    requires forall i | SrcAt(isV6) <= i < DstAt(isV6) + AddrLen(isV6) || span.start <= i < span.start + 4 ::
               r[i] == b[i]
    ensures EndpointsAt(r, isV6, span) == EndpointsAt(b, isV6, span)
  {
    var src, dst, n := SrcAt(isV6), DstAt(isV6), AddrLen(isV6);
    assert r[src..src + n] == b[src..src + n];
    assert r[dst..dst + n] == b[dst..dst + n];
  }

  lemma ChecksumsKeepEndpoints(b: Bytes, kind: PacketKind, span: Span, sums: Checksums)
    requires TransportSpan(b, kind) == Some(span)
    ensures var r := Checksummed(b, kind, span, sums);
            && |r| == |b|
            && (forall i | 0 <= i < |b| :: r[i] == b[i]
                  || ChecksumAt(kind.transport, span) <= i < ChecksumAt(kind.transport, span) + 2
                  || (!kind.isV6 && IPV4_CHECKSUM <= i < IPV4_CHECKSUM + 2))
            && EndpointsAt(r, kind.isV6, span) == EndpointsAt(b, kind.isV6, span)
  {
    var r := Checksummed(b, kind, span, sums);
    SameFieldsSameEndpoints(b, r, kind.isV6, span);
  }

  /** Reading the rewritten frame again gives the redirected packet, except that a datagram from
      a group address is no longer read at all: the swap makes that address its destination. */
  lemma RewriteReparses(b: Bytes, rewrite: PortRewrite, sums: Checksums)
    requires ParsePacketInfo(b).Some?
    ensures var info := ParsePacketInfo(b).value;
            var span := TransportSpan(b, info.kind).value;
            var r := Rewritten(b, info.kind, span, rewrite, sums);
            ParsePacketInfo(r) ==
              if info.kind.transport == Udp && IsGroupAddress(info.e.src.ip) then None
              else Some(info.(e := Redirected(info.e, rewrite)))
  {
    var info := ParsePacketInfo(b).value;
    var span := TransportSpan(b, info.kind).value;
    var r := Rewritten(b, info.kind, span, rewrite, sums);
    RewriteMeaning(b, info.kind, span, rewrite, sums);
    UntouchedKeepsShape(b, r, info.kind, span, rewrite);
  }

  /** A datagram from 224.0.0.1 to 192.0.2.1, port 5000 to port 53, without payload. */
  const GROUP_SOURCE_FRAME: Bytes := [
    0x02, 0x00, 0x00, 0x00, 0x00, 0x01, 0x02, 0x00, 0x00, 0x00, 0x00, 0x02, 0x08, 0x00,
    0x45, 0x00, 0x00, 0x1C, 0x00, 0x00, 0x00, 0x00, 0x40, 0x11, 0x00, 0x00, 224, 0, 0, 1, 192, 0, 2, 1,
    0x13, 0x88, 0x00, 0x35, 0x00, 0x08, 0x00, 0x00]

  /** That frame is read, and rewritten towards a proxy it is not read again. */
  lemma GroupSourceIsNotReadBack(sums: Checksums)
    ensures var b := GROUP_SOURCE_FRAME;
            var kind := PacketKind(Udp, false);
            && ParsePacketInfo(b).Some? && ParsePacketInfo(b).value.kind == kind
            && ParsePacketInfo(b).value.e
               == Endpoints(SocketAddr(V4([224, 0, 0, 1]), 5000), SocketAddr(V4([192, 0, 2, 1]), 53))
            && ParsePacketInfo(Rewritten(b, kind, TransportSpan(b, kind).value, ToProxy(1082), sums)) == None
  {
    var b := GROUP_SOURCE_FRAME;
    assert b[26..30] == [224, 0, 0, 1] && b[30..34] == [192, 0, 2, 1];
    assert b[12] == 0x08 && b[13] == 0 && b[14] == 0x45 && b[16] == 0 && b[17] == 0x1C && b[23] == 0x11;
    assert b[34] == 0x13 && b[35] == 0x88 && b[36] == 0 && b[37] == 0x35 && b[38] == 0 && b[39] == 8;
    assert Ipv4Payload(b) == Some(Span(34, 42));
    assert KindOf(b) == Some(PacketKind(Udp, false));
    assert U16At(b, 34) == 5000 && U16At(b, 36) == 53;
    RewriteReparses(b, ToProxy(1082), sums);
  }

  // ---- Fragments ----

  /** The two bytes of an IPv4 header that tell a fragment: its flags and its offset. */
  const FRAGMENT_FIELDS := 20
  const MORE_FRAGMENTS: u16 := 0x2000

  /** Nothing looks at the fragment fields: whatever they hold, an IPv4 frame is read the same. A
      later fragment is thus read exactly when its payload would pass for a transport header. */
  lemma FragmentFieldsAreIgnored(b: Bytes, v: u16)
    requires |b| >= IP_START + 20 && U16At(b, 12) == 0x0800
    ensures ParsePacketInfo(PutU16(b, FRAGMENT_FIELDS, v)) == ParsePacketInfo(b)
  {
    var r := PutU16(b, FRAGMENT_FIELDS, v);
    assert r[12] == b[12] && r[13] == b[13] && r[14] == b[14] && r[16] == b[16] && r[17] == b[17] && r[23] == b[23];
    assert Ipv4Payload(r) == Ipv4Payload(b) && KindOf(r) == KindOf(b);
    if KindOf(b).Some? && TransportSpan(b, KindOf(b).value).Some? {
      var span := TransportSpan(b, KindOf(b).value).value;
      SameFieldsSameEndpoints(b, r, false, span);
    }
  }

  /** The first fragment with its length set and its flags not yet. */
  function Cut(b: Bytes, span: Span, n: nat): Bytes
    requires IP_START + 20 <= span.start && span.start + n <= |b| && span.start - IP_START + n < 0x1_0000
  {
    PutU16(b[..span.start + n], 16, span.start - IP_START + n)
  }

  /** The first fragment of an IPv4 datagram, with `n` bytes of its payload. */
  function FirstFragment(b: Bytes, span: Span, n: nat): Bytes
    requires IP_START + 20 <= span.start && span.start + n <= |b| && span.start - IP_START + n < 0x1_0000
  {
    PutU16(Cut(b, span, n), FRAGMENT_FIELDS, MORE_FRAGMENTS)
  }

  /** How much of the payload the length checks ask for. */
  function NeededLength(b: Bytes, t: Transport, span: Span): nat
    requires span.start + 14 <= |b| || (t == Udp && span.start + 6 <= |b|)
  {
    if t == Tcp then b[span.start + 12] / 16 * 4 else U16At(b, span.start + 4)
  }

  lemma CutKeepsHeader(b: Bytes, span: Span, n: nat)
    requires Ipv4Payload(b) == Some(span) && n <= span.end - span.start
    ensures var r := Cut(b, span, n);
            && |r| == span.start + n && U16At(r, 12) == U16At(b, 12) && r[23] == b[23]
            && Ipv4Payload(r) == Some(Span(span.start, span.start + n))
            && (forall i | 18 <= i < |r| :: r[i] == b[i])
  {
    var r := Cut(b, span, n);
    assert r[12] == b[12] && r[13] == b[13] && r[14] == b[14];
  }

  /** A first fragment is read, and then as the whole packet is, exactly when it holds all of a TCP
      header or all of a UDP datagram: the first fragment of a fragmented datagram never is. */
  lemma FirstFragmentReadExactly(b: Bytes, span: Span, n: nat)
    requires ParsePacketInfo(b).Some? && !ParsePacketInfo(b).value.kind.isV6
    requires TransportSpan(b, ParsePacketInfo(b).value.kind) == Some(span) && n <= span.end - span.start
    ensures var info := ParsePacketInfo(b).value;
            ParsePacketInfo(FirstFragment(b, span, n))
            == if n >= NeededLength(b, info.kind.transport, span) then Some(info) else None
  {
    var info := ParsePacketInfo(b).value;
    var r := Cut(b, span, n);
    CutKeepsHeader(b, span, n);
    FragmentFieldsAreIgnored(r, MORE_FRAGMENTS);
    CutReadExactly(b, info, span, n);
  }

  lemma CutReadExactly(b: Bytes, info: PacketInfo, span: Span, n: nat)
    requires ParsePacketInfo(b) == Some(info) && !info.kind.isV6
    requires TransportSpan(b, info.kind) == Some(span) && n <= span.end - span.start
    ensures ParsePacketInfo(Cut(b, span, n))
            == if n >= NeededLength(b, info.kind.transport, span) then Some(info) else None
  {
    var r := Cut(b, span, n);
    CutKeepsHeader(b, span, n);
    assert KindOf(r) == Some(info.kind);
    if n >= NeededLength(b, info.kind.transport, span) {
      assert TransportSpan(r, info.kind) == Some(Span(span.start, span.start + n));
      assert r[26..30] == b[26..30] && r[30..34] == b[30..34];
    } else {
      assert TransportSpan(r, info.kind) == None;
    }
  }

  /** The last fragment of a datagram from 192.0.2.2 to 192.0.2.1: 8 bytes at offset 1480. */
  const LAST_FRAGMENT_FRAME: Bytes := [
    0x02, 0x00, 0x00, 0x00, 0x00, 0x01, 0x02, 0x00, 0x00, 0x00, 0x00, 0x02, 0x08, 0x00,
    0x45, 0x00, 0x00, 0x1C, 0x00, 0x01, 0x00, 0xB9, 0x40, 0x11, 0x00, 0x00, 192, 0, 2, 2, 192, 0, 2, 1,
    0x13, 0x88, 0x00, 0x35, 0x00, 0x08, 0x00, 0x00]

  /** Its payload is read as the ports 5000 and 53. */
  lemma LastFragmentIsReadAsHeader()
    ensures var b := LAST_FRAGMENT_FRAME;
            && U16At(b, FRAGMENT_FIELDS) == 1480 / 8
            && ParsePacketInfo(b).Some?
            && ParsePacketInfo(b).value.e
               == Endpoints(SocketAddr(V4([192, 0, 2, 2]), 5000), SocketAddr(V4([192, 0, 2, 1]), 53))
  {
    var b := LAST_FRAGMENT_FRAME;
    assert b[20] == 0 && b[21] == 0xB9;
    assert b[26..30] == [192, 0, 2, 2] && b[30..34] == [192, 0, 2, 1];
    assert b[12] == 0x08 && b[13] == 0 && b[14] == 0x45 && b[16] == 0 && b[17] == 0x1C && b[23] == 0x11;
    assert b[34] == 0x13 && b[35] == 0x88 && b[36] == 0 && b[37] == 0x35 && b[38] == 0 && b[39] == 8;
    assert Ipv4Payload(b) == Some(Span(34, 42));
    assert KindOf(b) == Some(PacketKind(Udp, false));
    assert U16At(b, 34) == 5000 && U16At(b, 36) == 53;
  }

  // ---- In place ----

  method SetU16(buf: array<byte>, length: nat, at: nat, v: u16)
    requires at + 2 <= length <= buf.Length
    modifies buf
    ensures buf[..length] == PutU16(old(buf[..length]), at, v)
    ensures buf[length..] == old(buf[length..])
  {
    buf[at], buf[at + 1] := v / 0x100, v % 0x100;
  }

  method SwapFields(buf: array<byte>, length: nat, i: nat, j: nat, n: nat)
    requires i + n <= j && j + n <= length <= buf.Length
    modifies buf
    ensures buf[..length] == Swapped(old(buf[..length]), i, j, n)
    ensures buf[length..] == old(buf[length..])
  {
    var was := buf[..length];
    var src, dst := was[i..i + n], was[j..j + n];
    forall k | 0 <= k < n {
      buf[i + k] := dst[k];
    }
    forall k | 0 <= k < n {
      buf[j + k] := src[k];
    }
    ghost var goal := Swapped(was, i, j, n);
    forall k | 0 <= k < length ensures buf[k] == goal[k] {
      if i <= k < i + n {
        assert goal[i..i + n][k - i] == goal[k];
      } else if j <= k < j + n {
        assert goal[j..j + n][k - j] == goal[k];
      }
    }
  }

  /** The rewrite of one kind of packet. The headers are checked again before anything is
      written, and once more before the transport checksum is filled; that last check never
      fails. */
  method ApplyToKind(buf: array<byte>, length: nat, kind: PacketKind, rewrite: PortRewrite, sums: Checksums)
    returns (direction: Option<ProxyDirection>)
    requires length <= buf.Length
    modifies buf
    ensures buf[length..] == old(buf[length..])
    ensures match TransportSpan(old(buf[..length]), kind)
            case None => direction == None && buf[..] == old(buf[..])
            case Some(span) =>
              && direction == Some(if rewrite.ToProxy? then TowardsProxy else TowardsClient)
              && buf[..length] == Rewritten(old(buf[..length]), kind, span, rewrite, sums)
  {
    ghost var was := buf[..length];
    var ip := IpPayload(buf[..length], kind.isV6);
    if ip == None || !TransportFits(buf[..length], kind.transport, ip.value) {
      return None;
    }
    var span := ip.value;
    match rewrite {
      case ToProxy(port) =>
        SetU16(buf, length, span.start + 2, port);
        direction := Some(TowardsProxy);
      case FromProxy(port) =>
        SetU16(buf, length, span.start, port);
        direction := Some(TowardsClient);
    }
    SwapFields(buf, length, SrcAt(kind.isV6), DstAt(kind.isV6), AddrLen(kind.isV6));
    ReaddressedMeaning(was, kind, span, rewrite);
    if TransportFits(buf[..length], kind.transport, span) {
      SetU16(buf, length, ChecksumAt(kind.transport, span), sums.transport(buf[..length], span));
    }
    if !kind.isV6 {
      SetU16(buf, length, IPV4_CHECKSUM, sums.ipHeader(buf[..length]));
    }
    SwapFields(buf, length, 0, MAC_LEN, MAC_LEN);
  }

  method ApplyRewrite(buf: array<byte>, length: nat, info: PacketInfo, rewrite: Option<PortRewrite>, sums: Checksums)
    returns (direction: Option<ProxyDirection>)
    requires length <= buf.Length
    modifies buf
    ensures buf[length..] == old(buf[length..])
    ensures direction.Some? <==> rewrite.Some? && TransportSpan(old(buf[..length]), info.kind).Some?
    ensures direction == None ==> buf[..] == old(buf[..])
    ensures direction.Some? ==>
              && direction.value == (if rewrite.value.ToProxy? then TowardsProxy else TowardsClient)
              && buf[..length] == Rewritten(old(buf[..length]), info.kind,
                                            TransportSpan(old(buf[..length]), info.kind).value, rewrite.value, sums)
  {
    if rewrite == None || length < IP_START {
      return None;
    }
    direction := ApplyToKind(buf, length, info.kind, rewrite.value, sums);
  }

  /** One packet through the router. `path` is what the process lookup would answer, `now` the
      clock at the arrival of a datagram. */
  method ProcessPacket(router: Router, buf: array<byte>, length: nat, path: Option<string>, now: Instant,
                       sums: Checksums)
    returns (direction: Option<ProxyDirection>, ghost rewrite: Option<PortRewrite>, ghost lookup: u16)
    requires length <= buf.Length && router.Valid()
    modifies buf, router`tcpConnections, router.udpEndpoints
    ensures router.Valid() && buf[length..] == old(buf[length..])
    ensures direction.Some? <==> rewrite.Some?
    ensures direction == None ==> buf[..] == old(buf[..])
    ensures match ParsePacketInfo(old(buf[..length]))
            case None =>
              && rewrite == None
              && router.tcpConnections == old(router.tcpConnections)
              && router.udpEndpoints.byFlow == old(router.udpEndpoints.byFlow)
              && router.udpEndpoints.byPeer == old(router.udpEndpoints.byPeer)
            case Some(info) =>
              && Selects(router.nameToProxy, router.proxies, info.kind.transport, info.kind.isV6, path, lookup)
              && (info.kind.transport == Tcp ==>
                    && TcpOutcome(router.tcpConnections, rewrite)
                       == TcpStep(old(router.tcpConnections), router.proxies, info.e, info.flags, lookup)
                    && router.udpEndpoints.byFlow == old(router.udpEndpoints.byFlow)
                    && router.udpEndpoints.byPeer == old(router.udpEndpoints.byPeer))
              && (info.kind.transport == Udp ==>
                    && UdpOutcome(router.udpEndpoints.byFlow, router.udpEndpoints.byPeer, rewrite)
                       == UdpStep(old(router.udpEndpoints.byFlow), old(router.udpEndpoints.byPeer),
                                  router.proxies, info.e, now, lookup)
                    && router.tcpConnections == old(router.tcpConnections))
              && (rewrite.Some? ==>
                    buf[..length] == Rewritten(old(buf[..length]), info.kind,
                                               TransportSpan(old(buf[..length]), info.kind).value, rewrite.value, sums))
  {
    rewrite, lookup := None, 0;
    var parsed := ParsePacketInfo(buf[..length]);
    if parsed == None {
      return None, rewrite, lookup;
    }
    var info := parsed.value;
    var decided;
    if info.kind.transport == Tcp {
      decided, lookup := router.ProcessTcpPayload(info.e, info.kind.isV6, info.flags, path);
    } else {
      decided, lookup := router.ProcessUdpPayload(info.e, info.kind.isV6, now, path);
    }
    rewrite := decided;
    direction := ApplyRewrite(buf, length, info, decided, sums);
  }
}
