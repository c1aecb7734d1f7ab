/** Frames by their fields. `Written` lays out the fields of a frame by the standards: Ethernet II,
    section 3.1 of RFC 791 (IPv4), section 3 of RFC 8200 (IPv6), section 3.1 of RFC 9293 (TCP) and
    RFC 768 (UDP). Parsing is proved to read exactly such frames, as what was written, and the
    rewrite on bytes to be the change of the few fields it is meant to change. */
module Frames {
  import opened Net
  import opened Flow
  import opened Packet

  /** The control bits of a TCP header, from the highest. */
  datatype Control = Control(cwr: bool, ece: bool, urg: bool, ack: bool, psh: bool, rst: bool, syn: bool, fin: bool)

  function Bit(isSet: bool): nat {
    if isSet then 1 else 0
  }

  /** Four bits, from the highest. */
  function Nibble(a: bool, b: bool, c: bool, d: bool): (n: nat)
    ensures n < 16
  {
    8 * Bit(a) + 4 * Bit(b) + 2 * Bit(c) + Bit(d)
  }

  function ControlByte(c: Control): byte {
    16 * Nibble(c.cwr, c.ece, c.urg, c.ack) + Nibble(c.psh, c.rst, c.syn, c.fin)
  }

  datatype IpFields =
    | Ipv4(version: nat, tos: byte, fragment: Bytes, ttl: byte, checksum: u16, src4: Octets4, dst4: Octets4,
           options: Bytes)
    | Ipv6(versionClassFlow: Bytes, hopLimit: byte, src6: Octets16, dst6: Octets16)
  {
    function Src(): IpAddr { if Ipv4? then V4(src4) else V6(src6) }
    function Dst(): IpAddr { if Ipv4? then V4(dst4) else V6(dst6) }

    /** `fragment` is the identification, the fragment flags and the fragment offset. */
    predicate WellFormed() {
      if Ipv4? then version < 16 && |fragment| == 4 && |options| <= 40 && |options| % 4 == 0
      else |versionClassFlow| == 4
    }

    function HeaderLength(): nat {
      if Ipv4? then 20 + |options| else 40
    }
  }

  datatype TransportFields =
    | TcpFields(srcPort: u16, dstPort: u16, numbers: Bytes, reserved: nat, control: Control, window: Bytes,
                checksum: u16, urgent: Bytes, options: Bytes, data: Bytes)
    | UdpFields(srcPort: u16, dstPort: u16, checksum: u16, data: Bytes, behind: Bytes)
  {
    /** `numbers` are sequence and acknowledgment number; `behind` is what an IP payload holds behind
        the length of its datagram. */
    predicate WellFormed() {
      if TcpFields? then
        |numbers| == 8 && reserved < 16 && |window| == 2 && |urgent| == 2 && |options| <= 40 && |options| % 4 == 0
      else 8 + |data| < 0x1_0000
    }

    function Length(): nat {
      if TcpFields? then 20 + |options| + |data| else 8 + |data| + |behind|
    }
  }

  datatype Frame = Frame(dstMac: Bytes, srcMac: Bytes, ip: IpFields, transport: TransportFields, padding: Bytes)
  {
    predicate WellFormed() {
      && |dstMac| == 6 && |srcMac| == 6 && ip.WellFormed() && transport.WellFormed()
      && (if ip.Ipv4? then ip.HeaderLength() else 0) + transport.Length() < 0x1_0000
    }

    function Kind(): PacketKind {
      PacketKind(if transport.TcpFields? then Tcp else Udp, ip.Ipv6?)
    }

    function Ends(): Endpoints {
      Endpoints(SocketAddr(ip.Src(), transport.srcPort), SocketAddr(ip.Dst(), transport.dstPort))
    }

    function ReadFlags(): Flags {
      match transport
      case TcpFields(_, _, _, _, c, _, _, _, _, _) => Flags(c.syn, c.ack, c.rst, c.fin)
      case UdpFields(_, _, _, _, _) => Flags(false, false, false, false)
    }

    function Info(): PacketInfo {
      PacketInfo(Kind(), Ends(), ReadFlags())
    }

    /** A datagram to a multicast or broadcast address. */
    predicate IsGroupDatagram() {
      && transport.UdpFields?
      && match ip.Dst()
         case V4(v4) => v4[0] / 16 == 14 || v4 == [255, 255, 255, 255]
         case V6(v6) => v6[0] == 255
    }

    /** Where transport header and payload lie. */
    function Place(): Span {
      Span(14 + ip.HeaderLength(), 14 + ip.HeaderLength() + transport.Length())
    }
  }

  // ---- Writing ----

  function WrittenTransport(t: TransportFields): (r: Bytes)
    requires t.WellFormed()
    ensures |r| == t.Length()
  {
    BigEndian(t.srcPort) + BigEndian(t.dstPort)
    + match t
      case TcpFields(_, _, numbers, reserved, control, window, checksum, urgent, options, data) =>
        numbers + [(5 + |options| / 4) * 16 + reserved, ControlByte(control)] + window + BigEndian(checksum)
        + urgent + options + data
      case UdpFields(_, _, checksum, data, behind) =>
        BigEndian(8 + |data|) + BigEndian(checksum) + data + behind
  }

  /** The header in front of `n` bytes of protocol 6 (TCP) or 17 (UDP). */
  function WrittenIp(ip: IpFields, protocol: byte, n: nat): (r: Bytes)
    requires ip.WellFormed() && (if ip.Ipv4? then ip.HeaderLength() else 0) + n < 0x1_0000
    ensures |r| == ip.HeaderLength()
  {
    match ip
    case Ipv4(version, tos, fragment, ttl, checksum, src, dst, options) =>
      [version * 16 + 5 + |options| / 4, tos] + BigEndian(20 + |options| + n) + fragment + [ttl, protocol]
      + BigEndian(checksum) + src + dst + options
    case Ipv6(first, hopLimit, src, dst) =>
      first + BigEndian(n) + [protocol, hopLimit] + src + dst
  }

  function WrittenLink(f: Frame): (r: Bytes)
    requires f.WellFormed()
    ensures |r| == 14
  {
    f.dstMac + f.srcMac + BigEndian(if f.ip.Ipv4? then 0x0800 else 0x86DD)
  }

  function Protocol(t: TransportFields): byte {
    if t.TcpFields? then 6 else 17
  }

  function Written(f: Frame): (r: Bytes)
    requires f.WellFormed()
    ensures |r| == f.Place().end + |f.padding|
  {
    WrittenLink(f) + WrittenIp(f.ip, Protocol(f.transport), f.transport.Length()) + WrittenTransport(f.transport)
    + f.padding
  }

  // ---- Reading what was written ----

  lemma ControlReadsBack(c: Control)
    ensures var b := ControlByte(c);
            && (b % 2 == 1 <==> c.fin) && (b / 2 % 2 == 1 <==> c.syn)
            && (b / 4 % 2 == 1 <==> c.rst) && (b / 16 % 2 == 1 <==> c.ack)
  {
    var upper, lower := Nibble(c.cwr, c.ece, c.urg, c.ack), Nibble(c.psh, c.rst, c.syn, c.fin);
    NibbleReads(c.psh, c.rst, c.syn, c.fin);
    NibbleReads(c.cwr, c.ece, c.urg, c.ack);
    LowNibble(upper, lower);
  }

  lemma NibbleReads(a: bool, b: bool, c: bool, d: bool)
    ensures var n := Nibble(a, b, c, d);
            && (n / 8 % 2 == 1 <==> a) && (n / 4 % 2 == 1 <==> b) && (n / 2 % 2 == 1 <==> c) && (n % 2 == 1 <==> d)
  {
  }

  lemma LowNibble(upper: nat, lower: nat)
    requires lower < 16
    ensures var b := 16 * upper + lower;
            b / 16 == upper && b % 16 == lower && b % 2 == lower % 2
            && b / 2 % 2 == lower / 2 % 2 && b / 4 % 2 == lower / 4 % 2
  {
    EvenPart(8 * upper, lower);
    EvenPart(4 * upper, lower / 2);
    EvenPart(2 * upper, lower / 4);
  }

  lemma EvenPart(x: nat, y: nat)
    ensures (2 * x + y) % 2 == y % 2 && (2 * x + y) / 2 == x + y / 2
    ensures (4 * x + y) / 4 == x + y / 4
  {
  }

  /** A field of a part stands in the whole behind what is in front of the part. */
  lemma FieldOfPart(front: Bytes, part: Bytes, back: Bytes, at: nat, n: nat)
    requires at + n <= |part|
    ensures var b := front + part + back;
            && b[|front| + at..|front| + at + n] == part[at..at + n]
            && (n == 2 ==> U16At(b, |front| + at) == U16At(part, at))
            && (n == 1 ==> b[|front| + at] == part[at])
  {
    var b := front + part + back;
    assert b[|front|..|front| + |part|] == part;
    assert forall i | 0 <= i < |part| :: b[|front| + i] == part[i];
  }

  lemma TransportReads(t: TransportFields)
    requires t.WellFormed()
    ensures var h := WrittenTransport(t);
            && U16At(h, 0) == t.srcPort && U16At(h, 2) == t.dstPort
            && (t.TcpFields? ==>
                  h[12] == (5 + |t.options| / 4) * 16 + t.reserved && h[13] == ControlByte(t.control)
                  && U16At(h, 16) == t.checksum)
            && (t.UdpFields? ==> U16At(h, 4) == 8 + |t.data| && U16At(h, 6) == t.checksum)
  {
  }

  lemma IpReads(ip: IpFields, protocol: byte, n: nat)
    requires ip.WellFormed() && (if ip.Ipv4? then ip.HeaderLength() else 0) + n < 0x1_0000
    ensures var h := WrittenIp(ip, protocol, n);
            && (ip.Ipv4? ==>
                  && h[0] == ip.version * 16 + 5 + |ip.options| / 4 && U16At(h, 2) == 20 + |ip.options| + n
                  && h[9] == protocol && U16At(h, 10) == ip.checksum
                  && h[12..16] == ip.src4 && h[16..20] == ip.dst4)
            && (ip.Ipv6? ==>
                  && U16At(h, 4) == n && h[6] == protocol
                  && h[8..24] == ip.src6 && h[24..40] == ip.dst6)
  {
  }

  lemma LinkReads(f: Frame)
    requires f.WellFormed()
    ensures U16At(Written(f), 12) == if f.ip.Ipv4? then 0x0800 else 0x86DD
  {
    var ip := WrittenIp(f.ip, Protocol(f.transport), f.transport.Length());
    var back := ip + WrittenTransport(f.transport) + f.padding;
    assert Written(f) == [] + WrittenLink(f) + back;
    FieldOfPart([], WrittenLink(f), back, 12, 2);
  }

  /** Every field of the two headers stands in the frame where its header begins. */
  lemma PartsOf(f: Frame)
    requires f.WellFormed()
    ensures var b, start := Written(f), f.Place().start;
            var ip := WrittenIp(f.ip, Protocol(f.transport), f.transport.Length());
            var t := WrittenTransport(f.transport);
            && (forall i | 0 <= i < |ip| :: b[14 + i] == ip[i])
            && b[14..start] == ip && b[start..start + |t|] == t
            && (forall i | 0 <= i < |t| :: b[start + i] == t[i])
  {
    var ip := WrittenIp(f.ip, Protocol(f.transport), f.transport.Length());
    var t := WrittenTransport(f.transport);
    assert Written(f)[14..14 + |ip|] == ip;
  }

  /** A frame whose bytes from 14 on start with an IPv4 header, read by the fields of the header. */
  lemma Ipv4HeaderIsRead(b: Bytes, h: Bytes, version: nat, words: nat, total: nat)
    requires |h| == 4 * words && |b| >= 14 + |h| && forall i | 0 <= i < |h| :: b[14 + i] == h[i]
    requires 5 <= words < 16 && h[0] == version * 16 + words && U16At(h, 2) == total && 4 * words <= total <= |b| - 14
    ensures Ipv4Payload(b) == Some(Span(14 + 4 * words, 14 + total))
    ensures b[23] == h[9] && b[26..30] == h[12..16] && b[30..34] == h[16..20]
  {
    assert b[14 + 0] == h[0] && b[14 + 2] == h[2] && b[14 + 3] == h[3] && b[14 + 9] == h[9];
  }

  lemma Ipv6HeaderIsRead(b: Bytes, h: Bytes, n: nat)
    requires |h| == 40 && |b| >= 14 + 40 + n && forall i | 0 <= i < |h| :: b[14 + i] == h[i]
    requires U16At(h, 4) == n
    ensures Ipv6Payload(b) == Some(Span(14 + 40, 14 + 40 + n))
    ensures b[20] == h[6] && b[22..38] == h[8..24] && b[38..54] == h[24..40]
  {
    assert b[14 + 4] == h[4] && b[14 + 5] == h[5] && b[14 + 6] == h[6];
  }

  lemma IpIsRead(f: Frame)
    requires f.WellFormed()
    ensures var b := Written(f);
            && IpPayload(b, f.ip.Ipv6?) == Some(f.Place())
            && (if f.ip.Ipv6? then b[20] else b[23]) == Protocol(f.transport)
            && IpAt(b, SrcAt(f.ip.Ipv6?), f.ip.Ipv6?) == f.ip.Src()
            && IpAt(b, DstAt(f.ip.Ipv6?), f.ip.Ipv6?) == f.ip.Dst()
  {
    var h, n := WrittenIp(f.ip, Protocol(f.transport), f.transport.Length()), f.transport.Length();
    PartsOf(f);
    IpReads(f.ip, Protocol(f.transport), n);
    if f.ip.Ipv4? {
      Ipv4HeaderIsRead(Written(f), h, f.ip.version, 5 + |f.ip.options| / 4, 20 + |f.ip.options| + n);
    } else {
      Ipv6HeaderIsRead(Written(f), h, n);
    }
  }

  lemma TcpHeaderIsRead(b: Bytes, h: Bytes, start: nat, words: nat, reserved: nat, control: Control)
    requires |b| >= start + |h| && forall i | 0 <= i < |h| :: b[start + i] == h[i]
    requires 5 <= words < 16 && reserved < 16 && |h| >= 4 * words
    requires h[12] == words * 16 + reserved && h[13] == ControlByte(control)
    ensures TcpFits(b, Span(start, start + |h|))
    ensures FlagsAt(b, Tcp, Span(start, start + |h|)) == Flags(control.syn, control.ack, control.rst, control.fin)
    ensures U16At(b, start) == U16At(h, 0) && U16At(b, start + 2) == U16At(h, 2)
  {
    assert b[start + 0] == h[0] && b[start + 1] == h[1] && b[start + 2] == h[2] && b[start + 3] == h[3];
    assert b[start + 12] == h[12] && b[start + 13] == h[13];
    ControlReadsBack(control);
  }

  lemma UdpHeaderIsRead(b: Bytes, h: Bytes, start: nat, n: nat)
    requires |b| >= start + |h| && forall i | 0 <= i < |h| :: b[start + i] == h[i]
    requires |h| >= n >= 8 && U16At(h, 4) == n
    ensures UdpFits(b, Span(start, start + |h|))
    ensures U16At(b, start) == U16At(h, 0) && U16At(b, start + 2) == U16At(h, 2)
  {
    assert b[start + 0] == h[0] && b[start + 1] == h[1] && b[start + 2] == h[2] && b[start + 3] == h[3];
    assert b[start + 4] == h[4] && b[start + 5] == h[5];
  }

  lemma TransportIsRead(f: Frame)
    requires f.WellFormed()
    ensures var b, span := Written(f), f.Place();
            && TransportFits(b, f.Kind().transport, span)
            && U16At(b, span.start) == f.transport.srcPort && U16At(b, span.start + 2) == f.transport.dstPort
            && FlagsAt(b, f.Kind().transport, span) == f.ReadFlags()
  {
    var h, start := WrittenTransport(f.transport), f.Place().start;
    PartsOf(f);
    TransportReads(f.transport);
    match f.transport
    case TcpFields(_, _, _, reserved, control, _, _, _, options, _) =>
      TcpHeaderIsRead(Written(f), h, start, 5 + |options| / 4, reserved, control);
    case UdpFields(_, _, _, data, _) =>
      UdpHeaderIsRead(Written(f), h, start, 8 + |data|);
  }

  /** A frame laid out from kind, addresses, ports and control bits is read as exactly those; only a
      datagram to a multicast or broadcast address is not read. */
  lemma WrittenIsRead(f: Frame)
    requires f.WellFormed()
    ensures ParsePacketInfo(Written(f)) == if f.IsGroupDatagram() then None else Some(f.Info())
  {
    PlaceIsRead(f);
    IpIsRead(f);
    TransportIsRead(f);
  }

  lemma PlaceIsRead(f: Frame)
    requires f.WellFormed()
    ensures TransportSpan(Written(f), f.Kind()) == Some(f.Place()) && KindOf(Written(f)) == Some(f.Kind())
  {
    LinkReads(f);
    IpIsRead(f);
    TransportIsRead(f);
  }

  // ---- Writing what was read ----

  function ControlOf(b: byte): Control {
    var upper: nat, lower: nat := b / 16, b % 16;
    Control(upper / 8 % 2 == 1, upper / 4 % 2 == 1, upper / 2 % 2 == 1, upper % 2 == 1,
            lower / 8 % 2 == 1, lower / 4 % 2 == 1, lower / 2 % 2 == 1, lower % 2 == 1)
  }

  lemma NibbleWrites(n: nat)
    requires n < 16
    ensures Nibble(n / 8 % 2 == 1, n / 4 % 2 == 1, n / 2 % 2 == 1, n % 2 == 1) == n
  {
  }

  lemma ControlWritesBack(b: byte)
    ensures ControlByte(ControlOf(b)) == b
  {
    NibbleWrites(b / 16);
    NibbleWrites(b % 16);
  }

  function Ipv4FieldsOf(b: Bytes, start: nat): IpFields
    requires 34 <= start <= |b|
  {
    Ipv4(b[14] / 16, b[15], b[18..22], b[22], U16At(b, 24), b[26..30], b[30..34], b[34..start])
  }

  function Ipv6FieldsOf(b: Bytes): IpFields
    requires 54 <= |b|
  {
    Ipv6(b[14..18], b[21], b[22..38], b[38..54])
  }

  function TcpFieldsOf(t: Bytes): TransportFields
    requires |t| >= 20 && 20 <= t[12] / 16 * 4 <= |t|
  {
    var end := t[12] / 16 * 4;
    TcpFields(U16At(t, 0), U16At(t, 2), t[4..12], t[12] % 16, ControlOf(t[13]), t[14..16], U16At(t, 16), t[18..20],
              t[20..end], t[end..])
  }

  function UdpFieldsOf(t: Bytes): TransportFields
    requires |t| >= 8 && 8 <= U16At(t, 4) <= |t|
  {
    UdpFields(U16At(t, 0), U16At(t, 2), U16At(t, 6), t[8..U16At(t, 4)], t[U16At(t, 4)..])
  }

  lemma TwoBytes(b: Bytes, at: nat)
    requires at + 2 <= |b|
    ensures BigEndian(U16At(b, at)) == b[at..at + 2]
  {
  }

  lemma TcpWritesBack(t: Bytes)
    requires |t| >= 20 && 20 <= t[12] / 16 * 4 <= |t|
    ensures var f := TcpFieldsOf(t); f.WellFormed() && WrittenTransport(f) == t
  {
    OffsetByte(t[12], |t[20..t[12] / 16 * 4]|);
    ControlWritesBack(t[13]);
    TwoBytes(t, 0);
    TwoBytes(t, 2);
    TwoBytes(t, 16);
    TcpParts(t, t[12] / 16 * 4);
  }

  lemma OffsetByte(offset: byte, options: nat)
    requires options == offset / 16 * 4 - 20
    ensures (5 + options / 4) * 16 + offset % 16 == offset && options <= 40 && options % 4 == 0
  {
    assert options == 4 * (offset / 16 - 5);
  }

  lemma TcpParts(t: Bytes, end: nat)
    requires 20 <= end <= |t|
    ensures t[0..2] + t[2..4] + (t[4..12] + [t[12], t[13]] + t[14..16] + t[16..18] + t[18..20] + t[20..end] + t[end..])
            == t
  {
    assert [t[12], t[13]] == t[12..14];
  }

  lemma UdpWritesBack(t: Bytes)
    requires |t| >= 8 && 8 <= U16At(t, 4) <= |t|
    ensures var f := UdpFieldsOf(t); f.WellFormed() && WrittenTransport(f) == t
  {
    TwoBytes(t, 0);
    TwoBytes(t, 2);
    TwoBytes(t, 4);
    TwoBytes(t, 6);
  }

  lemma Ipv4WritesBack(b: Bytes, start: nat, n: nat)
    requires 34 <= start <= |b| && start == 14 + b[14] % 16 * 4 && U16At(b, 16) == start - 14 + n
    ensures var f := Ipv4FieldsOf(b, start);
            f.WellFormed() && f.HeaderLength() == start - 14 && WrittenIp(f, b[23], n) == b[14..start]
  {
    FirstByte(b[14], start - 34);
    TwoBytes(b, 16);
    TwoBytes(b, 24);
    Ipv4Parts(b, start);
  }

  lemma FirstByte(first: byte, options: nat)
    requires options == first % 16 * 4 - 20
    ensures first / 16 * 16 + 5 + options / 4 == first && first / 16 < 16 && options <= 40 && options % 4 == 0
  {
    assert options == 4 * (first % 16 - 5);
  }

  lemma Ipv4Parts(b: Bytes, start: nat)
    requires 34 <= start <= |b|
    ensures [b[14], b[15]] + b[16..18] + b[18..22] + [b[22], b[23]] + b[24..26] + b[26..30] + b[30..34] + b[34..start]
            == b[14..start]
  {
    assert [b[14], b[15]] == b[14..16] && [b[22], b[23]] == b[22..24];
  }

  lemma Ipv6WritesBack(b: Bytes)
    requires 54 <= |b|
    ensures var f := Ipv6FieldsOf(b); f.WellFormed() && WrittenIp(f, b[20], U16At(b, 18)) == b[14..54]
  {
    TwoBytes(b, 18);
    assert [b[20], b[21]] == b[20..22];
    assert b[14..54] == b[14..18] + b[18..20] + b[20..22] + b[22..38] + b[38..54];
  }

  lemma Joined(b: Bytes, i: nat, j: nat, k: nat)
    requires i <= j <= k <= |b|
    ensures b[i..k] == b[i..j] + b[j..k]
  {
  }

  lemma IpWritesBack(b: Bytes, isV6: bool, span: Span) returns (ip: IpFields)
    requires IpPayload(b, isV6) == Some(span)
    ensures var n := span.end - span.start;
            && ip.WellFormed() && 14 + ip.HeaderLength() == span.start && (ip.Ipv6? <==> isV6)
            && (if ip.Ipv4? then ip.HeaderLength() else 0) + n < 0x1_0000
            && WrittenIp(ip, if isV6 then b[20] else b[23], n) == b[14..span.start]
  {
    if isV6 {
      ip := Ipv6FieldsOf(b);
      Ipv6WritesBack(b);
    } else {
      ip := Ipv4FieldsOf(b, span.start);
      Ipv4WritesBack(b, span.start, span.end - span.start);
    }
  }

  lemma TransportWritesBack(b: Bytes, transport: Transport, span: Span) returns (t: TransportFields)
    requires TransportFits(b, transport, span)
    ensures t.WellFormed() && (t.TcpFields? <==> transport == Tcp)
    ensures t.Length() == span.end - span.start && WrittenTransport(t) == b[span.start..span.end]
  {
    var payload := b[span.start..span.end];
    if transport == Tcp {
      t := TcpFieldsOf(payload);
      TcpWritesBack(payload);
    } else {
      t := UdpFieldsOf(payload);
      UdpWritesBack(payload);
    }
  }

  /** Conversely, whatever is read was laid out so: every frame that is read is the written form of
      some fields, which by `WrittenIsRead` are those it is read as. */
  lemma ReadIsWritten(b: Bytes) returns (f: Frame)
    requires KindOf(b).Some? && TransportSpan(b, KindOf(b).value).Some?
    ensures f.WellFormed() && Written(f) == b
  {
    var kind := KindOf(b).value;
    var span := TransportSpan(b, kind).value;
    var ip := IpWritesBack(b, kind.isV6, span);
    var transport := TransportWritesBack(b, kind.transport, span);
    f := Frame(b[..6], b[6..12], ip, transport, b[span.end..]);
    LinkWritesBack(b, kind.isV6);
    Composed(b, f, span);
  }

  /** A frame is read exactly when it was laid out so, and then as what was written. */
  lemma ReadExactly(b: Bytes, info: PacketInfo)
    ensures ParsePacketInfo(b) == Some(info)
            <==> exists f: Frame :: f.WellFormed() && Written(f) == b && !f.IsGroupDatagram() && f.Info() == info
  {
    if ParsePacketInfo(b).Some? {
      var f := ReadIsWritten(b);
      WrittenIsRead(f);
    }
    forall f: Frame | f.WellFormed() && Written(f) == b && !f.IsGroupDatagram()
      ensures ParsePacketInfo(b) == Some(f.Info())
    {
      WrittenIsRead(f);
    }
  }

  lemma Composed(b: Bytes, f: Frame, span: Span)
    requires f.WellFormed() && 14 <= span.start <= span.end <= |b|
    requires WrittenLink(f) == b[0..14]
    requires WrittenIp(f.ip, Protocol(f.transport), f.transport.Length()) == b[14..span.start]
    requires WrittenTransport(f.transport) == b[span.start..span.end] && f.padding == b[span.end..]
    ensures Written(f) == b
  {
    Joined(b, 0, 14, span.start);
    Joined(b, 0, span.start, span.end);
    Joined(b, 0, span.end, |b|);
    assert b[0..|b|] == b;
  }

  lemma LinkWritesBack(b: Bytes, isV6: bool)
    requires |b| >= 14 && U16At(b, 12) == if isV6 then 0x86DD else 0x0800
    ensures b[..6] + b[6..12] + BigEndian(U16At(b, 12)) == b[0..14]
  {
    TwoBytes(b, 12);
  }

  // ---- Rewriting ----

  function Exchanged(ip: IpFields): IpFields {
    if ip.Ipv4? then ip.(src4 := ip.dst4, dst4 := ip.src4) else ip.(src6 := ip.dst6, dst6 := ip.src6)
  }

  /** The addresses exchanged and one port replaced, before any checksum is filled in. */
  function ReaddressedFields(f: Frame, rewrite: PortRewrite): Frame {
    f.(ip := Exchanged(f.ip),
       transport := match rewrite
                    case ToProxy(port) => f.transport.(dstPort := port)
                    case FromProxy(port) => f.transport.(srcPort := port))
  }

  /** The checksums filled in, each from the frame with everything before it in place. */
  function ChecksummedFields(f: Frame, sums: Checksums): Frame
    requires f.WellFormed()
  {
    var f' := f.(transport := f.transport.(checksum := sums.transport(Written(f), f.Place())));
    if f.ip.Ipv4? then f'.(ip := f'.ip.(checksum := sums.ipHeader(Written(f')))) else f'
  }

  /** What a rewrite is meant to do to the fields: exchange the addresses on both layers, replace one
      port, and fill in the checksums. */
  function RewrittenFields(f: Frame, rewrite: PortRewrite, sums: Checksums): Frame
    requires f.WellFormed()
  {
    ChecksummedFields(ReaddressedFields(f, rewrite), sums).(dstMac := f.srcMac, srcMac := f.dstMac)
  }

  lemma PutInPart(front: Bytes, part: Bytes, back: Bytes, at: nat, v: u16)
    requires at + 2 <= |part|
    ensures PutU16(front + part + back, |front| + at, v) == front + PutU16(part, at, v) + back
  {
  }

  lemma SwapInPart(front: Bytes, part: Bytes, back: Bytes, more: Bytes, swapped: Bytes, i: nat, j: nat, n: nat)
    requires i + n <= j && j + n <= |part| && swapped == Swapped(part, i, j, n)
    ensures Swapped(front + part + back + more, |front| + i, |front| + j, n) == front + swapped + back + more
  {
    var s, goal := front + part + back + more, front + swapped + back + more;
    var r := Swapped(s, |front| + i, |front| + j, n);
    assert forall k | 0 <= k < |part| :: s[|front| + k] == part[k];
    assert s[|front| + i..|front| + i + n] == part[i..i + n] && s[|front| + j..|front| + j + n] == part[j..j + n];
    forall k | 0 <= k < |s| ensures r[k] == goal[k] {
      if i <= k - |front| < i + n {
        assert r[k] == r[|front| + i..|front| + i + n][k - |front| - i];
        assert swapped[k - |front|] == swapped[i..i + n][k - |front| - i];
      } else if j <= k - |front| < j + n {
        assert r[k] == r[|front| + j..|front| + j + n][k - |front| - j];
        assert swapped[k - |front|] == swapped[j..j + n][k - |front| - j];
      }
    }
  }

  /** The two fields of a part exchanged, when the part is given by what is around and between them. */
  lemma SwapsFields(a: Bytes, x: Bytes, y: Bytes, b: Bytes)
    requires |x| == |y|
    ensures Swapped(a + x + y + b, |a|, |a| + |x|, |x|) == a + y + x + b
  {
    var s, goal, n := a + x + y + b, a + y + x + b, |x|;
    var r := Swapped(s, |a|, |a| + n, n);
    assert s[|a|..|a| + n] == x && s[|a| + n..|a| + n + n] == y;
    forall k | 0 <= k < |s| ensures r[k] == goal[k] {
      if |a| <= k < |a| + n {
        assert r[k] == r[|a|..|a| + n][k - |a|];
      } else if |a| + n <= k < |a| + n + n {
        assert r[k] == r[|a| + n..|a| + n + n][k - |a| - n];
      }
    }
  }

  lemma SrcPortPuts(t: TransportFields, v: u16)
    requires t.WellFormed()
    ensures PutU16(WrittenTransport(t), 0, v) == WrittenTransport(t.(srcPort := v))
  {
  }

  lemma DstPortPuts(t: TransportFields, v: u16)
    requires t.WellFormed()
    ensures PutU16(WrittenTransport(t), 2, v) == WrittenTransport(t.(dstPort := v))
  {
  }

  lemma ChecksumPuts(t: TransportFields, v: u16)
    requires t.WellFormed()
    ensures PutU16(WrittenTransport(t), if t.TcpFields? then 16 else 6, v) == WrittenTransport(t.(checksum := v))
  {
  }

  lemma Ipv4Swaps(ip: IpFields, protocol: byte, n: nat)
    requires ip.WellFormed() && ip.Ipv4? && ip.HeaderLength() + n < 0x1_0000
    ensures Swapped(WrittenIp(ip, protocol, n), 12, 16, 4) == WrittenIp(Exchanged(ip), protocol, n)
  {
    var front := [ip.version * 16 + 5 + |ip.options| / 4, ip.tos] + BigEndian(20 + |ip.options| + n) + ip.fragment
                 + [ip.ttl, protocol] + BigEndian(ip.checksum);
    SwapsFields(front, ip.src4, ip.dst4, ip.options);
  }

  lemma Ipv6Swaps(ip: IpFields, protocol: byte, n: nat)
    requires ip.WellFormed() && ip.Ipv6? && n < 0x1_0000
    ensures Swapped(WrittenIp(ip, protocol, n), 8, 24, 16) == WrittenIp(Exchanged(ip), protocol, n)
  {
    var front := ip.versionClassFlow + BigEndian(n) + [protocol, ip.hopLimit];
    SwapsFields(front, ip.src6, ip.dst6, []);
    assert front + ip.src6 + ip.dst6 + [] == front + ip.src6 + ip.dst6;
    assert front + ip.dst6 + ip.src6 + [] == front + ip.dst6 + ip.src6;
  }

  lemma HeaderChecksumPuts(ip: IpFields, protocol: byte, n: nat, v: u16)
    requires ip.WellFormed() && ip.Ipv4? && ip.HeaderLength() + n < 0x1_0000
    ensures PutU16(WrittenIp(ip, protocol, n), 10, v) == WrittenIp(ip.(checksum := v), protocol, n)
  {
  }

  /** A field of the transport header, put at its place in the frame. */
  lemma TransportPutInFrame(f: Frame, t: TransportFields, at: nat, v: u16)
    requires f.WellFormed() && t.WellFormed() && t.Length() == f.transport.Length() && at + 2 <= t.Length()
    requires Protocol(t) == Protocol(f.transport)
    requires WrittenTransport(t) == PutU16(WrittenTransport(f.transport), at, v)
    ensures PutU16(Written(f), f.Place().start + at, v) == Written(f.(transport := t))
  {
    var front := WrittenLink(f) + WrittenIp(f.ip, Protocol(t), t.Length());
    PutInPart(front, WrittenTransport(f.transport), f.padding, at, v);
  }

  lemma IpPutInFrame(f: Frame, v: u16)
    requires f.WellFormed() && f.ip.Ipv4?
    ensures PutU16(Written(f), IPV4_CHECKSUM, v) == Written(f.(ip := f.ip.(checksum := v)))
  {
    var n, p := f.transport.Length(), Protocol(f.transport);
    var back := WrittenTransport(f.transport) + f.padding;
    var f' := f.(ip := f.ip.(checksum := v));
    HeaderChecksumPuts(f.ip, p, n, v);
    PutInPart(WrittenLink(f), WrittenIp(f.ip, p, n), back, 10, v);
    Regroup(WrittenLink(f), WrittenIp(f.ip, p, n), WrittenTransport(f.transport), f.padding);
    Regroup(WrittenLink(f'), WrittenIp(f'.ip, p, n), WrittenTransport(f.transport), f.padding);
  }

  lemma Regroup(a: Bytes, b: Bytes, c: Bytes, d: Bytes)
    ensures a + b + c + d == a + b + (c + d) == a + (b + c + d)
  {
  }

  lemma IpSwapInFrame(f: Frame)
    requires f.WellFormed()
    ensures Swapped(Written(f), SrcAt(f.ip.Ipv6?), DstAt(f.ip.Ipv6?), AddrLen(f.ip.Ipv6?))
            == Written(f.(ip := Exchanged(f.ip)))
  {
    var n, p := f.transport.Length(), Protocol(f.transport);
    var link, ip, ip', t := WrittenLink(f), WrittenIp(f.ip, p, n), WrittenIp(Exchanged(f.ip), p, n),
                            WrittenTransport(f.transport);
    if f.ip.Ipv4? {
      Ipv4Swaps(f.ip, p, n);
      SwapInPart(link, ip, t, f.padding, ip', 12, 16, 4);
    } else {
      Ipv6Swaps(f.ip, p, n);
      SwapInPart(link, ip, t, f.padding, ip', 8, 24, 16);
    }
  }

  lemma MacSwapInFrame(f: Frame)
    requires f.WellFormed()
    ensures Swapped(Written(f), 0, MAC_LEN, MAC_LEN) == Written(f.(dstMac := f.srcMac, srcMac := f.dstMac))
  {
    var n, p := f.transport.Length(), Protocol(f.transport);
    var link, link' := WrittenLink(f), WrittenLink(f.(dstMac := f.srcMac, srcMac := f.dstMac));
    LinkSwaps(f);
    SwapInPart([], link, WrittenIp(f.ip, p, n), WrittenTransport(f.transport) + f.padding, link', 0, 6, 6);
    FromFront(link, WrittenIp(f.ip, p, n), WrittenTransport(f.transport), f.padding);
    FromFront(link', WrittenIp(f.ip, p, n), WrittenTransport(f.transport), f.padding);
  }

  lemma FromFront(a: Bytes, b: Bytes, c: Bytes, d: Bytes)
    ensures [] + a + b + (c + d) == a + b + c + d
    ensures [] + a + b + c == a + b + c
  {
  }

  lemma LinkSwaps(f: Frame)
    requires f.WellFormed()
    ensures Swapped(WrittenLink(f), 0, 6, 6) == WrittenLink(f.(dstMac := f.srcMac, srcMac := f.dstMac))
  {
    var ether := BigEndian(if f.ip.Ipv4? then 0x0800 else 0x86DD);
    SwapsFields([], f.dstMac, f.srcMac, ether);
    FromFront(f.dstMac, f.srcMac, ether, []);
    FromFront(f.srcMac, f.dstMac, ether, []);
  }

  /** The rewrite on bytes is the change of the fields: addresses of both layers exchanged, one port
      replaced, the checksums filled in at their places, and nothing else. */
  lemma RewriteByFields(f: Frame, rewrite: PortRewrite, sums: Checksums)
    requires f.WellFormed()
    ensures TransportSpan(Written(f), f.Kind()) == Some(f.Place())
    ensures RewrittenFields(f, rewrite, sums).WellFormed()
    ensures Rewritten(Written(f), f.Kind(), f.Place(), rewrite, sums) == Written(RewrittenFields(f, rewrite, sums))
  {
    PlaceIsRead(f);
    ReaddressByFields(f, rewrite);
    var f1 := ReaddressedFields(f, rewrite);
    ChecksumByFields(f1, sums);
    var f3 := ChecksummedFields(f1, sums);
    RewriteSteps(Written(f), Written(f1), Written(f3), f.Kind(), f.Place(), rewrite, sums);
    MacSwapInFrame(f3);
  }

  lemma RewriteSteps(b: Bytes, b1: Bytes, b3: Bytes, kind: PacketKind, span: Span, rewrite: PortRewrite,
                     sums: Checksums)
    requires TransportSpan(b, kind) == Some(span) && b1 == Readdressed(b, kind, span, rewrite)
    requires TransportSpan(b1, kind) == Some(span) && b3 == Checksummed(b1, kind, span, sums)
    ensures Rewritten(b, kind, span, rewrite, sums) == Swapped(b3, 0, MAC_LEN, MAC_LEN)
  {
  }

  lemma ChecksumByFields(f: Frame, sums: Checksums)
    requires f.WellFormed() && TransportSpan(Written(f), f.Kind()) == Some(f.Place())
    ensures ChecksummedFields(f, sums).WellFormed()
    ensures Checksummed(Written(f), f.Kind(), f.Place(), sums) == Written(ChecksummedFields(f, sums))
  {
    var v := sums.transport(Written(f), f.Place());
    var f' := f.(transport := f.transport.(checksum := v));
    ChecksumPuts(f.transport, v);
    TransportPutInFrame(f, f'.transport, if f.transport.TcpFields? then 16 else 6, v);
    if f.ip.Ipv4? {
      IpPutInFrame(f', sums.ipHeader(Written(f')));
    }
  }

  lemma ReaddressByFields(f: Frame, rewrite: PortRewrite)
    requires f.WellFormed() && TransportSpan(Written(f), f.Kind()) == Some(f.Place())
    ensures ReaddressedFields(f, rewrite).WellFormed()
    ensures Readdressed(Written(f), f.Kind(), f.Place(), rewrite) == Written(ReaddressedFields(f, rewrite))
    ensures var f1 := ReaddressedFields(f, rewrite);
            && f1.Kind() == f.Kind() && f1.Place() == f.Place()
            && TransportSpan(Written(f1), f.Kind()) == Some(f.Place())
  {
    var t := match rewrite
             case ToProxy(port) => f.transport.(dstPort := port)
             case FromProxy(port) => f.transport.(srcPort := port);
    match rewrite {
      case ToProxy(port) => DstPortPuts(f.transport, port);
      case FromProxy(port) => SrcPortPuts(f.transport, port);
    }
    TransportPutInFrame(f, t, if rewrite.ToProxy? then 2 else 0, rewrite.port);
    IpSwapInFrame(f.(transport := t));
    PlaceIsRead(ReaddressedFields(f, rewrite));
  }
}
