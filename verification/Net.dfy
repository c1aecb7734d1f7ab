/** Addresses, ports, the clock and the small result types shared by every other module. */
module Net {

  type byte = n: int | 0 <= n < 0x100
  type u16 = n: int | 0 <= n < 0x1_0000

  type Bytes = seq<byte>

  /** The big-endian number at `at`. */
  function U16At(b: Bytes, at: nat): u16
    requires at + 2 <= |b|
  {
    var high: int, low: int := b[at], b[at + 1];
    high * 0x100 + low
  }

  /** A number as the two bytes `U16At` reads it from. */
  function BigEndian(v: u16): Bytes {
    [v / 0x100, v % 0x100]
  }

  /** The part stands in the text at `at`. */
  predicate OccursAt(text: string, part: string, at: nat) {
    at + |part| <= |text| && text[at..at + |part|] == part
  }

  datatype Option<+T> = None | Some(value: T)

  datatype Result<+T, +E> = Ok(value: T) | Err(error: E)

  /** Nanoseconds on the monotone clock. */
  type Instant = nat

  const SECOND: nat := 1_000_000_000

  /** Time since an instant, zero when it lies ahead. */
  function DurationSince(now: Instant, earlier: Instant): nat {
    if now < earlier then 0 else now - earlier
  }

  datatype Transport = Tcp | Udp

  type Octets4 = s: seq<byte> | |s| == 4 witness [0, 0, 0, 0]
  type Octets16 = s: seq<byte> | |s| == 16 witness [0, 0, 0, 0, 0, 0, 0, 0, 0, 0, 0, 0, 0, 0, 0, 0]

  datatype IpAddr = V4(v4: Octets4) | V6(v6: Octets16)

  /** Flow label and scope of an IPv6 socket address play no part in any decision and are dropped. */
  datatype SocketAddr = SocketAddr(ip: IpAddr, port: u16)

  const UNSPECIFIED_V6: IpAddr := V6([0, 0, 0, 0, 0, 0, 0, 0, 0, 0, 0, 0, 0, 0, 0, 0])

  predicate IsUnspecified(ip: IpAddr) {
    ip == V4([0, 0, 0, 0]) || ip == UNSPECIFIED_V6
  }

  /** The twelve leading octets of an IPv4-mapped IPv6 address (section 2.5.5.2 of RFC 4291). */
  const MAPPED_PREFIX: Bytes := [0, 0, 0, 0, 0, 0, 0, 0, 0, 0, 0xFF, 0xFF]

  predicate IsMapped(ip: IpAddr) {
    ip.V6? && ip.v6[..12] == MAPPED_PREFIX
  }

  function ToIpv6Mapped(v4: Octets4): Octets16 {
    MAPPED_PREFIX + v4
  }

  function NormalizeMappedIpv6(addr: SocketAddr): SocketAddr {
    if IsMapped(addr.ip) then SocketAddr(V4(addr.ip.v6[12..]), addr.port) else addr
  }

  /** How a dual-stack socket reports an endpoint: IPv4 arrives as IPv4-mapped IPv6. */
  function AsSeenByListener(addr: SocketAddr): SocketAddr {
    if addr.ip.V4? then SocketAddr(V6(ToIpv6Mapped(addr.ip.v4)), addr.port) else addr
  }

  /** Normalising undoes the listener's view exactly for the addresses that are not themselves
      mapped IPv6 addresses. */
  lemma NormalizeUndoesListener(addr: SocketAddr)
    ensures NormalizeMappedIpv6(AsSeenByListener(addr)) == addr <==> !IsMapped(addr.ip)
  {
    if addr.ip.V4? {
      var m := ToIpv6Mapped(addr.ip.v4);
      assert m[..12] == MAPPED_PREFIX && m[12..] == addr.ip.v4;
    }
  }
}
