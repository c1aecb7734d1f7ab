/** Runs of whole owner lookups, over all four tables, stated on the rows the system gave: whose row
    an owner found is, and what "not found" means. */
module Owners {
  import opened Net
  import opened ProcessLookup

  datatype Lookup = Lookup(t: Transport, src: SocketAddr, dst: SocketAddr, os: OsTables, clock: Clock)

  function LookUpOwner(s: Snapshots, l: Lookup): (Option<Pid>, Snapshots) {
    FindAmong(s, l.t, l.src, l.dst, l.os, l.clock)
  }

  const NO_SNAPSHOTS := Snapshots(Snapshot([], None), Snapshot([], None), Snapshot([], None), Snapshot([], None))

  /** The snapshots a run of lookups leaves, starting from none. */
  function SnapshotsAfter(lookups: seq<Lookup>): Snapshots {
    if lookups == [] then NO_SNAPSHOTS
    else LookUpOwner(SnapshotsAfter(lookups[..|lookups| - 1]), lookups[|lookups| - 1]).1
  }

  /** The clock does not run backwards within a lookup or from one to the next. */
  predicate InOrder(lookups: seq<Lookup>) {
    && (forall i | 0 <= i < |lookups| :: lookups[i].clock.checked <= lookups[i].clock.refreshed)
    && (forall i, j | 0 <= i < j < |lookups| :: lookups[i].clock.refreshed <= lookups[j].clock.checked)
  }

  // ---- The tables and their rows ----

  datatype Family = TcpOverV4 | TcpOverV6 | UdpOverV4 | UdpOverV6

  datatype Rows = TcpRows(tcp: seq<Row<TcpSession>>) | UdpRows(udp: seq<Row<SocketAddr>>)

  /** The table an endpoint's owner stands in, if one does: a datagram's by its source alone. */
  function FamilyOf(l: Lookup): Option<Family> {
    if l.t == Udp then Some(if l.src.ip.V4? then UdpOverV4 else UdpOverV6)
    else if l.src.ip.V4? && l.dst.ip.V4? then Some(TcpOverV4)
    else if l.src.ip.V6? && l.dst.ip.V6? then Some(TcpOverV6)
    else None
  }

  /** The table of that family, as the system gives it in a lookup. */
  function Given(os: OsTables, f: Family): Option<Rows> {
    match f
    case TcpOverV4 => if os.tcpV4.Some? then Some(TcpRows(os.tcpV4.value)) else None
    case TcpOverV6 => if os.tcpV6.Some? then Some(TcpRows(os.tcpV6.value)) else None
    case UdpOverV4 => if os.udpV4.Some? then Some(UdpRows(os.udpV4.value)) else None
    case UdpOverV6 => if os.udpV6.Some? then Some(UdpRows(os.udpV6.value)) else None
  }

  /** The table of that family, as it is cached, and when it was recorded. */
  function Held(s: Snapshots, f: Family): (Rows, Option<Instant>) {
    match f
    case TcpOverV4 => (TcpRows(s.tcpV4.rows), s.tcpV4.takenAt)
    case TcpOverV6 => (TcpRows(s.tcpV6.rows), s.tcpV6.takenAt)
    case UdpOverV4 => (UdpRows(s.udpV4.rows), s.udpV4.takenAt)
    case UdpOverV6 => (UdpRows(s.udpV6.rows), s.udpV6.takenAt)
  }

  ghost predicate HasRow<K>(rows: seq<Row<K>>, key: K) {
    exists i :: 0 <= i < |rows| && rows[i].key == key
  }

  /** The last row with that key names that process. */
  ghost predicate LastRow<K>(rows: seq<Row<K>>, key: K, pid: Pid) {
    exists i :: 0 <= i < |rows| && rows[i] == Row(key, pid) && forall j | i < j < |rows| :: rows[j].key != key
  }

  /** The same port at the unspecified address of the same family. */
  function Anywhere(src: SocketAddr): SocketAddr {
    match src.ip
    case V4(_) => SocketAddr(V4([0, 0, 0, 0]), src.port)
    case V6(_) => SocketAddr(UNSPECIFIED_V6, src.port)
  }

  /** Whom the rows name: for TCP the last row with both endpoints, for UDP the last with the source,
      and only when there is none the last with its port at the unspecified address. */
  ghost predicate Owns(rows: Rows, src: SocketAddr, dst: SocketAddr, pid: Pid) {
    match rows
    case TcpRows(tcp) => LastRow(tcp, TcpSession(src, dst), pid)
    case UdpRows(udp) => LastRow(udp, src, pid) || (!HasRow(udp, src) && LastRow(udp, Anywhere(src), pid))
  }

  // ---- One lookup ----

  lemma {:induction false} OwnerIsLastRow<K>(rows: seq<Row<K>>, key: K)
    ensures forall pid: Pid :: Owner(rows, key) == Some(pid) <==> LastRow(rows, key, pid)
    ensures Owner(rows, key).Some? <==> HasRow(rows, key)
  {
    if rows != [] {
      var n := |rows| - 1;
      var init, last := rows[..n], rows[n];
      OwnerIsLastRow(init, key);
      if last.key == key {
        assert rows[n] == Row(key, last.pid);
      } else {
        forall i | 0 <= i < n ensures init[i] == rows[i] {}
        forall pid: Pid ensures LastRow(rows, key, pid) <==> LastRow(init, key, pid) {}
      }
    }
  }

  lemma UdpAnswerMeans(rows: seq<Row<SocketAddr>>, src: SocketAddr, dst: SocketAddr)
    ensures forall pid: Pid :: Answer(rows, src, Wildcard(src)) == Some(pid) <==> Owns(UdpRows(rows), src, dst, pid)
  {
    OwnerIsLastRow(rows, src);
    OwnerIsLastRow(rows, Anywhere(src));
  }

  lemma TcpAnswerMeans(rows: seq<Row<TcpSession>>, src: SocketAddr, dst: SocketAddr)
    ensures forall pid: Pid ::
              Answer(rows, TcpSession(src, dst), None) == Some(pid) <==> Owns(TcpRows(rows), src, dst, pid)
  {
    OwnerIsLastRow(rows, TcpSession(src, dst));
  }

  ghost predicate NamesNone(rows: Rows, src: SocketAddr, dst: SocketAddr) {
    forall pid: Pid :: !Owns(rows, src, dst, pid)
  }

  /** In lookup `l` the system gave these rows for that family, recorded then. */
  predicate GaveThen(l: Lookup, f: Family, rows: Rows, at: Option<Instant>) {
    FamilyOf(l) == Some(f) && Given(l.os, f) == Some(rows) && at == Some(l.clock.refreshed)
  }

  lemma OneLookup(s: Snapshots, l: Lookup)
    ensures var (owner, after) := LookUpOwner(s, l);
            match FamilyOf(l)
            case None => owner == None && after == s
            case Some(f) =>
              && (forall g | g != f :: Held(after, g) == Held(s, g))
              && (Held(after, f) == Held(s, f) || GaveThen(l, f, Held(after, f).0, Held(after, f).1))
              && (owner.Some? ==>
                    && Owns(Held(after, f).0, l.src, l.dst, owner.value)
                    && (|| GaveThen(l, f, Held(after, f).0, Held(after, f).1)
                        || (&& Held(after, f) == Held(s, f) && Held(s, f).1.Some?
                            && DurationSince(l.clock.checked, Held(s, f).1.value) <= SESSION_CACHE_MAX_AGE)))
              && (owner == None ==>
                    Given(l.os, f) == None || NamesNone(Given(l.os, f).value, l.src, l.dst))
  {
    var (owner, after) := LookUpOwner(s, l);
    match FamilyOf(l)
    case None =>
    case Some(TcpOverV4) =>
      TcpAnswerMeans(s.tcpV4.rows, l.src, l.dst);
      if l.os.tcpV4.Some? { TcpAnswerMeans(l.os.tcpV4.value, l.src, l.dst); }
    case Some(TcpOverV6) =>
      TcpAnswerMeans(s.tcpV6.rows, l.src, l.dst);
      if l.os.tcpV6.Some? { TcpAnswerMeans(l.os.tcpV6.value, l.src, l.dst); }
    case Some(UdpOverV4) =>
      UdpAnswerMeans(s.udpV4.rows, l.src, l.dst);
      if l.os.udpV4.Some? { UdpAnswerMeans(l.os.udpV4.value, l.src, l.dst); }
    case Some(UdpOverV6) =>
      UdpAnswerMeans(s.udpV6.rows, l.src, l.dst);
      if l.os.udpV6.Some? { UdpAnswerMeans(l.os.udpV6.value, l.src, l.dst); }
  }

  // ---- Runs ----

  lemma {:induction false} HeldWasGiven(lookups: seq<Lookup>, f: Family)
    ensures var (rows, at) := Held(SnapshotsAfter(lookups), f);
            at == None || exists l :: l in lookups && GaveThen(l, f, rows, at)
  {
    if lookups != [] {
      var n := |lookups| - 1;
      HeldWasGiven(lookups[..n], f);
      OneLookup(SnapshotsAfter(lookups[..n]), lookups[n]);
      var (rows, at) := Held(SnapshotsAfter(lookups), f);
      if at != None && Held(SnapshotsAfter(lookups), f) == Held(SnapshotsAfter(lookups[..n]), f) {
        var l :| l in lookups[..n] && GaveThen(l, f, rows, at);
        assert l in lookups;
      } else if at != None {
        assert lookups[n] in lookups && GaveThen(lookups[n], f, rows, at);
      }
    }
  }

  /** Over every run of lookups, for all four families: an owner found is the one named by the rows of
      the endpoint's own table as the system gave it in this lookup, or in an earlier one of the family
      recorded at most 500 ms before this one's check. "Not found" means that the table asked for in this
      very lookup names nobody, or was not given; or that TCP endpoints are of mixed families. The
      cached tables of the other families stay. */
  lemma OwnerNamedByRows(lookups: seq<Lookup>, last: Lookup)
    requires InOrder(lookups + [last])
    ensures var (owner, after) := LookUpOwner(SnapshotsAfter(lookups), last);
            match FamilyOf(last)
            case None => owner == None && after == SnapshotsAfter(lookups)
            case Some(f) =>
              && (owner.Some? ==>
                    exists l, rows ::
                      && (l == last || (l in lookups
                                        && 0 <= last.clock.checked - l.clock.refreshed <= 500 * MILLISECOND))
                      && GaveThen(l, f, rows, Some(l.clock.refreshed))
                      && Owns(rows, last.src, last.dst, owner.value))
              && (owner == None ==>
                    Given(last.os, f) == None || NamesNone(Given(last.os, f).value, last.src, last.dst))
              && (forall g | g != f :: Held(after, g) == Held(SnapshotsAfter(lookups), g))
  {
    var s := SnapshotsAfter(lookups);
    var (owner, after) := LookUpOwner(s, last);
    OneLookup(s, last);
    if FamilyOf(last).Some? && owner.Some? {
      var f := FamilyOf(last).value;
      var (rows, at) := Held(after, f);
      if !GaveThen(last, f, rows, at) {
        HeldWasGiven(lookups, f);
        var l :| l in lookups && GaveThen(l, f, rows, at);
        Earlier(lookups, last, l);
      } else {
        assert GaveThen(last, f, rows, Some(last.clock.refreshed));
      }
    }
  }

  lemma Earlier(lookups: seq<Lookup>, last: Lookup, l: Lookup)
    requires InOrder(lookups + [last]) && l in lookups
    ensures l.clock.refreshed <= last.clock.checked
  {
    var i :| 0 <= i < |lookups| && lookups[i] == l;
    var all := lookups + [last];
    assert all[i] == l && all[|lookups|] == last;
  }
}
