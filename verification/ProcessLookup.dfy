/** Which process owns an endpoint: snapshots of the four tables of the operating system, each
    with an age limit and refreshed on a miss, and a cache of process paths. The tables and the
    path query of the operating system are parameters; a table is a sequence of rows. */
module ProcessLookup {
  import opened Net

  const MILLISECOND: nat := 1_000_000
  const PROCESS_CACHE_TTL: nat := 300 * SECOND
  const PROCESS_CACHE_MAX: nat := 1024
  const SESSION_CACHE_MAX_AGE: nat := 500 * MILLISECOND

  type Pid = n: int | 0 <= n < 0x1_0000_0000

  datatype Row<K> = Row(key: K, pid: Pid)

  // ---- Reference: reading one snapshot ----

  /** The owner of a key is named by its last row. */
  function Owner<K(==)>(rows: seq<Row<K>>, key: K): Option<Pid> {
    if rows == [] then None
    else if rows[|rows| - 1].key == key then Some(rows[|rows| - 1].pid)
    else Owner(rows[..|rows| - 1], key)
  }

  /** An exact row beats a wildcard row. */
  function Answer<K(==)>(rows: seq<Row<K>>, key: K, wildcard: Option<K>): Option<Pid> {
    var exact := Owner(rows, key);
    if exact.Some? || wildcard == None then exact else Owner(rows, wildcard.value)
  }

  ghost predicate IndexOf<K(!new)>(table: map<K, Pid>, rows: seq<Row<K>>) {
    forall key :: Owner(rows, key) == if key in table then Some(table[key]) else None
  }

  lemma OneMoreRow<K(!new)>(table: map<K, Pid>, rows: seq<Row<K>>, row: Row<K>)
    requires IndexOf(table, rows)
    ensures IndexOf(table[row.key := row.pid], rows + [row])
  {
    assert (rows + [row])[..|rows|] == rows;
    var t := table[row.key := row.pid];
    forall key ensures Owner(rows + [row], key) == if key in t then Some(t[key]) else None {
      assert Owner(rows, key) == if key in table then Some(table[key]) else None;
    }
  }

  // ---- One table ----

  predicate IsStale(lastRefresh: Option<Instant>, now: Instant) {
    lastRefresh == None || DurationSince(now, lastRefresh.value) > SESSION_CACHE_MAX_AGE
  }

  /** A cached snapshot: its rows and when it was recorded. */
  datatype Snapshot<K> = Snapshot(rows: seq<Row<K>>, takenAt: Option<Instant>)

  datatype PidOutcome<K> = PidOutcome(pid: Option<Pid>, snapshot: Snapshot<K>, attempted: bool)

  /** One lookup: the staleness check at `checked`, a refresh, if one is made, recorded at
      `refreshed`, and `os` the table the system would give, if it gives one. */
  function FindIn<K(==)>(s: Snapshot<K>, key: K, wildcard: Option<K>, checked: Instant, os: Option<seq<Row<K>>>,
                            refreshed: Instant): PidOutcome<K> {
    if !IsStale(s.takenAt, checked) && Answer(s.rows, key, wildcard).Some? then
      PidOutcome(Answer(s.rows, key, wildcard), s, false)
    else
      match os
      case None => PidOutcome(None, s, true)
      case Some(rows) => PidOutcome(Answer(rows, key, wildcard), Snapshot(rows, Some(refreshed)), true)
  }

  /** One call: what is looked up, when, and the table the system would give. */
  datatype PidLookup<K> =
    PidLookup(key: K, wildcard: Option<K>, checked: Instant, os: Option<seq<Row<K>>>, refreshed: Instant)

  function Call<K(==)>(s: Snapshot<K>, call: PidLookup<K>): PidOutcome<K> {
    FindIn(s, call.key, call.wildcard, call.checked, call.os, call.refreshed)
  }

  /** The snapshot a run of calls leaves, starting from none. */
  function SnapshotAfter<K(==)>(calls: seq<PidLookup<K>>): Snapshot<K> {
    if calls == [] then Snapshot([], None) else Call(SnapshotAfter(calls[..|calls| - 1]), calls[|calls| - 1]).snapshot
  }

  /** The clock does not run backwards within a call or from one to the next. */
  predicate InOrder<K>(calls: seq<PidLookup<K>>) {
    && (forall i | 0 <= i < |calls| :: calls[i].checked <= calls[i].refreshed)
    && (forall i, j | 0 <= i < j < |calls| :: calls[i].refreshed <= calls[j].checked)
  }

  /** The snapshot is the table the system gave in call `j`, at the time recorded then. */
  predicate GivenIn<K(==)>(s: Snapshot<K>, calls: seq<PidLookup<K>>, j: nat) {
    j < |calls| && calls[j].os.Some? && s == Snapshot(calls[j].os.value, Some(calls[j].refreshed))
  }

  lemma {:induction false} SnapshotHasAnOrigin<K(!new)>(calls: seq<PidLookup<K>>)
    ensures SnapshotAfter(calls) == Snapshot([], None) || exists j: nat :: GivenIn(SnapshotAfter(calls), calls, j)
  {
    if calls != [] {
      var n := |calls| - 1;
      var before, after := SnapshotAfter(calls[..n]), SnapshotAfter(calls);
      SnapshotHasAnOrigin(calls[..n]);
      if after == before {
        if j: nat :| GivenIn(before, calls[..n], j) {
          assert GivenIn(after, calls, j);
        }
      } else {
        assert GivenIn(after, calls, n);
      }
    }
  }

  /** Over every run of calls: an owner found by the last call is the owner in the very table the
      system gave in some call `j`, which is this one or was recorded at most 500 ms before this
      one's check; and "not found" is answered only after asking the system again in this call,
      which then failed or gave a table without an owner. An exact row beats a wildcard row. */
  lemma BoundedStaleness<K(!new)>(calls: seq<PidLookup<K>>, last: PidLookup<K>)
    requires InOrder(calls + [last])
    ensures var f := Call(SnapshotAfter(calls), last);
            && (f.pid.Some? ==>
                  exists j: nat :: GivenIn(f.snapshot, calls + [last], j)
                    && f.pid == Answer((calls + [last])[j].os.value, last.key, last.wildcard)
                    && (j == |calls| || 0 <= last.checked - (calls + [last])[j].refreshed <= 500 * MILLISECOND))
            && (f.pid == None ==>
                  f.attempted && (last.os == None || Answer(last.os.value, last.key, last.wildcard) == None))
            && (f.pid.Some? && Owner(f.snapshot.rows, last.key).Some? ==> f.pid == Owner(f.snapshot.rows, last.key))
  {
    var f := Call(SnapshotAfter(calls), last);
    if f.pid.Some? {
      if f.attempted {
        assert GivenIn(f.snapshot, calls + [last], |calls|);
      } else {
        SnapshotHasAnOrigin(calls);
        var j: nat :| GivenIn(f.snapshot, calls, j);
        assert (calls + [last])[j] == calls[j] && (calls + [last])[|calls|] == last;
        assert GivenIn(f.snapshot, calls + [last], j);
      }
    }
  }

  /** The system is asked for its table exactly when it never gave one, the one it gave last was recorded
      more than 500 ms before the check, or that one has no owner. */
  lemma SystemAskedExactly<K(!new)>(calls: seq<PidLookup<K>>, last: PidLookup<K>)
    ensures var s := SnapshotAfter(calls);
            Call(s, last).attempted
            <==> !exists j: nat ::
                   && GivenIn(s, calls, j)
                   && DurationSince(last.checked, calls[j].refreshed) <= 500 * MILLISECOND
                   && Answer(calls[j].os.value, last.key, last.wildcard).Some?
  {
    SnapshotHasAnOrigin(calls);
  }

  class SessionTable<K(==, !new)> {
    var table: map<K, Pid>
    var lastRefresh: Option<Instant>
    ghost var rows: seq<Row<K>>
    ghost var asked: nat   // how often the system has been asked for its table

    ghost predicate Valid()
      reads this
    {
      IndexOf(table, rows)
    }

    ghost function Contents(): Snapshot<K>
      reads this
    {
      Snapshot(rows, lastRefresh)
    }

    constructor ()
      ensures Valid() && Contents() == Snapshot([], None)
    {
      table, lastRefresh, rows, asked := map[], None, [], 0;
    }

    method Rebuild(os: seq<Row<K>>)
      modifies `table, `rows
      ensures Valid() && rows == os
    {
      table := map[];
      for i := 0 to |os|
        invariant IndexOf(table, os[..i])
      {
        OneMoreRow(table, os[..i], os[i]);
        assert os[..i + 1] == os[..i] + [os[i]];
        table := table[os[i].key := os[i].pid];
      }
      assert os[..|os|] == os;
      rows := os;
    }

    method Refresh(os: Option<seq<Row<K>>>, now: Instant) returns (ok: bool)
      requires Valid()
      modifies this
      ensures Valid() && ok == os.Some? && asked == old(asked) + 1
      ensures Contents() == if ok then Snapshot(os.value, Some(now)) else old(Contents())
    {
      asked := asked + 1;
      if os == None {
        return false;
      }
      Rebuild(os.value);
      lastRefresh := Some(now);
      return true;
    }

    method Lookup(key: K, wildcard: Option<K>) returns (pid: Option<Pid>)
      requires Valid()
      ensures pid == Answer(rows, key, wildcard)
    {
      if key in table {
        return Some(table[key]);
      }
      if wildcard.Some? {
        assert Owner(rows, wildcard.value) == if wildcard.value in table then Some(table[wildcard.value]) else None;
        return if wildcard.value in table then Some(table[wildcard.value]) else None;
      }
      return None;
    }

    method FindPid(key: K, wildcard: Option<K>, checked: Instant, os: Option<seq<Row<K>>>, refreshed: Instant)
      returns (pid: Option<Pid>)
      requires Valid()
      modifies this
      ensures Valid()
      ensures var f := FindIn(old(Contents()), key, wildcard, checked, os, refreshed);
              && pid == f.pid && Contents() == f.snapshot
              && asked == old(asked) + (if f.attempted then 1 else 0)
    {
      if IsStale(lastRefresh, checked) {
        var ok := Refresh(os, refreshed);
        if !ok {
          return None;
        }
        pid := Lookup(key, wildcard);
        return;
      }
      pid := Lookup(key, wildcard);
      if pid.Some? {
        return;
      }
      var ok := Refresh(os, refreshed);
      if !ok {
        return None;
      }
      pid := Lookup(key, wildcard);
    }
  }

  // ---- Process paths ----

  datatype CachedProcess = CachedProcess(path: string, lastSeen: Instant)

  type PathCache = map<Pid, CachedProcess>

  function FreshPaths(cache: PathCache, now: Instant): PathCache {
    map p | p in cache && DurationSince(now, cache[p].lastSeen) <= PROCESS_CACHE_TTL :: cache[p]
  }

  function Capped(cache: PathCache, now: Instant): PathCache {
    if |cache| <= PROCESS_CACHE_MAX then cache
    else if |FreshPaths(cache, now)| <= PROCESS_CACHE_MAX then FreshPaths(cache, now)
    else map[]
  }

  datatype PathOutcome = PathOutcome(cache: PathCache, path: Option<string>)

  /** `query` is the path the system would name for the process, if it names one. */
  function FindPath(cache: PathCache, pid: Pid, now: Instant, query: Option<string>): PathOutcome {
    if pid in cache && DurationSince(now, cache[pid].lastSeen) <= PROCESS_CACHE_TTL then
      PathOutcome(cache[pid := cache[pid].(lastSeen := now)], Some(cache[pid].path))
    else
      match query
      case None => PathOutcome(cache - {pid}, None)
      case Some(path) => PathOutcome(Capped((cache - {pid})[pid := CachedProcess(path, now)], now), Some(path))
  }

  lemma RemovalShrinks(cache: PathCache, pid: Pid)
    ensures |cache - {pid}| <= |cache|
  {
    var rest := cache - {pid};
    assert rest.Keys <= cache.Keys;
    assert |cache.Keys| == |rest.Keys| + |cache.Keys - rest.Keys|;
  }

  lemma CappedFits(cache: PathCache, now: Instant)
    ensures |Capped(cache, now)| <= PROCESS_CACHE_MAX
  {
  }

  lemma RenewalKeepsSize(cache: PathCache, pid: Pid, entry: CachedProcess)
    requires pid in cache
    ensures |cache[pid := entry]| == |cache|
  {
    assert cache[pid := entry].Keys == cache.Keys;
  }

  /** The cache is within its cap after every call. */
  lemma PathCacheCapped(cache: PathCache, pid: Pid, now: Instant, query: Option<string>)
    requires |cache| <= PROCESS_CACHE_MAX
    ensures |FindPath(cache, pid, now, query).cache| <= 1024
  {
    if pid in cache && DurationSince(now, cache[pid].lastSeen) <= PROCESS_CACHE_TTL {
      RenewalKeepsSize(cache, pid, cache[pid].(lastSeen := now));
    } else if query == None {
      RemovalShrinks(cache, pid);
    } else {
      CappedFits((cache - {pid})[pid := CachedProcess(query.value, now)], now);
    }
  }

  /** One lookup of a path: for which process, when, and what the system would answer. */
  datatype PathLookup = PathLookup(pid: Pid, now: Instant, query: Option<string>)

  function LookUp(cache: PathCache, l: PathLookup): PathOutcome {
    FindPath(cache, l.pid, l.now, l.query)
  }

  function AfterLookups(cache: PathCache, lookups: seq<PathLookup>): PathCache
    decreases |lookups|
  {
    if lookups == [] then cache else AfterLookups(LookUp(cache, lookups[0]).cache, lookups[1..])
  }

  /** The clock does not run backwards. */
  ghost predicate Chronological(start: Instant, lookups: seq<PathLookup>)
    decreases |lookups|
  {
    lookups != [] ==> start <= lookups[0].now && Chronological(lookups[0].now, lookups[1..])
  }

  /** No more than the time-to-live from each lookup of `pid` to the next, the first counted from
      `start`. */
  predicate Steady(pid: Pid, start: Instant, lookups: seq<PathLookup>)
    decreases |lookups|
  {
    lookups != [] ==>
      if lookups[0].pid == pid then
        lookups[0].now <= start + 300 * SECOND && Steady(pid, lookups[0].now, lookups[1..])
      else
        Steady(pid, start, lookups[1..])
  }

  /** The lookup adds an entry and finds more fresh entries than the cap: the cache is emptied. */
  predicate Empties(cache: PathCache, l: PathLookup) {
    && !(l.pid in cache && DurationSince(l.now, cache[l.pid].lastSeen) <= PROCESS_CACHE_TTL)
    && l.query.Some?
    && var added := (cache - {l.pid})[l.pid := CachedProcess(l.query.value, l.now)];
       |added| > 1024 && |FreshPaths(added, l.now)| > 1024
  }

  predicate NeverEmptied(cache: PathCache, lookups: seq<PathLookup>)
    decreases |lookups|
  {
    lookups != [] ==> !Empties(cache, lookups[0]) && NeverEmptied(LookUp(cache, lookups[0]).cache, lookups[1..])
  }

  predicate Holds(cache: PathCache, pid: Pid, path: string) {
    pid in cache && cache[pid].path == path
  }

  /** The system never names `path` for `pid`. */
  predicate NamesOthers(pid: Pid, path: string, lookups: seq<PathLookup>) {
    forall l | l in lookups :: l.pid == pid ==> l.query != Some(path)
  }

  /** A path that is lost does not come back unless the system names it. */
  lemma {:induction false} LostStaysLost(cache: PathCache, pid: Pid, path: string, lookups: seq<PathLookup>)
    requires !Holds(cache, pid, path) && NamesOthers(pid, path, lookups)
    ensures !Holds(AfterLookups(cache, lookups), pid, path)
    decreases |lookups|
  {
    if lookups != [] {
      assert lookups[0].pid == pid ==> lookups[0].query != Some(path);
      LostAfterOne(cache, pid, path, lookups[0]);
      LostStaysLost(LookUp(cache, lookups[0]).cache, pid, path, lookups[1..]);
    }
  }

  lemma LostAfterOne(cache: PathCache, pid: Pid, path: string, l: PathLookup)
    requires !Holds(cache, pid, path) && (l.pid == pid ==> l.query != Some(path))
    ensures !Holds(LookUp(cache, l).cache, pid, path)
  {
  }

  /** Once the time-to-live has passed, a later lookup of the process is not steady any more. */
  lemma {:induction false} LateIsNotSteady(pid: Pid, start: Instant, t: Instant, lookups: seq<PathLookup>)
    requires Chronological(t, lookups) && t > start + PROCESS_CACHE_TTL
    requires lookups != [] && lookups[|lookups| - 1].pid == pid
    ensures !Steady(pid, start, lookups)
    decreases |lookups|
  {
    if lookups[0].pid != pid {
      LateIsNotSteady(pid, start, lookups[0].now, lookups[1..]);
    }
  }

  /** What one lookup of another process does to the entry of `pid`: emptying loses it, and it may
      be dropped once its time-to-live has passed. */
  lemma OtherLookup(cache: PathCache, pid: Pid, entry: CachedProcess, l: PathLookup)
    requires pid in cache && cache[pid] == entry && l.pid != pid
    ensures var after := LookUp(cache, l).cache;
            && (Empties(cache, l) ==> pid !in after)
            && (!Empties(cache, l) ==> pid in after || DurationSince(l.now, entry.lastSeen) > PROCESS_CACHE_TTL)
            && (pid in after ==> after[pid] == entry)
  {
  }

  /** After any lookups, of this and other processes, each with its own answer, a lookup returns
      the path queried at `start` exactly when every gap between lookups of the process, this one
      included, was at most 300 s, and no lookup in between emptied the cache. */
  lemma {:induction false} PathKeptExactly(cache: PathCache, pid: Pid, start: Instant, path: string,
                                           lookups: seq<PathLookup>, last: PathLookup)
    requires pid in cache && cache[pid] == CachedProcess(path, start) && last.pid == pid
    requires Chronological(start, lookups + [last]) && NamesOthers(pid, path, lookups + [last])
    ensures LookUp(AfterLookups(cache, lookups), last).path == Some(path)
            <==> Steady(pid, start, lookups + [last]) && NeverEmptied(cache, lookups)
    decreases |lookups|
  {
    var all := lookups + [last];
    assert all[|lookups|] == last && last in all;
    if lookups == [] {
      assert all[1..] == [];
    } else {
      var l, rest := lookups[0], lookups[1..];
      assert all[0] == l && all[1..] == rest + [last];
      var after := LookUp(cache, l).cache;
      assert forall x | x in rest + [last] :: x in all;
      assert last == all[1..][|rest|];
      if l.pid != pid {
        OtherLookup(cache, pid, cache[pid], l);
      }
      if pid in after && after[pid] == CachedProcess(path, if l.pid == pid then l.now else start) {
        ChronologicalFrom(start, l.now, rest + [last]);
        PathKeptExactly(after, pid, if l.pid == pid then l.now else start, path, rest, last);
      } else {
        assert l.pid == pid ==> l.query != Some(path);
        LostStaysLost(after, pid, path, rest);
        if l.pid != pid && !Empties(cache, l) {
          LateIsNotSteady(pid, start, l.now, rest + [last]);
        }
      }
    }
  }

  /** Over every run of lookups from an empty cache, a path returned for a process is one the system
      named for that process, now or in the run; none is returned only if it names none now. */
  lemma PathWasNamed(lookups: seq<PathLookup>, last: PathLookup)
    ensures var path := LookUp(AfterLookups(map[], lookups), last).path;
            && (path.Some? ==> exists l :: l in lookups + [last] && l.pid == last.pid && l.query == path)
            && (path == None ==> last.query == None)
  {
    var cache := AfterLookups(map[], lookups);
    var path := LookUp(cache, last).path;
    if path.Some? && path != last.query {
      if NamesOthers(last.pid, path.value, lookups) {
        LostStaysLost(map[], last.pid, path.value, lookups);
      } else {
        var l :| l in lookups && l.pid == last.pid && l.query == path;
        assert l in lookups + [last];
      }
    } else {
      assert last in lookups + [last];
    }
  }

  lemma ChronologicalFrom(start: Instant, t: Instant, lookups: seq<PathLookup>)
    requires start <= t && Chronological(t, lookups)
    ensures Chronological(start, lookups)
  {
  }

  /** Lookups of one process, at most the time-to-live apart, until `age` after `start`; the
      system names `other` at each. */
  function SteadyLookups(pid: Pid, start: Instant, other: string, age: nat): (lookups: seq<PathLookup>)
    ensures lookups != [] && lookups[|lookups| - 1] == PathLookup(pid, start + age, Some(other))
    ensures forall i | 0 <= i < |lookups| :: lookups[i].pid == pid && lookups[i].query == Some(other)
    ensures Chronological(start, lookups) && Steady(pid, start, lookups)
    decreases age
  {
    if age <= PROCESS_CACHE_TTL then
      var l := PathLookup(pid, start + age, Some(other));
      assert [l][1..] == [];
      [l]
    else
      var l := PathLookup(pid, start + PROCESS_CACHE_TTL, Some(other));
      var rest := SteadyLookups(pid, start + PROCESS_CACHE_TTL, other, age - PROCESS_CACHE_TTL);
      assert ([l] + rest)[1..] == rest;
      [l] + rest
  }

  lemma {:induction false} OwnLookupsEmptyNothing(cache: PathCache, pid: Pid, start: Instant, lookups: seq<PathLookup>)
    requires pid in cache && cache[pid].lastSeen == start && Steady(pid, start, lookups)
    requires forall i | 0 <= i < |lookups| :: lookups[i].pid == pid
    ensures NeverEmptied(cache, lookups)
    decreases |lookups|
  {
    if lookups != [] {
      OwnLookupsEmptyNothing(LookUp(cache, lookups[0]).cache, pid, lookups[0].now, lookups[1..]);
    }
  }

  lemma {:induction false} SteadyPrefix(pid: Pid, start: Instant, lookups: seq<PathLookup>, n: nat)
    requires Steady(pid, start, lookups) && n <= |lookups|
    ensures Steady(pid, start, lookups[..n])
    decreases |lookups|
  {
    if n > 0 {
      assert lookups[..n][1..] == lookups[1..][..n - 1];
      SteadyPrefix(pid, if lookups[0].pid == pid then lookups[0].now else start, lookups[1..], n - 1);
    }
  }

  /** Without lookups of other processes the gaps alone decide. */
  lemma PathKeptExactlyBySteadiness(cache: PathCache, pid: Pid, start: Instant, path: string,
                                    lookups: seq<PathLookup>, last: PathLookup)
    requires pid in cache && cache[pid] == CachedProcess(path, start)
    requires forall l | l in lookups + [last] :: l.pid == pid
    requires Chronological(start, lookups + [last]) && NamesOthers(pid, path, lookups + [last])
    ensures LookUp(AfterLookups(cache, lookups), last).path == Some(path) <==> Steady(pid, start, lookups + [last])
  {
    var all := lookups + [last];
    assert last in all && forall i | 0 <= i < |lookups| :: lookups[i] == all[i] && all[i] in all;
    PathKeptExactly(cache, pid, start, path, lookups, last);
    if Steady(pid, start, all) {
      SteadyPrefix(pid, start, all, |lookups|);
      assert all[..|lookups|] == lookups;
      OwnLookupsEmptyNothing(cache, pid, start, lookups);
    }
  }

  /** So a path has no greatest age: for every age there are lookups after which it is still
      returned at that age, although the system names another path all along. */
  lemma PathAgeUnbounded(cache: PathCache, pid: Pid, start: Instant, path: string, other: string, age: nat)
    returns (lookups: seq<PathLookup>)
    requires pid in cache && cache[pid] == CachedProcess(path, start) && other != path
    ensures forall l | l in lookups :: l.pid == pid && l.query == Some(other)
    ensures Chronological(start, lookups + [PathLookup(pid, start + age, Some(other))])
    ensures LookUp(AfterLookups(cache, lookups), PathLookup(pid, start + age, Some(other))).path == Some(path)
  {
    var all := SteadyLookups(pid, start, other, age);
    var last := all[|all| - 1];
    lookups := all[..|all| - 1];
    assert all == lookups + [last];
    PathKeptExactlyBySteadiness(cache, pid, start, path, lookups, last);
  }

  // ---- The whole lookup ----

  datatype TcpSession = TcpSession(local: SocketAddr, remote: SocketAddr)

  datatype OsTables = OsTables(
    tcpV4: Option<seq<Row<TcpSession>>>, tcpV6: Option<seq<Row<TcpSession>>>,
    udpV4: Option<seq<Row<SocketAddr>>>, udpV6: Option<seq<Row<SocketAddr>>>)

  datatype Clock = Clock(checked: Instant, refreshed: Instant, now: Instant)

  function Wildcard(local: SocketAddr): Option<SocketAddr> {
    if IsUnspecified(local.ip) then None
    else Some(SocketAddr(if local.ip.V4? then V4([0, 0, 0, 0]) else UNSPECIFIED_V6, local.port))
  }

  datatype Snapshots = Snapshots(
    tcpV4: Snapshot<TcpSession>, tcpV6: Snapshot<TcpSession>,
    udpV4: Snapshot<SocketAddr>, udpV6: Snapshot<SocketAddr>)

  /** A lookup among the four tables: the owner found, and the tables afterwards. Each family is
      looked up in its own table; TCP endpoints of mixed families have no owner. */
  function FindAmong(s: Snapshots, t: Transport, src: SocketAddr, dst: SocketAddr, os: OsTables, clock: Clock):
    (Option<Pid>, Snapshots)
  {
    match (t, src.ip, dst.ip)
    case (Udp, V4(_), _) =>
      var f := FindIn(s.udpV4, src, Wildcard(src), clock.checked, os.udpV4, clock.refreshed);
      (f.pid, s.(udpV4 := f.snapshot))
    case (Udp, V6(_), _) =>
      var f := FindIn(s.udpV6, src, Wildcard(src), clock.checked, os.udpV6, clock.refreshed);
      (f.pid, s.(udpV6 := f.snapshot))
    case (Tcp, V4(_), V4(_)) =>
      var f := FindIn(s.tcpV4, TcpSession(src, dst), None, clock.checked, os.tcpV4, clock.refreshed);
      (f.pid, s.(tcpV4 := f.snapshot))
    case (Tcp, V6(_), V6(_)) =>
      var f := FindIn(s.tcpV6, TcpSession(src, dst), None, clock.checked, os.tcpV6, clock.refreshed);
      (f.pid, s.(tcpV6 := f.snapshot))
    case (Tcp, _, _) => (None, s)
  }

  class WindowsProcessLookup {
    var cache: PathCache
    const tcpV4: SessionTable<TcpSession>
    const tcpV6: SessionTable<TcpSession>
    const udpV4: SessionTable<SocketAddr>
    const udpV6: SessionTable<SocketAddr>

    ghost predicate Valid()
      reads this, tcpV4, tcpV6, udpV4, udpV6
    {
      && tcpV4 != tcpV6 && udpV4 != udpV6
      && tcpV4.Valid() && tcpV6.Valid() && udpV4.Valid() && udpV6.Valid()
      && |cache| <= PROCESS_CACHE_MAX
    }

    constructor ()
      ensures Valid() && fresh(tcpV4) && fresh(tcpV6) && fresh(udpV4) && fresh(udpV6) && cache == map[]
    {
      cache := map[];
      tcpV4 := new SessionTable();
      tcpV6 := new SessionTable();
      udpV4 := new SessionTable();
      udpV6 := new SessionTable();
    }

    ghost function Contents(): Snapshots
      reads this, tcpV4, tcpV6, udpV4, udpV6
    {
      Snapshots(tcpV4.Contents(), tcpV6.Contents(), udpV4.Contents(), udpV6.Contents())
    }

    method FindPid(t: Transport, src: SocketAddr, dst: SocketAddr, os: OsTables, clock: Clock)
      returns (pid: Option<Pid>)
      requires Valid()
      modifies tcpV4, tcpV6, udpV4, udpV6
      ensures Valid()
      ensures (pid, Contents()) == FindAmong(old(Contents()), t, src, dst, os, clock)
    {
      if t == Udp {
        match src.ip {
          case V4(_) => pid := udpV4.FindPid(src, Wildcard(src), clock.checked, os.udpV4, clock.refreshed);
          case V6(_) => pid := udpV6.FindPid(src, Wildcard(src), clock.checked, os.udpV6, clock.refreshed);
        }
      } else {
        match (src.ip, dst.ip) {
          case (V4(_), V4(_)) =>
            pid := tcpV4.FindPid(TcpSession(src, dst), None, clock.checked, os.tcpV4, clock.refreshed);
          case (V6(_), V6(_)) =>
            pid := tcpV6.FindPid(TcpSession(src, dst), None, clock.checked, os.tcpV6, clock.refreshed);
          case _ => pid := None;
        }
      }
    }

    method CachedPath(pid: Pid, now: Instant, query: Option<string>) returns (path: Option<string>)
      modifies `cache
      ensures PathOutcome(cache, path) == FindPath(old(cache), pid, now, query)
    {
      if pid in cache {
        var entry := cache[pid];
        if DurationSince(now, entry.lastSeen) <= PROCESS_CACHE_TTL {
          cache := cache[pid := entry.(lastSeen := now)];
          return Some(entry.path);
        }
        cache := cache - {pid};
      } else {
        assert cache - {pid} == cache;
      }
      if query == None {
        return None;
      }
      cache := cache[pid := CachedProcess(query.value, now)];
      if |cache| > PROCESS_CACHE_MAX {
        cache := FreshPaths(cache, now);
        if |cache| > PROCESS_CACHE_MAX {
          cache := map[];
        }
      }
      return query;
    }

    method FindProcessPath(t: Transport, src: SocketAddr, dst: SocketAddr, os: OsTables, clock: Clock,
                           query: Pid -> Option<string>)
      returns (path: Option<string>)
      requires Valid()
      modifies `cache, tcpV4, tcpV6, udpV4, udpV6
      ensures Valid()
      ensures var (owner, after) := FindAmong(old(Contents()), t, src, dst, os, clock);
              && Contents() == after
              && match owner
                 case None => path == None && cache == old(cache)
                 case Some(pid) => PathOutcome(cache, path) == FindPath(old(cache), pid, clock.now, query(pid))
    {
      var pid := FindPid(t, src, dst, os, clock);
      if pid == None {
        return None;
      }
      PathCacheCapped(cache, pid.value, clock.now, query(pid.value));
      path := CachedPath(pid.value, clock.now, query(pid.value));
    }
  }
}
