/** The UDP associations of the transparent proxy: one worker looks them up, admits and installs
    them, any number of reader tasks refresh and remove them, and stale ones are cleaned up. The
    map is locked for each step on its own; between the steps of one packet anything may happen. */
module Associations {
  import opened Net
  import Runs

  const MAX_UDP_ASSOCIATIONS: nat := 1024
  const UDP_ASSOCIATION_TIMEOUT: nat := 120 * SECOND

  datatype Key = Key(dstIp: IpAddr, clientPort: u16)

  datatype Entry = Entry(assoc: nat, lastActive: Instant)

  type ConnectionMap = map<Key, Entry>

  /** Where the worker stands in handling a packet. */
  datatype Worker =
    | Idle
    | Missed(key: Key)                   // not in the map
    | Cleaned(key: Key)                  // stale entries dropped, finished readers reaped
    | Admitted(key: Key)                 // the limit was not reached
    | Associated(key: Key, assoc: nat)   // the server granted a new association
    | Sending(assoc: nat)

  datatype Reader = Reader(key: Key, leaving: bool)

  datatype State = State(
    connections: ConnectionMap, worker: Worker, readers: map<nat, Reader>, nextAssoc: nat, clock: Instant)

  const INITIAL := State(map[], Idle, map[], 0, 0)

  datatype Action =
    | Begin(key: Key, now: Instant)
    | CleanBeforeAdmission(now: Instant)
    | CheckLimit
    | AssociateFails
    | AssociateSucceeds
    | Install(now: Instant)
    | Finish
    | PeriodicCleanup(now: Instant)
    | ReaderReplied(reader: nat, now: Instant)
    | ReaderTimedOut(reader: nat)
    | ReaderFailed(reader: nat)
    | ReaderRemoves(reader: nat)

  function Unexpired(connections: ConnectionMap, now: Instant): ConnectionMap {
    map k | k in connections && DurationSince(now, connections[k].lastActive) < UDP_ASSOCIATION_TIMEOUT ::
      connections[k]
  }

  /** The clock does not run backwards. */
  predicate Enabled(s: State, action: Action) {
    match action
    case Begin(_, now) => s.worker.Idle? && s.clock <= now
    case CleanBeforeAdmission(now) => s.worker.Missed? && s.clock <= now
    case CheckLimit => s.worker.Cleaned?
    case AssociateFails => s.worker.Admitted?
    case AssociateSucceeds => s.worker.Admitted?
    case Install(now) => s.worker.Associated? && s.clock <= now
    case Finish => s.worker.Sending?
    case PeriodicCleanup(now) => s.worker.Idle? && s.clock <= now
    case ReaderReplied(r, now) => r in s.readers && !s.readers[r].leaving && s.clock <= now
    case ReaderTimedOut(r) => r in s.readers && !s.readers[r].leaving
    case ReaderFailed(r) => r in s.readers && !s.readers[r].leaving
    case ReaderRemoves(r) => r in s.readers && s.readers[r].leaving
  }

  function Touched(connections: ConnectionMap, key: Key, now: Instant): ConnectionMap
    requires key in connections
  {
    connections[key := connections[key].(lastActive := now)]
  }

  function Leaves(s: State, r: nat): State
    requires r in s.readers
  {
    s.(readers := s.readers[r := s.readers[r].(leaving := true)])
  }

  function Step(s: State, action: Action): State
    requires Enabled(s, action)
  {
    match action
    case Begin(key, now) =>
      if key in s.connections then
        s.(connections := Touched(s.connections, key, now), worker := Sending(s.connections[key].assoc), clock := now)
      else
        s.(worker := Missed(key), clock := now)
    case CleanBeforeAdmission(now) =>
      s.(connections := Unexpired(s.connections, now), worker := Cleaned(s.worker.key), clock := now)
    case CheckLimit => s.(worker := if |s.connections| >= MAX_UDP_ASSOCIATIONS then Idle else Admitted(s.worker.key))
    case AssociateFails => s.(worker := Idle)
    case AssociateSucceeds => s.(worker := Associated(s.worker.key, s.nextAssoc), nextAssoc := s.nextAssoc + 1)
    case Install(now) =>
      var Associated(key, assoc) := s.worker;
      if key in s.connections then
        s.(connections := Touched(s.connections, key, now), worker := Sending(s.connections[key].assoc), clock := now)
      else
        s.(readers := s.readers[assoc := Reader(key, false)],
           connections := s.connections[key := Entry(assoc, now)],
           worker := Sending(assoc), clock := now)
    case Finish => s.(worker := Idle)
    case PeriodicCleanup(now) => s.(connections := Unexpired(s.connections, now), clock := now)
    case ReaderReplied(r, now) =>
      var key := s.readers[r].key;
      var s' := s.(clock := now);
      if key in s.connections then s'.(connections := Touched(s.connections, key, now)) else Leaves(s', r)
    case ReaderTimedOut(r) => if s.readers[r].key in s.connections then s else Leaves(s, r)
    case ReaderFailed(r) => Leaves(s, r)
    case ReaderRemoves(r) => s.(connections := s.connections - {s.readers[r].key}, readers := s.readers - {r})
  }

  function Next(s: State, action: Action): Option<State> {
    if Enabled(s, action) then Some(Step(s, action)) else None
  }

  ghost predicate Reachable(s: State) {
    Runs.Reachable(Next, INITIAL, s)
  }

  // ---- The invariant ----

  /** The association the worker holds but has not installed is nobody else's. */
  predicate Fresh(s: State, assoc: nat) {
    assoc !in s.readers && assoc < s.nextAssoc
  }

  ghost predicate WithinLimit(s: State) {
    && |s.connections| <= MAX_UDP_ASSOCIATIONS
    && (s.worker.Admitted? || s.worker.Associated? ==> |s.connections| < MAX_UDP_ASSOCIATIONS)
  }

  ghost predicate ReadersAtWork(s: State) {
    && (forall r | r in s.readers :: r < s.nextAssoc)
    && (s.worker.Associated? ==> Fresh(s, s.worker.assoc))
    && (forall k | k in s.connections ::
          s.connections[k].assoc in s.readers && s.readers[s.connections[k].assoc].key == k)
  }

  lemma SmallerDomain<K, V>(a: map<K, V>, b: map<K, V>)
    requires a.Keys <= b.Keys
    ensures |a| <= |b|
  {
    assert |b.Keys| == |a.Keys| + |b.Keys - a.Keys|;
  }

  lemma OneMoreKey<K, V>(m: map<K, V>, k: K, v: V)
    ensures |m[k := v]| <= |m| + 1
  {
    assert m[k := v].Keys == m.Keys + {k};
    assert |m.Keys + {k}| == if k in m then |m.Keys| else |m.Keys| + 1;
  }

  /** Only the worker adds to the map, and only when it installs. */
  lemma OnlyInstallAdds(s: State, action: Action)
    requires Enabled(s, action)
    ensures !action.Install? ==> Step(s, action).connections.Keys <= s.connections.Keys
  {
  }

  lemma StepSize(s: State, action: Action)
    requires Enabled(s, action)
    ensures |Step(s, action).connections| <= |s.connections| + (if action.Install? then 1 else 0)
  {
    if action.Install? {
      var Associated(key, assoc) := s.worker;
      if key in s.connections {
        SmallerDomain(Step(s, action).connections, s.connections);
      } else {
        OneMoreKey(s.connections, key, Entry(assoc, action.now));
      }
    } else {
      OnlyInstallAdds(s, action);
      SmallerDomain(Step(s, action).connections, s.connections);
    }
  }

  lemma StepKeepsLimit(s: State, action: Action)
    requires WithinLimit(s) && Enabled(s, action)
    ensures WithinLimit(Step(s, action))
  {
    StepSize(s, action);
  }

  lemma StepKeepsReaders(s: State, action: Action)
    requires ReadersAtWork(s) && Enabled(s, action)
    ensures ReadersAtWork(Step(s, action))
  {
  }

  /** On every interleaving the map holds at most 1024 associations, and each of them has its own
      reader still at work: none is left behind without the task that removes it. */
  lemma AssociationsBounded(s: State)
    requires Reachable(s)
    ensures |s.connections| <= 1024
    ensures forall k | k in s.connections ::
              s.connections[k].assoc in s.readers && s.readers[s.connections[k].assoc].key == k
  {
    forall s, action | WithinLimit(s) && Next(s, action).Some? ensures WithinLimit(Next(s, action).value) {
      StepKeepsLimit(s, action);
    }
    Runs.ReachableKeeps(Next, WithinLimit, INITIAL, s);
    ReachableReaders(s);
  }

  lemma ReachableReaders(s: State)
    requires Reachable(s)
    ensures ReadersAtWork(s)
  {
    forall t, action | ReadersAtWork(t) && Next(t, action).Some? ensures ReadersAtWork(Next(t, action).value) {
      StepKeepsReaders(t, action);
    }
    Runs.ReachableKeeps(Next, ReadersAtWork, INITIAL, s);
  }

  // ---- Whose association a reader removes ----

  predicate Sits(s: State, key: Key, assoc: nat) {
    key in s.connections && s.connections[key].assoc == assoc
  }

  /** The removal at the end of reader `r` takes out an association that is not its own. */
  ghost predicate HitsAnother(s: State, r: nat)
    requires Enabled(s, ReaderRemoves(r))
  {
    exists k :: k in s.connections && k !in Step(s, ReaderRemoves(r)).connections && s.connections[k].assoc != r
  }

  /** A reader's removal takes out an association other than its own exactly when another one sits
      at its key: the guard the removal lacks. */
  lemma RemovalHitsAnother(s: State, r: nat)
    requires Enabled(s, ReaderRemoves(r))
    ensures HitsAnother(s, r)
            <==> s.readers[r].key in s.connections && s.connections[s.readers[r].key].assoc != r
  {
    assert s.readers[r].key !in Step(s, ReaderRemoves(r)).connections;
  }

  /** A cleanup 120 seconds or more after the association at `key` was last active, or the removal
      by some reader of that key. */
  predicate Ends(s: State, action: Action, key: Key)
    requires Enabled(s, action) && key in s.connections
  {
    match action
    case CleanBeforeAdmission(now) => now >= s.connections[key].lastActive + 120 * SECOND
    case PeriodicCleanup(now) => now >= s.connections[key].lastActive + 120 * SECOND
    case ReaderRemoves(r) => s.readers[r].key == key
    case _ => false
  }

  /** An association survives a step, with its number, exactly when the step does not end it. */
  lemma SurvivesStepExactly(s: State, action: Action, key: Key)
    requires Enabled(s, action) && key in s.connections
    ensures Sits(Step(s, action), key, s.connections[key].assoc) <==> !Ends(s, action, key)
    ensures Ends(s, action, key) ==> key !in Step(s, action).connections
  {
  }

  /** No action of the run ends the association at `key`. */
  predicate Undisturbed(s: State, actions: seq<Action>, key: Key)
    requires key in s.connections
    decreases |actions|
  {
    actions != [] ==>
      && Enabled(s, actions[0]) && !Ends(s, actions[0], key)
      && key in Step(s, actions[0]).connections
      && Undisturbed(Step(s, actions[0]), actions[1..], key)
  }

  /** An association that is gone from its key, its number used up. */
  predicate Gone(s: State, key: Key, assoc: nat) {
    assoc < s.nextAssoc && (s.worker.Associated? ==> s.worker.assoc != assoc) && !Sits(s, key, assoc)
  }

  lemma {:induction false} GoneStaysGone(s: State, actions: seq<Action>, key: Key, assoc: nat)
    requires Gone(s, key, assoc) && Runs.Run(Next, s, actions).Some?
    ensures Gone(Runs.Run(Next, s, actions).value, key, assoc)
    decreases |actions|
  {
    if actions != [] {
      GoneStaysGone(Step(s, actions[0]), actions[1..], key, assoc);
    }
  }

  /** Over a whole run an association keeps its place, with its number, exactly when no action of
      the run ends it; its number never comes back. */
  lemma {:induction false} SurvivesRunExactly(s: State, actions: seq<Action>, key: Key)
    requires ReadersAtWork(s) && key in s.connections && Runs.Run(Next, s, actions).Some?
    ensures Sits(Runs.Run(Next, s, actions).value, key, s.connections[key].assoc) <==> Undisturbed(s, actions, key)
    decreases |actions|
  {
    if actions != [] {
      var s' := Step(s, actions[0]);
      StepKeepsReaders(s, actions[0]);
      SurvivesStepExactly(s, actions[0], key);
      if Ends(s, actions[0], key) {
        GoneStaysGone(s', actions[1..], key, s.connections[key].assoc);
      } else {
        SurvivesRunExactly(s', actions[1..], key);
      }
    }
  }

  /** A reader that has had its association installed has that key for good. */
  predicate ReadsFor(s: State, r: nat, key: Key) {
    && r < s.nextAssoc && (s.worker.Associated? ==> s.worker.assoc != r)
    && (r in s.readers ==> s.readers[r].key == key)
  }

  lemma {:induction false} ReaderKeyIsFixed(s: State, actions: seq<Action>, r: nat, key: Key)
    requires ReadsFor(s, r, key) && Runs.Run(Next, s, actions).Some?
    ensures ReadsFor(Runs.Run(Next, s, actions).value, r, key)
    decreases |actions|
  {
    if actions != [] {
      ReaderKeyIsFixed(Step(s, actions[0]), actions[1..], r, key);
    }
  }

  /** The removal at the end of a reader's life, over every run since its association sat at its
      key: it takes out its own association exactly when nothing has ended that one before, and
      another one exactly when something has and the key is in use again. */
  lemma RemovalOverRun(s: State, actions: seq<Action>, key: Key, r: nat)
    requires Reachable(s) && Sits(s, key, r) && Runs.Run(Next, s, actions).Some?
    requires Enabled(Runs.Run(Next, s, actions).value, ReaderRemoves(r))
    ensures var end := Runs.Run(Next, s, actions).value;
            && (Sits(end, key, r) <==> Undisturbed(s, actions, key))
            && (HitsAnother(end, r) <==> !Undisturbed(s, actions, key) && key in end.connections)
  {
    ReachableReaders(s);
    SurvivesRunExactly(s, actions, key);
    ReaderKeyIsFixed(s, actions, r, key);
    RemovalHitsAnother(Runs.Run(Next, s, actions).value, r);
  }

  // ---- Use keeps an association, and nothing else does ----

  /** The action is a use of the association at `key`: a client's datagram for it, or a datagram that
      its server sends back. */
  predicate Uses(s: State, action: Action, key: Key)
    requires Enabled(s, action)
  {
    match action
    case Begin(k, _) => k == key
    case Install(_) => s.worker.key == key
    case ReaderReplied(r, _) => s.readers[r].key == key
    case _ => false
  }

  /** A use, and no other action, sets the time at which an association was last active. */
  lemma OnlyUseRefreshes(s: State, action: Action, key: Key)
    requires Enabled(s, action) && key in Step(s, action).connections
    ensures Uses(s, action, key) ==> Step(s, action).connections[key].lastActive == action.now == Step(s, action).clock
    ensures !Uses(s, action, key) ==> key in s.connections && Step(s, action).connections[key] == s.connections[key]
  {
  }

  /** The action is a cleanup at `end` or later, or the removal by a reader of that key. */
  predicate Threatens(s: State, action: Action, key: Key, end: Instant)
    requires Enabled(s, action)
  {
    match action
    case CleanBeforeAdmission(now) => now >= end
    case PeriodicCleanup(now) => now >= end
    case ReaderRemoves(r) => s.readers[r].key == key
    case _ => false
  }

  ghost predicate NeverThreatened(s: State, actions: seq<Action>, key: Key, end: Instant)
    requires Runs.Run(Next, s, actions).Some?
    decreases |actions|
  {
    actions != [] ==>
      && !Threatens(s, actions[0], key, end)
      && NeverThreatened(Step(s, actions[0]), actions[1..], key, end)
  }

  ghost predicate NeverUsed(s: State, actions: seq<Action>, key: Key)
    requires Runs.Run(Next, s, actions).Some?
    decreases |actions|
  {
    actions != [] ==> !Uses(s, actions[0], key) && NeverUsed(Step(s, actions[0]), actions[1..], key)
  }

  lemma {:induction false} StaysActive(s: State, actions: seq<Action>, key: Key, t: Instant)
    requires key in s.connections && t <= s.connections[key].lastActive && t <= s.clock
    requires Runs.Run(Next, s, actions).Some? && NeverThreatened(s, actions, key, t + 120 * SECOND)
    ensures var end := Runs.Run(Next, s, actions).value;
            Sits(end, key, s.connections[key].assoc) && t <= end.connections[key].lastActive
    decreases |actions|
  {
    if actions != [] {
      SurvivesStepExactly(s, actions[0], key);
      OnlyUseRefreshes(s, actions[0], key);
      StaysActive(Step(s, actions[0]), actions[1..], key, t);
    }
  }

  /** From a use at t on, the association found at the key keeps its place, with its number, over every
      run without a cleanup at t + 120 s or later and without a removal by a reader of that key. */
  lemma UsedAssociationStays(s: State, use: Action, key: Key, later: seq<Action>)
    requires Enabled(s, use) && Uses(s, use, key) && key in Step(s, use).connections
    requires Runs.Run(Next, Step(s, use), later).Some?
    requires NeverThreatened(Step(s, use), later, key, use.now + 120 * SECOND)
    ensures Sits(Runs.Run(Next, Step(s, use), later).value, key, Step(s, use).connections[key].assoc)
    ensures key in s.connections ==> Step(s, use).connections[key].assoc == s.connections[key].assoc
  {
    OnlyUseRefreshes(s, use, key);
    StaysActive(Step(s, use), later, key, use.now);
  }

  lemma {:induction false} UnusedStaysIdle(s: State, actions: seq<Action>, key: Key, t: Instant)
    requires key in s.connections ==> s.connections[key].lastActive <= t
    requires Runs.Run(Next, s, actions).Some? && NeverUsed(s, actions, key)
    ensures var end := Runs.Run(Next, s, actions).value;
            key in end.connections ==> key in s.connections && end.connections[key] == s.connections[key]
    decreases |actions|
  {
    if actions != [] {
      var s' := Step(s, actions[0]);
      if key in s'.connections {
        OnlyUseRefreshes(s, actions[0], key);
      }
      UnusedStaysIdle(s', actions[1..], key, t);
    }
  }

  /** Whatever was last active at t or before and is not used since is gone after a cleanup at
      t + 120 s or later, whatever else the run contains. */
  lemma UnusedAssociationGoes(s: State, actions: seq<Action>, key: Key, t: Instant, cleanup: Action)
    requires key in s.connections ==> s.connections[key].lastActive <= t
    requires Runs.Run(Next, s, actions).Some? && NeverUsed(s, actions, key)
    requires Enabled(Runs.Run(Next, s, actions).value, cleanup)
    requires (cleanup.CleanBeforeAdmission? || cleanup.PeriodicCleanup?) && cleanup.now >= t + 120 * SECOND
    ensures key !in Step(Runs.Run(Next, s, actions).value, cleanup).connections
  {
    UnusedStaysIdle(s, actions, key, t);
    var end := Runs.Run(Next, s, actions).value;
    if key in end.connections {
      SurvivesStepExactly(end, cleanup, key);
    }
  }

  // ---- One packet, one reader ----

  /** The worker is at work on a packet for `key`, or done with it; an association it sends through is
      one that was installed for that key. */
  predicate WorksFor(s: State, key: Key) {
    match s.worker
    case Idle => true
    case Sending(assoc) => ReadsFor(s, assoc, key)
    case _ => s.worker.key == key
  }

  lemma WorkStepKeeps(s: State, action: Action, key: Key)
    requires ReadersAtWork(s) && Enabled(s, action) && !action.Begin? && WorksFor(s, key)
    ensures WorksFor(Step(s, action), key)
  {
    if action.Install? && key in s.connections {
      assert s.connections[key].assoc in s.readers;
    }
  }

  /** From the packet's arrival on, over every run until the next one, the worker works for its key
      alone; what it sends it sends through an association installed for that key, which is the one
      at the key when it begins to send. */
  lemma {:induction false} PacketStaysWithItsKey(s: State, key: Key, now: Instant, later: seq<Action>)
    requires Reachable(s) && Enabled(s, Begin(key, now)) && Runs.Run(Next, Step(s, Begin(key, now)), later).Some?
    requires forall i | 0 <= i < |later| :: !later[i].Begin?
    ensures var end := Runs.Run(Next, Step(s, Begin(key, now)), later).value;
            && WorksFor(end, key)
            && (end.worker.Associated? ==>
                  var sending := Step(end, Install(end.clock)); Sits(sending, key, sending.worker.assoc))
    ensures key in s.connections ==>
              Step(s, Begin(key, now)).worker == Sending(s.connections[key].assoc)
  {
    ReachableReaders(s);
    StepKeepsReaders(s, Begin(key, now));
    if key in s.connections {
      assert s.connections[key].assoc in s.readers;
    }
    WorkKeeps(Step(s, Begin(key, now)), later, key);
  }

  lemma {:induction false} WorkKeeps(s: State, actions: seq<Action>, key: Key)
    requires ReadersAtWork(s) && WorksFor(s, key) && Runs.Run(Next, s, actions).Some?
    requires forall i | 0 <= i < |actions| :: !actions[i].Begin?
    ensures ReadersAtWork(Runs.Run(Next, s, actions).value) && WorksFor(Runs.Run(Next, s, actions).value, key)
    decreases |actions|
  {
    if actions != [] {
      WorkStepKeeps(s, actions[0], key);
      StepKeepsReaders(s, actions[0]);
      WorkKeeps(Step(s, actions[0]), actions[1..], key);
    }
  }

  /** How many steps of its own the worker is from being done with its packet, at most. */
  function StepsLeft(worker: Worker): nat {
    match worker
    case Idle => 0
    case Sending(_) => 1
    case Associated(_, _) => 2
    case Admitted(_) => 3
    case Cleaned(_) => 4
    case Missed(_) => 5
  }

  /** Every step of the worker brings it nearer to being done, and while it is not done there is one it
      can take; readers and cleanups between its packets leave it where it is. */
  lemma WorkerGetsDone(s: State, action: Action)
    requires Enabled(s, action)
    ensures var own := action.CleanBeforeAdmission? || action.CheckLimit? || action.AssociateFails?
                       || action.AssociateSucceeds? || action.Install? || action.Finish?;
            if own then StepsLeft(Step(s, action).worker) < StepsLeft(s.worker)
            else action.Begin? || Step(s, action).worker == s.worker
    ensures !s.worker.Idle? ==> exists own :: Enabled(s, own) && StepsLeft(Step(s, own).worker) < StepsLeft(s.worker)
  {
    match s.worker
    case Idle =>
    case Missed(_) => assert StepsLeft(Step(s, CleanBeforeAdmission(s.clock)).worker) == 4;
    case Cleaned(_) => assert StepsLeft(Step(s, CheckLimit).worker) < 4;
    case Admitted(_) => assert StepsLeft(Step(s, AssociateFails).worker) == 0;
    case Associated(_, _) => assert StepsLeft(Step(s, Install(s.clock)).worker) == 1;
    case Sending(_) => assert StepsLeft(Step(s, Finish).worker) == 0;
  }

  /** What one step means for a reader at work: it goes on exactly unless its socket fails, or it
      looks at the map, after a datagram or a timeout, and finds its key free. It is gone only after
      its own removal, which leaves every other reader alone. */
  lemma ReaderLeavesExactly(s: State, action: Action, r: nat)
    requires Enabled(s, action) && ReadersAtWork(s) && r in s.readers
    ensures var looks := action == ReaderTimedOut(r) || (action.ReaderReplied? && action.reader == r);
            var s' := Step(s, action);
            && (r in s'.readers <==> action != ReaderRemoves(r))
            && (r in s'.readers ==> s'.readers[r].key == s.readers[r].key)
            && (!s.readers[r].leaving ==>
                  (s'.readers[r].leaving
                   <==> action == ReaderFailed(r) || (looks && s.readers[r].key !in s.connections)))
            && (s.readers[r].leaving && r in s'.readers ==> s'.readers[r].leaving)
  {
  }

  // ---- Reachable states of interest ----

  lemma After(s: State, action: Action) returns (s': State)
    requires Reachable(s) && Enabled(s, action)
    ensures Reachable(s') && s' == Step(s, action)
  {
    Runs.StepIsReachable(Next, INITIAL, s, action);
    s' := Step(s, action);
  }

  lemma Opens(s: State, key: Key, now: Instant) returns (s': State)
    requires Reachable(s) && s.worker.Idle? && key !in s.connections && s.clock <= now
    requires |s.connections| < MAX_UDP_ASSOCIATIONS
    requires forall k | k in s.connections :: now < s.connections[k].lastActive + UDP_ASSOCIATION_TIMEOUT
    ensures Reachable(s') && s'.worker.Idle? && s'.clock == now
    ensures s'.connections == s.connections[key := Entry(s.nextAssoc, now)]
    ensures s'.readers == s.readers[s.nextAssoc := Reader(key, false)] && s'.nextAssoc == s.nextAssoc + 1
  {
    s' := After(s, Begin(key, now));
    s' := After(s', CleanBeforeAdmission(now));
    assert s'.connections == s.connections;
    s' := After(s', CheckLimit);
    s' := After(s', AssociateSucceeds);
    s' := After(s', Install(now));
    s' := After(s', Finish);
  }

  lemma {:induction false} Grows(n: nat) returns (s: State)
    requires n <= MAX_UDP_ASSOCIATIONS
    ensures Reachable(s) && s.worker.Idle? && |s.connections| == n && s.clock == 0
    ensures forall k | k in s.connections :: k.clientPort < n && s.connections[k].lastActive == 0
  {
    if n == 0 {
      Runs.InitialIsReachable(Next, INITIAL);
      s := INITIAL;
    } else {
      var before := Grows(n - 1);
      var key := Key(UNSPECIFIED_V6, n - 1);
      s := Opens(before, key, 0);
      assert s.connections.Keys == before.connections.Keys + {key};
    }
  }

  /** The limit is reached by some run. */
  lemma LimitIsReached() returns (s: State)
    ensures Reachable(s) && |s.connections| == 1024
  {
    s := Grows(MAX_UDP_ASSOCIATIONS);
  }

  lemma GoesStale(s: State, now: Instant) returns (s': State)
    requires Reachable(s) && s.worker.Idle? && s.clock <= now
    requires forall k | k in s.connections :: s.connections[k].lastActive + UDP_ASSOCIATION_TIMEOUT <= now
    ensures Reachable(s') && s' == s.(connections := map[], clock := now)
  {
    s' := After(s, PeriodicCleanup(now));
    assert s'.connections == map[];
  }

  lemma NewerTakesOver(key: Key) returns (s: State)
    ensures Reachable(s) && s.worker.Idle?
    ensures key in s.connections && s.connections[key].assoc == 1
    ensures 0 in s.readers && s.readers[0] == Reader(key, false) && 1 in s.readers
  {
    Runs.InitialIsReachable(Next, INITIAL);
    var s0 := Opens(INITIAL, key, 0);
    var s1 := GoesStale(s0, UDP_ASSOCIATION_TIMEOUT);
    s := Opens(s1, key, UDP_ASSOCIATION_TIMEOUT);
  }

  /** The readers at work for a key. */
  function Working(s: State, key: Key): set<nat> {
    set r | r in s.readers && s.readers[r] == Reader(key, false)
  }

  lemma OpensAnother(s: State, key: Key) returns (s': State)
    requires Reachable(s) && s.worker.Idle? && s.connections == map[]
    ensures Reachable(s') && s'.worker.Idle? && s'.connections == map[key := Entry(s.nextAssoc, s.clock)]
    ensures s'.clock == s.clock && |Working(s', key)| == |Working(s, key)| + 1
  {
    ReachableReaders(s);
    s' := Opens(s, key, s.clock);
    assert Working(s', key) == Working(s, key) + {s.nextAssoc};
  }

  lemma {:induction false} ReadersPileUp(key: Key, n: nat) returns (s: State)
    ensures Reachable(s) && s.worker.Idle? && s.connections == map[] && |Working(s, key)| == n
  {
    if n == 0 {
      Runs.InitialIsReachable(Next, INITIAL);
      s := INITIAL;
    } else {
      var before := ReadersPileUp(key, n - 1);
      var inUse := OpensAnother(before, key);
      s := GoesStale(inUse, inUse.clock + UDP_ASSOCIATION_TIMEOUT);
      assert Working(s, key) == Working(inUse, key);
    }
  }

  /** The associations are bounded, their readers are not: a reader whose own association is gone
      stays while its key is in use, and some run has any number of them at work for one key. */
  lemma ReadersUnbounded(key: Key, n: nat) returns (s: State)
    requires n > 0
    ensures Reachable(s) && key in s.connections && |s.connections| == 1 && |Working(s, key)| == n
    ensures forall r | r in Working(s, key) :: Step(s, ReaderTimedOut(r)) == s
  {
    var before := ReadersPileUp(key, n - 1);
    s := OpensAnother(before, key);
  }

  /** A reader removes whatever sits at its key. Here its own association went stale and a newer
      one took the key before the reader noticed: it removes the newer one, whose reader remains. */
  lemma LateReaderRemovesNewer(key: Key) returns (s: State)
    ensures Reachable(s) && 0 in s.readers && s.readers[0] == Reader(key, true)
    ensures key in s.connections && s.connections[key].assoc == 1
    ensures key !in Step(s, ReaderRemoves(0)).connections && 1 in Step(s, ReaderRemoves(0)).readers
  {
    var before := NewerTakesOver(key);
    s := After(before, ReaderFailed(0));
  }

  // ---- Reaping finished readers ----

  function Unfinished<H>(handles: seq<H>, finished: H -> bool): seq<H> {
    if handles == [] then []
    else (if finished(handles[0]) then [] else [handles[0]]) + Unfinished(handles[1..], finished)
  }

  lemma {:induction false} UnfinishedCounts<H>(handles: seq<H>, finished: H -> bool, h: H)
    ensures multiset(Unfinished(handles, finished))[h] == if finished(h) then 0 else multiset(handles)[h]
  {
    if handles != [] {
      UnfinishedCounts(handles[1..], finished, h);
      assert handles == [handles[0]] + handles[1..];
    }
  }

  class ReaderHandles<H(==, !new)> {
    var handles: seq<H>

    /** `Vec::swap_remove`: the last element takes the place of the removed one. */
    method SwapRemove(idx: nat)
      requires idx < |handles|
      modifies this
      ensures handles == old(handles)[idx := old(handles)[|old(handles)| - 1]][..|old(handles)| - 1]
      ensures multiset(handles) == multiset(old(handles)) - multiset{old(handles)[idx]}
    {
      ghost var was := handles;
      var last := handles[|handles| - 1];
      handles := handles[idx := last][..|handles| - 1];
      assert was == was[..|was| - 1] + [last];
      if idx < |was| - 1 {
        assert handles == was[..|was| - 1][idx := last];
      } else {
        assert handles == was[..|was| - 1];
      }
    }

    method Reap(finished: H -> bool)
      modifies this
      ensures multiset(handles) == multiset(Unfinished(old(handles), finished))
    {
      var idx := 0;
      while idx < |handles|
        invariant idx <= |handles|
        invariant forall k | 0 <= k < idx :: !finished(handles[k])
        invariant forall h | !finished(h) :: multiset(handles)[h] == multiset(old(handles))[h]
        decreases |handles| - idx
      {
        if finished(handles[idx]) {
          SwapRemove(idx);
        } else {
          idx := idx + 1;
        }
      }
      forall h ensures multiset(handles)[h] == multiset(Unfinished(old(handles), finished))[h] {
        UnfinishedCounts(old(handles), finished, h);
        if finished(h) {
          assert h !in handles;
        }
      }
    }
  }
}
