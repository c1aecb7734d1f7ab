/** The packet buffers of the UDP side of the transparent proxy: an accept task takes a buffer,
    receives into it and queues it, one worker handles it, and both give buffers back to a pool.

    The pool is a class; the two tasks are a state machine of the pool's, the queue's and their
    own atomic steps. */
module BufferPool {
  import opened Net
  import Runs

  const UDP_QUEUE_SIZE: nat := 1024
  const UDP_DATAGRAM_BUFFER_SIZE: nat := 65535
  const UDP_PACKET_POOL_MAX: nat := UDP_QUEUE_SIZE + 2

  // ---- The pool ----

  class UdpPacketBufferPool {
    var buffers: seq<array<byte>>

    constructor ()
      ensures buffers == []
    {
      buffers := [];
    }

    method Take() returns (buffer: array<byte>)
      modifies this
      ensures old(buffers) != [] ==> buffers + [buffer] == old(buffers)
      ensures old(buffers) == [] ==>
                fresh(buffer) && buffers == [] && buffer.Length == UDP_DATAGRAM_BUFFER_SIZE
                && forall i | 0 <= i < buffer.Length :: buffer[i] == 0
    {
      if buffers != [] {
        buffer := buffers[|buffers| - 1];
        buffers := buffers[..|buffers| - 1];
      } else {
        buffer := new byte[UDP_DATAGRAM_BUFFER_SIZE](_ => 0);
      }
    }

    /** A buffer of another size is first resized: cut, or filled up with zeros. */
    method Put(buffer: array<byte>)
      modifies this
      ensures |old(buffers)| >= UDP_PACKET_POOL_MAX ==> buffers == old(buffers)
      ensures |old(buffers)| < UDP_PACKET_POOL_MAX ==>
                && |buffers| == |old(buffers)| + 1 && buffers[..|old(buffers)|] == old(buffers)
                && (var kept := buffers[|old(buffers)|];
                    && (buffer.Length == UDP_DATAGRAM_BUFFER_SIZE ==> kept == buffer)
                    && kept.Length == UDP_DATAGRAM_BUFFER_SIZE
                    && forall i | 0 <= i < kept.Length :: kept[i] == if i < buffer.Length then buffer[i] else 0)
    {
      var kept := buffer;
      if buffer.Length != UDP_DATAGRAM_BUFFER_SIZE {
        var given := buffer[..];
        kept := new byte[UDP_DATAGRAM_BUFFER_SIZE](i => if 0 <= i < |given| then given[i] else 0);
      }
      if |buffers| < UDP_PACKET_POOL_MAX {
        buffers := buffers + [kept];
      }
    }
  }

  // ---- The pipeline ----

  /** A buffer as the tasks hand it around: which one it is, and its size. */
  datatype Buffer = Buffer(id: nat, size: nat)

  datatype AcceptTask =
    | AcceptTop
    | Receiving(buffer: Buffer)
    | TrySending(buffer: Buffer)
    | Returning(buffer: Buffer, stop: bool)
    | AcceptStopped

  datatype WorkerTask = Waiting | Handling(buffer: Buffer) | WorkerStopped

  datatype Pipeline = Pipeline(pool: seq<Buffer>, accept: AcceptTask, queue: seq<Buffer>, worker: WorkerTask,
                               nextId: nat)

  const INITIAL := Pipeline([], AcceptTop, [], Waiting, 0)

  datatype Action =
    | AcceptTake
    | AcceptReceived
    | AcceptReceiveFailed
    | AcceptShutdown
    | AcceptTrySend
    | AcceptPut
    | WorkerReceive
    | WorkerPut
    | WorkerStop

  function PoolPut(pool: seq<Buffer>, buffer: Buffer): seq<Buffer> {
    if |pool| < UDP_PACKET_POOL_MAX then pool + [buffer.(size := UDP_DATAGRAM_BUFFER_SIZE)] else pool
  }

  predicate Enabled(s: Pipeline, action: Action) {
    match action
    case AcceptTake => s.accept.AcceptTop?
    case AcceptReceived => s.accept.Receiving?
    case AcceptReceiveFailed => s.accept.Receiving?
    case AcceptShutdown => s.accept.Receiving?
    case AcceptTrySend => s.accept.TrySending?
    case AcceptPut => s.accept.Returning?
    case WorkerReceive => s.worker.Waiting? && s.queue != []
    case WorkerPut => s.worker.Handling?
    case WorkerStop => s.worker.Waiting?
  }

  /** `WorkerStop` is the shutdown, or the end of a closed channel; with the receiver goes what is
      still queued, and from then on sending fails as "closed". */
  function Step(s: Pipeline, action: Action): Pipeline
    requires Enabled(s, action)
  {
    match action
    case AcceptTake =>
      if s.pool != [] then
        s.(pool := s.pool[..|s.pool| - 1], accept := Receiving(s.pool[|s.pool| - 1]))
      else
        s.(accept := Receiving(Buffer(s.nextId, UDP_DATAGRAM_BUFFER_SIZE)), nextId := s.nextId + 1)
    case AcceptReceived => s.(accept := TrySending(s.accept.buffer))
    case AcceptReceiveFailed => s.(accept := Returning(s.accept.buffer, false))
    case AcceptShutdown => s.(accept := Returning(s.accept.buffer, true))
    case AcceptTrySend =>
      if s.worker.WorkerStopped? then s.(accept := Returning(s.accept.buffer, true))
      else if |s.queue| >= UDP_QUEUE_SIZE then s.(accept := Returning(s.accept.buffer, false))
      else s.(queue := s.queue + [s.accept.buffer], accept := AcceptTop)
    case AcceptPut =>
      s.(pool := PoolPut(s.pool, s.accept.buffer), accept := if s.accept.stop then AcceptStopped else AcceptTop)
    case WorkerReceive => s.(worker := Handling(s.queue[0]), queue := s.queue[1..])
    case WorkerPut => s.(pool := PoolPut(s.pool, s.worker.buffer), worker := Waiting)
    case WorkerStop => s.(worker := WorkerStopped, queue := [])
  }

  function Next(s: Pipeline, action: Action): Option<Pipeline> {
    if Enabled(s, action) then Some(Step(s, action)) else None
  }

  ghost predicate Reachable(s: Pipeline) {
    Runs.Reachable(Next, INITIAL, s)
  }

  // ---- Conservation ----

  function AcceptHolds(task: AcceptTask): seq<Buffer> {
    if task.AcceptTop? || task.AcceptStopped? then [] else [task.buffer]
  }

  function WorkerHolds(task: WorkerTask): seq<Buffer> {
    if task.Handling? then [task.buffer] else []
  }

  function Count(s: seq<Buffer>, b: Buffer): nat {
    if s == [] then 0 else Count(s[..|s| - 1], b) + (if s[|s| - 1] == b then 1 else 0)
  }

  /** In how many places a buffer is. */
  function Copies(s: Pipeline, b: Buffer): nat {
    Count(s.pool, b) + Count(s.queue, b) + Count(AcceptHolds(s.accept), b) + Count(WorkerHolds(s.worker), b)
  }

  function Total(s: Pipeline): nat {
    |s.pool| + |s.queue| + |AcceptHolds(s.accept)| + |WorkerHolds(s.worker)|
  }

  ghost predicate Invariant(s: Pipeline) {
    && |s.queue| <= UDP_QUEUE_SIZE
    && Total(s) <= UDP_PACKET_POOL_MAX
    && (forall b :: Copies(s, b) <= 1)
    && (forall b | Copies(s, b) > 0 :: b.size == UDP_DATAGRAM_BUFFER_SIZE && b.id < s.nextId)
  }

  lemma CountPush(s: seq<Buffer>, last: Buffer, b: Buffer)
    ensures Count(s + [last], b) == Count(s, b) + (if last == b then 1 else 0)
  {
    assert (s + [last])[..|s|] == s;
  }

  lemma CountOne(a: Buffer, b: Buffer)
    ensures Count([a], b) == if a == b then 1 else 0
  {
    CountPush([], a, b);
    assert [] + [a] == [a];
  }

  lemma {:induction false} CountFirst(s: seq<Buffer>, b: Buffer)
    requires s != []
    ensures Count(s, b) == (if s[0] == b then 1 else 0) + Count(s[1..], b)
  {
    if |s| == 1 {
      CountOne(s[0], b);
      assert s == [s[0]] && s[1..] == [];
    } else {
      CountFirst(s[..|s| - 1], b);
      assert s[..|s| - 1][1..] == s[1..][..|s| - 2];
    }
  }

  lemma PutKeeps(s: Pipeline, buffer: Buffer)
    requires Invariant(s)
    requires AcceptHolds(s.accept) == [buffer] || WorkerHolds(s.worker) == [buffer]
    ensures PoolPut(s.pool, buffer) == s.pool + [buffer]
  {
    CountOne(buffer, buffer);
    assert Copies(s, buffer) > 0;
  }

  /** What a step does to the places of one buffer: a take from the empty pool makes the buffer
      with the next number, a stopping worker drops the queue, and every other step moves. */
  lemma {:induction false} StepConserves(s: Pipeline, action: Action, b: Buffer)
    requires Invariant(s) && Enabled(s, action)
    ensures var made := action == AcceptTake && s.pool == [];
            Copies(Step(s, action), b) ==
              if made && b == Buffer(s.nextId, UDP_DATAGRAM_BUFFER_SIZE) then Copies(s, b) + 1
              else if action == WorkerStop then Copies(s, b) - Count(s.queue, b)
              else Copies(s, b)
  {
    match action
    case AcceptTake => AcceptTakeConserves(s, b);
    case AcceptReceived =>
    case AcceptReceiveFailed =>
    case AcceptShutdown =>
    case AcceptTrySend => TrySendConserves(s, b);
    case AcceptPut => PutCounts(s, s.accept.buffer, b);
    case WorkerReceive =>
      CountOne(s.queue[0], b);
      CountFirst(s.queue, b);
    case WorkerPut => PutCounts(s, s.worker.buffer, b);
    case WorkerStop =>
  }

  lemma PutCounts(s: Pipeline, buffer: Buffer, b: Buffer)
    requires Invariant(s)
    requires AcceptHolds(s.accept) == [buffer] || WorkerHolds(s.worker) == [buffer]
    ensures Count(PoolPut(s.pool, buffer), b) == Count(s.pool, b) + Count([buffer], b)
  {
    PutKeeps(s, buffer);
    CountOne(buffer, b);
    CountPush(s.pool, buffer, b);
  }

  lemma TrySendConserves(s: Pipeline, b: Buffer)
    requires s.accept.TrySending?
    ensures Copies(Step(s, AcceptTrySend), b) == Copies(s, b)
  {
    var s' := Step(s, AcceptTrySend);
    assert s'.pool == s.pool && s'.worker == s.worker;
    if s'.accept.AcceptTop? {
      CountOne(s.accept.buffer, b);
      CountPush(s.queue, s.accept.buffer, b);
    } else {
      assert AcceptHolds(s'.accept) == AcceptHolds(s.accept) && s'.queue == s.queue;
    }
  }

  lemma AcceptTakeConserves(s: Pipeline, b: Buffer)
    requires s.accept.AcceptTop?
    ensures Copies(Step(s, AcceptTake), b) ==
              Copies(s, b) + (if s.pool == [] && b == Buffer(s.nextId, UDP_DATAGRAM_BUFFER_SIZE) then 1 else 0)
  {
    CountOne(Step(s, AcceptTake).accept.buffer, b);
  }

  lemma {:induction false} StepKeepsInvariant(s: Pipeline, action: Action)
    requires Invariant(s) && Enabled(s, action)
    ensures Invariant(Step(s, action))
  {
    var s' := Step(s, action);
    forall b
      ensures Copies(s', b) <= 1
      ensures Copies(s', b) > 0 ==> b.size == UDP_DATAGRAM_BUFFER_SIZE && b.id < s'.nextId
    {
      StepConserves(s, action, b);
      assert Copies(s, b) <= 1;
    }
    StepKeepsTotal(s, action);
  }

  lemma StepKeepsTotal(s: Pipeline, action: Action)
    requires Invariant(s) && Enabled(s, action)
    ensures Total(Step(s, action)) <= UDP_PACKET_POOL_MAX && |Step(s, action).queue| <= UDP_QUEUE_SIZE
  {
  }

  lemma ReachableInvariant(s: Pipeline)
    requires Reachable(s)
    ensures Invariant(s)
  {
    assert Invariant(INITIAL);
    forall t, action | Invariant(t) && Next(t, action).Some? ensures Invariant(Next(t, action).value) {
      StepKeepsInvariant(t, action);
    }
    Runs.ReachableKeeps(Next, Invariant, INITIAL, s);
  }

  /** In every reachable state at most 1026 buffers exist, all of full size and none in two
      places, and whichever task gives a buffer back, the pool keeps it unchanged. */
  lemma BuffersConserved(s: Pipeline)
    requires Reachable(s)
    ensures |s.pool| + |s.queue| + |AcceptHolds(s.accept)| + |WorkerHolds(s.worker)| <= UDP_PACKET_POOL_MAX == 1026
    ensures |s.queue| <= UDP_QUEUE_SIZE
    ensures forall b :: Copies(s, b) <= 1
    ensures forall b | Copies(s, b) > 0 :: b.size == UDP_DATAGRAM_BUFFER_SIZE
    ensures s.accept.Returning? ==> Step(s, AcceptPut).pool == s.pool + [s.accept.buffer]
    ensures s.worker.Handling? ==> Step(s, WorkerPut).pool == s.pool + [s.worker.buffer]
  {
    ReachableInvariant(s);
    if s.accept.Returning? { PutKeeps(s, s.accept.buffer); }
    if s.worker.Handling? { PutKeeps(s, s.worker.buffer); }
  }

  // ---- When the accept task stops ----

  /** The accept task has stopped, or gives back the buffer it holds to stop then. */
  predicate Stopping(task: AcceptTask) {
    task.AcceptStopped? || (task.Returning? && task.stop)
  }

  /** Action `i` tells the accept task to stop: the shutdown, or a send when the worker has stopped. */
  ghost predicate StopsAt(workerGone: bool, actions: seq<Action>, i: nat) {
    && i < |actions|
    && (|| actions[i] == AcceptShutdown
        || (actions[i] == AcceptTrySend && (workerGone || exists j | 0 <= j < i :: actions[j] == WorkerStop)))
  }

  ghost predicate ToldToStop(workerGone: bool, actions: seq<Action>) {
    exists i: nat :: StopsAt(workerGone, actions, i)
  }

  lemma ToldNowOrLater(workerGone: bool, actions: seq<Action>)
    requires actions != []
    ensures ToldToStop(workerGone, actions)
            <==> StopsAt(workerGone, actions, 0) || ToldToStop(workerGone || actions[0] == WorkerStop, actions[1..])
  {
    var gone, rest := workerGone || actions[0] == WorkerStop, actions[1..];
    forall i: nat | i < |rest| ensures StopsAt(gone, rest, i) <==> StopsAt(workerGone, actions, i + 1) {
      assert forall j | 0 <= j < i :: rest[j] == actions[j + 1];
      assert forall j | 0 < j < i + 1 :: actions[j] == rest[j - 1];
    }
    if i: nat :| StopsAt(workerGone, actions, i) {
      assert i > 0 ==> StopsAt(gone, rest, i - 1);
    }
    if i: nat :| StopsAt(gone, rest, i) {
      assert StopsAt(workerGone, actions, i + 1);
    }
  }

  lemma {:induction false} StopsExactlyFrom(s: Pipeline, actions: seq<Action>)
    requires Runs.Run(Next, s, actions).Some?
    ensures Stopping(Runs.Run(Next, s, actions).value.accept)
            <==> Stopping(s.accept) || ToldToStop(s.worker.WorkerStopped?, actions)
    decreases |actions|
  {
    if actions != [] {
      StopsExactlyFrom(Step(s, actions[0]), actions[1..]);
      ToldNowOrLater(s.worker.WorkerStopped?, actions);
    }
  }

  /** Over every run the accept task stops exactly when the shutdown told it to, or it had a datagram
      to send after the worker stopped. A failed receive and a full queue do not stop it. */
  lemma AcceptStopsExactly(actions: seq<Action>)
    requires Runs.Run(Next, INITIAL, actions).Some?
    ensures Stopping(Runs.Run(Next, INITIAL, actions).value.accept) <==> ToldToStop(false, actions)
  {
    StopsExactlyFrom(INITIAL, actions);
  }

  // ---- What the buffers carry ----

  /** The pipeline with the contents of its buffers: the bytes in each buffer, the lengths received
      into the queued ones and those in the tasks' hands, and three records: the datagram last
      received, those accepted into the queue, and those the worker has handled. */
  datatype Traffic = Traffic(
    p: Pipeline, memory: map<nat, Bytes>, acceptLen: nat, queueLens: seq<nat>, workerLen: nat,
    received: Bytes, accepted: seq<Bytes>, handled: seq<Bytes>)

  const INITIAL_TRAFFIC := Traffic(INITIAL, map[], 0, [], 0, [], [], [])

  /** An action, and the datagram that arrives when it is a receive. */
  datatype Event = Event(action: Action, datagram: Bytes)

  predicate Happens(t: Traffic, e: Event) {
    && Enabled(t.p, e.action)
    && (e.action.AcceptReceived? ==>
          t.p.accept.buffer.id in t.memory && |e.datagram| <= |t.memory[t.p.accept.buffer.id]|)
    && (e.action.WorkerReceive? ==> t.queueLens != [])
    && (e.action.WorkerPut? ==>
          t.p.worker.buffer.id in t.memory && t.workerLen <= |t.memory[t.p.worker.buffer.id]|)
  }

  /** A receive overwrites the front of the held buffer and leaves the rest as it was; what the
      worker handles is what its buffer holds when it is done. */
  function Carry(t: Traffic, e: Event): Traffic
    requires Happens(t, e)
  {
    var t' := t.(p := Step(t.p, e.action));
    match e.action
    case AcceptTake =>
      if t.p.pool != [] then t'
      else t'.(memory := t.memory[t.p.nextId := seq(UDP_DATAGRAM_BUFFER_SIZE, _ => 0)])
    case AcceptReceived =>
      var id := t.p.accept.buffer.id;
      t'.(memory := t.memory[id := e.datagram + t.memory[id][|e.datagram|..]],
          acceptLen := |e.datagram|, received := e.datagram)
    case AcceptTrySend =>
      if t'.p.accept.AcceptTop? then
        t'.(queueLens := t.queueLens + [t.acceptLen], accepted := t.accepted + [t.received])
      else t'
    case WorkerReceive => t'.(workerLen := t.queueLens[0], queueLens := t.queueLens[1..])
    case WorkerPut => t'.(handled := t.handled + [t.memory[t.p.worker.buffer.id][..t.workerLen]])
    case WorkerStop => t'.(queueLens := [])
    case _ => t'
  }

  function NextTraffic(t: Traffic, e: Event): Option<Traffic> {
    if Happens(t, e) then Some(Carry(t, e)) else None
  }

  predicate Carries(memory: map<nat, Bytes>, buffer: Buffer, len: nat, datagram: Bytes) {
    buffer.id in memory && len <= |memory[buffer.id]| && memory[buffer.id][..len] == datagram
  }

  /** The accepted datagrams from the one the worker holds on, as their buffers hold them. */
  ghost predicate CarriesRest(t: Traffic) {
    var n := |t.handled| + |WorkerHolds(t.p.worker)|;
    && |t.queueLens| == |t.p.queue|
    && t.handled <= t.accepted
    && (if t.p.worker.WorkerStopped? then t.p.queue == [] else |t.accepted| == n + |t.p.queue|)
    && (t.p.worker.Handling? ==> Carries(t.memory, t.p.worker.buffer, t.workerLen, t.accepted[|t.handled|]))
    && (forall i | 0 <= i < |t.p.queue| ::
          Carries(t.memory, t.p.queue[i], t.queueLens[i], t.accepted[n + i]))
    && (t.p.accept.TrySending? ==> Carries(t.memory, t.p.accept.buffer, t.acceptLen, t.received))
  }

  ghost predicate TrafficInvariant(t: Traffic) {
    && Invariant(t.p)
    && (forall id: nat | id < t.p.nextId :: id in t.memory && |t.memory[id]| == UDP_DATAGRAM_BUFFER_SIZE)
    && CarriesRest(t)
  }

  lemma {:induction false} CountedWhereItIs(s: seq<Buffer>, i: nat)
    requires i < |s|
    ensures Count(s, s[i]) > 0
  {
    if i < |s| - 1 {
      CountedWhereItIs(s[..|s| - 1], i);
    }
  }

  /** The buffer the accept task holds is neither queued nor with the worker, and all are in memory. */
  lemma HeldApart(p: Pipeline)
    requires Invariant(p)
    ensures forall i | 0 <= i < |p.queue| :: p.queue[i].id < p.nextId
    ensures p.worker.Handling? ==> p.worker.buffer.id < p.nextId
    ensures AcceptHolds(p.accept) != [] ==>
              && p.accept.buffer.id < p.nextId
              && (forall i | 0 <= i < |p.queue| :: p.queue[i].id != p.accept.buffer.id)
              && (p.worker.Handling? ==> p.worker.buffer.id != p.accept.buffer.id)
  {
    if AcceptHolds(p.accept) != [] {
      CountOne(p.accept.buffer, p.accept.buffer);
      assert Copies(p, p.accept.buffer) > 0;
    }
    forall i | 0 <= i < |p.queue|
      ensures p.queue[i].id < p.nextId
      ensures AcceptHolds(p.accept) != [] ==> p.queue[i].id != p.accept.buffer.id
    {
      CountedWhereItIs(p.queue, i);
      assert Copies(p, p.queue[i]) > 0;
    }
    if p.worker.Handling? {
      CountOne(p.worker.buffer, p.worker.buffer);
      assert Copies(p, p.worker.buffer) > 0;
    }
  }

  lemma CarryKeepsMemory(t: Traffic, e: Event)
    requires TrafficInvariant(t) && Happens(t, e)
    ensures var t' := Carry(t, e);
            forall id: nat | id < t'.p.nextId :: id in t'.memory && |t'.memory[id]| == UDP_DATAGRAM_BUFFER_SIZE
  {
  }

  lemma ReceiveCarries(t: Traffic, e: Event)
    requires TrafficInvariant(t) && Happens(t, e) && e.action.AcceptReceived?
    ensures CarriesRest(Carry(t, e))
  {
    HeldApart(t.p);
    var t' := Carry(t, e);
    var id := t.p.accept.buffer.id;
    assert t'.memory[id][..|e.datagram|] == e.datagram;
  }

  lemma TakeCarries(t: Traffic, e: Event)
    requires TrafficInvariant(t) && Happens(t, e) && e.action.AcceptTake?
    ensures CarriesRest(Carry(t, e))
  {
    HeldApart(t.p);
  }

  lemma SendCarries(t: Traffic, e: Event)
    requires TrafficInvariant(t) && Happens(t, e) && e.action.AcceptTrySend?
    ensures CarriesRest(Carry(t, e))
  {
    var t' := Carry(t, e);
    if t'.p.accept.AcceptTop? {
      assert t'.accepted[|t.accepted|] == t.received;
    }
  }

  lemma WorkerReceiveCarries(t: Traffic, e: Event)
    requires TrafficInvariant(t) && Happens(t, e) && e.action.WorkerReceive?
    ensures CarriesRest(Carry(t, e))
  {
    assert t.p.queue[0] == Carry(t, e).p.worker.buffer;
  }

  lemma WorkerPutCarries(t: Traffic, e: Event)
    requires TrafficInvariant(t) && Happens(t, e) && e.action.WorkerPut?
    ensures CarriesRest(Carry(t, e))
  {
    var n := |t.handled|;
    assert t.accepted[..n + 1] == t.accepted[..n] + [t.accepted[n]];
    assert Carry(t, e).p.queue == t.p.queue;
  }

  lemma CarryKeepsRest(t: Traffic, e: Event)
    requires TrafficInvariant(t) && Happens(t, e)
    ensures CarriesRest(Carry(t, e))
  {
    match e.action
    case AcceptTake => TakeCarries(t, e);
    case AcceptReceived => ReceiveCarries(t, e);
    case AcceptTrySend => SendCarries(t, e);
    case WorkerReceive => WorkerReceiveCarries(t, e);
    case WorkerPut => WorkerPutCarries(t, e);
    case _ =>
  }

  lemma CarryKeepsInvariant(t: Traffic, e: Event)
    requires TrafficInvariant(t) && Happens(t, e)
    ensures TrafficInvariant(Carry(t, e))
  {
    StepKeepsInvariant(t.p, e.action);
    CarryKeepsMemory(t, e);
    CarryKeepsRest(t, e);
    assert Carry(t, e).p == Step(t.p, e.action);
  }

  /** In every reachable state the worker has handled the datagrams accepted into the queue once
      each, in order and with the bytes they were received with, up to the one it holds and those
      still queued, although buffers are reused; a stopped worker has handled the first of them.
      What it holds is the next accepted datagram. */
  lemma DatagramsHandledInOrder(t: Traffic)
    requires Runs.Reachable(NextTraffic, INITIAL_TRAFFIC, t)
    ensures t.handled <= t.accepted
    ensures !t.p.worker.WorkerStopped? ==> |t.accepted| == |t.handled| + |WorkerHolds(t.p.worker)| + |t.p.queue|
    ensures t.p.worker.Handling? ==>
              Carries(t.memory, t.p.worker.buffer, t.workerLen, t.accepted[|t.handled|])
  {
    assert TrafficInvariant(INITIAL_TRAFFIC);
    forall u, e | TrafficInvariant(u) && NextTraffic(u, e).Some? ensures TrafficInvariant(NextTraffic(u, e).value) {
      CarryKeepsInvariant(u, e);
    }
    Runs.ReachableKeeps(NextTraffic, TrafficInvariant, INITIAL_TRAFFIC, t);
  }

  /** The extra conditions of `Happens` only say that a datagram fits the buffer: in a state kept
      by every step, whatever the pipeline can do the traffic can. */
  lemma TrafficNeverBlocks(t: Traffic, e: Event)
    requires TrafficInvariant(t) && Enabled(t.p, e.action)
    requires e.action.AcceptReceived? ==> |e.datagram| <= UDP_DATAGRAM_BUFFER_SIZE
    ensures Happens(t, e)
  {
    HeldApart(t.p);
  }

  // ---- The bound is tight ----

  lemma ReachableStep(s: Pipeline, action: Action)
    requires Reachable(s) && Enabled(s, action)
    ensures Reachable(Step(s, action))
  {
    Runs.StepIsReachable(Next, INITIAL, s, action);
  }

  lemma Accepts(s: Pipeline) returns (s': Pipeline)
    requires Reachable(s) && s.accept.AcceptTop? && s.pool == [] && !s.worker.WorkerStopped?
    requires |s.queue| < UDP_QUEUE_SIZE
    ensures Reachable(s') && s'.accept.AcceptTop? && s'.pool == [] && s'.worker == s.worker
    ensures |s'.queue| == |s.queue| + 1
  {
    ReachableStep(s, AcceptTake);
    var s1 := Step(s, AcceptTake);
    ReachableStep(s1, AcceptReceived);
    var s2 := Step(s1, AcceptReceived);
    ReachableStep(s2, AcceptTrySend);
    s' := Step(s2, AcceptTrySend);
  }

  /** The worker is busy with one datagram while n more are queued. */
  lemma {:induction false} Fills(n: nat) returns (s: Pipeline)
    requires n <= UDP_QUEUE_SIZE
    ensures Reachable(s) && s.accept.AcceptTop? && s.pool == [] && s.worker.Handling? && |s.queue| == n
  {
    if n == 0 {
      Runs.InitialIsReachable(Next, INITIAL);
      s := Accepts(INITIAL);
      ReachableStep(s, WorkerReceive);
      s := Step(s, WorkerReceive);
    } else {
      s := Fills(n - 1);
      s := Accepts(s);
    }
  }

  lemma {:induction false} Drains(s: Pipeline) returns (s': Pipeline)
    requires Reachable(s) && s.worker.Handling? && s.accept.AcceptStopped?
    ensures Reachable(s') && |s'.pool| == |s.pool| + 1 + |s.queue|
    decreases |s.queue|
  {
    BuffersConserved(s);
    ReachableStep(s, WorkerPut);
    s' := Step(s, WorkerPut);
    if s'.queue != [] {
      ReachableStep(s', WorkerReceive);
      s' := Drains(Step(s', WorkerReceive));
    }
  }

  /** Some run fills the pool to its cap, so that a smaller cap would discard a buffer. */
  lemma PoolCapIsReached() returns (s: Pipeline)
    ensures Reachable(s) && |s.pool| == UDP_PACKET_POOL_MAX
  {
    s := Fills(UDP_QUEUE_SIZE);
    ReachableStep(s, AcceptTake);
    s := Step(s, AcceptTake);
    ReachableStep(s, AcceptShutdown);
    s := Step(s, AcceptShutdown);
    ReachableStep(s, AcceptPut);
    s := Step(s, AcceptPut);
    s := Drains(s);
  }
}
