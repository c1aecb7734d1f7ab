/** The packet loop: every batch read from the adapter is decided packet by packet, then split
    between the network adapter and the host's protocol stack. What the router decides for each
    packet is a parameter here. */
module Adapter {
  import opened Net
  import opened Packet

  const TWO_64: nat := 0x1_0000_0000_0000_0000
  const CLEANUP_INTERVAL: nat := 20

  type u64 = n: int | 0 <= n < TWO_64 witness 0

  /** A packet of a batch: its length, and whether it was read on its way out. */
  datatype Frame = Frame(length: nat, onSend: bool)

  datatype Decided = Decided(frame: Frame, direction: Option<ProxyDirection>)

  /** Outgoing packets belong to the adapter, incoming ones to the host; a redirected packet goes
      back where it came from. */
  function GoesToAdapter(d: Decided): bool {
    if d.direction.Some? then !d.frame.onSend else d.frame.onSend
  }

  function Routing(batch: seq<Decided>): seq<bool> {
    seq(|batch|, i requires 0 <= i < |batch| => GoesToAdapter(batch[i]))
  }

  function FramesOf(batch: seq<Decided>): seq<Frame> {
    seq(|batch|, i requires 0 <= i < |batch| => batch[i].frame)
  }

  /** The frames routed one way, in order. */
  function Selected(frames: seq<Frame>, routing: seq<bool>, way: bool): seq<Frame>
    requires |frames| == |routing|
  {
    if frames == [] then []
    else
      var n := |frames| - 1;
      Selected(frames[..n], routing[..n], way) + (if routing[n] == way then [frames[n]] else [])
  }

  /** The positions of the frames routed one way. */
  function Positions(routing: seq<bool>, way: bool): seq<nat> {
    if routing == [] then []
    else
      var n := |routing| - 1;
      Positions(routing[..n], way) + (if routing[n] == way then [n] else [])
  }

  /** A position is listed exactly when it is routed that way. */
  lemma {:induction false} PositionListed(routing: seq<bool>, way: bool, at: nat)
    ensures at in Positions(routing, way) <==> at < |routing| && routing[at] == way
  {
    if routing != [] {
      PositionListed(routing[..|routing| - 1], way, at);
    }
  }

  lemma {:induction false} PositionsAscend(routing: seq<bool>, way: bool)
    ensures var p := Positions(routing, way);
            forall i, j | 0 <= i < j < |p| :: p[i] < p[j]
  {
    if routing != [] {
      var n := |routing| - 1;
      PositionsAscend(routing[..n], way);
      var before := Positions(routing[..n], way);
      forall i | 0 <= i < |before| ensures before[i] < n {
        PositionListed(routing[..n], way, before[i]);
      }
    }
  }

  function Frames(frames: seq<Frame>, positions: seq<nat>): seq<Frame>
    requires forall i | 0 <= i < |positions| :: positions[i] < |frames|
  {
    seq(|positions|, i requires 0 <= i < |positions| => frames[positions[i]])
  }

  lemma {:induction false} SelectedByPosition(frames: seq<Frame>, routing: seq<bool>, way: bool)
    requires |frames| == |routing|
    ensures forall i | 0 <= i < |Positions(routing, way)| :: Positions(routing, way)[i] < |frames|
    ensures Selected(frames, routing, way) == Frames(frames, Positions(routing, way))
  {
    forall i | 0 <= i < |Positions(routing, way)| ensures Positions(routing, way)[i] < |frames| {
      PositionListed(routing, way, Positions(routing, way)[i]);
    }
    if frames != [] {
      var n := |frames| - 1;
      SelectedByPosition(frames[..n], routing[..n], way);
    }
  }

  /** The two sends partition the batch: each frame is in exactly one of them, once, both keep the
      order, and a frame goes to the side opposite to its natural one exactly when redirected. */
  lemma BatchIsPartitioned(batch: seq<Decided>)
    ensures var frames, routing := FramesOf(batch), Routing(batch);
            var a, h := Positions(routing, true), Positions(routing, false);
            && |a| + |h| == |frames|
            && (forall n: nat | n < |frames| :: (n in a <==> n !in h))
            && (forall n: nat | n < |frames| :: (n in a <==> frames[n].onSend == (batch[n].direction == None)))
            && (forall i, j | 0 <= i < j < |a| :: a[i] < a[j])
            && (forall i, j | 0 <= i < j < |h| :: h[i] < h[j])
            && (forall i | 0 <= i < |a| :: a[i] < |frames|) && Selected(frames, routing, true) == Frames(frames, a)
            && (forall i | 0 <= i < |h| :: h[i] < |frames|) && Selected(frames, routing, false) == Frames(frames, h)
  {
    var frames, routing := FramesOf(batch), Routing(batch);
    PositionsAscend(routing, true);
    PositionsAscend(routing, false);
    SelectedByPosition(frames, routing, true);
    SelectedByPosition(frames, routing, false);
    PositionsCount(routing);
    forall n: nat
      ensures n in Positions(routing, true) <==> n < |routing| && routing[n]
      ensures n in Positions(routing, false) <==> n < |routing| && !routing[n]
    {
      PositionListed(routing, true, n);
      PositionListed(routing, false, n);
    }
  }

  lemma {:induction false} PositionsCount(routing: seq<bool>)
    ensures |Positions(routing, true)| + |Positions(routing, false)| == |routing|
  {
    if routing != [] {
      PositionsCount(routing[..|routing| - 1]);
    }
  }

  // ---- Byte counters ----

  function RedirectedBytes(batch: seq<Decided>, direction: ProxyDirection): nat {
    if batch == [] then 0
    else
      var last := batch[|batch| - 1];
      RedirectedBytes(batch[..|batch| - 1], direction)
      + (if last.direction == Some(direction) then last.frame.length else 0)
  }

  function Concat(batches: seq<seq<Decided>>): seq<Decided> {
    if batches == [] then [] else Concat(batches[..|batches| - 1]) + batches[|batches| - 1]
  }

  lemma {:induction false} RedirectedBytesAdd(a: seq<Decided>, b: seq<Decided>, direction: ProxyDirection)
    ensures RedirectedBytes(a + b, direction) == RedirectedBytes(a, direction) + RedirectedBytes(b, direction)
  {
    if b == [] {
      assert a + b == a;
    } else {
      RedirectedBytesAdd(a, b[..|b| - 1], direction);
      assert (a + b)[..|a + b| - 1] == a + b[..|b| - 1];
    }
  }

  /** `AtomicU64::fetch_add` wraps around. */
  function FetchAdd(counter: u64, n: nat): u64 {
    (counter + n) % TWO_64
  }

  lemma Accumulates(start: u64, x: nat, y: nat)
    ensures FetchAdd(FetchAdd(start, x), y) == FetchAdd(start, x + y)
  {
  }

  lemma OneMorePacket(batch: seq<Decided>, i: nat, direction: ProxyDirection)
    requires i < |batch|
    ensures RedirectedBytes(batch[..i + 1], direction)
         == RedirectedBytes(batch[..i], direction)
            + (if batch[i].direction == Some(direction) then batch[i].frame.length else 0)
  {
    assert batch[..i + 1][..i] == batch[..i];
  }

  /** The batch counter after a batch, and whether a cleanup is due. Empty batches do not count. */
  function Counted(counter: nat, batch: seq<Decided>): (nat, bool) {
    if batch == [] then (counter, false)
    else if counter + 1 >= CLEANUP_INTERVAL then (0, true)
    else (counter + 1, false)
  }

  class PacketLoop {
    var bytesSent: u64
    var bytesReceived: u64
    var routing: seq<bool>
    var cleanupCounter: nat
    var toAdapter: seq<Frame>   // everything handed to the adapter so far
    var toHost: seq<Frame>      // everything handed to the host's protocol stack so far

    constructor ()
      ensures bytesSent == bytesReceived == 0 && cleanupCounter == 0 && toAdapter == [] && toHost == []
    {
      bytesSent, bytesReceived, routing, cleanupCounter, toAdapter, toHost := 0, 0, [], 0, [], [];
    }

    /** One batch. `cleanup` tells that the stale UDP endpoints are cleaned up after it. */
    method ProcessBatch(batch: seq<Decided>) returns (cleanup: bool)
      modifies this
      ensures toAdapter == old(toAdapter) + Selected(FramesOf(batch), Routing(batch), true)
      ensures toHost == old(toHost) + Selected(FramesOf(batch), Routing(batch), false)
      ensures bytesSent == FetchAdd(old(bytesSent), RedirectedBytes(batch, TowardsProxy))
      ensures bytesReceived == FetchAdd(old(bytesReceived), RedirectedBytes(batch, TowardsClient))
      ensures (cleanupCounter, cleanup) == Counted(old(cleanupCounter), batch)
    {
      routing := [];
      if |batch| == 0 {
        return false;
      }
      Route(batch);
      Send(FramesOf(batch));
      cleanupCounter := cleanupCounter + 1;
      if cleanupCounter >= CLEANUP_INTERVAL {
        cleanupCounter := 0;
        return true;
      }
      return false;
    }

    /** The decision loop: fills the routing vector and counts the redirected bytes. */
    method Route(batch: seq<Decided>)
      requires routing == []
      modifies `routing, `bytesSent, `bytesReceived
      ensures routing == Routing(batch)
      ensures bytesSent == FetchAdd(old(bytesSent), RedirectedBytes(batch, TowardsProxy))
      ensures bytesReceived == FetchAdd(old(bytesReceived), RedirectedBytes(batch, TowardsClient))
    {
      for i := 0 to |batch|
        invariant routing == Routing(batch[..i])
        invariant bytesSent == FetchAdd(old(bytesSent), RedirectedBytes(batch[..i], TowardsProxy))
        invariant bytesReceived == FetchAdd(old(bytesReceived), RedirectedBytes(batch[..i], TowardsClient))
      {
        var d := batch[i];
        var redirected := d.direction.Some?;
        var isSend := d.frame.onSend;
        var sendToAdapter := if redirected then !isSend else isSend;
        OneMorePacket(batch, i, TowardsProxy);
        OneMorePacket(batch, i, TowardsClient);
        if redirected {
          match d.direction.value {
            case TowardsProxy =>
              Accumulates(old(bytesSent), RedirectedBytes(batch[..i], TowardsProxy), d.frame.length);
              bytesSent := FetchAdd(bytesSent, d.frame.length);
            case TowardsClient =>
              Accumulates(old(bytesReceived), RedirectedBytes(batch[..i], TowardsClient), d.frame.length);
              bytesReceived := FetchAdd(bytesReceived, d.frame.length);
          }
        }
        assert Routing(batch[..i + 1]) == Routing(batch[..i]) + [GoesToAdapter(d)];
        routing := routing + [sendToAdapter];
      }
      assert batch[..|batch|] == batch;
    }

    /** The two filtered sends, each left out when it would be empty. */
    method Send(frames: seq<Frame>)
      requires |frames| == |routing|
      modifies `toAdapter, `toHost
      ensures toAdapter == old(toAdapter) + Selected(frames, routing, true)
      ensures toHost == old(toHost) + Selected(frames, routing, false)
    {
      var adapterCount := Count();
      PositionsCount(routing);
      SelectedByPosition(frames, routing, true);
      SelectedByPosition(frames, routing, false);
      if adapterCount != 0 {
        var selected := Select(frames, true);
        toAdapter := toAdapter + selected;
      }
      if adapterCount != |frames| {
        var selected := Select(frames, false);
        toHost := toHost + selected;
      }
    }

    method Count() returns (n: nat)
      ensures n == |Positions(routing, true)|
    {
      n := 0;
      for i := 0 to |routing|
        invariant n == |Positions(routing[..i], true)|
      {
        assert routing[..i + 1][..i] == routing[..i];
        if routing[i] {
          n := n + 1;
        }
      }
      assert routing[..|routing|] == routing;
    }

    method Select(frames: seq<Frame>, way: bool) returns (selected: seq<Frame>)
      requires |frames| == |routing|
      ensures selected == Selected(frames, routing, way)
    {
      selected := [];
      for i := 0 to |frames|
        invariant selected == Selected(frames[..i], routing[..i], way)
      {
        assert frames[..i + 1][..i] == frames[..i] && routing[..i + 1][..i] == routing[..i];
        if routing[i] == way {
          selected := selected + [frames[i]];
        }
      }
      assert frames[..|frames|] == frames && routing[..|routing|] == routing;
    }
  }

  // ---- Whole runs ----

  function SentAfter(start: u64, batches: seq<seq<Decided>>, direction: ProxyDirection): u64 {
    if batches == [] then start
    else FetchAdd(SentAfter(start, batches[..|batches| - 1], direction),
                  RedirectedBytes(batches[|batches| - 1], direction))
  }

  /** Over a whole run each counter is, modulo 2^64, the total length of the packets redirected
      its way. */
  lemma {:induction false} CounterOverRun(batches: seq<seq<Decided>>, direction: ProxyDirection)
    ensures SentAfter(0, batches, direction) == RedirectedBytes(Concat(batches), direction) % TWO_64
  {
    if batches != [] {
      var init, last := batches[..|batches| - 1], batches[|batches| - 1];
      CounterOverRun(init, direction);
      RedirectedBytesAdd(Concat(init), last, direction);
      Accumulates(0, RedirectedBytes(Concat(init), direction), RedirectedBytes(last, direction));
    }
  }

  function NonEmpty(batches: seq<seq<Decided>>): nat {
    if batches == [] then 0
    else NonEmpty(batches[..|batches| - 1]) + (if batches[|batches| - 1] == [] then 0 else 1)
  }

  /** The counter after a run from 0, and how many cleanups the run has had. */
  function CleanupsAfter(batches: seq<seq<Decided>>): (nat, nat) {
    if batches == [] then (0, 0)
    else
      var (counter, cleanups) := CleanupsAfter(batches[..|batches| - 1]);
      var (counter', cleanup) := Counted(counter, batches[|batches| - 1]);
      (counter', if cleanup then cleanups + 1 else cleanups)
  }

  /** Over every run a cleanup comes behind each twentieth batch that holds a packet, and no other. */
  lemma {:induction false} CleanupEveryTwenty(batches: seq<seq<Decided>>)
    ensures CleanupsAfter(batches) == (NonEmpty(batches) % 20, NonEmpty(batches) / 20)
  {
    if batches != [] {
      CleanupEveryTwenty(batches[..|batches| - 1]);
    }
  }
}
