/** The UDP flow table and its secondary index by remote address and client port. */
module UdpTable {
  import opened Net

  datatype UdpFlowKey = UdpFlowKey(dstIp: IpAddr, srcIp: IpAddr, srcPort: u16)

  datatype UdpIndexKey = UdpIndexKey(dstIp: IpAddr, srcPort: u16)

  datatype UdpPortMapping =
    UdpPortMapping(dstIp: IpAddr, dstPort: u16, proxyPort: u16, lastActive: Instant)

  type FlowTable = map<UdpFlowKey, UdpPortMapping>

  /** `Some(k)`: k is the only flow under that index key. `None`: several flows share it. */
  type PeerIndex = map<UdpIndexKey, Option<UdpFlowKey>>

  function IndexKeyOf(key: UdpFlowKey): UdpIndexKey {
    UdpIndexKey(key.dstIp, key.srcPort)
  }

  function InsertPeerIndex(byPeer: PeerIndex, key: UdpFlowKey): PeerIndex {
    var indexKey := IndexKeyOf(key);
    if indexKey in byPeer then
      if byPeer[indexKey] != Some(key) then byPeer[indexKey := None] else byPeer
    else
      byPeer[indexKey := Some(key)]
  }

  /** Incremental inserts, one per element, from left to right. */
  function IndexInOrder(keys: seq<UdpFlowKey>): PeerIndex {
    if keys == [] then map[] else InsertPeerIndex(IndexInOrder(keys[..|keys| - 1]), keys[|keys| - 1])
  }

  ghost function Elements<T>(xs: seq<T>): set<T> {
    set x | x in xs
  }

  /** The plain scan the index stands for. */
  ghost function Sharing(flows: set<UdpFlowKey>, indexKey: UdpIndexKey): set<UdpFlowKey> {
    set k | k in flows && IndexKeyOf(k) == indexKey
  }

  ghost predicate AgreesAt(byPeer: PeerIndex, flows: set<UdpFlowKey>, indexKey: UdpIndexKey) {
    var sharing := Sharing(flows, indexKey);
    && (indexKey !in byPeer <==> sharing == {})
    && (forall k :: (indexKey in byPeer && byPeer[indexKey] == Some(k)) <==> sharing == {k})
    && ((indexKey in byPeer && byPeer[indexKey] == None) <==> |sharing| >= 2)
  }

  ghost predicate Agrees(byPeer: PeerIndex, flows: set<UdpFlowKey>) {
    forall indexKey :: AgreesAt(byPeer, flows, indexKey)
  }

  lemma TwoElements<T>(s: set<T>, a: T, b: T)
    requires a in s && b in s && a != b
    ensures |s| >= 2
  {
    assert {a, b} <= s;
    assert |s| == |{a, b}| + |s - {a, b}|;
  }

  lemma AtMostOne<T>(s: set<T>, a: T)
    requires a in s && |s| < 2
    ensures s == {a}
  {
    if b :| b in s && b != a {
      TwoElements(s, a, b);
    }
  }

  /** One incremental insert keeps the agreement, for a new key and for a key already there. */
  lemma InsertKeepsAgreement(byPeer: PeerIndex, flows: set<UdpFlowKey>, key: UdpFlowKey)
    requires Agrees(byPeer, flows)
    ensures Agrees(InsertPeerIndex(byPeer, key), flows + {key})
  {
    var after := InsertPeerIndex(byPeer, key);
    forall ik ensures AgreesAt(after, flows + {key}, ik) {
      assert AgreesAt(byPeer, flows, ik);
      var before := Sharing(flows, ik);
      var now := Sharing(flows + {key}, ik);
      if ik != IndexKeyOf(key) {
        assert now == before;
      } else {
        assert now == before + {key};
        if before == {} {
          assert now == {key};
        } else if before == {key} {
          assert now == {key};
        } else {
          var other :| other in before && other != key;
          TwoElements(now, key, other);
          assert after[ik] == None;
        }
      }
    }
  }

  /** At most one index agrees with a set of flows. */
  lemma AgreementIsUnique(a: PeerIndex, b: PeerIndex, flows: set<UdpFlowKey>)
    requires Agrees(a, flows) && Agrees(b, flows)
    ensures a == b
  {
    forall ik ensures (ik in a <==> ik in b) && (ik in a ==> a[ik] == b[ik]) {
      assert AgreesAt(a, flows, ik) && AgreesAt(b, flows, ik);
    }
  }

  lemma {:induction false} IndexInOrderAgrees(keys: seq<UdpFlowKey>)
    ensures Agrees(IndexInOrder(keys), Elements(keys))
  {
    if keys == [] {
      forall ik ensures AgreesAt(map[], {}, ik) {
        assert Sharing({}, ik) == {};
      }
      assert Elements(keys) == {};
    } else {
      var init, last := keys[..|keys| - 1], keys[|keys| - 1];
      IndexInOrderAgrees(init);
      InsertKeepsAgreement(IndexInOrder(init), Elements(init), last);
      assert Elements(keys) == Elements(init) + {last};
    }
  }

  /** Building the index from the same flows in any two orders, with or without repeated
      inserts, gives one and the same map. */
  lemma OrderDoesNotMatter(keys: seq<UdpFlowKey>, keys': seq<UdpFlowKey>)
    requires forall k :: k in keys <==> k in keys'
    ensures IndexInOrder(keys) == IndexInOrder(keys')
  {
    IndexInOrderAgrees(keys);
    IndexInOrderAgrees(keys');
    assert Elements(keys) == Elements(keys');
    AgreementIsUnique(IndexInOrder(keys), IndexInOrder(keys'), Elements(keys));
  }

  ghost function SomeOrder<T(!new)>(s: set<T>): (order: seq<T>)
    ensures forall x :: x in order <==> x in s
  {
    if s == {} then [] else var x :| x in s; [x] + SomeOrder(s - {x})
  }

  /** The index a rebuild gives; by `OrderDoesNotMatter` the order visited is immaterial. */
  ghost function RebuiltIndex(byFlow: FlowTable): PeerIndex {
    IndexInOrder(SomeOrder(byFlow.Keys))
  }

  lemma RebuiltIndexAgrees(byFlow: FlowTable)
    ensures Agrees(RebuiltIndex(byFlow), byFlow.Keys)
  {
    IndexInOrderAgrees(SomeOrder(byFlow.Keys));
    assert Elements(SomeOrder(byFlow.Keys)) == byFlow.Keys;
  }

  function Retained(byFlow: FlowTable, keep: UdpPortMapping -> bool): FlowTable {
    map k | k in byFlow && keep(byFlow[k]) :: byFlow[k]
  }

  class UdpMappings {
    var byFlow: FlowTable
    var byPeer: PeerIndex

    ghost predicate Valid()
      reads this
    {
      Agrees(byPeer, byFlow.Keys)
    }

    constructor ()
      ensures Valid() && byFlow == map[]
    {
      byFlow, byPeer := map[], map[];
      new;
      IndexInOrderAgrees([]);
      assert byFlow.Keys == Elements<UdpFlowKey>([]);
    }

    method Insert(key: UdpFlowKey, entry: UdpPortMapping)
      requires Valid()
      modifies this
      ensures Valid()
      ensures byFlow == old(byFlow)[key := entry]
      ensures byPeer == InsertPeerIndex(old(byPeer), key)
    {
      var existing := key in byFlow;
      ghost var flows := byFlow.Keys;
      byFlow := byFlow[key := entry];
      assert byFlow.Keys == flows + {key};
      InsertKeepsAgreement(byPeer, flows, key);
      if !existing {
        byPeer := InsertPeerIndex(byPeer, key);
      } else {
        assert byFlow.Keys == flows;
        AgreementIsUnique(byPeer, InsertPeerIndex(byPeer, key), flows);
      }
    }

    /** Refreshes the activity time of a flow that is present, in place. */
    method Touch(key: UdpFlowKey, now: Instant)
      requires Valid() && key in byFlow
      modifies `byFlow
      ensures Valid()
      ensures byFlow == old(byFlow)[key := old(byFlow)[key].(lastActive := now)]
    {
      byFlow := byFlow[key := byFlow[key].(lastActive := now)];
      assert byFlow.Keys == old(byFlow.Keys);
    }

    method RetainActive(keep: UdpPortMapping -> bool)
      modifies this
      ensures Valid()
      ensures byFlow == Retained(old(byFlow), keep)
      ensures byPeer == RebuiltIndex(byFlow)
    {
      byFlow := map k | k in byFlow && keep(byFlow[k]) :: byFlow[k];
      RebuildPeerIndex();
    }

    /** Clears the index and refills it, visiting the flows in an arbitrary order. */
    method RebuildPeerIndex()
      modifies `byPeer
      ensures Valid()
      ensures byPeer == RebuiltIndex(byFlow)
    {
      byPeer := map[];
      var todo := byFlow.Keys;
      IndexInOrderAgrees([]);
      assert byFlow.Keys - todo == Elements<UdpFlowKey>([]);
      while todo != {}
        invariant todo <= byFlow.Keys
        invariant Agrees(byPeer, byFlow.Keys - todo)
        decreases todo
      {
        var key :| key in todo;
        InsertKeepsAgreement(byPeer, byFlow.Keys - todo, key);
        assert byFlow.Keys - todo + {key} == byFlow.Keys - (todo - {key});
        byPeer := InsertPeerIndex(byPeer, key);
        todo := todo - {key};
      }
      assert byFlow.Keys - todo == byFlow.Keys;
      RebuiltIndexAgrees(byFlow);
      AgreementIsUnique(byPeer, RebuiltIndex(byFlow), byFlow.Keys);
    }
  }

  datatype QueryResult = Found(ip: IpAddr, port: u16) | NotFound | Ambiguous

  function ExactLookup(byFlow: FlowTable, key: UdpFlowKey): QueryResult {
    if key in byFlow then Found(byFlow[key].dstIp, byFlow[key].dstPort) else NotFound
  }

  /** The destination query the proxy makes with the peer and local address of a datagram. */
  function QueryUdp(byFlow: FlowTable, byPeer: PeerIndex, peer: SocketAddr, local: SocketAddr): QueryResult {
    var peer := NormalizeMappedIpv6(peer);
    var local := NormalizeMappedIpv6(local);
    if !IsUnspecified(local.ip) then
      ExactLookup(byFlow, UdpFlowKey(peer.ip, local.ip, peer.port))
    else
      var indexKey := UdpIndexKey(peer.ip, peer.port);
      if indexKey !in byPeer then NotFound
      else if byPeer[indexKey] == None then Ambiguous
      else ExactLookup(byFlow, byPeer[indexKey].value)
  }

  /** The wildcard query answers what a scan of the flow table answers: the destination of the
      only flow to that peer, or that there is none, or that there are several. An indexed key
      is always present in the flow table. */
  lemma QueryRefinesScan(byFlow: FlowTable, byPeer: PeerIndex, peer: SocketAddr, local: SocketAddr)
    requires Agrees(byPeer, byFlow.Keys)
    requires IsUnspecified(NormalizeMappedIpv6(local).ip)
    ensures var p := NormalizeMappedIpv6(peer);
            var sharing := Sharing(byFlow.Keys, UdpIndexKey(p.ip, p.port));
            var r := QueryUdp(byFlow, byPeer, peer, local);
            && (r == NotFound <==> sharing == {})
            && (r == Ambiguous <==> |sharing| >= 2)
            && (r.Found? <==> |sharing| == 1)
            && (forall k | k in sharing && r.Found? && !IsMapped(k.srcIp) ::
                  r == ExactLookup(byFlow, k) && r == QueryUdp(byFlow, byPeer, peer, SocketAddr(k.srcIp, 0)))
    ensures forall ik | ik in byPeer && byPeer[ik].Some? :: byPeer[ik].value in byFlow
  {
    forall ik | ik in byPeer && byPeer[ik].Some? ensures byPeer[ik].value in byFlow {
      IndexedKeyIsLive(byFlow, byPeer, ik);
    }
    var p := NormalizeMappedIpv6(peer);
    var ik := UdpIndexKey(p.ip, p.port);
    assert AgreesAt(byPeer, byFlow.Keys, ik);
    var sharing := Sharing(byFlow.Keys, ik);
    if k :| k in sharing {
      if |sharing| < 2 {
        AtMostOne(sharing, k);
      }
    }
  }

  lemma IndexedKeyIsLive(byFlow: FlowTable, byPeer: PeerIndex, indexKey: UdpIndexKey)
    requires Agrees(byPeer, byFlow.Keys)
    requires indexKey in byPeer && byPeer[indexKey].Some?
    ensures byPeer[indexKey].value in byFlow && IndexKeyOf(byPeer[indexKey].value) == indexKey
  {
    assert AgreesAt(byPeer, byFlow.Keys, indexKey);
    assert byPeer[indexKey].value in Sharing(byFlow.Keys, indexKey);
  }
}
