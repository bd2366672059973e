/**
  Peer discovery over the DHT: a node advertises itself under one fixed
  rendezvous topic, and discovery lists the providers of that same topic,
  dropping entries without a peer identity and keeping arrival order.
*/
module P2P {
  import opened Wrappers
  import opened Messages

  /** The one topic every registry node advertises and searches under. */
  const RendezvousTopic: string := "spacecore-registry"

  datatype AddrInfo = AddrInfo(id: string, addrs: seq<string>)

  /**
    The DHT as the registry sees it: the provider records per topic, in the
    order a search streams them; whether the routing layer is usable, which
    decides whether advertising succeeds; and whether starting a search is
    refused, which is the only way a search reports an error.
  */
  datatype Dht = Dht(providers: map<string, seq<AddrInfo>>, reachable: bool, searchRefused: bool)

  /**
    `FindPeers(topic)`: the stream of providers, or an error when the search
    cannot be started. An unusable routing layer is not an error here: the
    stream is whatever the provider records hold.
  */
  function FindPeers(dht: Dht, topic: string): (r: Result<seq<AddrInfo>, Error>)
    ensures r.Failure? <==> dht.searchRefused
    ensures r.Success? ==> r.value == if topic in dht.providers then dht.providers[topic] else []
  {
    if dht.searchRefused then Failure(DiscoveryFailed)
    else if topic in dht.providers then Success(dht.providers[topic])
    else Success([])
  }

  /** `Advertise`: record this node as a provider of the rendezvous topic. */
  function Advertise(dht: Dht, self: AddrInfo): (r: Result<Dht, Error>)
    ensures r.Failure? <==> !dht.reachable
    ensures r.Success? ==> r.value.reachable && r.value.searchRefused == dht.searchRefused
    ensures r.Success? ==> forall t :: t in dht.providers && t != RendezvousTopic ==>
                                         t in r.value.providers && r.value.providers[t] == dht.providers[t]
    ensures r.Success? ==> r.value.providers.Keys == dht.providers.Keys + {RendezvousTopic}
    ensures r.Success? ==>
              r.value.providers[RendezvousTopic] ==
              (if RendezvousTopic in dht.providers then dht.providers[RendezvousTopic] else []) + [self]
  {
    if !dht.reachable then Failure(DiscoveryFailed)
    else
      var known := if RendezvousTopic in dht.providers then dht.providers[RendezvousTopic] else [];
      Success(dht.(providers := dht.providers[RendezvousTopic := known + [self]]))
  }

  /** The peers that carry an identity, in their original order. */
  function ValidPeers(peers: seq<AddrInfo>): (r: seq<AddrInfo>)
    ensures |r| <= |peers|
    decreases |peers|
  {
    if peers == [] then []
    else
      var last := peers[|peers| - 1];
      ValidPeers(peers[..|peers| - 1]) + (if last.id == "" then [] else [last])
  }

  /** Go's `DiscoverPeers`: search the rendezvous topic and keep the peers with an identity. */
  method DiscoverPeers(dht: Dht) returns (r: Result<seq<AddrInfo>, Error>)
    ensures FindPeers(dht, RendezvousTopic).Failure? ==> r == Failure(FindPeers(dht, RendezvousTopic).error)
    ensures FindPeers(dht, RendezvousTopic).Success? ==> r == Success(ValidPeers(FindPeers(dht, RendezvousTopic).value))
  {
    var found := FindPeers(dht, RendezvousTopic);
    if found.Failure? {
      return Failure(found.error);
    }
    var peers := found.value;
    var results: seq<AddrInfo> := [];
    var i := 0;
    while i < |peers|
      invariant 0 <= i <= |peers|
      invariant results == ValidPeers(peers[..i])
    {
      assert peers[..i + 1][..i] == peers[..i];
      if peers[i].id != "" {
        results := results + [peers[i]];
      }
      i := i + 1;
    }
    assert peers[..i] == peers;
    r := Success(results);
  }

  /** Every discovered peer has a non-empty identity. */
  lemma {:induction false} ValidPeersHaveIds(peers: seq<AddrInfo>)
    ensures forall i :: 0 <= i < |ValidPeers(peers)| ==> ValidPeers(peers)[i].id != ""
    decreases |peers|
  {
    if peers != [] {
      ValidPeersHaveIds(peers[..|peers| - 1]);
    }
  }

  /** A peer is discovered exactly when it arrived with an identity. */
  lemma {:induction false} ValidPeersMembership(peers: seq<AddrInfo>, p: AddrInfo)
    ensures p in ValidPeers(peers) <==> p in peers && p.id != ""
    decreases |peers|
  {
    if peers != [] {
      var init := peers[..|peers| - 1];
      ValidPeersMembership(init, p);
      assert peers == init + [peers[|peers| - 1]];
    }
  }

  /** The filter distributes over concatenation, so arrival order is kept. */
  lemma {:induction false} ValidPeersAppend(a: seq<AddrInfo>, b: seq<AddrInfo>)
    ensures ValidPeers(a + b) == ValidPeers(a) + ValidPeers(b)
    decreases |b|
  {
    if b != [] {
      var b' := b[..|b| - 1];
      assert (a + b)[..|a + b| - 1] == a + b';
      ValidPeersAppend(a, b');
    } else {
      assert a + b == a;
    }
  }

  /** A stream without any identified peer yields an empty result, not an error. */
  lemma {:induction false} ValidPeersOfAnonymous(peers: seq<AddrInfo>)
    requires forall i :: 0 <= i < |peers| ==> peers[i].id == ""
    ensures ValidPeers(peers) == []
    decreases |peers|
  {
    if peers != [] {
      ValidPeersOfAnonymous(peers[..|peers| - 1]);
    }
  }

  /**
    Advertising and discovering meet on the same topic: once a node with an
    identity has advertised, discovery on the updated DHT returns it.
  */
  lemma AdvertisedPeerIsDiscovered(dht: Dht, self: AddrInfo)
    requires self.id != ""
    requires Advertise(dht, self).Success?
    requires !dht.searchRefused
    ensures FindPeers(Advertise(dht, self).value, RendezvousTopic).Success?
    ensures self in ValidPeers(FindPeers(Advertise(dht, self).value, RendezvousTopic).value)
  {
    var known := if RendezvousTopic in dht.providers then dht.providers[RendezvousTopic] else [];
    assert FindPeers(Advertise(dht, self).value, RendezvousTopic).value == known + [self];
    ValidPeersMembership(known + [self], self);
  }
}
