/** The node's peer map and the transport's peer table, kept side by side. */
module PeerTables {
  import opened RaftId
  import opened Peers

  /** What changes the tables after Start begins: a peer added with an address, a change without one, a removal. */
  datatype Event = Add(id: nat, addr: string) | AddNoAddress(id: nat) | Remove(id: nat)

  datatype Tables = Tables(node: map<nat, string>, transport: map<nat, string>)

  /** The node map is overwritten; the transport keeps a peer it already has. */
  function Apply(t: Tables, ev: Event): Tables {
    match ev
    case Add(id, addr) => Tables(t.node[id := addr], if id in t.transport then t.transport else t.transport[id := addr])
    case AddNoAddress(_) => t
    case Remove(id) => Tables(t.node - {id}, t.transport - {id})
  }

  function ApplyAll(evs: seq<Event>): Tables {
    if evs == [] then Tables(map[], map[]) else Apply(ApplyAll(evs[..|evs| - 1]), evs[|evs| - 1])
  }

  /** A connection; closing its stop channel a second time would panic. */
  class Peer {
    const addr: string
    var active: bool
    var closes: nat

    constructor (a: string)
      ensures addr == a && active && closes == 0
    {
      addr, active, closes := a, true, 0;
    }

    ghost predicate Valid()
      reads this
    {
      closes == if active then 0 else 1
    }

    /** Stopping once or often closes the channel exactly once. */
    method Stop()
      requires Valid()
      modifies this
      ensures Valid() && !active && closes == 1
    {
      if !active {
        return;
      }
      active := false;
      closes := closes + 1;
    }
  }

  class Transport {
    var peers: map<nat, Peer>

    constructor ()
      ensures peers == map[]
    {
      peers := map[];
    }

    /** Every peer in the table is running, and no two entries share one. */
    ghost predicate Valid()
      reads this, peers.Values
    {
      && (forall i :: i in peers ==> peers[i].Valid() && peers[i].active)
      && (forall i, j :: i in peers && j in peers && i != j ==> peers[i] != peers[j])
    }

    ghost function Addresses(): map<nat, string>
      reads this
    {
      map i | i in peers :: peers[i].addr
    }

    method AddPeer(id: nat, addr: string)
      requires Valid()
      modifies this
      ensures Valid() && forall p :: p in peers.Values ==> p in old(peers.Values) || fresh(p)
      ensures
        Addresses() == if id in old(Addresses()) then old(Addresses()) else old(Addresses())[id := addr]
    {
      if id in peers {
        return;
      }
      var peer := new Peer(addr);
      peers := peers[id := peer];
    }

    /** The peer is stopped and forgotten; the others keep running. */
    method RemovePeer(id: nat)
      requires Valid()
      modifies this, peers.Values
      ensures Valid() && peers == old(peers) - {id}
      ensures id in old(peers) ==> !old(peers)[id].active && old(peers)[id].closes == 1
      ensures Addresses() == old(Addresses()) - {id}
    {
      if id in peers {
        peers[id].Stop();
        peers := peers - {id};
      }
      assert old(peers) - {id} == peers;
    }
  }

  class PeerTable {
    const transport: Transport
    var peers: map<nat, string>

    constructor (t: Transport)
      requires t.peers == map[]
      ensures transport == t && Abs() == Tables(map[], map[])
    {
      transport := t;
      peers := map[];
    }

    ghost function Abs(): Tables
      reads this, transport
    {
      Tables(peers, transport.Addresses())
    }

    method Handle(ev: Event)
      requires transport.Valid()
      modifies this, transport, transport.peers.Values
      ensures transport.Valid()
      ensures forall p :: p in transport.peers.Values ==> p in old(transport.peers.Values) || fresh(p)
      ensures Abs() == Apply(old(Abs()), ev)
    {
      match ev
      case Add(id, addr) =>
        peers := peers[id := addr];
        transport.AddPeer(id, addr);
      case AddNoAddress(_) =>
      case Remove(id) =>
        peers := peers - {id};
        transport.RemovePeer(id);
    }
  }

  // ---------------------------------------------------------------- what the tables hold

  predicate Adds(evs: seq<Event>, k: nat, id: nat) {
    k < |evs| && evs[k].Add? && evs[k].id == id
  }

  predicate RemovedBetween(evs: seq<Event>, lo: nat, hi: nat, id: nat) {
    exists m :: lo <= m < hi && m < |evs| && evs[m] == Remove(id)
  }

  /** Event k is the last word on id: it adds it, and nothing after adds or removes it. */
  ghost predicate LatestAt(evs: seq<Event>, id: nat, k: nat) {
    && Adds(evs, k, id) && !RemovedBetween(evs, k, |evs|, id)
    && forall l :: k < l < |evs| ==> !Adds(evs, l, id)
  }

  /** Event k is the first to add id since the last removal of it, and id has not been removed since. */
  ghost predicate FirstAt(evs: seq<Event>, id: nat, k: nat) {
    && Adds(evs, k, id) && !RemovedBetween(evs, k, |evs|, id)
    && forall l :: 0 <= l < k && Adds(evs, l, id) ==> RemovedBetween(evs, l, k, id)
  }

  lemma {:induction false} LatestStep(evs: seq<Event>, ev: Event, id: nat, k: nat)
    requires k < |evs|
    ensures LatestAt(evs + [ev], id, k) <==> LatestAt(evs, id, k) && !(ev.Add? && ev.id == id) && ev != Remove(id)
  {
    var all := evs + [ev];
    assert forall l :: 0 <= l < |evs| ==> all[l] == evs[l];
    assert all[|evs|] == ev;
    if LatestAt(evs + [ev], id, k) {
      assert !Adds(all, |evs|, id);
      assert forall l :: k < l < |evs| ==> Adds(evs, l, id) == Adds(all, l, id);
      assert !RemovedBetween(evs, k, |evs|, id);
      assert LatestAt(evs, id, k);
    }
    if LatestAt(evs, id, k) && !(ev.Add? && ev.id == id) && ev != Remove(id) {
      assert forall l :: k < l < |all| ==> Adds(all, l, id) == (l < |evs| && Adds(evs, l, id));
    }
  }

  lemma {:induction false} FirstStep(evs: seq<Event>, ev: Event, id: nat, k: nat)
    requires k < |evs|
    ensures FirstAt(evs + [ev], id, k) <==> FirstAt(evs, id, k) && ev != Remove(id)
  {
    var all := evs + [ev];
    assert forall l :: 0 <= l < |evs| ==> all[l] == evs[l];
    assert all[|evs|] == ev;
    assert forall l :: 0 <= l < k ==> RemovedBetween(all, l, k, id) == RemovedBetween(evs, l, k, id);
    assert forall l :: 0 <= l < k ==> Adds(all, l, id) == Adds(evs, l, id);
    assert RemovedBetween(all, k, |all|, id) <==> RemovedBetween(evs, k, |evs|, id) || ev == Remove(id);
  }

  lemma {:induction false} SameKeys(evs: seq<Event>)
    ensures ApplyAll(evs).node.Keys == ApplyAll(evs).transport.Keys
  {
    if evs != [] {
      SameKeys(evs[..|evs| - 1]);
    }
  }

  lemma {:induction false} NodeHoldsLatest(evs: seq<Event>, id: nat) returns (k: nat)
    requires id in ApplyAll(evs).node
    ensures LatestAt(evs, id, k) && ApplyAll(evs).node[id] == evs[k].addr
  {
    var n := |evs| - 1;
    var before, ev := evs[..n], evs[n];
    assert evs == before + [ev];
    if ev.Add? && ev.id == id {
      k := n;
      NewestAdds(before, ev);
    } else {
      k := NodeHoldsLatest(before, id);
      LatestStep(before, ev, id, k);
    }
  }

  lemma {:induction false} TransportHoldsFirst(evs: seq<Event>, id: nat) returns (k: nat)
    requires id in ApplyAll(evs).transport
    ensures FirstAt(evs, id, k) && ApplyAll(evs).transport[id] == evs[k].addr
  {
    var n := |evs| - 1;
    var before, ev := evs[..n], evs[n];
    assert evs == before + [ev];
    if id in ApplyAll(before).transport {
      k := TransportHoldsFirst(before, id);
      FirstStep(before, ev, id, k);
    } else {
      k := n;
      AddsAfterRemoval(before, ev, id);
    }
  }

  /** In every run the two tables have the same keys; the node map holds the address of the latest applied addition,
      the transport that of the first one since the last removal. */
  lemma {:induction false} TablesAgree(evs: seq<Event>, id: nat)
    ensures
      var t := ApplyAll(evs);
      && t.node.Keys == t.transport.Keys
      && (id in t.node ==>
            && (exists k: nat :: LatestAt(evs, id, k) && t.node[id] == evs[k].addr)
            && (exists k: nat :: FirstAt(evs, id, k) && t.transport[id] == evs[k].addr))
  {
    SameKeys(evs);
    if id in ApplyAll(evs).node {
      var k := NodeHoldsLatest(evs, id);
      var f := TransportHoldsFirst(evs, id);
    }
  }

  lemma {:induction false} NewestAdds(evs: seq<Event>, ev: Event)
    requires ev.Add?
    ensures LatestAt(evs + [ev], ev.id, |evs|)
  {
    assert (evs + [ev])[|evs|] == ev;
  }

  /** If id is not in the table, every earlier addition of it has been removed. */
  lemma {:induction false} AbsentMeansRemoved(evs: seq<Event>, id: nat, l: nat)
    requires id !in ApplyAll(evs).transport && Adds(evs, l, id)
    ensures RemovedBetween(evs, l, |evs|, id)
  {
    var n := |evs| - 1;
    var before := evs[..n];
    if evs[n] == Remove(id) {
      assert l <= n && evs[n] == Remove(id);
    } else {
      assert l < n;
      assert Adds(before, l, id);
      AbsentMeansRemoved(before, id, l);
      var m :| l <= m < n && before[m] == Remove(id);
      assert evs[m] == Remove(id);
    }
  }

  lemma {:induction false} AddsAfterRemoval(evs: seq<Event>, ev: Event, id: nat)
    requires id !in ApplyAll(evs).transport && ev.Add? && ev.id == id
    ensures FirstAt(evs + [ev], id, |evs|)
  {
    var all := evs + [ev];
    assert all[|evs|] == ev && forall l :: 0 <= l < |evs| ==> all[l] == evs[l];
    forall l | 0 <= l < |evs| && Adds(all, l, id) ensures RemovedBetween(all, l, |evs|, id) {
      assert Adds(evs, l, id);
      AbsentMeansRemoved(evs, id, l);
      var m :| l <= m < |evs| && evs[m] == Remove(id);
      assert all[m] == Remove(id);
    }
  }

  // ---------------------------------------------------------------- bootstrap

  /** The voters StartNode is given, visiting the parsed peers in some order. */
  function Bootstrap(order: seq<string>): seq<nat> {
    seq(|order|, i requires 0 <= i < |order| => Hash(order[i]) as nat)
  }

  /** Whatever order the map iteration takes, the membership is the same set. */
  lemma {:induction false} BootstrapIsOrderFree(peers: map<string, string>, a: seq<string>, b: seq<string>)
    requires (forall k :: k in a <==> k in peers) && (forall k :: k in b <==> k in peers)
    ensures forall id :: id in Bootstrap(a) <==> id in Bootstrap(b)
  {
    forall id ensures id in Bootstrap(a) <==> id in Bootstrap(b) {
      BootstrapMembers(a, id);
      BootstrapMembers(b, id);
    }
  }

  lemma {:induction false} BootstrapMembers(order: seq<string>, id: nat)
    ensures id in Bootstrap(order) <==> exists k :: k in order && Hash(k) == id
  {
    hide Hash;
    if id in Bootstrap(order) {
      var i :| 0 <= i < |order| && Bootstrap(order)[i] == id;
      assert order[i] in order && Hash(order[i]) == id;
    }
    if exists k :: k in order && Hash(k) == id {
      var k :| k in order && Hash(k) == id;
      var i :| 0 <= i < |order| && order[i] == k;
      assert Bootstrap(order)[i] == id;
    }
  }

  /** From the list the operator prints for up to ten replicas, in whatever order the map comes, every node bootstraps
      the same n voters: the IDs of the n pods, no two of them equal. */
  lemma {:induction false} BootstrapFromOperator(cluster: string, n: nat, order: seq<string>)
    requires Plain(cluster) && n <= 10
    requires forall k :: k in order <==> k in Parsed(Joined(Items(cluster, n)))
    requires forall i, j :: 0 <= i < j < |order| ==> order[i] != order[j]
    ensures |Bootstrap(order)| == n
    ensures forall id :: id in Bootstrap(order) <==> exists i: nat :: i < n && id == Hash(PodName(cluster, i))
    ensures forall i, j :: 0 <= i < j < |order| ==> Bootstrap(order)[i] != Bootstrap(order)[j]
  {
    hide Hash, PodName, Parsed, Joined, Items, Expected;
    PeerListRoundTrip(cluster, n);
    ExpectedHasAll(cluster, n);
    EnumeratesAll(order, Expected(cluster, n).Keys);
    forall id ensures id in Bootstrap(order) <==> exists i: nat :: i < n && id == Hash(PodName(cluster, i)) {
      BootstrapMembers(order, id);
      if i: nat :| i < n && id == Hash(PodName(cluster, i)) {
        assert PodName(cluster, i) in order;
      }
    }
    forall i, j | 0 <= i < j < |order| ensures Bootstrap(order)[i] != Bootstrap(order)[j] {
      assert order[i] in order && order[j] in order;
      var x: nat :| x < n && order[i] == PodName(cluster, x);
      var y: nat :| y < n && order[j] == PodName(cluster, y);
      PodIdsDistinct(cluster, x, y);
    }
  }

  /** A list of all members of a set, each once, is as long as the set is large. */
  lemma {:induction false} EnumeratesAll(order: seq<string>, keys: set<string>)
    requires forall k :: k in order <==> k in keys
    requires forall i, j :: 0 <= i < j < |order| ==> order[i] != order[j]
    ensures |order| == |keys|
  {
    if order != [] {
      var init, last := order[..|order| - 1], order[|order| - 1];
      assert last in order && forall k :: k in init ==> k in order;
      assert forall k :: k in order ==> k == last || k in init;
      EnumeratesAll(init, keys - {last});
    } else {
      assert keys == {};
    }
  }
}
