/** What eviction from the prefix tree keeps while it works: which leaves are queued, which texts are
    left, and that nothing is taken that was used later than something kept. */
module RadixEviction {
  import opened Common
  import opened Sums
  import opened RadixNodes

  /** `EvictionEntry`. */
  datatype Entry = Entry(timestamp: nat, tenant: Tenant, node: nat)

  lemma {:induction false} OldestExists(pq: set<Entry>) returns (e: Entry)
    requires pq != {}
    ensures e in pq && forall e' | e' in pq :: e.timestamp <= e'.timestamp
    decreases |pq|
  {
    e :| e in pq;
    if pq - {e} != {} {
      var f := OldestExists(pq - {e});
      if f.timestamp < e.timestamp {
        e := f;
      }
    }
  }

  /** Every entry is a leaf of its tenant ... */
  ghost predicate EntriesOk(nodes: seq<Node>, at: Paths, pq: set<Entry>) {
    forall e | e in pq :: IsLeaf(nodes, at, e.node, e.tenant) && e.timestamp == nodes[e.node].tenants[e.tenant]
  }

  /** ... and every leaf of a tenant that holds too much is an entry. */
  ghost predicate LeavesQueued(nodes: seq<Node>, at: Paths, pq: set<Entry>, max: nat) {
    forall id: nat, t {:trigger IsLeaf(nodes, at, id, t)} | IsLeaf(nodes, at, id, t) && max < Used(nodes, t) ::
      Entry(nodes[id].tenants[t], t, id) in pq
  }

  /** Tenants have been taken off nodes and nothing else. */
  ghost predicate Trimmed(n0: seq<Node>, nodes: seq<Node>) {
    && |nodes| == |n0|
    && (forall i | 0 <= i < |n0| :: nodes[i].text == n0[i].text)
    && (forall i, t | 0 <= i < |n0| && t in nodes[i].tenants ::
         t in n0[i].tenants && nodes[i].tenants[t] == n0[i].tenants[t])
  }

  ghost predicate Evicted(n0: seq<Node>, nodes: seq<Node>, i: nat, t: Tenant) {
    |nodes| == |n0| && i < |n0| && t in n0[i].tenants && t !in nodes[i].tenants
  }

  /** Least recently used: of the nodes of a tenant, none that is left was used before one that is gone. */
  ghost predicate OldestFirst(n0: seq<Node>, nodes: seq<Node>) {
    forall i: nat, j: nat, t | Evicted(n0, nodes, i, t) && j < |nodes| && t in nodes[j].tenants ::
        n0[i].tenants[t] <= nodes[j].tenants[t]
  }

  /** One tenant taken off one node. */
  datatype Loss = Loss(node: nat, tenant: Tenant)

  /** The characters tenant `t` has lost. */
  ghost function Lost(n0: seq<Node>, losses: seq<Loss>, t: Tenant): int {
    if losses == [] then 0 else
      var last := losses[|losses| - 1];
      Lost(n0, losses[..|losses| - 1], t) + if last.tenant == t && last.node < |n0| then |n0[last.node].text| else 0
  }

  /** The losses, each once and no others, account for what is used. */
  ghost predicate LossesAre(n0: seq<Node>, nodes: seq<Node>, losses: seq<Loss>) {
    && (forall i, j | 0 <= i < j < |losses| :: losses[i] != losses[j])
    && (forall i: nat, t :: Evicted(n0, nodes, i, t) <==> Loss(i, t) in losses)
    && (forall t {:trigger Used(nodes, t)} :: Used(nodes, t) == Used(n0, t) - Lost(n0, losses, t))
  }

  /** Before each loss, in the order in which they happened, the tenant still held more than allowed. */
  ghost predicate EachNeeded(n0: seq<Node>, losses: seq<Loss>, max: nat) {
    forall k | 0 <= k < |losses| :: max < Used(n0, losses[k].tenant) - Lost(n0, losses[..k], losses[k].tenant)
  }

  ghost predicate NoMoreThanNeeded(n0: seq<Node>, nodes: seq<Node>, losses: seq<Loss>, max: nat) {
    LossesAre(n0, nodes, losses) && EachNeeded(n0, losses, max)
  }

  lemma NoLosses(nodes: seq<Node>, max: nat)
    ensures NoMoreThanNeeded(nodes, nodes, [], max)
  {
    forall t ensures Lost(nodes, [], t) == 0 {
    }
  }

  /** What tenants within the limit have stored is left alone, and nobody gains anything. */
  ghost predicate OthersKept(n0: seq<Node>, a0: Paths, nodes: seq<Node>, at: Paths, max: nat) {
    && (forall t, p :: Stored(nodes, at, t, p) ==> Stored(n0, a0, t, p))
    && (forall t, p | Used(n0, t) <= max :: Stored(n0, a0, t, p) ==> Stored(nodes, at, t, p))
    && (forall t {:trigger Used(nodes, t)} :: Used(nodes, t) <= Used(n0, t))
  }

  /** What an eviction may have done so far. */
  ghost predicate Evicting(n0: seq<Node>, a0: Paths, nodes: seq<Node>, at: Paths, losses: seq<Loss>, max: nat) {
    && Sound(nodes, at) && Trimmed(n0, nodes)
    && OthersKept(n0, a0, nodes, at, max) && NoMoreThanNeeded(n0, nodes, losses, max)
    && (Recent(n0, a0) ==> Recent(nodes, at) && OldestFirst(n0, nodes))
  }

  lemma DropAllUsed(nodes: seq<Node>, at: Paths, id: nat, t: Tenant)
    requires CanDrop(nodes, at, id, t)
    ensures forall t' {:trigger Used(Drop(nodes, id, t), t')} ::
            Used(Drop(nodes, id, t), t') == Used(nodes, t') - if t' == t then |nodes[id].text| else 0
  {
    forall t' ensures Used(Drop(nodes, id, t), t') == Used(nodes, t') - if t' == t then |nodes[id].text| else 0 {
      DropUsed(nodes, at, id, t, t');
    }
  }

  lemma EvictTrims(n0: seq<Node>, nodes: seq<Node>, at: Paths, id: nat, t: Tenant)
    requires Trimmed(n0, nodes) && CanDrop(nodes, at, id, t)
    ensures Trimmed(n0, Drop(nodes, id, t)) && Evicted(n0, Drop(nodes, id, t), id, t)
    ensures forall i: nat, t' :: Evicted(n0, nodes, i, t') || (i == id && t' == t) <==>
            Evicted(n0, Drop(nodes, id, t), i, t')
  {
    DropParts(nodes, at, id, t);
  }

  lemma EvictKeepsOthers(n0: seq<Node>, a0: Paths, nodes: seq<Node>, at: Paths, max: nat, id: nat, t: Tenant)
    requires OthersKept(n0, a0, nodes, at, max) && CanDrop(nodes, at, id, t) && max < Used(nodes, t)
    ensures OthersKept(n0, a0, Drop(nodes, id, t), DropPaths(nodes, at, id, t), max)
  {
    var nodes', at' := Drop(nodes, id, t), DropPaths(nodes, at, id, t);
    DropAllUsed(nodes, at, id, t);
    forall t', p ensures Stored(nodes', at', t', p) ==> Stored(n0, a0, t', p) {
      DropStores(nodes, at, id, t, t', p);
    }
    forall t', p | Used(n0, t') <= max ensures Stored(n0, a0, t', p) ==> Stored(nodes', at', t', p) {
      assert Used(nodes, t') <= Used(n0, t');
      DropStores(nodes, at, id, t, t', p);
    }
    forall t' ensures Used(nodes', t') <= Used(n0, t') {
      assert Used(nodes, t') <= Used(n0, t');
    }
  }

  lemma OneMoreLoss(n0: seq<Node>, nodes: seq<Node>, at: Paths, losses: seq<Loss>, id: nat, t: Tenant)
    requires Trimmed(n0, nodes) && LossesAre(n0, nodes, losses) && CanDrop(nodes, at, id, t)
    ensures LossesAre(n0, Drop(nodes, id, t), losses + [Loss(id, t)])
  {
    var nodes', losses' := Drop(nodes, id, t), losses + [Loss(id, t)];
    DropAllUsed(nodes, at, id, t);
    EvictTrims(n0, nodes, at, id, t);
    assert losses'[..|losses|] == losses;
    assert !Evicted(n0, nodes, id, t);
    forall t' ensures Used(nodes', t') == Used(n0, t') - Lost(n0, losses', t') {
      assert Used(nodes, t') == Used(n0, t') - Lost(n0, losses, t');
    }
  }

  lemma OneMoreNeeded(n0: seq<Node>, losses: seq<Loss>, max: nat, id: nat, t: Tenant)
    requires EachNeeded(n0, losses, max) && max < Used(n0, t) - Lost(n0, losses, t)
    ensures EachNeeded(n0, losses + [Loss(id, t)], max)
  {
    var losses', n := losses + [Loss(id, t)], |losses|;
    assert losses'[..n] == losses;
    forall k | 0 <= k <= n ensures max < Used(n0, losses'[k].tenant) - Lost(n0, losses'[..k], losses'[k].tenant) {
      assert k < n ==> losses'[..k] == losses[..k];
    }
  }

  lemma EvictIsNeeded(n0: seq<Node>, nodes: seq<Node>, at: Paths, losses: seq<Loss>, max: nat, id: nat, t: Tenant)
    requires Trimmed(n0, nodes) && NoMoreThanNeeded(n0, nodes, losses, max) && CanDrop(nodes, at, id, t)
             && max < Used(nodes, t)
    ensures NoMoreThanNeeded(n0, Drop(nodes, id, t), losses + [Loss(id, t)], max)
  {
    OneMoreLoss(n0, nodes, at, losses, id, t);
    assert Used(nodes, t) == Used(n0, t) - Lost(n0, losses, t);
    OneMoreNeeded(n0, losses, max, id, t);
  }

  /** The oldest queued leaf is the least recently used node of its tenant. */
  lemma OldestLeaf(nodes: seq<Node>, at: Paths, pq: set<Entry>, max: nat, e: Entry, j: nat)
    requires Sound(nodes, at) && Recent(nodes, at) && EntriesOk(nodes, at, pq) && LeavesQueued(nodes, at, pq, max)
    requires e in pq && (forall e' | e' in pq :: e.timestamp <= e'.timestamp) && max < Used(nodes, e.tenant)
    requires j < |nodes| && e.tenant in nodes[j].tenants
    ensures e.timestamp <= nodes[j].tenants[e.tenant]
  {
    assert j in at;
    var leaf := LeafBelow(nodes, at, j, e.tenant);
    assert Entry(nodes[leaf].tenants[e.tenant], e.tenant, leaf) in pq;
  }

  lemma EvictOldestFirst(n0: seq<Node>, nodes: seq<Node>, at: Paths, pq: set<Entry>, max: nat, e: Entry)
    requires Sound(nodes, at) && Recent(nodes, at) && EntriesOk(nodes, at, pq) && LeavesQueued(nodes, at, pq, max)
    requires e in pq && (forall e' | e' in pq :: e.timestamp <= e'.timestamp) && max < Used(nodes, e.tenant)
    requires Trimmed(n0, nodes) && OldestFirst(n0, nodes)
    ensures OldestFirst(n0, Drop(nodes, e.node, e.tenant))
  {
    var nodes' := Drop(nodes, e.node, e.tenant);
    EvictTrims(n0, nodes, at, e.node, e.tenant);
    forall i: nat, j: nat, t | Evicted(n0, nodes', i, t) && j < |nodes'| && t in nodes'[j].tenants
      ensures n0[i].tenants[t] <= nodes'[j].tenants[t]
    {
      DropParts(nodes, at, e.node, e.tenant);
      assert t in nodes[j].tenants && nodes'[j].tenants[t] == nodes[j].tenants[t];
      if i == e.node && t == e.tenant {
        OldestLeaf(nodes, at, pq, max, e, j);
      } else {
        assert Evicted(n0, nodes, i, t);
      }
    }
  }

  /** Taking the oldest entry of a tenant that holds too much keeps all of this. */
  lemma EvictOne(n0: seq<Node>, a0: Paths, nodes: seq<Node>, at: Paths, losses: seq<Loss>, pq: set<Entry>, max: nat,
          e: Entry)
    requires Evicting(n0, a0, nodes, at, losses, max) && EntriesOk(nodes, at, pq) && LeavesQueued(nodes, at, pq, max)
    requires e in pq && (forall e' | e' in pq :: e.timestamp <= e'.timestamp) && max < Used(nodes, e.tenant)
    ensures Evicting(n0, a0, Drop(nodes, e.node, e.tenant), DropPaths(nodes, at, e.node, e.tenant),
              losses + [Loss(e.node, e.tenant)], max)
  {
    DropSound(nodes, at, e.node, e.tenant);
    EvictTrims(n0, nodes, at, e.node, e.tenant);
    EvictKeepsOthers(n0, a0, nodes, at, max, e.node, e.tenant);
    EvictIsNeeded(n0, nodes, at, losses, max, e.node, e.tenant);
    if Recent(n0, a0) {
      DropRecent(nodes, at, e.node, e.tenant);
      EvictOldestFirst(n0, nodes, at, pq, max, e);
    }
  }

  /** The queue after that: without the entry, and with the parent if it has become a leaf. */
  function Requeued(nodes: seq<Node>, pq: set<Entry>, e: Entry): set<Entry>
    requires e.node < |nodes|
  {
    var nodes' := Drop(nodes, e.node, e.tenant);
    var parent := nodes[e.node].parent;
    if parent.Some? && parent.value < |nodes'| && e.tenant in LeafOf(nodes', parent.value) then
      (pq - {e}) + {Entry(nodes'[parent.value].tenants[e.tenant], e.tenant, parent.value)}
    else pq - {e}
  }

  lemma RequeuedOk(nodes: seq<Node>, at: Paths, pq: set<Entry>, e: Entry)
    requires Sound(nodes, at) && EntriesOk(nodes, at, pq) && e in pq
    ensures EntriesOk(Drop(nodes, e.node, e.tenant), DropPaths(nodes, at, e.node, e.tenant), Requeued(nodes, pq, e))
  {
    var nodes', at' := Drop(nodes, e.node, e.tenant), DropPaths(nodes, at, e.node, e.tenant);
    DropParts(nodes, at, e.node, e.tenant);
    assert ParentOk(nodes, at, e.node);
    forall f | f in Requeued(nodes, pq, e)
      ensures IsLeaf(nodes', at', f.node, f.tenant) && f.timestamp == nodes'[f.node].tenants[f.tenant]
    {
      if f in pq && f != e {
        LeafStays(nodes, at, e.node, e.tenant, f.node, f.tenant);
      }
    }
  }

  lemma RequeuedFull(nodes: seq<Node>, at: Paths, pq: set<Entry>, max: nat, e: Entry)
    requires Sound(nodes, at) && EntriesOk(nodes, at, pq) && LeavesQueued(nodes, at, pq, max) && e in pq
    ensures LeavesQueued(Drop(nodes, e.node, e.tenant), DropPaths(nodes, at, e.node, e.tenant), Requeued(nodes, pq, e),
            max)
  {
    var nodes', at' := Drop(nodes, e.node, e.tenant), DropPaths(nodes, at, e.node, e.tenant);
    DropParts(nodes, at, e.node, e.tenant);
    DropAllUsed(nodes, at, e.node, e.tenant);
    forall id: nat, t | IsLeaf(nodes', at', id, t) && max < Used(nodes', t)
      ensures Entry(nodes'[id].tenants[t], t, id) in Requeued(nodes, pq, e)
    {
      if !(t == e.tenant && nodes[e.node].parent == Some(id)) {
        LeafBefore(nodes, at, e.node, e.tenant, id, t);
        assert Entry(nodes[id].tenants[t], t, id) in pq;
      }
    }
  }

  /** With no leaf left in the queue nobody holds too much. */
  lemma NothingQueued(nodes: seq<Node>, at: Paths, max: nat, t: Tenant)
    requires Sound(nodes, at) && LeavesQueued(nodes, at, {}, max)
    ensures Used(nodes, t) <= max
  {
    if max < Used(nodes, t) {
      var id := SomeNode(nodes, t);
      var leaf := LeafBelow(nodes, at, id, t);
    }
  }

  lemma SomeNode(nodes: seq<Node>, t: Tenant) returns (id: nat)
    requires 0 < Used(nodes, t)
    ensures id < |nodes| && t in nodes[id].tenants
  {
    if forall i | 0 <= i < |nodes| :: t !in nodes[i].tenants {
      SumZero(Shares(nodes, t));
    }
    id :| 0 <= id < |nodes| && t in nodes[id].tenants;
  }

  /** Pairs of a node and a tenant; each eviction removes one. */
  ghost function Pairs(nodes: seq<Node>): set<(nat, Tenant)> {
    set i, t | 0 <= i < |nodes| && t in nodes[i].tenants :: (i, t)
  }

  lemma DropShrinks(nodes: seq<Node>, at: Paths, id: nat, t: Tenant)
    requires CanDrop(nodes, at, id, t)
    ensures Pairs(Drop(nodes, id, t)) < Pairs(nodes)
  {
    DropParts(nodes, at, id, t);
    assert (id, t) in Pairs(nodes) && (id, t) !in Pairs(Drop(nodes, id, t));
  }

  // ----- removing a tenant altogether -----

  ghost predicate QueueOk(nodes: seq<Node>, at: Paths, t: Tenant, queue: seq<nat>) {
    && (forall i | 0 <= i < |queue| :: IsLeaf(nodes, at, queue[i], t))
    && (forall i, j | 0 <= i < j < |queue| :: queue[i] != queue[j])
    && (forall id: nat {:trigger IsLeaf(nodes, at, id, t)} | IsLeaf(nodes, at, id, t) :: id in queue)
  }

  /** What the removal of tenant `t` keeps while it works. */
  ghost predicate Leaving(n0: seq<Node>, a0: Paths, nodes: seq<Node>, at: Paths, t: Tenant) {
    && Sound(nodes, at) && Trimmed(n0, nodes) && (Recent(n0, a0) ==> Recent(nodes, at))
    && (forall t', p | t' != t :: Stored(nodes, at, t', p) <==> Stored(n0, a0, t', p))
    && (forall t' {:trigger Used(nodes, t')} | t' != t :: Used(nodes, t') == Used(n0, t'))
  }

  function QueueAfter(nodes: seq<Node>, t: Tenant, queue: seq<nat>): seq<nat>
    requires queue != [] && queue[0] < |nodes|
  {
    var nodes' := Drop(nodes, queue[0], t);
    var parent := nodes[queue[0]].parent;
    if parent.Some? && parent.value < |nodes'| && t in LeafOf(nodes', parent.value) then
      queue[1..] + [parent.value]
    else queue[1..]
  }

  lemma LeaveOne(n0: seq<Node>, a0: Paths, nodes: seq<Node>, at: Paths, t: Tenant, id: nat)
    requires Leaving(n0, a0, nodes, at, t) && IsLeaf(nodes, at, id, t)
    ensures Leaving(n0, a0, Drop(nodes, id, t), DropPaths(nodes, at, id, t), t)
  {
    DropSound(nodes, at, id, t);
    EvictTrims(n0, nodes, at, id, t);
    if Recent(n0, a0) {
      DropRecent(nodes, at, id, t);
    }
    DropAllUsed(nodes, at, id, t);
    forall t', p | t' != t
      ensures Stored(Drop(nodes, id, t), DropPaths(nodes, at, id, t), t', p) <==> Stored(n0, a0, t', p)
    {
      DropStores(nodes, at, id, t, t', p);
    }
  }

  lemma LeaveQueue(nodes: seq<Node>, at: Paths, t: Tenant, queue: seq<nat>)
    requires Sound(nodes, at) && QueueOk(nodes, at, t, queue) && queue != []
    ensures QueueOk(Drop(nodes, queue[0], t), DropPaths(nodes, at, queue[0], t), t, QueueAfter(nodes, t, queue))
  {
    var id := queue[0];
    var nodes', at', queue' := Drop(nodes, id, t), DropPaths(nodes, at, id, t), QueueAfter(nodes, t, queue);
    var parent := nodes[id].parent;
    DropParts(nodes, at, id, t);
    assert ParentOk(nodes, at, id);
    if parent.Some? {
      NotLeafAbove(nodes, at, id, t);
    }
    forall i | 1 <= i < |queue| ensures IsLeaf(nodes', at', queue[i], t) {
      LeafStays(nodes, at, id, t, queue[i], t);
    }
    forall i: nat | IsLeaf(nodes', at', i, t) ensures i in queue' {
      if parent != Some(i) {
        LeafBefore(nodes, at, id, t, i, t);
        assert i in queue[1..];
      }
    }
  }

  lemma NotLeafAbove(nodes: seq<Node>, at: Paths, id: nat, t: Tenant)
    requires Sound(nodes, at) && id in at && id != 0 && t in nodes[id].tenants
    ensures nodes[id].parent.Some? && !IsLeaf(nodes, at, nodes[id].parent.value, t)
  {
    assert ParentOk(nodes, at, id);
    assert nodes[nodes[id].parent.value].children[nodes[id].text[0]] == id;
  }

  /** With no leaf left the tenant has no node. */
  lemma Left(nodes: seq<Node>, at: Paths, t: Tenant)
    requires Sound(nodes, at) && QueueOk(nodes, at, t, [])
    ensures forall i | 0 <= i < |nodes| :: t !in nodes[i].tenants
    ensures Used(nodes, t) == 0
  {
    forall i | 0 <= i < |nodes| ensures t !in nodes[i].tenants {
      if t in nodes[i].tenants {
        var leaf := LeafBelow(nodes, at, i, t);
      }
    }
    SumZero(Shares(nodes, t));
  }
}
