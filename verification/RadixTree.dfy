/** The router's prefix tree (`sgl-router/src/tree.rs`) as its callers see it: for each tenant the set
    of texts stored, closed under prefixes. The router calls it under one lock, so operations do not
    overlap. The clock is a parameter; where the code takes any entry of a hash map, so does this. */
module RadixTree {
  import opened Common
  import opened RadixNodes
  import opened RadixEviction
  import opened RadixSteps
  import opened RadixOrder

  class Tree {
    var nodes: seq<Node>
    var tenantCharCount: map<Tenant, int>
    ghost var at: Paths

    ghost predicate Valid()
      reads this
    {
      Sound(nodes, at) && Counted(nodes, tenantCharCount)
    }

    ghost predicate Stores(t: Tenant, p: string)
      reads this
    {
      Stored(nodes, at, t, p)
    }

    constructor ()
      ensures Valid()
      ensures forall t, p :: !Stores(t, p)
      ensures tenantCharCount == map[]
    {
      nodes := [Node("", map[], map[], None)];
      tenantCharCount := map[];
      at := map[0 := ""];
      new;
      forall t ensures Used(nodes, t) == 0 {
        UsedAtFirst(t);
      }
      assert ParentOk(nodes, at, 0);
    }

    /** The descent that the three matching operations share. `len` is the length of the longest prefix
        of the text that is held, and `node` is where it ends. */
    method Walk(text: string, who: Option<Tenant>) returns (node: nat, len: nat)
      requires Sound(nodes, at)
      ensures node in at && node < |nodes| && len <= |text| && text[..len] <= at[node]
      ensures NoLonger(nodes, at, who, text, len)
      ensures if node == 0 then len == 0 else |at[node]| < len + |nodes[node].text|
      ensures node != 0 && who.Some? ==> who.value in nodes[node].tenants
    {
      var prev, currIdx := 0, 0;
      assert ParentOk(nodes, at, 0);
      while currIdx < |text|
        invariant Reached(nodes, at, who, text, prev, currIdx)
        invariant if prev == 0 then currIdx == 0 else |at[prev]| < currIdx + |nodes[prev].text|
        invariant prev != 0 && who.Some? ==> who.value in nodes[prev].tenants
      {
        var firstChar := text[currIdx];
        var curr := prev;
        if firstChar !in nodes[curr].children {
          StopsWithoutChild(nodes, at, who, text, prev, currIdx);
          return prev, currIdx;
        }
        var matched := nodes[curr].children[firstChar];
        assert ChildOk(nodes, at, curr, firstChar) && ParentOk(nodes, at, matched);
        if who.Some? && who.value !in nodes[matched].tenants {
          StopsWithoutChild(nodes, at, who, text, prev, currIdx);
          return prev, currIdx;
        }
        var shared := SharedPrefixCount(nodes[matched].text, text[currIdx..]);
        assert text[..currIdx + shared] == text[..currIdx] + text[currIdx..][..shared];
        if shared == |nodes[matched].text| {
          currIdx := currIdx + shared;
          prev := matched;
        } else {
          StopsInside(nodes, at, who, text, prev, currIdx, shared);
          return matched, currIdx + shared;
        }
      }
      return prev, currIdx;
    }

    // ----- storing a text -----

    /** `insert`: the tenant has stored the text and all its prefixes and was seen now on the way to it;
        nothing else changes for anyone. */
    method Insert(text: string, t: Tenant, now: nat)
      requires Valid()
      modifies this
      ensures Valid()
      ensures forall t', p :: Stores(t', p) <==> old(Stores(t', p)) || (t' == t && p <= text)
      ensures OnlyCountOf(old(tenantCharCount), tenantCharCount, t)
      ensures Accessed(old(nodes), old(at), nodes, at, t, now, text)
      ensures old(Recent(nodes, at) && NotAfter(nodes, now)) ==> Recent(nodes, at) && NotAfter(nodes, now)
    {
      ghost var timely := Recent(nodes, at) && NotAfter(nodes, now);
      ghost var x := Insertion(nodes, at, tenantCharCount, text, t, now, timely);
      StartsInserting(x);
      tenantCharCount := CountVisit(nodes, tenantCharCount, 0, t);
      nodes := Touch(nodes, 0, t, now);
      var prev: nat, currIdx: nat := 0, 0;
      while currIdx < |text|
        invariant Inserting(x, nodes, at, tenantCharCount, prev, currIdx)
      {
        ghost var w, k := InsertWork(nodes, at, tenantCharCount, prev, currIdx), 0;
        prev, currIdx, k := InsertStep(text, t, now, prev, currIdx);
        InsertedKeeps(x, w, k, InsertWork(nodes, at, tenantCharCount, prev, currIdx));
      }
      assert text[..|text|] == text;
    }

    /** One pass through the loop of `insert`: a new leaf, a split, or moving on to the child. */
    method InsertStep(text: string, t: Tenant, now: nat, curr: nat, currIdx: nat)
      returns (prev: nat, next: nat, ghost shared: nat)
      requires Sound(nodes, at) && curr in at && currIdx < |text|
      modifies this
      ensures Inserted(InsertWork(old(nodes), old(at), old(tenantCharCount), curr, currIdx), text, t, now, shared,
                InsertWork(nodes, at, tenantCharCount, prev, next))
    {
      var firstChar := text[currIdx];
      if firstChar !in nodes[curr].children {
        prev, next, shared := |nodes|, |text|, 0;
        at := at[|nodes| := at[curr] + text[currIdx..]];
        tenantCharCount := Plus(tenantCharCount, t, |text[currIdx..]|);
        nodes := AddLeaf(nodes, curr, text[currIdx..], t, now);
      } else {
        var matched := nodes[curr].children[firstChar];
        assert ChildOk(nodes, at, curr, firstChar) && ParentOk(nodes, at, matched);
        var sharedCount := SharedPrefixCount(nodes[matched].text, text[currIdx..]);
        shared, next := sharedCount, currIdx + sharedCount;
        assert text[currIdx..][..sharedCount] == text[currIdx..next];
        if sharedCount < |nodes[matched].text| {
          prev := |nodes|;
          SplitParts(nodes, at, curr, matched, sharedCount);
          at := SplitPaths(nodes, at, curr, matched, sharedCount);
          nodes := Split(nodes, curr, matched, sharedCount);
        } else {
          prev := matched;
        }
        tenantCharCount := CountVisit(nodes, tenantCharCount, prev, t);
        nodes := Touch(nodes, prev, t, now);
      }
    }

    // ----- matching -----

    /** Renews the tenant's access time from a node up to the root. */
    method TouchUp(node: nat, t: Tenant, now: nat)
      requires Valid() && node in at && t in nodes[node].tenants
      modifies this`nodes
      ensures Valid() && SameButTimes(old(nodes), nodes)
      ensures Renewed(old(nodes), nodes, at, node, t, now, None)
      ensures old(Recent(nodes, at) && NotAfter(nodes, now)) ==> Recent(nodes, at) && NotAfter(nodes, now)
    {
      ghost var n0 := nodes;
      ghost var timely := Recent(nodes, at) && NotAfter(nodes, now);
      var current := Some(node);
      ghost var last: nat := node;
      while current.Some?
        invariant Rising(n0, nodes, at, node, t, now, current, last, timely)
        decreases if current.Some? then |at[current.value]| + 1 else 0
      {
        var id := current.value;
        Rise(n0, nodes, at, node, t, now, id, last, timely);
        nodes := Touch(nodes, id, t, now);
        current := nodes[id].parent;
        last := id;
      }
      TimesOnly(n0, at, tenantCharCount, nodes);
    }

    /** `prefix_match`: the longest prefix of the text that anyone has stored, and someone who has. That
        tenant was then seen now at `node`, where the prefix ends, and at every node on the way to it;
        nothing else changes. */
    method PrefixMatch(text: string, now: nat) returns (matched: string, tenant: Tenant, ghost node: nat)
      requires Valid()
      modifies this`nodes
      ensures Valid() && SameButTimes(old(nodes), nodes)
      ensures forall t, p :: Stores(t, p) <==> old(Stores(t, p))
      ensures matched <= text && forall t, p | p <= text && Stores(t, p) :: |p| <= |matched|
      ensures Stores(tenant, matched) || (tenant == "empty" && forall t, p :: !Stores(t, p))
      ensures EndsAt(old(nodes), at, node, matched)
      ensures if tenant == "empty" then nodes == old(nodes) else Renewed(old(nodes), nodes, at, node, tenant, now, None)
      ensures old(Recent(nodes, at) && NotAfter(nodes, now)) ==> Recent(nodes, at) && NotAfter(nodes, now)
    {
      var curr, len := Walk(text, None);
      matched, node := text[..len], curr;
      assert ParentOk(nodes, at, curr);
      if nodes[curr].tenants == map[] {
        tenant := "empty";
        RootHasAll(nodes, at);
        TimesOnly(nodes, at, tenantCharCount, nodes);
      } else {
        tenant :| tenant in nodes[curr].tenants;
        assert Stores(tenant, matched);
        StoredIsHeld(nodes, at, None, text, len);
        TimesOnly(nodes, at, tenantCharCount, nodes);
        if tenant != "empty" {
          ghost var n0 := nodes;
          TouchUp(curr, tenant, now);
          TimesOnly(n0, at, tenantCharCount, nodes);
        }
      }
    }

    /** `prefix_match_tenant`: the longest prefix of the text that the tenant has stored; if it has
        stored anything, it was seen now on the way to that prefix. */
    method PrefixMatchTenant(text: string, t: Tenant, now: nat) returns (matched: string, ghost node: nat)
      requires Valid()
      modifies this`nodes
      ensures Valid() && SameButTimes(old(nodes), nodes)
      ensures forall t', p :: Stores(t', p) <==> old(Stores(t', p))
      ensures matched <= text && (matched != "" ==> Stores(t, matched)) && forall p | p <= text && Stores(t, p) ::
              |p| <= |matched|
      ensures EndsAt(old(nodes), at, node, matched)
      ensures if Stores(t, "") then Renewed(old(nodes), nodes, at, node, t, now, None) else nodes == old(nodes)
      ensures old(Recent(nodes, at) && NotAfter(nodes, now)) ==> Recent(nodes, at) && NotAfter(nodes, now)
    {
      var curr, len := Walk(text, Some(t));
      matched, node := text[..len], curr;
      StoredIsHeld(nodes, at, Some(t), text, len);
      RootHolds(nodes, at, t);
      ghost var n0 := nodes;
      assert matched != "" ==> Stores(t, matched);
      if t in nodes[curr].tenants {
        TouchUp(curr, t, now);
      }
      TimesOnly(n0, at, tenantCharCount, nodes);
    }

    /** `prefix_len_tenant_no_touch`: its length, without renewing anything. */
    method PrefixLenTenantNoTouch(text: string, t: Tenant) returns (len: nat)
      requires Valid()
      ensures len <= |text| && (len > 0 ==> Stores(t, text[..len])) && forall p | p <= text && Stores(t, p) ::
              |p| <= len
    {
      var curr;
      curr, len := Walk(text, Some(t));
      StoredIsHeld(nodes, at, Some(t), text, len);
    }

    // ----- eviction -----

    /** The entries eviction begins with: every leaf of every tenant. */
    method CollectLeaves() returns (pq: set<Entry>)
      requires Valid()
      ensures EntriesOk(nodes, at, pq) && LeavesQueued(nodes, at, pq, 0)
    {
      pq := {};
      for curr := 0 to |nodes|
        invariant EntriesOk(nodes, at, pq)
        invariant forall id: nat, t | id < curr && IsLeaf(nodes, at, id, t) :: Entry(nodes[id].tenants[t], t, id) in pq
      {
        assert curr !in at ==> nodes[curr].tenants == map[];
        pq := pq + set t | t in LeafOf(nodes, curr) :: Entry(nodes[curr].tenants[t], t, curr);
      }
    }

    /** `evict_tenant_by_size`: afterwards no tenant holds more than `maxSize`. Nobody gains anything and
        those within the limit lose nothing; `losses` lists what is taken, in order, and each time the
        tenant still held too much. If access times never grow away from the root, what a tenant loses
        was not used later than anything it keeps. The outcome is that of a run of the loop. */
    method EvictTenantBySize(maxSize: nat) returns (ghost losses: seq<Loss>)
      requires Valid()
      modifies this
      ensures Valid() && Evicting(old(nodes), old(at), nodes, at, losses, maxSize)
      ensures ComesTo(old(nodes), old(at), old(tenantCharCount), maxSize, Work(nodes, at, tenantCharCount, {}, losses))
      ensures tenantCharCount.Keys == old(tenantCharCount.Keys) && forall t | t in tenantCharCount ::
              tenantCharCount[t] <= maxSize
    {
      ghost var n0, a0, c0 := nodes, at, tenantCharCount;
      var pq := CollectLeaves();
      losses := [];
      ghost var w := Work(nodes, at, tenantCharCount, pq, losses);
      StartsRunning(w, maxSize);
      while pq != {}
        invariant w == Work(nodes, at, tenantCharCount, pq, losses) && Running(n0, a0, c0, maxSize, w)
        decreases Pairs(w.nodes), w.pq
      {
        EntriesCounted(n0, a0, w, maxSize);
        ghost var entry;
        entry, pq, losses := EvictNext(pq, maxSize, losses);
        RunsOn(n0, a0, c0, maxSize, w, entry);
        w := Next(w, maxSize, entry);
      }
      AllDone(n0, a0, w, maxSize);
    }

    /** One pass through its loop: the entry with the oldest access time leaves the queue. */
    method EvictNext(pq: set<Entry>, maxSize: nat, ghost losses: seq<Loss>)
      returns (entry: Entry, rest: set<Entry>, ghost after: seq<Loss>)
      requires pq != {} && forall e | e in pq :: e.node < |nodes| && e.tenant in tenantCharCount
      modifies this
      ensures IsOldest(pq, entry)
      ensures Work(nodes, at, tenantCharCount, rest, after) ==
              Next(Work(old(nodes), old(at), old(tenantCharCount), pq, losses), maxSize, entry)
    {
      ghost var oldest := OldestExists(pq);
      entry :| entry in pq && forall e' | e' in pq :: entry.timestamp <= e'.timestamp;
      var tenant, node := entry.tenant, entry.node;
      if tenantCharCount[tenant] <= maxSize {
        rest, after := pq - {entry}, losses;
      } else {
        tenantCharCount := tenantCharCount[tenant := tenantCharCount[tenant] - |nodes[node].text|];
        rest := Requeued(nodes, pq, entry);
        at := DropPaths(nodes, at, node, tenant);
        nodes := Drop(nodes, node, tenant);
        after := losses + [Loss(node, tenant)];
      }
    }

    // ----- removing a tenant -----

    /** `remove_tenant`: the tenant has stored nothing and has no count; everyone else is unaffected. */
    method RemoveTenant(t: Tenant)
      requires Valid()
      modifies this
      ensures Valid() && tenantCharCount == old(tenantCharCount) - {t}
      ensures Trimmed(old(nodes), nodes) && (old(Recent(nodes, at)) ==> Recent(nodes, at))
      ensures forall t', p :: Stores(t', p) <==> old(Stores(t', p)) && t' != t
    {
      ghost var n0, a0 := nodes, at;
      var queue := LeavesOf(t);
      while queue != []
        invariant Leaving(n0, a0, nodes, at, t) && QueueOk(nodes, at, t, queue)
        invariant tenantCharCount == old(tenantCharCount)
        decreases Pairs(nodes)
      {
        var curr := queue[0];
        assert IsLeaf(nodes, at, queue[0], t);
        LeaveOne(n0, a0, nodes, at, t, curr);
        LeaveQueue(nodes, at, t, queue);
        DropShrinks(nodes, at, curr, t);
        queue := QueueAfter(nodes, t, queue);
        at := DropPaths(nodes, at, curr, t);
        nodes := Drop(nodes, curr, t);
      }
      tenantCharCount := tenantCharCount - {t};
      Gone(n0, a0, old(tenantCharCount), nodes, at, t);
    }

    method LeavesOf(t: Tenant) returns (queue: seq<nat>)
      requires Sound(nodes, at)
      ensures QueueOk(nodes, at, t, queue)
    {
      queue := [];
      for curr := 0 to |nodes|
        invariant forall i | 0 <= i < |queue| :: queue[i] < curr && IsLeaf(nodes, at, queue[i], t)
        invariant forall i, j | 0 <= i < j < |queue| :: queue[i] != queue[j]
        invariant forall id: nat | id < curr && IsLeaf(nodes, at, id, t) :: id in queue
      {
        assert curr !in at ==> nodes[curr].tenants == map[];
        if t in LeafOf(nodes, curr) {
          queue := queue + [curr];
        }
      }
    }
  }
}
