/** What the loops of the prefix tree's operations keep while they work: the descent, the insertion,
    the renewal of access times and the eviction. `RadixTree` has the operations. */
module RadixSteps {
  import opened Common
  import opened RadixNodes
  import opened RadixEviction

  /** `shared_prefix_count`. */
  method SharedPrefixCount(a: string, b: string) returns (n: nat)
    ensures n <= |a| && n <= |b| && a[..n] == b[..n]
    ensures n < |a| && n < |b| ==> a[n] != b[n]
  {
    n := 0;
    while n < |a| && n < |b| && a[n] == b[n]
      invariant n <= |a| && n <= |b| && a[..n] == b[..n]
    {
      n := n + 1;
    }
  }

  /** Some node's path begins with the text; with a tenant, some node of that tenant. */
  ghost predicate Held(nodes: seq<Node>, at: Paths, who: Option<Tenant>, p: string) {
    exists id :: id in at && id < |nodes| && (who.Some? ==> who.value in nodes[id].tenants) && p <= at[id]
  }

  /** No prefix of the text longer than `n` is held. */
  ghost predicate NoLonger(nodes: seq<Node>, at: Paths, who: Option<Tenant>, text: string, n: nat) {
    forall p | p <= text && n < |p| :: !Held(nodes, at, who, p)
  }

  ghost predicate Reached(nodes: seq<Node>, at: Paths, who: Option<Tenant>, text: string, prev: nat, i: nat) {
    Sound(nodes, at) && prev in at && i <= |text| && at[prev] == text[..i]
  }

  /** A longer held prefix passes through the child for the next character. */
  lemma ThroughChild(nodes: seq<Node>, at: Paths, who: Option<Tenant>, text: string, prev: nat, i: nat, p: string)
    requires Reached(nodes, at, who, text, prev, i) && p <= text && i < |p| && Held(nodes, at, who, p)
    ensures text[i] in nodes[prev].children
    ensures var m := nodes[prev].children[text[i]];
      m in at && m < |nodes| && (at[m] <= p || p <= at[m]) && (who.Some? ==> who.value in nodes[m].tenants)
  {
    var id :| id in at && id < |nodes| && (who.Some? ==> who.value in nodes[id].tenants) && p <= at[id];
    assert at[prev] == text[..i] == p[..i] == at[id][..i];
    Below(nodes, at, prev, id);
    assert at[id][i] == p[i] == text[i];
    var m := nodes[prev].children[text[i]];
    if who.Some? {
      Ancestor(nodes, at, m, id, who.value);
    }
  }

  lemma StopsWithoutChild(nodes: seq<Node>, at: Paths, who: Option<Tenant>, text: string, prev: nat, i: nat)
    requires Reached(nodes, at, who, text, prev, i) && i < |text|
    requires text[i] !in nodes[prev].children ||
      (var m := nodes[prev].children[text[i]]; m < |nodes| && who.Some? && who.value !in nodes[m].tenants)
    ensures NoLonger(nodes, at, who, text, i)
  {
    forall p | p <= text && i < |p| ensures !Held(nodes, at, who, p) {
      if Held(nodes, at, who, p) {
        ThroughChild(nodes, at, who, text, prev, i, p);
      }
    }
  }

  lemma StopsInside(nodes: seq<Node>, at: Paths, who: Option<Tenant>, text: string, prev: nat, i: nat, k: nat)
    requires Reached(nodes, at, who, text, prev, i) && i < |text| && text[i] in nodes[prev].children
    requires var m := nodes[prev].children[text[i]];
      && m in at && m < |nodes| && at[m] == at[prev] + nodes[m].text && k < |nodes[m].text| && i + k <= |text|
      && (i + k < |text| ==> nodes[m].text[k] != text[i + k])
    ensures NoLonger(nodes, at, who, text, i + k)
  {
    forall p | p <= text && i + k < |p| ensures !Held(nodes, at, who, p) {
      if Held(nodes, at, who, p) {
        ThroughChild(nodes, at, who, text, prev, i, p);
        assert false;
      }
    }
  }

  /** `after` holds for tenant `t` the prefixes of `s` besides what it held before, and nothing else. */
  ghost predicate Gains(nodes: seq<Node>, at: Paths, nodes': seq<Node>, at': Paths, t: Tenant, s: string) {
    forall t', p :: Stored(nodes', at', t', p) <==> Stored(nodes, at, t', p) || (t' == t && p <= s)
  }

  /** Two gains in a row, the second of a longer text. */
  lemma GainsMore(n0: seq<Node>, a0: Paths, n1: seq<Node>, a1: Paths, n2: seq<Node>, a2: Paths, t: Tenant, s1: string,
          s2: string)
    requires Gains(n0, a0, n1, a1, t, s1) && Gains(n1, a1, n2, a2, t, s2) && s1 <= s2
    ensures Gains(n0, a0, n2, a2, t, s2)
  {
    forall t', p ensures Stored(n2, a2, t', p) <==> Stored(n0, a0, t', p) || (t' == t && p <= s2) {
      assert Stored(n2, a2, t', p) <==> Stored(n1, a1, t', p) || (t' == t && p <= s2);
      assert p <= s1 ==> p <= s2;
    }
  }

  /** Whoever has a node has the root, and so an entry among the counts. */
  lemma HolderIsCounted(nodes: seq<Node>, at: Paths, counts: map<Tenant, int>, id: nat, t: Tenant)
    requires Sound(nodes, at) && id in at && nodes[0].tenants.Keys <= counts.Keys
    ensures t in nodes[id].tenants ==> t in counts
  {
    assert ParentOk(nodes, at, 0);
    if t in nodes[id].tenants {
      Ancestor(nodes, at, 0, id, t);
    }
  }

  /** The count of each tenant is the number of characters in its nodes. */
  ghost predicate Counted(nodes: seq<Node>, counts: map<Tenant, int>) {
    && 0 < |nodes| && nodes[0].tenants.Keys <= counts.Keys
    && forall t {:trigger Used(nodes, t)} :: CountOf(counts, t) == Used(nodes, t)
  }

  function CountOf(counts: map<Tenant, int>, t: Tenant): int { if t in counts then counts[t] else 0 }

  /** `entry(t).and_modify(|count| *count += n).or_insert(n)`. */
  function Plus(counts: map<Tenant, int>, t: Tenant, n: nat): map<Tenant, int> { counts[t := CountOf(counts, t) + n] }

  lemma VisitCounted(nodes: seq<Node>, at: Paths, counts: map<Tenant, int>, id: nat, t: Tenant, now: nat)
    requires Sound(nodes, at) && Counted(nodes, counts) && id in at
    ensures t in nodes[id].tenants ==> Counted(Touch(nodes, id, t, now), counts) && t in counts
    ensures t !in nodes[id].tenants ==> Counted(Touch(nodes, id, t, now), Plus(counts, t, |nodes[id].text|))
  {
    HolderIsCounted(nodes, at, counts, id, t);
    forall t' ensures Used(Touch(nodes, id, t, now), t') ==
      Used(nodes, t') + if t' == t && t !in nodes[id].tenants then |nodes[id].text| else 0
    {
      TouchUsed(nodes, id, t, now, t');
    }
  }

  lemma GrowCounted(nodes: seq<Node>, at: Paths, counts: map<Tenant, int>, q: nat, text: string, t: Tenant, now: nat)
    requires CanAddLeaf(nodes, at, q, text, t) && Counted(nodes, counts)
    ensures Counted(AddLeaf(nodes, q, text, t, now), Plus(counts, t, |text|))
  {
    forall t' ensures Used(AddLeaf(nodes, q, text, t, now), t') == Used(nodes, t') + if t' == t then |text| else 0 {
      AddLeafUsed(nodes, q, text, t, now, t');
    }
  }

  lemma SplitCounted(nodes: seq<Node>, at: Paths, counts: map<Tenant, int>, q: nat, m: nat, k: nat)
    requires CanSplit(nodes, at, q, m, k) && Counted(nodes, counts)
    ensures Counted(Split(nodes, q, m, k), counts)
  {
    SplitParts(nodes, at, q, m, k);
    forall t ensures Used(Split(nodes, q, m, k), t) == Used(nodes, t) {
      SplitUsed(nodes, q, m, k, t);
    }
  }

  // ----- access times -----

  /** The tenant has been seen at every node on the way to `s`, and no other access time has changed. */
  ghost predicate Accessed(n0: seq<Node>, a0: Paths, nodes: seq<Node>, at: Paths, t: Tenant, now: nat, s: string) {
    && (forall id | id in a0 :: id in at)
    && (forall id {:trigger AccessedAt(n0, a0, nodes, at, t, now, s, id)} | id in at ::
         AccessedAt(n0, a0, nodes, at, t, now, s, id))
  }

  ghost predicate AccessedAt(n0: seq<Node>, a0: Paths, nodes: seq<Node>, at: Paths, t: Tenant, now: nat, s: string,
          id: nat)
    requires id in at
  {
    id < |nodes| &&
    if id in a0 then
      id < |n0| && at[id] == a0[id]
          && nodes[id].tenants == if at[id] <= s then n0[id].tenants[t := now] else n0[id].tenants
    else at[id] <= s && t in nodes[id].tenants && nodes[id].tenants[t] == now
  }

  lemma RootAccessed(nodes: seq<Node>, at: Paths, t: Tenant, now: nat)
    requires Sound(nodes, at)
    ensures Accessed(nodes, at, Touch(nodes, 0, t, now), at, t, now, "")
  {
    assert ParentOk(nodes, at, 0);
    forall id | id in at ensures AccessedAt(nodes, at, Touch(nodes, 0, t, now), at, t, now, "", id) {
      if at[id] <= "" {
        Unique(nodes, at, 0, id);
      }
    }
  }

  lemma GrowAccessed(n0: seq<Node>, a0: Paths, nodes: seq<Node>, at: Paths, q: nat, text: string, t: Tenant, now: nat)
    requires CanAddLeaf(nodes, at, q, text, t) && Accessed(n0, a0, nodes, at, t, now, at[q])
    ensures Accessed(n0, a0, AddLeaf(nodes, q, text, t, now), at[|nodes| := at[q] + text], t, now, at[q] + text)
  {
    var at' := at[|nodes| := at[q] + text];
    forall id | id in at' ensures AccessedAt(n0, a0, AddLeaf(nodes, q, text, t, now), at', t, now, at[q] + text, id) {
      if id in at {
        assert AccessedAt(n0, a0, nodes, at, t, now, at[q], id);
        NoneInRest(nodes, at, q, text, t, id);
      }
    }
  }

  /** No node lies on the way from `q` along a text for which it has no child. */
  lemma NoneInRest(nodes: seq<Node>, at: Paths, q: nat, text: string, t: Tenant, id: nat)
    requires CanAddLeaf(nodes, at, q, text, t) && id in at
    ensures id < |nodes| && (at[id] <= at[q] + text <==> at[id] <= at[q])
  {
    if at[id] <= at[q] + text && |at[q]| < |at[id]| {
      assert at[q] == (at[q] + text)[..|at[q]|] == at[id][..|at[q]|];
      Below(nodes, at, q, id);
    }
  }

  lemma VisitAccessed(n0: seq<Node>, a0: Paths, nodes: seq<Node>, at: Paths, q: nat, m: nat, t: Tenant, now: nat)
    requires Sound(nodes, at) && q in at && m in at && m != 0 && nodes[m].parent == Some(q)
    requires Accessed(n0, a0, nodes, at, t, now, at[q])
    ensures Accessed(n0, a0, Touch(nodes, m, t, now), at, t, now, at[m])
  {
    assert ParentOk(nodes, at, m);
    forall id | id in at ensures AccessedAt(n0, a0, Touch(nodes, m, t, now), at, t, now, at[m], id) {
      assert AccessedAt(n0, a0, nodes, at, t, now, at[q], id);
      if id != m && at[id] <= at[m] && |at[q]| < |at[id]| {
        assert at[q] == at[m][..|at[q]|] == at[id][..|at[q]|];
        OnTheWay(nodes, at, m, m, id);
      }
    }
  }

  lemma SplitAccessed(n0: seq<Node>, a0: Paths, nodes: seq<Node>, at: Paths, q: nat, m: nat, k: nat, t: Tenant,
          now: nat)
    requires CanSplit(nodes, at, q, m, k) && Accessed(n0, a0, nodes, at, t, now, at[q])
    ensures |Split(nodes, q, m, k)| == |nodes| + 1
    ensures Accessed(n0, a0, Touch(Split(nodes, q, m, k), |nodes|, t, now), SplitPaths(nodes, at, q, m, k), t, now,
              at[q] + nodes[m].text[..k])
  {
    SplitParts(nodes, at, q, m, k);
    forall id | id in SplitPaths(nodes, at, q, m, k)
      ensures AccessedAt(n0, a0, Touch(Split(nodes, q, m, k), |nodes|, t, now), SplitPaths(nodes, at, q, m, k), t, now,
                at[q] + nodes[m].text[..k], id)
    {
      if id in at {
        assert AccessedAt(n0, a0, nodes, at, t, now, at[q], id);
        NoneInSplit(nodes, at, q, m, k, id);
      }
    }
  }

  lemma NoneInSplit(nodes: seq<Node>, at: Paths, q: nat, m: nat, k: nat, id: nat)
    requires CanSplit(nodes, at, q, m, k) && id in at
    ensures id < |nodes| && (at[id] <= at[q] + nodes[m].text[..k] <==> at[id] <= at[q])
  {
    SplitParts(nodes, at, q, m, k);
    var s := at[q] + nodes[m].text[..k];
    if at[id] <= s && |at[q]| < |at[id]| {
      assert at[q] == s[..|at[q]|] == at[id][..|at[q]|];
      assert at[id] < at[m];
      NotBetween(nodes, at, q, id, m);
    }
  }

  /** The same tree with the same tenants everywhere; only access times may differ. */
  ghost predicate SameButTimes(nodes: seq<Node>, nodes': seq<Node>) {
    && |nodes'| == |nodes|
    && forall i | 0 <= i < |nodes| ::
         nodes'[i].text == nodes[i].text && nodes'[i].children == nodes[i].children
             && nodes'[i].parent == nodes[i].parent
         && nodes'[i].tenants.Keys == nodes[i].tenants.Keys
  }

  /** Renewed from `node` up to, and without, `current`. */
  ghost predicate Renewed(n0: seq<Node>, nodes: seq<Node>, at: Paths, node: nat, t: Tenant, now: nat,
          current: Option<nat>)
  {
    && |n0| == |nodes| && node in at && (current.Some? ==> current.value in at)
    && forall id | id in at :: id < |nodes| && nodes[id] ==
         if at[id] <= at[node] && (current.None? || at[current.value] < at[id]) then
           n0[id].(tenants := n0[id].tenants[t := now])
         else n0[id]
  }

  lemma RenewOneMore(n0: seq<Node>, nodes: seq<Node>, at: Paths, node: nat, t: Tenant, now: nat, id: nat)
    requires Sound(nodes, at) && id in at && Renewed(n0, nodes, at, node, t, now, Some(id)) && at[id] <= at[node]
    ensures Renewed(n0, Touch(nodes, id, t, now), at, node, t, now, nodes[id].parent)
  {
    var nodes', parent := Touch(nodes, id, t, now), nodes[id].parent;
    assert ParentOk(nodes, at, id);
    forall i | i in at
      ensures nodes'[i] ==
              if at[i] <= at[node] && (parent.None? || at[parent.value] < at[i]) then
                n0[i].(tenants := n0[i].tenants[t := now])
              else n0[i]
    {
      if i != id && at[i] <= at[node] {
        OnTheWay(nodes, at, node, id, i);
      }
    }
  }

  /** What holds each time the loop of `TouchUp` comes around; `last` is the node renewed last. */
  ghost predicate Rising(n0: seq<Node>, nodes: seq<Node>, at: Paths, node: nat, t: Tenant, now: nat,
          current: Option<nat>, last: nat, timely: bool)
  {
    && Sound(nodes, at) && SameButTimes(n0, nodes) && Renewed(n0, nodes, at, node, t, now, current) && last in at
    && (current.None? ==> last == 0)
    && (current.Some? ==>
          && at[current.value] <= at[node] && t in nodes[current.value].tenants
          && (last == current.value || nodes[last].parent == current))
    && (timely ==> NotAfter(nodes, now) && RecentBut(nodes, at, last, t))
  }

  lemma Rise(n0: seq<Node>, nodes: seq<Node>, at: Paths, node: nat, t: Tenant, now: nat, id: nat, last: nat,
          timely: bool)
    requires Rising(n0, nodes, at, node, t, now, Some(id), last, timely)
    ensures Rising(n0, Touch(nodes, id, t, now), at, node, t, now, nodes[id].parent, id, timely)
    ensures nodes[id].parent.Some? ==> nodes[id].parent.value in at && |at[nodes[id].parent.value]| < |at[id]|
  {
    assert ParentOk(nodes, at, id);
    if timely {
      TouchUpRecent(nodes, at, last, id, t, now);
    }
    TouchSound(nodes, at, id, t, now);
    RenewOneMore(n0, nodes, at, node, t, now, id);
  }

  /** Of the nodes on the way to `node`, those below the parent of `id` are `id` and those below it. */
  lemma OnTheWay(nodes: seq<Node>, at: Paths, node: nat, id: nat, i: nat)
    requires Sound(nodes, at) && node in at && id in at && i in at && i != id && at[id] <= at[node] && at[i] <= at[node]
    ensures id == 0 ==> at[id] < at[i]
    ensures id != 0 ==>
              && nodes[id].parent.Some? && nodes[id].parent.value in at
              && (at[nodes[id].parent.value] < at[i] <==> at[id] < at[i])
  {
    assert ParentOk(nodes, at, id);
    if at[i] == at[id] {
      Unique(nodes, at, i, id);
    }
    if id != 0 {
      NotBetween(nodes, at, nodes[id].parent.value, i, id);
    }
  }

  lemma TimesOnly(nodes: seq<Node>, at: Paths, counts: map<Tenant, int>, nodes': seq<Node>)
    requires SameButTimes(nodes, nodes') && Counted(nodes, counts) && forall id | id in at :: id < |nodes|
    ensures Counted(nodes', counts)
    ensures forall t, p :: Stored(nodes', at, t, p) <==> Stored(nodes, at, t, p)
  {
    forall t ensures Used(nodes', t) == Used(nodes, t) {
      assert Shares(nodes', t) == Shares(nodes, t);
    }
    assert nodes'[0].tenants.Keys == nodes[0].tenants.Keys;
    forall t, p ensures Stored(nodes', at, t, p) <==> Stored(nodes, at, t, p) {
      if Stored(nodes, at, t, p) {
        var i :| i in at && i < |nodes| && t in nodes[i].tenants && p <= at[i];
        assert t in nodes'[i].tenants.Keys;
      }
      if Stored(nodes', at, t, p) {
        var i :| i in at && i < |nodes'| && t in nodes'[i].tenants && p <= at[i];
        assert t in nodes[i].tenants.Keys;
      }
    }
  }

  lemma StoredIsHeld(nodes: seq<Node>, at: Paths, who: Option<Tenant>, text: string, len: nat)
    requires NoLonger(nodes, at, who, text, len)
    ensures forall t, p | p <= text && Stored(nodes, at, t, p) && (who == None || who == Some(t)) :: |p| <= len
  {
    forall t, p | p <= text && Stored(nodes, at, t, p) && (who == None || who == Some(t)) ensures |p| <= len {
      assert Held(nodes, at, who, p);
    }
  }

  /** The node in which a text ends. */
  ghost predicate EndsAt(nodes: seq<Node>, at: Paths, node: nat, p: string) {
    && node in at && node < |nodes| && p <= at[node]
    && if node == 0 then p == "" else |at[node]| < |p| + |nodes[node].text|
  }

  lemma RootHolds(nodes: seq<Node>, at: Paths, t: Tenant)
    requires Sound(nodes, at)
    ensures Stored(nodes, at, t, "") <==> t in nodes[0].tenants
    ensures forall id | id in at && t in nodes[id].tenants :: t in nodes[0].tenants
  {
    assert ParentOk(nodes, at, 0);
    forall id | id in at && t in nodes[id].tenants ensures t in nodes[0].tenants {
      Ancestor(nodes, at, 0, id, t);
    }
    if t in nodes[0].tenants {
      assert "" <= at[0];
    }
  }

  /** If the root belongs to no one, nothing is stored. */
  lemma RootHasAll(nodes: seq<Node>, at: Paths)
    requires Sound(nodes, at)
    ensures nodes[0].tenants == map[] ==> forall t, p :: !Stored(nodes, at, t, p)
  {
    assert ParentOk(nodes, at, 0);
    if nodes[0].tenants == map[] {
      forall t, p ensures !Stored(nodes, at, t, p) {
        if Stored(nodes, at, t, p) {
          var i :| i in at && i < |nodes| && t in nodes[i].tenants && p <= at[i];
          Ancestor(nodes, at, 0, i, t);
        }
      }
    }
  }

  lemma DropCounted(nodes: seq<Node>, at: Paths, counts: map<Tenant, int>, id: nat, t: Tenant)
    requires CanDrop(nodes, at, id, t) && Counted(nodes, counts) && t in counts
    ensures Counted(Drop(nodes, id, t), counts[t := counts[t] - |nodes[id].text|])
  {
    DropAllUsed(nodes, at, id, t);
    DropParts(nodes, at, id, t);
    assert CountOf(counts, t) == Used(nodes, t);
    forall t' ensures CountOf(counts[t := counts[t] - |nodes[id].text|], t') == Used(Drop(nodes, id, t), t') {
      assert CountOf(counts, t') == Used(nodes, t');
    }
  }

  /** The eviction at work: the tree, the counts, the queue and the losses so far. */
  datatype Work = Work(nodes: seq<Node>, at: Paths, counts: map<Tenant, int>, pq: set<Entry>, losses: seq<Loss>)

  /** What holds each time the loop of the eviction comes around. */
  ghost predicate Working(n0: seq<Node>, a0: Paths, w: Work, max: nat) {
    && Evicting(n0, a0, w.nodes, w.at, w.losses, max) && Counted(w.nodes, w.counts)
    && EntriesOk(w.nodes, w.at, w.pq) && LeavesQueued(w.nodes, w.at, w.pq, max)
  }

  lemma NothingDone(w: Work, max: nat)
    requires Sound(w.nodes, w.at) && Counted(w.nodes, w.counts) && w.losses == []
    requires EntriesOk(w.nodes, w.at, w.pq) && LeavesQueued(w.nodes, w.at, w.pq, 0)
    ensures Working(w.nodes, w.at, w, max)
  {
    NoLosses(w.nodes, max);
  }

  lemma AllDone(n0: seq<Node>, a0: Paths, w: Work, max: nat)
    requires Working(n0, a0, w, max) && w.pq == {}
    ensures forall t | t in w.counts :: w.counts[t] <= max
  {
    forall t | t in w.counts ensures w.counts[t] <= max {
      NothingQueued(w.nodes, w.at, max, t);
      assert CountOf(w.counts, t) == Used(w.nodes, t);
    }
  }

  lemma EntryIsCounted(n0: seq<Node>, a0: Paths, w: Work, max: nat, e: Entry)
    requires Working(n0, a0, w, max) && e in w.pq
    ensures IsLeaf(w.nodes, w.at, e.node, e.tenant) && e.tenant in w.counts
            && w.counts[e.tenant] == Used(w.nodes, e.tenant)
  {
    HolderIsCounted(w.nodes, w.at, w.counts, e.node, e.tenant);
    assert CountOf(w.counts, e.tenant) == Used(w.nodes, e.tenant);
  }

  ghost predicate IsOldest(pq: set<Entry>, e: Entry) { e in pq && forall e' | e' in pq :: e.timestamp <= e'.timestamp }

  /** The work after one pass through the loop, with entry `e` at the top of the queue. */
  ghost function Next(w: Work, max: nat, e: Entry): Work
    requires e.node < |w.nodes| && e.tenant in w.counts
  {
    if w.counts[e.tenant] <= max then w.(pq := w.pq - {e}) else Dropped(w, e)
  }

  ghost function Dropped(w: Work, e: Entry): Work
    requires e.node < |w.nodes| && e.tenant in w.counts
  {
    Work(Drop(w.nodes, e.node, e.tenant), DropPaths(w.nodes, w.at, e.node, e.tenant),
         w.counts[e.tenant := w.counts[e.tenant] - |w.nodes[e.node].text|], Requeued(w.nodes, w.pq, e),
         w.losses + [Loss(e.node, e.tenant)])
  }

  lemma EvictStep(n0: seq<Node>, a0: Paths, w: Work, max: nat, e: Entry)
    requires CanTake(n0, a0, w, max, e)
    ensures Working(n0, a0, Dropped(w, e), max)
  {
    TreeKept(n0, a0, w, max, e);
    CountsKept(n0, a0, w, max, e);
    QueueKept(w.nodes, w.at, w.pq, max, e);
  }

  /** Entry `e` is the next to go, and its tenant holds too much. */
  ghost predicate CanTake(n0: seq<Node>, a0: Paths, w: Work, max: nat, e: Entry) {
    && Working(n0, a0, w, max) && IsOldest(w.pq, e) && IsLeaf(w.nodes, w.at, e.node, e.tenant)
    && e.tenant in w.counts && max < w.counts[e.tenant] == Used(w.nodes, e.tenant)
  }

  lemma TreeKept(n0: seq<Node>, a0: Paths, w: Work, max: nat, e: Entry)
    requires CanTake(n0, a0, w, max, e)
    ensures var w' := Dropped(w, e); Evicting(n0, a0, w'.nodes, w'.at, w'.losses, max)
  {
    EvictOne(n0, a0, w.nodes, w.at, w.losses, w.pq, max, e);
  }

  lemma CountsKept(n0: seq<Node>, a0: Paths, w: Work, max: nat, e: Entry)
    requires CanTake(n0, a0, w, max, e)
    ensures var w' := Dropped(w, e); Counted(w'.nodes, w'.counts)
  {
    DropCounted(w.nodes, w.at, w.counts, e.node, e.tenant);
  }

  lemma QueueKept(nodes: seq<Node>, at: Paths, pq: set<Entry>, max: nat, e: Entry)
    requires Sound(nodes, at) && EntriesOk(nodes, at, pq) && LeavesQueued(nodes, at, pq, max) && e in pq
    ensures var nodes', at' := Drop(nodes, e.node, e.tenant), DropPaths(nodes, at, e.node, e.tenant);
      EntriesOk(nodes', at', Requeued(nodes, pq, e)) && LeavesQueued(nodes', at', Requeued(nodes, pq, e), max)
  {
    RequeuedOk(nodes, at, pq, e);
    RequeuedFull(nodes, at, pq, max, e);
  }

  lemma NextStep(n0: seq<Node>, a0: Paths, w: Work, max: nat, e: Entry)
    requires Working(n0, a0, w, max) && IsOldest(w.pq, e)
    ensures e.node < |w.nodes| && e.tenant in w.counts && Working(n0, a0, Next(w, max, e), max)
    ensures Next(w, max, e).counts.Keys == w.counts.Keys
    ensures Pairs(Next(w, max, e).nodes) < Pairs(w.nodes)
            || (Next(w, max, e).nodes == w.nodes && Next(w, max, e).pq < w.pq)
  {
    EntryIsCounted(n0, a0, w, max, e);
    if w.counts[e.tenant] > max {
      EvictStep(n0, a0, w, max, e);
      DropShrinks(w.nodes, w.at, e.node, e.tenant);
    }
  }

  lemma EntriesCounted(n0: seq<Node>, a0: Paths, w: Work, max: nat)
    requires Working(n0, a0, w, max)
    ensures forall e | e in w.pq :: e.node < |w.nodes| && e.tenant in w.counts
  {
    forall e | e in w.pq ensures e.node < |w.nodes| && e.tenant in w.counts {
      EntryIsCounted(n0, a0, w, max, e);
    }
  }

  lemma Gone(n0: seq<Node>, a0: Paths, counts: map<Tenant, int>, nodes: seq<Node>, at: Paths, t: Tenant)
    requires Leaving(n0, a0, nodes, at, t) && QueueOk(nodes, at, t, []) && Sound(n0, a0) && Counted(n0, counts)
    ensures Counted(nodes, counts - {t})
    ensures forall t', p :: Stored(nodes, at, t', p) <==> Stored(n0, a0, t', p) && t' != t
  {
    Left(nodes, at, t);
    assert ParentOk(nodes, at, 0);
    forall t' | t' in nodes[0].tenants ensures t' in counts - {t} {
      assert Stored(nodes, at, t', "");
      var i :| i in a0 && i < |n0| && t' in n0[i].tenants && "" <= a0[i];
      HolderIsCounted(n0, a0, counts, i, t');
    }
    forall t' ensures CountOf(counts - {t}, t') == Used(nodes, t') {
      assert CountOf(counts, t') == Used(n0, t');
    }
  }

  // ----- the loop of the insertion -----

  /** What is inserted when, and the tree and counts before; `timely` if access times are in order. */
  datatype Insertion = Insertion(n0: seq<Node>, a0: Paths, c0: map<Tenant, int>, text: string, t: Tenant, now: nat,
            timely: bool)

  function CountVisit(nodes: seq<Node>, counts: map<Tenant, int>, id: nat, t: Tenant): map<Tenant, int>
    requires id < |nodes|
  {
    if t in nodes[id].tenants then counts else Plus(counts, t, |nodes[id].text|)
  }

  /** What holds of tree and counts each time the loop comes around with node `prev` and index `i`. */
  ghost predicate Inserting(x: Insertion, nodes: seq<Node>, at: Paths, counts: map<Tenant, int>, prev: nat, i: nat) {
    && Counted(nodes, counts) && Reached(nodes, at, None, x.text, prev, i)
    && x.t in nodes[prev].tenants && nodes[prev].tenants[x.t] == x.now
    && Gains(x.n0, x.a0, nodes, at, x.t, x.text[..i])
    && Accessed(x.n0, x.a0, nodes, at, x.t, x.now, x.text[..i])
    && (x.timely ==> Recent(nodes, at) && NotAfter(nodes, x.now))
    && OnlyCountOf(x.c0, counts, x.t)
  }

  ghost predicate OnlyCountOf(c0: map<Tenant, int>, counts: map<Tenant, int>, t: Tenant) {
    && counts.Keys == c0.Keys + {t}
    && forall t' | t' in c0 && t' != t :: counts[t'] == c0[t']
  }

  lemma StartsInserting(x: Insertion)
    requires Sound(x.n0, x.a0) && Counted(x.n0, x.c0) && (x.timely ==> Recent(x.n0, x.a0) && NotAfter(x.n0, x.now))
    ensures Inserting(x, Touch(x.n0, 0, x.t, x.now), x.a0, CountVisit(x.n0, x.c0, 0, x.t), 0, 0)
  {
    assert ParentOk(x.n0, x.a0, 0);
    VisitCounted(x.n0, x.a0, x.c0, 0, x.t, x.now);
    TouchSound(x.n0, x.a0, 0, x.t, x.now);
    TouchStores(x.n0, x.a0, 0, x.t, x.now);
    RootAccessed(x.n0, x.a0, x.t, x.now);
    if x.timely {
      TouchRecent(x.n0, x.a0, 0, x.t, x.now);
    }
  }

  /** No child for the next character: a new leaf takes the rest of the text. */
  lemma GrowStep(x: Insertion, nodes: seq<Node>, at: Paths, counts: map<Tenant, int>, q: nat, i: nat)
    requires Inserting(x, nodes, at, counts, q, i) && i < |x.text| && x.text[i] !in nodes[q].children
    ensures Inserting(x, AddLeaf(nodes, q, x.text[i..], x.t, x.now), at[|nodes| := at[q] + x.text[i..]],
              Plus(counts, x.t, |x.text[i..]|), |nodes|, |x.text|)
  {
    var rest := x.text[i..];
    assert x.text[..i] + rest == x.text == x.text[..|x.text|];
    AddLeafSound(nodes, at, q, rest, x.t, x.now);
    GrowGains(x, nodes, at, q, i);
    GrowCounted(nodes, at, counts, q, rest, x.t, x.now);
    GrowAccessed(x.n0, x.a0, nodes, at, q, rest, x.t, x.now);
    if x.timely {
      AddLeafRecent(nodes, at, q, rest, x.t, x.now);
    }
  }

  lemma AddLeafGains(nodes: seq<Node>, at: Paths, q: nat, text: string, t: Tenant, now: nat)
    requires CanAddLeaf(nodes, at, q, text, t)
    ensures Gains(nodes, at, AddLeaf(nodes, q, text, t, now), at[|nodes| := at[q] + text], t, at[q] + text)
  {
    var nodes', at' := AddLeaf(nodes, q, text, t, now), at[|nodes| := at[q] + text];
    forall t', p ensures Stored(nodes', at', t', p) <==> Stored(nodes, at, t', p) || (t' == t && p <= at[q] + text) {
      AddLeafStores(nodes, at, q, text, t, now, t', p);
    }
  }

  lemma GrowGains(x: Insertion, nodes: seq<Node>, at: Paths, q: nat, i: nat)
    requires i < |x.text| && CanAddLeaf(nodes, at, q, x.text[i..], x.t) && at[q] == x.text[..i]
    requires Gains(x.n0, x.a0, nodes, at, x.t, x.text[..i])
    ensures Gains(x.n0, x.a0, AddLeaf(nodes, q, x.text[i..], x.t, x.now), at[|nodes| := at[q] + x.text[i..]], x.t,
            x.text)
  {
    var nodes', at' := AddLeaf(nodes, q, x.text[i..], x.t, x.now), at[|nodes| := at[q] + x.text[i..]];
    assert at[q] + x.text[i..] == x.text && x.text[..i] <= x.text;
    AddLeafGains(nodes, at, q, x.text[i..], x.t, x.now);
    GainsMore(x.n0, x.a0, nodes, at, nodes', at', x.t, x.text[..i], at[q] + x.text[i..]);
  }

  /** The whole text of a child matches. */
  lemma MoveStep(x: Insertion, nodes: seq<Node>, at: Paths, counts: map<Tenant, int>, q: nat, i: nat, m: nat)
    requires Inserting(x, nodes, at, counts, q, i) && m in at && m != 0 && m < |nodes| && nodes[m].parent == Some(q)
    requires i + |nodes[m].text| <= |x.text| && at[m] == x.text[..i + |nodes[m].text|]
    ensures Inserting(x, Touch(nodes, m, x.t, x.now), at, CountVisit(nodes, counts, m, x.t), m, i + |nodes[m].text|)
  {
    VisitCounted(nodes, at, counts, m, x.t, x.now);
    TouchSound(nodes, at, m, x.t, x.now);
    TouchStores(nodes, at, m, x.t, x.now);
    VisitAccessed(x.n0, x.a0, nodes, at, q, m, x.t, x.now);
    GainsMore(x.n0, x.a0, nodes, at, Touch(nodes, m, x.t, x.now), at, x.t, x.text[..i], at[m]);
    if x.timely {
      TouchRecent(nodes, at, m, x.t, x.now);
    }
  }

  /** Only the first `k` characters of a child match: it is split, and the new node visited. */
  lemma SplitStep(x: Insertion, nodes: seq<Node>, at: Paths, counts: map<Tenant, int>, q: nat, i: nat, m: nat, k: nat)
    requires Inserting(x, nodes, at, counts, q, i) && CanSplit(nodes, at, q, m, k)
    requires i + k <= |x.text| && at[q] + nodes[m].text[..k] == x.text[..i + k]
    ensures |Split(nodes, q, m, k)| == |nodes| + 1
    ensures Inserting(x, Touch(Split(nodes, q, m, k), |nodes|, x.t, x.now), SplitPaths(nodes, at, q, m, k),
              CountVisit(Split(nodes, q, m, k), counts, |nodes|, x.t), |nodes|, i + k)
  {
    var n, nodes', at' := |nodes|, Split(nodes, q, m, k), SplitPaths(nodes, at, q, m, k);
    SplitParts(nodes, at, q, m, k);
    SplitSound(nodes, at, q, m, k);
    SplitCounted(nodes, at, counts, q, m, k);
    VisitCounted(nodes', at', counts, n, x.t, x.now);
    TouchSound(nodes', at', n, x.t, x.now);
    SplitAccessed(x.n0, x.a0, nodes, at, q, m, k, x.t, x.now);
    SplitGains(x, nodes, at, counts, q, i, m, k);
    if x.timely {
      SplitRecent(nodes, at, q, m, k, x.now);
      TouchRecent(nodes', at', n, x.t, x.now);
    }
  }

  lemma SplitGains(x: Insertion, nodes: seq<Node>, at: Paths, counts: map<Tenant, int>, q: nat, i: nat, m: nat, k: nat)
    requires Inserting(x, nodes, at, counts, q, i) && CanSplit(nodes, at, q, m, k)
    requires i + k <= |x.text| && at[q] + nodes[m].text[..k] == x.text[..i + k]
             && |Split(nodes, q, m, k)| == |nodes| + 1
    requires Sound(Split(nodes, q, m, k), SplitPaths(nodes, at, q, m, k))
    ensures Gains(x.n0, x.a0, Touch(Split(nodes, q, m, k), |nodes|, x.t, x.now), SplitPaths(nodes, at, q, m, k), x.t,
            x.text[..i + k])
  {
    var n, nodes', at' := |nodes|, Split(nodes, q, m, k), SplitPaths(nodes, at, q, m, k);
    SplitStores(nodes, at, q, m, k);
    TouchStores(nodes', at', n, x.t, x.now);
    assert Gains(nodes, at, Touch(nodes', n, x.t, x.now), at', x.t, x.text[..i + k]);
    GainsMore(x.n0, x.a0, nodes, at, Touch(nodes', n, x.t, x.now), at', x.t, x.text[..i], x.text[..i + k]);
  }

  /** The insertion at work. */
  datatype InsertWork = InsertWork(nodes: seq<Node>, at: Paths, counts: map<Tenant, int>, prev: nat, i: nat)

  /** What one pass through the loop does, `k` being the length of the match with the child. */
  ghost predicate Inserted(w: InsertWork, text: string, t: Tenant, now: nat, k: nat, w': InsertWork) {
    && Sound(w.nodes, w.at) && w.prev in w.at && w.i < |text|
    && if text[w.i] !in w.nodes[w.prev].children then
         w' == InsertWork(AddLeaf(w.nodes, w.prev, text[w.i..], t, now), w.at[|w.nodes| := w.at[w.prev] + text[w.i..]],
                      Plus(w.counts, t, |text[w.i..]|), |w.nodes|, |text|)
       else
         var m := w.nodes[w.prev].children[text[w.i]];
         && m in w.at && m < |w.nodes| && 0 < k <= |w.nodes[m].text| && w.i + k <= |text|
         && w.nodes[m].text[..k] == text[w.i..w.i + k]
         && if k < |w.nodes[m].text| then
              CanSplit(w.nodes, w.at, w.prev, m, k) &&
              var s := Split(w.nodes, w.prev, m, k);
              |w.nodes| < |s| &&
              w' == InsertWork(Touch(s, |w.nodes|, t, now), SplitPaths(w.nodes, w.at, w.prev, m, k),
                           CountVisit(s, w.counts, |w.nodes|, t), |w.nodes|, w.i + k)
            else w' == InsertWork(Touch(w.nodes, m, t, now), w.at, CountVisit(w.nodes, w.counts, m, t), m, w.i + k)
  }

  lemma InsertedKeeps(x: Insertion, w: InsertWork, k: nat, w': InsertWork)
    requires Inserting(x, w.nodes, w.at, w.counts, w.prev, w.i) && Inserted(w, x.text, x.t, x.now, k, w')
    ensures Inserting(x, w'.nodes, w'.at, w'.counts, w'.prev, w'.i) && w.i < w'.i
  {
    if x.text[w.i] !in w.nodes[w.prev].children {
      GrowStep(x, w.nodes, w.at, w.counts, w.prev, w.i);
    } else {
      var m := w.nodes[w.prev].children[x.text[w.i]];
      assert ChildOk(w.nodes, w.at, w.prev, x.text[w.i]) && ParentOk(w.nodes, w.at, m);
      assert x.text[..w.i + k] == x.text[..w.i] + x.text[w.i..w.i + k];
      if k < |w.nodes[m].text| {
        SplitStep(x, w.nodes, w.at, w.counts, w.prev, w.i, m, k);
      } else {
        MoveStep(x, w.nodes, w.at, w.counts, w.prev, w.i, m);
      }
    }
  }
}
