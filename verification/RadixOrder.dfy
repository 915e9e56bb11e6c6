/** When eviction from the prefix tree is least recently used: exactly if access times never grow away
    from the root. The order in which the tenants of a tree lose their nodes does not depend on the limit
    or on each other, so a tenant can be stopped right after any one of its losses. */
module RadixOrder {
  import opened Common
  import opened Sums
  import opened RadixNodes
  import opened RadixEviction
  import opened RadixSteps

  // ----- runs of the eviction -----

  /** The entries `es` are taken one after another, each the oldest of the queue at its time. */
  ghost predicate Evicts(w: Work, max: nat, es: seq<Entry>, w': Work)
    decreases |es|
  {
    if es == [] then w' == w else
      && IsOldest(w.pq, es[0]) && es[0].node < |w.nodes| && es[0].tenant in w.counts
      && Evicts(Next(w, max, es[0]), max, es[1..], w')
  }

  lemma {:induction false} EvictsMore(w: Work, max: nat, es: seq<Entry>, w': Work, e: Entry)
    requires Evicts(w, max, es, w') && IsOldest(w'.pq, e) && e.node < |w'.nodes| && e.tenant in w'.counts
    ensures Evicts(w, max, es + [e], Next(w', max, e))
    decreases |es|
  {
    if es == [] {
      assert (es + [e])[1..] == [];
    } else {
      EvictsMore(Next(w, max, es[0]), max, es[1..], w', e);
      assert (es + [e])[1..] == es[1..] + [e];
    }
  }

  lemma {:induction false} EvictsKeeps(n0: seq<Node>, a0: Paths, w: Work, max: nat, es: seq<Entry>, w': Work)
    requires Working(n0, a0, w, max) && Evicts(w, max, es, w')
    ensures Working(n0, a0, w', max)
    decreases |es|
  {
    if es != [] {
      NextStep(n0, a0, w, max, es[0]);
      EvictsKeeps(n0, a0, Next(w, max, es[0]), max, es[1..], w');
    }
  }

  // ----- the order in which one tenant loses its nodes -----

  ghost function Own(nodes: seq<Node>, t: Tenant): set<nat> { set i | 0 <= i < |nodes| && t in nodes[i].tenants }

  /** A node of the set without a child in it. */
  ghost predicate IsTip(nodes: seq<Node>, own: set<nat>, i: nat) {
    i in own && forall j | j in own && j < |nodes| :: nodes[j].parent != Some(i)
  }

  ghost predicate IsOldestTip(nodes: seq<Node>, t: Tenant, own: set<nat>, i: nat) {
    && own <= Own(nodes, t) && IsTip(nodes, own, i)
    && forall j: nat {:trigger IsTip(nodes, own, j)} | IsTip(nodes, own, j) ::
         nodes[i].tenants[t] <= nodes[j].tenants[t]
  }

  /** The nodes `order` go one after another, each the oldest tip of what is left at its time. */
  ghost predicate OldestTips(nodes: seq<Node>, t: Tenant, own: set<nat>, order: seq<nat>)
    decreases |order|
  {
    order == [] || (IsOldestTip(nodes, t, own, order[0]) && OldestTips(nodes, t, own - {order[0]}, order[1..]))
  }

  /** The deepest node of a set is a tip. */
  lemma SomeTip(nodes: seq<Node>, at: Paths, t: Tenant, own: set<nat>) returns (i: nat)
    requires Sound(nodes, at) && own <= Own(nodes, t) && own != {}
    ensures IsTip(nodes, own, i)
  {
    i := Deepest(nodes, at, t, own);
    forall j | j in own && j < |nodes| ensures nodes[j].parent != Some(i) {
      assert ParentOk(nodes, at, j);
    }
  }

  lemma {:induction false} Deepest(nodes: seq<Node>, at: Paths, t: Tenant, own: set<nat>) returns (i: nat)
    requires Sound(nodes, at) && own <= Own(nodes, t) && own != {}
    ensures forall j | j in own :: j in at
    ensures i in own && forall j | j in own :: |at[j]| <= |at[i]|
  {
    i :| i in own;
    if own != {i} {
      assert own - {i} != {};
      var k := Deepest(nodes, at, t, own - {i});
      if |at[i]| < |at[k]| {
        i := k;
      }
    }
  }

  lemma OldestTip(nodes: seq<Node>, at: Paths, t: Tenant, own: set<nat>) returns (i: nat)
    requires Sound(nodes, at) && own <= Own(nodes, t) && own != {}
    ensures IsOldestTip(nodes, t, own, i)
  {
    var k := SomeTip(nodes, at, t, own);
    var tips := set j | j in own && IsTip(nodes, own, j);
    assert k in tips;
    i := OldestOf(nodes, t, tips);
  }

  lemma {:induction false} OldestOf(nodes: seq<Node>, t: Tenant, tips: set<nat>) returns (i: nat)
    requires tips <= Own(nodes, t) && tips != {}
    ensures i in tips && forall j | j in tips :: nodes[i].tenants[t] <= nodes[j].tenants[t]
  {
    i :| i in tips;
    if tips != {i} {
      assert tips - {i} != {};
      var k := OldestOf(nodes, t, tips - {i});
      if nodes[k].tenants[t] < nodes[i].tenants[t] {
        i := k;
      }
    }
  }

  /** Any node goes some time, and its parent not before it. */
  lemma {:induction false} OrderUpTo(nodes: seq<Node>, at: Paths, t: Tenant, own: set<nat>, c: nat, p: nat)
    returns (order: seq<nat>)
    requires Sound(nodes, at) && own <= Own(nodes, t) && c in own && p in own && nodes[c].parent == Some(p)
    ensures OldestTips(nodes, t, own, order) && order != [] && order[|order| - 1] == c && p !in order
    decreases |own|
  {
    var i := OldestTip(nodes, at, t, own);
    if i == c {
      assert ParentOk(nodes, at, c);
      order := [c];
    } else {
      var rest := OrderUpTo(nodes, at, t, own - {i}, c, p);
      order := [i] + rest;
      assert order[1..] == rest;
    }
  }

  // ----- stopping there -----

  predicate Among(nodes: seq<Node>, order: seq<nat>) { forall k | 0 <= k < |order| :: order[k] < |nodes| }

  function Texts(nodes: seq<Node>, order: seq<nat>): nat
    requires Among(nodes, order)
  {
    if order == [] then 0 else |nodes[order[0]].text| + Texts(nodes, order[1..])
  }

  lemma {:induction false} LastText(nodes: seq<Node>, order: seq<nat>)
    requires Among(nodes, order) && order != []
    ensures |nodes[order[|order| - 1]].text| <= Texts(nodes, order)
    decreases |order|
  {
    if |order| > 1 {
      LastText(nodes, order[1..]);
    }
  }

  function Weights(nodes: seq<Node>, own: set<nat>): seq<int> {
    seq(|nodes|, i requires 0 <= i < |nodes| => if i in own then |nodes[i].text| else 0)
  }

  /** The nodes of an order are different ones, so their texts do not exceed those of the set. */
  lemma {:induction false} TextsFit(nodes: seq<Node>, t: Tenant, own: set<nat>, order: seq<nat>)
    requires OldestTips(nodes, t, own, order)
    ensures Among(nodes, order) && forall i | i in order :: i in own
    ensures Texts(nodes, order) <= Sum(Weights(nodes, own))
    decreases |order|
  {
    if order == [] {
      SumMonotone(seq(|nodes|, _ => 0), Weights(nodes, own));
      SumZero(seq(|nodes|, _ => 0));
    } else {
      var i := order[0];
      assert i in own && i in Own(nodes, t);
      TextsFit(nodes, t, own - {i}, order[1..]);
      SumUpdate(Weights(nodes, own), i, 0);
      assert Weights(nodes, own)[i := 0] == Weights(nodes, own - {i});
      assert order == [i] + order[1..];
    }
  }

  lemma OwnWeights(nodes: seq<Node>, t: Tenant)
    ensures Sum(Weights(nodes, Own(nodes, t))) == Used(nodes, t)
  {
    assert Weights(nodes, Own(nodes, t)) == Shares(nodes, t);
  }

  /** The run has reached `w`, and the tenant has to lose exactly the nodes `order` from there. */
  ghost predicate OnTrack(n0: seq<Node>, a0: Paths, w: Work, max: nat, t: Tenant, order: seq<nat>) {
    Working(n0, a0, w, max) && StillToLose(n0, w.nodes, max, t, order)
  }

  ghost predicate StillToLose(n0: seq<Node>, nodes: seq<Node>, max: nat, t: Tenant, order: seq<nat>) {
    && SameParents(n0, nodes) && OldestTips(n0, t, Own(nodes, t), order) && Among(n0, order)
    && Used(nodes, t) == max + Texts(n0, order)
    && (order != [] ==> n0[order[|order| - 1]].text != "")
  }

  ghost predicate SameParents(n0: seq<Node>, nodes: seq<Node>) {
    |nodes| == |n0| && forall i | 0 <= i < |n0| :: nodes[i].parent == n0[i].parent
  }

  /** The leaves of the tenant are the tips of its nodes. */
  lemma LeavesAreTips(n0: seq<Node>, nodes: seq<Node>, at: Paths, t: Tenant, i: nat)
    requires Sound(nodes, at) && SameParents(n0, nodes)
    ensures IsLeaf(nodes, at, i, t) <==> IsTip(n0, Own(nodes, t), i)
  {
    if i < |nodes| && t in nodes[i].tenants {
      assert i in at;
      forall j | j in Own(nodes, t) && nodes[j].parent == Some(i) ensures !NoChildOf(nodes, i, t) {
        assert ParentOk(nodes, at, j);
        assert nodes[i].children[nodes[j].text[0]] == j;
      }
      forall c | c in nodes[i].children && nodes[i].children[c] < |nodes| && t in nodes[nodes[i].children[c]].tenants
        ensures !IsTip(n0, Own(nodes, t), i)
      {
        assert ChildOk(nodes, at, i, c);
      }
    }
  }

  /** While the tenant has nodes to lose, the next of them is queued and at least as old as any other of
      its entries. */
  lemma NextOfOrder(n0: seq<Node>, a0: Paths, w: Work, max: nat, t: Tenant, order: seq<nat>)
    requires OnTrack(n0, a0, w, max, t, order) && order != []
    ensures max < Used(w.nodes, t) && order[0] < |n0| && t in n0[order[0]].tenants
    ensures Entry(n0[order[0]].tenants[t], t, order[0]) in w.pq
    ensures forall e | e in w.pq && e.tenant == t :: n0[order[0]].tenants[t] <= e.timestamp
  {
    LastText(n0, order);
    LeavesAreTips(n0, w.nodes, w.at, t, order[0]);
    assert IsLeaf(w.nodes, w.at, order[0], t);
    forall e | e in w.pq && e.tenant == t ensures n0[order[0]].tenants[t] <= e.timestamp {
      LeavesAreTips(n0, w.nodes, w.at, t, e.node);
    }
  }

  /** Dropping a tenant from one of its leaves, as far as the nodes of one tenant are concerned. */
  lemma DropOwn(n0: seq<Node>, nodes: seq<Node>, at: Paths, id: nat, t: Tenant, t': Tenant)
    requires CanDrop(nodes, at, id, t) && SameParents(n0, nodes)
    ensures SameParents(n0, Drop(nodes, id, t))
    ensures Own(Drop(nodes, id, t), t') == if t' == t then Own(nodes, t') - {id} else Own(nodes, t')
    ensures Used(Drop(nodes, id, t), t') == Used(nodes, t') - if t' == t then |nodes[id].text| else 0
  {
    DropParts(nodes, at, id, t);
    DropUsed(nodes, at, id, t, t');
  }

  /** The entry to take: any oldest one, but of those of tenant `t` the prescribed one. */
  lemma Choose(n0: seq<Node>, a0: Paths, w: Work, max: nat, t: Tenant, order: seq<nat>) returns (e: Entry)
    requires OnTrack(n0, a0, w, max, t, order) && w.pq != {}
    ensures IsOldest(w.pq, e) && (e.tenant == t && order != [] ==> e.node == order[0])
  {
    e := OldestExists(w.pq);
    if e.tenant == t && order != [] {
      NextOfOrder(n0, a0, w, max, t, order);
      e := Entry(n0[order[0]].tenants[t], t, order[0]);
    }
  }

  /** The rest of the order after entry `e`. */
  function RestOf(order: seq<nat>, t: Tenant, e: Entry): seq<nat> {
    if e.tenant == t && order != [] then order[1..] else order
  }

  lemma DropToLose(n0: seq<Node>, nodes: seq<Node>, at: Paths, max: nat, t: Tenant, order: seq<nat>, e: Entry)
    requires CanDrop(nodes, at, e.node, e.tenant) && Trimmed(n0, nodes) && StillToLose(n0, nodes, max, t, order)
    requires e.tenant == t ==> order != [] && e.node == order[0]
    ensures StillToLose(n0, Drop(nodes, e.node, e.tenant), max, t, RestOf(order, t, e))
  {
    DropOwn(n0, nodes, at, e.node, e.tenant, t);
  }

  lemma StaysOnTrack(n0: seq<Node>, a0: Paths, w: Work, max: nat, t: Tenant, order: seq<nat>, e: Entry)
    requires OnTrack(n0, a0, w, max, t, order) && IsOldest(w.pq, e)
             && (e.tenant == t && order != [] ==> e.node == order[0])
    ensures e.node < |w.nodes| && e.tenant in w.counts && OnTrack(n0, a0, Next(w, max, e), max, t, RestOf(order, t, e))
    ensures OwnAfter(w.nodes, Next(w, max, e).nodes, t, order, e)
    ensures Pairs(Next(w, max, e).nodes) < Pairs(w.nodes)
            || (Next(w, max, e).nodes == w.nodes && Next(w, max, e).pq < w.pq)
  {
    EntryIsCounted(n0, a0, w, max, e);
    NextStep(n0, a0, w, max, e);
    if order != [] {
      NextOfOrder(n0, a0, w, max, t, order);
    }
    if w.counts[e.tenant] > max {
      DropToLose(n0, w.nodes, w.at, max, t, order, e);
      DropOwn(n0, w.nodes, w.at, e.node, e.tenant, t);
    }
  }

  ghost predicate OwnAfter(nodes: seq<Node>, nodes': seq<Node>, t: Tenant, order: seq<nat>, e: Entry) {
    Own(nodes', t) == if e.tenant == t && order != [] then Own(nodes, t) - {order[0]} else Own(nodes, t)
  }

  ghost predicate LosesAll(nodes: seq<Node>, nodes': seq<Node>, t: Tenant, order: seq<nat>) {
    Own(nodes', t) == Own(nodes, t) - set i | i in order
  }

  lemma LosesMore(nodes: seq<Node>, nodes1: seq<Node>, nodes2: seq<Node>, t: Tenant, order: seq<nat>, e: Entry)
    requires OwnAfter(nodes, nodes1, t, order, e) && LosesAll(nodes1, nodes2, t, RestOf(order, t, e))
    ensures LosesAll(nodes, nodes2, t, order)
  {
    assert order != [] ==> order == [order[0]] + order[1..];
  }

  lemma NothingToLose(n0: seq<Node>, a0: Paths, w: Work, max: nat, t: Tenant, order: seq<nat>)
    requires OnTrack(n0, a0, w, max, t, order) && w.pq == {}
    ensures LosesAll(w.nodes, w.nodes, t, order)
  {
    if order != [] {
      NextOfOrder(n0, a0, w, max, t, order);
    }
  }

  /** A run to the end in which the tenant loses exactly the nodes `order`. */
  lemma {:induction false} Follow(n0: seq<Node>, a0: Paths, w: Work, max: nat, t: Tenant, order: seq<nat>)
    returns (es: seq<Entry>, w': Work)
    requires OnTrack(n0, a0, w, max, t, order)
    ensures Evicts(w, max, es, w') && w'.pq == {}
    ensures LosesAll(w.nodes, w'.nodes, t, order)
    decreases Pairs(w.nodes), w.pq
  {
    if w.pq == {} {
      NothingToLose(n0, a0, w, max, t, order);
      es, w' := [], w;
    } else {
      var e := Choose(n0, a0, w, max, t, order);
      StaysOnTrack(n0, a0, w, max, t, order, e);
      var w1 := Next(w, max, e);
      var rest;
      rest, w' := Follow(n0, a0, w1, max, t, RestOf(order, t, e));
      es := [e] + rest;
      assert es[1..] == rest;
      LosesMore(w.nodes, w1.nodes, w'.nodes, t, order, e);
    }
  }

  // ----- the main result -----

  /** The queue holds every leaf of every tenant. */
  ghost predicate Begins(n0: seq<Node>, a0: Paths, counts: map<Tenant, int>, pq: set<Entry>) {
    Sound(n0, a0) && Counted(n0, counts) && EntriesOk(n0, a0, pq) && LeavesQueued(n0, a0, pq, 0)
  }

  /** The eviction has come from the tree, the paths and the counts given to `w`. */
  ghost predicate ComesTo(n0: seq<Node>, a0: Paths, counts: map<Tenant, int>, max: nat, w: Work) {
    exists pq, es :: Begins(n0, a0, counts, pq) && Evicts(Work(n0, a0, counts, pq, []), max, es, w)
  }

  /** What holds each time the loop of the eviction comes around. */
  ghost predicate Running(n0: seq<Node>, a0: Paths, counts: map<Tenant, int>, max: nat, w: Work) {
    Working(n0, a0, w, max) && w.counts.Keys == counts.Keys && ComesTo(n0, a0, counts, max, w)
  }

  lemma StartsRunning(w: Work, max: nat)
    requires Begins(w.nodes, w.at, w.counts, w.pq) && w.losses == []
    ensures Running(w.nodes, w.at, w.counts, max, w)
  {
    NothingDone(w, max);
    assert Evicts(Work(w.nodes, w.at, w.counts, w.pq, []), max, [], w);
  }

  lemma RunsOn(n0: seq<Node>, a0: Paths, counts: map<Tenant, int>, max: nat, w: Work, e: Entry)
    requires Running(n0, a0, counts, max, w) && IsOldest(w.pq, e)
    ensures e.node < |w.nodes| && e.tenant in w.counts && Running(n0, a0, counts, max, Next(w, max, e))
    ensures Pairs(Next(w, max, e).nodes) < Pairs(w.nodes)
            || (Next(w, max, e).nodes == w.nodes && Next(w, max, e).pq < w.pq)
  {
    NextStep(n0, a0, w, max, e);
    var pq, es :| Begins(n0, a0, counts, pq) && Evicts(Work(n0, a0, counts, pq, []), max, es, w);
    EvictsMore(Work(n0, a0, counts, pq, []), max, es, w, e);
  }

  /** Whatever the limit and however ties are broken, a run that ends takes the least recently used first. */
  ghost predicate AlwaysOldestFirst(w: Work) {
    forall max: nat, es, w' | Evicts(w, max, es, w') && w'.pq == {} :: OldestFirst(w.nodes, w'.nodes)
  }

  /** Every eviction, whatever its limit, is least recently used for each tenant exactly if access times
      never grow away from the root. */
  lemma LeastRecentlyUsedExactlyIf(n0: seq<Node>, a0: Paths, counts: map<Tenant, int>, pq: set<Entry>)
    requires Begins(n0, a0, counts, pq)
    ensures Recent(n0, a0) <==> AlwaysOldestFirst(Work(n0, a0, counts, pq, []))
  {
    var w := Work(n0, a0, counts, pq, []);
    if Recent(n0, a0) {
      forall max: nat, es, w' | Evicts(w, max, es, w') && w'.pq == {} ensures OldestFirst(n0, w'.nodes) {
        NothingDone(w, max);
        EvictsKeeps(n0, a0, w, max, es, w');
      }
    } else {
      var max, es, w' := BadLimit(n0, a0, counts, pq);
    }
  }

  /** If a node was seen later than its parent, some limit throws it away and keeps the parent. */
  lemma BadLimit(n0: seq<Node>, a0: Paths, counts: map<Tenant, int>, pq: set<Entry>)
    returns (max: nat, es: seq<Entry>, w': Work)
    requires Begins(n0, a0, counts, pq) && !Recent(n0, a0)
    ensures Evicts(Work(n0, a0, counts, pq, []), max, es, w') && w'.pq == {} && !OldestFirst(n0, w'.nodes)
  {
    var c, t :| c in a0 && c != 0 && c < |n0| && t in n0[c].tenants && !RecentAt(n0, c, t);
    assert ParentOk(n0, a0, c);
    var p := n0[c].parent.value;
    var order := OrderUpTo(n0, a0, t, Own(n0, t), c, p);
    TextsFit(n0, t, Own(n0, t), order);
    OwnWeights(n0, t);
    max := Used(n0, t) - Texts(n0, order);
    NothingDone(Work(n0, a0, counts, pq, []), max);
    es, w' := Follow(n0, a0, Work(n0, a0, counts, pq, []), max, t, order);
    EvictsKeeps(n0, a0, Work(n0, a0, counts, pq, []), max, es, w');
    assert c !in Own(w'.nodes, t) && p in Own(w'.nodes, t);
    assert Evicted(n0, w'.nodes, c, t);
  }

  // ----- a clock that goes back -----

  function Root(children: map<char, nat>, seen: nat): Node { Node("", children, map["t" := seen], None) }

  function Leaf(text: string, seen: nat, parent: nat): Node { Node(text, map[], map["t" := seen], Some(parent)) }

  /** A new tree, and the tree after tenant "t" has inserted "ab" at time 9, ... */
  function Empty(): InsertWork { InsertWork([Node("", map[], map[], None)], map[0 := ""], map[], 0, 0) }

  function First(): InsertWork {
    InsertWork([Root(map['a' := 1], 9), Leaf("ab", 9, 0)], map[0 := "", 1 := "ab"], map["t" := 2], 1, 2)
  }

  /** ... "c" at time 5, ... */
  function Second(): InsertWork {
    InsertWork([Root(map['a' := 1, 'c' := 2], 5), Leaf("ab", 9, 0), Leaf("c", 5, 0)], map[0 := "", 1 := "ab", 2 := "c"],
        map["t" := 3], 2, 1)
  }

  /** ... and "a" at time 1: node 1 is split, and node 3 is seen before its child. */
  function Third(): InsertWork {
    InsertWork([Root(map['a' := 3, 'c' := 2], 1), Leaf("b", 9, 3), Leaf("c", 5, 0),
        Node("a", map['b' := 1], map["t" := 1], Some(0))],
      map[0 := "", 1 := "ab", 2 := "c", 3 := "a"], map["t" := 3], 3, 1)
  }

  /** Where the loop of an insertion begins. */
  function Begun(w: InsertWork, t: Tenant, now: nat): InsertWork
    requires 0 < |w.nodes|
  {
    InsertWork(Touch(w.nodes, 0, t, now), w.at, CountVisit(w.nodes, w.counts, 0, t), 0, 0)
  }

  /** Inserting `text` takes one pass through the loop. */
  ghost predicate InsertsAtOnce(w: InsertWork, text: string, now: nat, k: nat, w': InsertWork) {
    0 < |w.nodes| && Inserted(Begun(w, "t", now), text, "t", now, k, w') && w'.i == |text|
  }

  ghost predicate Usable(w: InsertWork) { Sound(w.nodes, w.at) && Counted(w.nodes, w.counts) }

  lemma BegunUsable(w: InsertWork, text: string, now: nat)
    requires Usable(w)
    ensures 0 < |w.nodes| && Sound(Begun(w, "t", now).nodes, w.at)
  {
    StartsInserting(Insertion(w.nodes, w.at, w.counts, text, "t", now, false));
  }

  lemma InsertedUsable(w: InsertWork, text: string, now: nat, k: nat, w': InsertWork)
    requires Usable(w) && InsertsAtOnce(w, text, now, k, w')
    ensures Usable(w')
  {
    var x := Insertion(w.nodes, w.at, w.counts, text, "t", now, false);
    StartsInserting(x);
    InsertedKeeps(x, Begun(w, "t", now), k, w');
  }

  lemma InsertFirst()
    ensures Usable(Empty()) && InsertsAtOnce(Empty(), "ab", 9, 0, First()) && Usable(First())
  {
    forall t ensures Used(Empty().nodes, t) == 0 {
      UsedAtFirst(t);
    }
    assert ParentOk(Empty().nodes, Empty().at, 0);
    BegunUsable(Empty(), "ab", 9);
    var w := Begun(Empty(), "t", 9);
    assert "ab"[0] == 'a' && "ab"[0..] == "ab" && w.at[0] + "ab" == "ab";
    assert AddLeaf(w.nodes, 0, "ab", "t", 9) == First().nodes;
    InsertedUsable(Empty(), "ab", 9, 0, First());
  }

  lemma InsertSecond()
    requires Usable(First())
    ensures InsertsAtOnce(First(), "c", 5, 0, Second()) && Usable(Second())
  {
    BegunUsable(First(), "c", 5);
    var w := Begun(First(), "t", 5);
    assert "c"[0] == 'c' && "c"[0..] == "c" && w.at[0] + "c" == "c" && "t" in First().nodes[0].tenants;
    assert map["t" := 9]["t" := 5] == map["t" := 5] && map['a' := 1]['c' := 2] == map['a' := 1, 'c' := 2];
    assert AddLeaf(w.nodes, 0, "c", "t", 5) == Second().nodes;
    InsertedUsable(First(), "c", 5, 0, Second());
  }

  lemma InsertThird()
    requires Usable(Second())
    ensures InsertsAtOnce(Second(), "a", 1, 1, Third()) && Usable(Third())
  {
    BegunUsable(Second(), "a", 1);
    var w := Begun(Second(), "t", 1);
    assert "a"[0] == 'a' && "a"[0..1] == "a" && "ab"[..1] == "a" && "ab"[1..] == "b" && "ab"[1] == 'b';
    assert "t" in Second().nodes[0].tenants && w.nodes[1] == Leaf("ab", 9, 0);
    var s := Split(w.nodes, 0, 1, 1);
    assert |s| == 4 && s[3] == Node("a", map['b' := 1], map["t" := 9], Some(0)) && "t" in s[3].tenants;
    assert map["t" := 9]["t" := 1] == map["t" := 5]["t" := 1] == map["t" := 1];
    assert map['a' := 1, 'c' := 2]['a' := 3] == map['a' := 3, 'c' := 2];
    assert s[0] == Root(map['a' := 3, 'c' := 2], 1) && s[1] == Leaf("b", 9, 3) && s[2] == Leaf("c", 5, 0);
    assert Touch(s, 3, "t", 1) == Third().nodes;
    assert CanSplit(w.nodes, w.at, 0, 1, 1) && w.at[0] + "ab"[..1] == "a"
        && SplitPaths(w.nodes, w.at, 0, 1, 1) == Third().at;
    assert CountVisit(s, w.counts, 3, "t") == w.counts;
    InsertedUsable(Second(), "a", 1, 1, Third());
  }

  /** Three insertions into a new tree, and a limit of two characters: of the two leaves that are queued
      the older one is taken, and the inner node, which was seen earlier, stays. */
  lemma OlderIsKept()
    ensures InsertsAtOnce(Empty(), "ab", 9, 0, First())
    ensures InsertsAtOnce(First(), "c", 5, 0, Second()) && InsertsAtOnce(Second(), "a", 1, 1, Third())
    ensures var w, pq := Third(), {Entry(9, "t", 1), Entry(5, "t", 2)};
      && Begins(w.nodes, w.at, w.counts, pq) && IsOldest(pq, Entry(5, "t", 2)) && 2 < w.counts["t"]
      && !Recent(w.nodes, w.at) && !OldestFirst(w.nodes, Drop(w.nodes, 2, "t"))
  {
    InsertFirst();
    InsertSecond();
    InsertThird();
    LeavesOfThird();
    var nodes := Third().nodes;
    assert "t" in nodes[1].tenants && "t" in nodes[2].tenants && "t" in nodes[3].tenants;
    assert !RecentAt(nodes, 1, "t");
    var nodes' := Drop(nodes, 2, "t");
    assert Evicted(nodes, nodes', 2, "t") && "t" in nodes'[3].tenants && nodes'[3].tenants["t"] == 1;
  }

  lemma LeavesOfThird()
    ensures var w, pq := Third(), {Entry(9, "t", 1), Entry(5, "t", 2)};
      EntriesOk(w.nodes, w.at, pq) && LeavesQueued(w.nodes, w.at, pq, 0) && IsOldest(pq, Entry(5, "t", 2))
  {
    var nodes := Third().nodes;
    assert nodes[0].children['a'] == 3 && nodes[3].children['b'] == 1 && "t" in nodes[1].tenants
        && "t" in nodes[3].tenants;
    assert !NoChildOf(nodes, 0, "t") && !NoChildOf(nodes, 3, "t");
  }
}
