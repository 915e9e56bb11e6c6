/** Random token-level eviction from the key-value cache: `cy_evict.pyx` and `RandomRadixCache.evict`
    in `radix_cache_lrt.py`. Tokens are taken one at a time from the ends of randomly chosen leaves;
    a leaf that runs empty is deleted, and its parent may become a leaf. Nodes are entries of an arena
    and references are indices; node 0 is the root. The random choice is any choice. */
module TokenEviction {
  import opened Common
  import opened Sums

  /** `value` holds the cache slots of the node's tokens. */
  datatype Node = Node(value: seq<int>, parent: Option<nat>, children: set<nat>, marked: bool, lockRef: int)

  /** An entry `[remain, orig]` of `leaves_set`. */
  datatype Pair = Pair(remain: nat, orig: nat)

  predicate InTree(nodes: seq<Node>, i: nat) {
    i < |nodes| && (i == 0 || (nodes[i].parent.Some? && nodes[i].parent.value < |nodes|
        && i in nodes[nodes[i].parent.value].children))
  }

  /** A leaf that may be taken. */
  predicate Candidate(nodes: seq<Node>, i: nat) {
    InTree(nodes, i) && i != 0 && !nodes[i].marked && nodes[i].lockRef <= 0 && nodes[i].children == {}
        && nodes[i].value != []
  }

  /** Children know their parent, the root has none, and only nodes in the tree have children. */
  ghost predicate Sound(nodes: seq<Node>) {
    && 0 < |nodes| && nodes[0].parent == None
    && (forall i, c {:trigger c in nodes[i].children} | 0 <= i < |nodes| && c in nodes[i].children ::
         c < |nodes| && nodes[c].parent == Some(i))
    && (forall i: nat {:trigger InTree(nodes, i)} | i < |nodes| && nodes[i].children != {} :: InTree(nodes, i))
  }

  /** `_delete_leaf` on the tree. */
  function Unlinked(nodes: seq<Node>, leaf: nat): seq<Node>
    requires leaf < |nodes|
  {
    var parent := nodes[leaf].parent;
    if parent.Some? && parent.value < |nodes| then
      nodes[parent.value := nodes[parent.value].(children := nodes[parent.value].children - {leaf})]
    else nodes
  }

  lemma UnlinkedParts(nodes: seq<Node>, leaf: nat)
    requires Sound(nodes) && Candidate(nodes, leaf)
    ensures Sound(Unlinked(nodes, leaf)) && |Unlinked(nodes, leaf)| == |nodes|
    ensures forall i | 0 <= i < |nodes| ::
              && Unlinked(nodes, leaf)[i] == nodes[i].(children := Unlinked(nodes, leaf)[i].children)
              && Unlinked(nodes, leaf)[i].children ==
                   (if nodes[leaf].parent == Some(i) then nodes[i].children - {leaf} else nodes[i].children)
    ensures forall i: nat :: InTree(Unlinked(nodes, leaf), i) <==> InTree(nodes, i) && i != leaf
  {
    var nodes' := Unlinked(nodes, leaf);
    forall i: nat ensures InTree(nodes', i) <==> InTree(nodes, i) && i != leaf {
    }
    forall i: nat | i < |nodes'| && nodes'[i].children != {} ensures InTree(nodes', i) {
      assert nodes[i].children != {} && InTree(nodes, i);
    }
  }

  /** The candidates afterwards: the others, and perhaps the parent. */
  lemma CandidatesAfter(nodes: seq<Node>, leaf: nat, i: nat)
    requires Sound(nodes) && Candidate(nodes, leaf)
    ensures nodes[leaf].parent != Some(i) ==>
            (Candidate(Unlinked(nodes, leaf), i) <==> Candidate(nodes, i) && i != leaf)
    ensures nodes[leaf].parent == Some(i) ==> !Candidate(nodes, i)
  {
    UnlinkedParts(nodes, leaf);
  }

  // ----- the tokens in the cache -----

  ghost function Part(nodes: seq<Node>, i: nat): multiset<int> {
    if InTree(nodes, i) then multiset(nodes[i].value) else multiset{}
  }

  ghost function Parts(nodes: seq<Node>): seq<multiset<int>> {
    seq(|nodes|, i requires 0 <= i < |nodes| => Part(nodes, i))
  }

  ghost function Union(parts: seq<multiset<int>>): multiset<int> {
    if parts == [] then multiset{} else Union(parts[..|parts| - 1]) + parts[|parts| - 1]
  }

  /** All tokens held by nodes in the tree. */
  ghost function Tokens(nodes: seq<Node>): multiset<int> { Union(Parts(nodes)) }

  lemma {:induction false} UnionUpdate(parts: seq<multiset<int>>, k: nat, x: multiset<int>)
    requires k < |parts|
    ensures Union(parts[k := x]) + parts[k] == Union(parts) + x
    decreases |parts|
  {
    var n := |parts| - 1;
    if k < n {
      assert parts[k := x][..n] == parts[..n][k := x];
      UnionUpdate(parts[..n], k, x);
      BothMore(Union(parts[..n][k := x]), parts[k], Union(parts[..n]), x, parts[n]);
    } else {
      assert parts[k := x][..n] == parts[..n];
      BothLast(Union(parts[..n]), x, parts[n]);
    }
  }

  lemma BothLast(a: multiset<int>, x: multiset<int>, y: multiset<int>)
    ensures (a + x) + y == (a + y) + x
  {
  }

  lemma TokensChange(nodes: seq<Node>, nodes': seq<Node>, k: nat)
    requires k < |nodes| == |nodes'| && forall i | 0 <= i < |nodes| && i != k :: Part(nodes', i) == Part(nodes, i)
    ensures Tokens(nodes') + Part(nodes, k) == Tokens(nodes) + Part(nodes', k)
  {
    UnionUpdate(Parts(nodes), k, Part(nodes', k));
    assert Parts(nodes') == Parts(nodes)[k := Part(nodes', k)];
  }

  lemma BothMore(a: multiset<int>, x: multiset<int>, b: multiset<int>, y: multiset<int>, p: multiset<int>)
    requires a + x == b + y
    ensures (a + p) + x == (b + p) + y
  {
    BothLast(a, p, x);
    BothLast(b, p, y);
  }

  /** Tokens that a node gives up turn up among the freed ones. */
  lemma Moved(freed: seq<int>, kept: seq<int>, given: seq<int>, before: multiset<int>, after: multiset<int>)
    requires after + multiset(kept + given) == before + multiset(kept)
    ensures multiset(freed + given) + after == multiset(freed) + before
  {
    forall x ensures after[x] + multiset(given)[x] == before[x] {
      assert (after + multiset(kept + given))[x] == (before + multiset(kept))[x];
    }
  }

  function Flat(lists: seq<seq<int>>): seq<int> {
    if lists == [] then [] else Flat(lists[..|lists| - 1]) + lists[|lists| - 1]
  }

  lemma FlatAppend(lists: seq<seq<int>>, last: seq<int>)
    ensures Flat(lists + [last]) == Flat(lists) + last
  {
    assert (lists + [last])[..|lists|] == lists;
  }

  // ----- what the entries add up to -----

  function Remains(pairs: map<nat, Pair>, n: nat): seq<int> {
    seq(n, i requires 0 <= i < n => if i in pairs then pairs[i].remain else 0)
  }

  function Takens(pairs: map<nat, Pair>, n: nat): seq<int> {
    seq(n, i requires 0 <= i < n => if i in pairs then pairs[i].orig - pairs[i].remain else 0)
  }

  lemma RemainsUpdate(pairs: map<nat, Pair>, n: nat, k: nat, p: Pair)
    requires k < n
    ensures Sum(Remains(pairs[k := p], n)) == Sum(Remains(pairs, n)) + p.remain
            - if k in pairs then pairs[k].remain else 0
  {
    SumUpdate(Remains(pairs, n), k, p.remain);
    assert Remains(pairs[k := p], n) == Remains(pairs, n)[k := p.remain];
  }

  lemma TakensUpdate(pairs: map<nat, Pair>, n: nat, k: nat, p: Pair)
    requires k < n
    ensures Sum(Takens(pairs[k := p], n)) == Sum(Takens(pairs, n)) + (p.orig - p.remain)
            - if k in pairs then pairs[k].orig - pairs[k].remain else 0
  {
    SumUpdate(Takens(pairs, n), k, p.orig - p.remain);
    assert Takens(pairs[k := p], n) == Takens(pairs, n)[k := p.orig - p.remain];
  }

  lemma RemainsWithout(pairs: map<nat, Pair>, n: nat, k: nat)
    requires k < n && k in pairs
    ensures Sum(Remains(pairs - {k}, n)) == Sum(Remains(pairs, n)) - pairs[k].remain
    ensures Sum(Takens(pairs - {k}, n)) == Sum(Takens(pairs, n)) - (pairs[k].orig - pairs[k].remain)
  {
    SumUpdate(Remains(pairs, n), k, 0);
    assert Remains(pairs - {k}, n) == Remains(pairs, n)[k := 0];
    SumUpdate(Takens(pairs, n), k, 0);
    assert Takens(pairs - {k}, n) == Takens(pairs, n)[k := 0];
  }

  // ----- the loop of evict_core -----

  /** The first `size` leaves are the keys of the entries, each once, and the entries are exactly the
      candidates, except those in `skip`. */
  ghost predicate Listed(nodes: seq<Node>, leaves: seq<nat>, pairs: map<nat, Pair>, skip: set<nat>) {
    && (forall i, j | 0 <= i < j < |leaves| :: leaves[i] != leaves[j])
    && (forall k: nat :: k in leaves <==> k in pairs)
    && EntriesOk(nodes, pairs, skip)
  }

  ghost predicate EntriesOk(nodes: seq<Node>, pairs: map<nat, Pair>, skip: set<nat>) {
    && (forall k: nat {:trigger Candidate(nodes, k)} {:trigger k in pairs} :: Candidate(nodes, k) && k !in skip <==>
         k in pairs)
    && (forall k | k in skip :: Candidate(nodes, k))
    && (forall k | k in pairs :: 0 < pairs[k].remain <= pairs[k].orig == |nodes[k].value|)
  }

  /** `done` tokens have been taken: some with whole leaves, some off the ends of leaves still there. */
  ghost predicate Balanced(n0: seq<Node>, size0: int, nodes: seq<Node>, size: int, pairs: map<nat, Pair>,
          free: seq<seq<int>>, done: int)
  {
    && Sound(nodes) && |nodes| == |n0|
    && multiset(Flat(free)) + Tokens(nodes) == Tokens(n0)
    && size == size0 - |Flat(free)|
    && |Flat(free)| + Sum(Takens(pairs, |nodes|)) == done
  }

  /** Nodes that are marked, locked or the root stay, with their tokens. */
  ghost predicate Protects(n0: seq<Node>, nodes: seq<Node>) {
    && |nodes| == |n0|
    && forall i | 0 <= i < |n0| && (i == 0 || n0[i].marked || n0[i].lockRef > 0) ::
         (InTree(nodes, i) <==> InTree(n0, i)) && nodes[i].value == n0[i].value
  }

  /** What is left was there before, in the same place, and keeps the tokens at its front; only a leaf
      is shortened, and never to nothing. */
  ghost predicate Shrinks(n0: seq<Node>, nodes: seq<Node>) {
    && |nodes| == |n0|
    && forall i: nat {:trigger InTree(nodes, i)} | InTree(nodes, i) :: InTree(n0, i) && Shrunk(n0[i], nodes[i])
  }

  ghost predicate Shrunk(v: Node, v': Node) {
    && v'.parent == v.parent && v'.children <= v.children
    && v'.value <= v.value && (v'.value != v.value ==> v'.children == {} && v'.value != [])
  }

  ghost predicate SameMarks(n0: seq<Node>, nodes: seq<Node>) {
    && |nodes| == |n0|
    && forall i | 0 <= i < |n0| :: nodes[i].marked == n0[i].marked && nodes[i].lockRef == n0[i].lockRef
  }

  ghost predicate Careful(n0: seq<Node>, nodes: seq<Node>) {
    Protects(n0, nodes) && SameMarks(n0, nodes) && Shrinks(n0, nodes)
  }

  lemma CarefulTwice(n0: seq<Node>, n1: seq<Node>, n2: seq<Node>)
    requires Careful(n0, n1) && Careful(n1, n2)
    ensures Careful(n0, n2)
  {
    forall i: nat | InTree(n2, i) ensures InTree(n0, i) && Shrunk(n0[i], n2[i]) {
      assert InTree(n1, i) && Shrunk(n1[i], n2[i]);
      assert InTree(n0, i) && Shrunk(n0[i], n1[i]);
    }
  }

  /** A leaf gives up its last token and is deleted. */
  lemma Deleted(n0: seq<Node>, size0: int, nodes: seq<Node>, size: int, pairs: map<nat, Pair>, free: seq<seq<int>>,
          done: int, leaf: nat)
    requires Balanced(n0, size0, nodes, size, pairs, free, done) && Candidate(nodes, leaf)
    requires leaf in pairs && pairs[leaf].remain == 1 && pairs[leaf].orig == |nodes[leaf].value|
    ensures Balanced(n0, size0, Unlinked(nodes, leaf), size - |nodes[leaf].value|, pairs - {leaf},
            free + [nodes[leaf].value], done + 1)
  {
    UnlinkedParts(nodes, leaf);
    FlatAppend(free, nodes[leaf].value);
    RemainsWithout(pairs, |nodes|, leaf);
    DeletedTokens(nodes, leaf);
    Moved(Flat(free), [], nodes[leaf].value, Tokens(nodes), Tokens(Unlinked(nodes, leaf)));
  }

  lemma DeletedTokens(nodes: seq<Node>, leaf: nat)
    requires Sound(nodes) && Candidate(nodes, leaf)
    ensures Tokens(Unlinked(nodes, leaf)) + multiset([] + nodes[leaf].value) == Tokens(nodes) + multiset([])
  {
    var nodes' := Unlinked(nodes, leaf);
    UnlinkedParts(nodes, leaf);
    forall i | 0 <= i < |nodes| && i != leaf ensures Part(nodes', i) == Part(nodes, i) {
      assert InTree(nodes', i) <==> InTree(nodes, i);
    }
    TokensChange(nodes, nodes', leaf);
    assert [] + nodes[leaf].value == nodes[leaf].value;
  }

  lemma ProtectsMore(n0: seq<Node>, nodes: seq<Node>, leaf: nat)
    requires Sound(nodes) && Careful(n0, nodes) && Candidate(nodes, leaf)
    ensures Careful(n0, Unlinked(nodes, leaf))
  {
    UnlinkedParts(nodes, leaf);
    forall i: nat | InTree(Unlinked(nodes, leaf), i) ensures InTree(n0, i) && Shrunk(n0[i], Unlinked(nodes, leaf)[i]) {
      assert InTree(nodes, i) && Shrunk(n0[i], nodes[i]);
    }
  }

  /** A leaf gives up a token and keeps others. */
  lemma Shortened(n0: seq<Node>, size0: int, nodes: seq<Node>, size: int, pairs: map<nat, Pair>, free: seq<seq<int>>,
          done: int, leaf: nat)
    requires Balanced(n0, size0, nodes, size, pairs, free, done) && leaf < |nodes| && leaf in pairs
             && pairs[leaf].remain > 1
    ensures Balanced(n0, size0, nodes, size, pairs[leaf := Pair(pairs[leaf].remain - 1, pairs[leaf].orig)], free,
            done + 1)
  {
    TakensUpdate(pairs, |nodes|, leaf, Pair(pairs[leaf].remain - 1, pairs[leaf].orig));
  }

  /** A parent that has become a leaf gets an entry, of which nothing is taken yet. */
  lemma Joined(n0: seq<Node>, size0: int, nodes: seq<Node>, size: int, pairs: map<nat, Pair>, free: seq<seq<int>>,
          done: int, k: nat)
    requires Balanced(n0, size0, nodes, size, pairs, free, done) && k < |nodes| && k !in pairs
    ensures Balanced(n0, size0, nodes, size, pairs[k := Pair(|nodes[k].value|, |nodes[k].value|)], free, done)
    ensures Sum(Remains(pairs[k := Pair(|nodes[k].value|, |nodes[k].value|)], |nodes|)) >= Sum(Remains(pairs, |nodes|))
  {
    RemainsUpdate(pairs, |nodes|, k, Pair(|nodes[k].value|, |nodes[k].value|));
    TakensUpdate(pairs, |nodes|, k, Pair(|nodes[k].value|, |nodes[k].value|));
  }

  /** The cache while tokens are taken. */
  datatype Work = Work(nodes: seq<Node>, size: int, leaves: seq<nat>, pairs: map<nat, Pair>, free: seq<seq<int>>,
            skip: set<nat>)

  /** All of that; `capacity` is what the entries held at the start. */
  ghost predicate Evicting(n0: seq<Node>, size0: int, w: Work, done: nat, capacity: int) {
    && Listed(w.nodes, w.leaves, w.pairs, w.skip) && Balanced(n0, size0, w.nodes, w.size, w.pairs, w.free, done)
    && Careful(n0, w.nodes)
    && capacity <= Sum(Remains(w.pairs, |w.nodes|)) + done
  }

  /** The list with entry `idx` replaced by the last one, and one shorter. */
  function Without(leaves: seq<nat>, idx: nat): seq<nat>
    requires idx < |leaves|
  {
    leaves[idx := leaves[|leaves| - 1]][..|leaves| - 1]
  }

  lemma WithoutOne(leaves: seq<nat>, idx: nat)
    requires idx < |leaves| && forall i, j | 0 <= i < j < |leaves| :: leaves[i] != leaves[j]
    ensures var rest := Without(leaves, idx);
      (forall i, j | 0 <= i < j < |rest| :: rest[i] != rest[j]) && forall k: nat :: k in rest <==>
          k in leaves && k != leaves[idx]
  {
    var rest, n := Without(leaves, idx), |leaves| - 1;
    forall k: nat | k in leaves && k != leaves[idx] ensures k in rest {
      var i :| 0 <= i < |leaves| && leaves[i] == k;
      assert rest[if i == n then idx else i] == k;
    }
  }

  /** ... and a leaf put at the end, the same one or another. */
  lemma PushedBack(leaves: seq<nat>, idx: nat, leaf: nat)
    requires idx < |leaves| && (forall i, j | 0 <= i < j < |leaves| :: leaves[i] != leaves[j])
    requires leaf in leaves ==> leaf == leaves[idx]
    ensures var next := Without(leaves, idx) + [leaf];
      (forall i, j | 0 <= i < j < |next| :: next[i] != next[j]) && forall k: nat :: k in next <==>
          (k in leaves && k != leaves[idx]) || k == leaf
  {
    WithoutOne(leaves, idx);
    var rest := Without(leaves, idx);
    assert leaf !in rest;
  }

  /** The work after the leaf at `idx` has given up its last token. */
  function Gone(w: Work, idx: nat): Work
    requires idx < |w.leaves| && w.leaves[idx] in w.pairs && w.leaves[idx] < |w.nodes|
  {
    var leaf := w.leaves[idx];
    Work(Unlinked(w.nodes, leaf), w.size - |w.nodes[leaf].value|, Without(w.leaves, idx), w.pairs - {leaf},
         w.free + [w.nodes[leaf].value], w.skip)
  }

  /** ... and after its parent has joined the list. */
  function Rejoined(w: Work, k: nat): Work
    requires k < |w.nodes|
  {
    w.(leaves := w.leaves + [k], pairs := w.pairs[k := Pair(|w.nodes[k].value|, |w.nodes[k].value|)])
  }

  /** What taking one token off the leaf at `idx` does. */
  function Taken(w: Work, idx: nat): Work
    requires idx < |w.leaves| && w.leaves[idx] in w.pairs && w.leaves[idx] < |w.nodes|
  {
    var leaf := w.leaves[idx];
    var pair := w.pairs[leaf];
    if pair.remain != 1 then
      w.(leaves := Without(w.leaves, idx) + [leaf],
         pairs := w.pairs[leaf := Pair(if pair.remain == 0 then 0 else pair.remain - 1, pair.orig)])
    else
      var parent, gone := w.nodes[leaf].parent, Gone(w, idx);
      if parent.Some? && Candidate(gone.nodes, parent.value) && parent.value !in gone.pairs then
        Rejoined(gone, parent.value)
      else gone
  }

  lemma TakenShort(n0: seq<Node>, size0: int, w: Work, done: nat, capacity: int, idx: nat)
    requires Evicting(n0, size0, w, done, capacity) && idx < |w.leaves|
    requires w.leaves[idx] in w.pairs && w.leaves[idx] < |w.nodes| && w.pairs[w.leaves[idx]].remain > 1
    ensures Evicting(n0, size0, Taken(w, idx), done + 1, capacity)
  {
    var leaf := w.leaves[idx];
    ShortList(w, idx);
    Shortened(n0, size0, w.nodes, w.size, w.pairs, w.free, done, leaf);
    RemainsUpdate(w.pairs, |w.nodes|, leaf, Pair(w.pairs[leaf].remain - 1, w.pairs[leaf].orig));
  }

  lemma ShortList(w: Work, idx: nat)
    requires Listed(w.nodes, w.leaves, w.pairs, w.skip) && idx < |w.leaves|
    requires w.leaves[idx] in w.pairs && w.leaves[idx] < |w.nodes| && w.pairs[w.leaves[idx]].remain > 1
    ensures Taken(w, idx).nodes == w.nodes && Listed(w.nodes, Taken(w, idx).leaves, Taken(w, idx).pairs, w.skip)
  {
    var leaf := w.leaves[idx];
    var pairs := w.pairs[leaf := Pair(w.pairs[leaf].remain - 1, w.pairs[leaf].orig)];
    PushedBack(w.leaves, idx, leaf);
    ShortEntries(w.nodes, w.pairs, w.skip, leaf);
    assert Taken(w, idx) == w.(leaves := Without(w.leaves, idx) + [leaf], pairs := pairs);
  }

  lemma ShortEntries(nodes: seq<Node>, pairs: map<nat, Pair>, skip: set<nat>, leaf: nat)
    requires EntriesOk(nodes, pairs, skip) && leaf in pairs && pairs[leaf].remain > 1
    ensures EntriesOk(nodes, pairs[leaf := Pair(pairs[leaf].remain - 1, pairs[leaf].orig)], skip)
  {
  }

  /** The entries are the candidates again after a leaf was deleted. */
  lemma LastEntries(w: Work, idx: nat)
    requires Sound(w.nodes) && Listed(w.nodes, w.leaves, w.pairs, w.skip) && idx < |w.leaves|
    requires w.leaves[idx] in w.pairs && w.leaves[idx] < |w.nodes| && w.pairs[w.leaves[idx]].remain == 1
    ensures EntriesOk(Taken(w, idx).nodes, Taken(w, idx).pairs, w.skip)
  {
    var leaf := w.leaves[idx];
    assert Candidate(w.nodes, leaf);
    var parent, nodes' := w.nodes[leaf].parent.value, Unlinked(w.nodes, leaf);
    EntriesWithout(w.nodes, w.pairs, w.skip, leaf);
    UnlinkedParts(w.nodes, leaf);
    if Candidate(nodes', parent) {
      EntriesWith(nodes', w.pairs - {leaf}, w.skip, parent);
    } else {
      EntriesAll(nodes', w.pairs - {leaf}, w.skip, parent);
    }
  }

  /** The same but for `k`. */
  ghost predicate EntriesBut(nodes: seq<Node>, pairs: map<nat, Pair>, skip: set<nat>, k: nat) {
    && k !in pairs && k !in skip
    && (forall i: nat {:trigger Candidate(nodes, i)} {:trigger i in pairs} | i != k ::
         Candidate(nodes, i) && i !in skip <==> i in pairs)
    && (forall i | i in skip :: Candidate(nodes, i))
    && (forall i | i in pairs :: 0 < pairs[i].remain <= pairs[i].orig == |nodes[i].value|)
  }

  lemma EntriesWithout(nodes: seq<Node>, pairs: map<nat, Pair>, skip: set<nat>, leaf: nat)
    requires Sound(nodes) && EntriesOk(nodes, pairs, skip) && Candidate(nodes, leaf) && leaf in pairs
    ensures EntriesBut(Unlinked(nodes, leaf), pairs - {leaf}, skip, nodes[leaf].parent.value)
  {
    var parent, nodes' := nodes[leaf].parent.value, Unlinked(nodes, leaf);
    UnlinkedParts(nodes, leaf);
    CandidatesAfter(nodes, leaf, parent);
    assert parent !in pairs && parent !in skip && leaf !in skip;
    forall i: nat | i != parent ensures Candidate(nodes', i) && i !in skip <==> i in pairs - {leaf} {
      CandidatesAfter(nodes, leaf, i);
      assert Candidate(nodes, i) && i !in skip <==> i in pairs;
    }
    forall i | i in skip ensures Candidate(nodes', i) {
      CandidatesAfter(nodes, leaf, i);
    }
    forall i | i in pairs - {leaf} ensures 0 < pairs[i].remain <= pairs[i].orig == |nodes'[i].value| {
      assert Candidate(nodes, i);
    }
  }

  lemma EntriesWith(nodes: seq<Node>, pairs: map<nat, Pair>, skip: set<nat>, k: nat)
    requires EntriesBut(nodes, pairs, skip, k) && Candidate(nodes, k)
    ensures EntriesOk(nodes, pairs[k := Pair(|nodes[k].value|, |nodes[k].value|)], skip)
  {
    forall i | i in pairs ensures i < |nodes| {
      assert Candidate(nodes, i);
    }
  }

  lemma EntriesAll(nodes: seq<Node>, pairs: map<nat, Pair>, skip: set<nat>, k: nat)
    requires EntriesBut(nodes, pairs, skip, k) && !Candidate(nodes, k)
    ensures EntriesOk(nodes, pairs, skip)
  {
  }

  lemma LastList(w: Work, idx: nat)
    requires Sound(w.nodes) && Listed(w.nodes, w.leaves, w.pairs, w.skip) && idx < |w.leaves|
    requires w.leaves[idx] in w.pairs && w.leaves[idx] < |w.nodes| && w.pairs[w.leaves[idx]].remain == 1
    ensures Listed(Taken(w, idx).nodes, Taken(w, idx).leaves, Taken(w, idx).pairs, w.skip)
  {
    var leaf := w.leaves[idx];
    LastEntries(w, idx);
    assert Candidate(w.nodes, leaf);
    var parent := w.nodes[leaf].parent.value;
    CandidatesAfter(w.nodes, leaf, parent);
    assert parent !in w.pairs;
    WithoutOne(w.leaves, idx);
    PushedBack(w.leaves, idx, parent);
  }

  lemma TakenLast(n0: seq<Node>, size0: int, w: Work, done: nat, capacity: int, idx: nat)
    requires Evicting(n0, size0, w, done, capacity) && idx < |w.leaves|
    requires w.leaves[idx] in w.pairs && w.leaves[idx] < |w.nodes| && w.pairs[w.leaves[idx]].remain == 1
    ensures Evicting(n0, size0, Taken(w, idx), done + 1, capacity)
  {
    LastList(w, idx);
    LastBalance(n0, size0, w, done, capacity, idx);
    assert Candidate(w.nodes, w.leaves[idx]);
    ProtectsMore(n0, w.nodes, w.leaves[idx]);
  }

  /** The books balance after a deletion ... */
  lemma GoneBalance(n0: seq<Node>, size0: int, w: Work, done: nat, capacity: int, idx: nat)
    requires Balanced(n0, size0, w.nodes, w.size, w.pairs, w.free, done) && idx < |w.leaves|
    requires Candidate(w.nodes, w.leaves[idx]) && w.leaves[idx] in w.pairs
    requires w.pairs[w.leaves[idx]].remain == 1 && w.pairs[w.leaves[idx]].orig == |w.nodes[w.leaves[idx]].value|
    requires capacity <= Sum(Remains(w.pairs, |w.nodes|)) + done
    ensures var w' := Gone(w, idx);
      && Balanced(n0, size0, w'.nodes, w'.size, w'.pairs, w'.free, done + 1)
      && capacity <= Sum(Remains(w'.pairs, |w'.nodes|)) + done + 1
  {
    Deleted(n0, size0, w.nodes, w.size, w.pairs, w.free, done, w.leaves[idx]);
    UnlinkedParts(w.nodes, w.leaves[idx]);
    RemainsWithout(w.pairs, |w.nodes|, w.leaves[idx]);
  }

  /** ... and after the parent has joined the list. */
  lemma LastBalance(n0: seq<Node>, size0: int, w: Work, done: nat, capacity: int, idx: nat)
    requires Balanced(n0, size0, w.nodes, w.size, w.pairs, w.free, done) && EntriesOk(w.nodes, w.pairs, w.skip)
             && idx < |w.leaves|
    requires w.leaves[idx] in w.pairs && w.leaves[idx] < |w.nodes| && w.pairs[w.leaves[idx]].remain == 1
    requires capacity <= Sum(Remains(w.pairs, |w.nodes|)) + done
    ensures var w' := Taken(w, idx);
      && Balanced(n0, size0, w'.nodes, w'.size, w'.pairs, w'.free, done + 1)
      && capacity <= Sum(Remains(w'.pairs, |w'.nodes|)) + done + 1
  {
    assert Candidate(w.nodes, w.leaves[idx]);
    GoneBalance(n0, size0, w, done, capacity, idx);
    var parent, gone := w.nodes[w.leaves[idx]].parent.value, Gone(w, idx);
    if parent !in gone.pairs && parent < |gone.nodes| {
      Joined(n0, size0, gone.nodes, gone.size, gone.pairs, gone.free, done + 1, parent);
    }
  }

  /** One pass through the loop keeps it. */
  lemma TakenKeeps(n0: seq<Node>, size0: int, w: Work, done: nat, capacity: int, idx: nat)
    requires Evicting(n0, size0, w, done, capacity) && idx < |w.leaves|
    ensures w.leaves[idx] in w.pairs && w.leaves[idx] < |w.nodes| && 0 < w.pairs[w.leaves[idx]].remain
    ensures Evicting(n0, size0, Taken(w, idx), done + 1, capacity)
  {
    var leaf := w.leaves[idx];
    assert leaf in w.leaves;
    assert Candidate(w.nodes, leaf);
    if w.pairs[leaf].remain == 1 {
      TakenLast(n0, size0, w, done, capacity, idx);
    } else {
      TakenShort(n0, size0, w, done, capacity, idx);
    }
  }

  lemma NothingYet(nodes: seq<Node>, size: int, leaves: seq<nat>, pairs: map<nat, Pair>, skip: set<nat>)
    requires Sound(nodes) && Listed(nodes, leaves, pairs, skip) && Sum(Takens(pairs, |nodes|)) == 0
    ensures Evicting(nodes, size, Work(nodes, size, leaves, pairs, [], skip), 0, Sum(Remains(pairs, |nodes|)))
  {
    assert multiset(Flat([])) + Tokens(nodes) == Tokens(nodes);
  }

  lemma LeavesHaveEntries(w: Work)
    requires Listed(w.nodes, w.leaves, w.pairs, w.skip)
    ensures forall i | 0 <= i < |w.leaves| ::
            w.leaves[i] in w.pairs && w.leaves[i] < |w.nodes| && 0 < w.pairs[w.leaves[i]].remain
  {
    forall i | 0 <= i < |w.leaves|
      ensures w.leaves[i] in w.pairs && w.leaves[i] < |w.nodes| && 0 < w.pairs[w.leaves[i]].remain
    {
      assert w.leaves[i] in w.leaves;
      assert Candidate(w.nodes, w.leaves[i]);
    }
  }

  /** With the list empty there is no entry and no candidate, and all that was there is gone. */
  lemma RanOut(n0: seq<Node>, size0: int, w: Work, done: nat, capacity: int)
    requires Evicting(n0, size0, w, done, capacity) && w.leaves == []
    ensures w.pairs == map[] && capacity <= done
  {
    assert forall k: nat :: k in w.pairs <==> k in w.leaves;
    assert w.pairs.Keys == {};
    NothingTaken(|w.nodes|);
  }

  // ----- the ends of the leaves that are left -----

  ghost predicate Pending(nodes: seq<Node>, pairs: map<nat, Pair>) {
    forall k | k in pairs :: Candidate(nodes, k) && 0 < pairs[k].remain <= pairs[k].orig == |nodes[k].value|
  }

  function Trimmed(nodes: seq<Node>, k: nat, remain: nat): seq<Node>
    requires k < |nodes| && remain <= |nodes[k].value|
  {
    nodes[k := nodes[k].(value := nodes[k].value[..remain])]
  }

  lemma TrimmedKeeps(nodes: seq<Node>, pairs: map<nat, Pair>, k: nat)
    requires Sound(nodes) && Pending(nodes, pairs) && k in pairs
    ensures Sound(Trimmed(nodes, k, pairs[k].remain)) && Pending(Trimmed(nodes, k, pairs[k].remain), pairs - {k})
    ensures forall i: nat :: InTree(Trimmed(nodes, k, pairs[k].remain), i) <==> InTree(nodes, i)
    ensures forall i: nat :: Candidate(Trimmed(nodes, k, pairs[k].remain), i) <==> Candidate(nodes, i)
  {
    assert Candidate(nodes, k);
    var nodes' := Trimmed(nodes, k, pairs[k].remain);
    forall i: nat ensures InTree(nodes', i) <==> InTree(nodes, i) {
    }
    forall i: nat | i < |nodes'| && nodes'[i].children != {} ensures InTree(nodes', i) {
      assert InTree(nodes, i);
    }
  }

  lemma TrimmedBalance(n0: seq<Node>, size0: int, nodes: seq<Node>, size: int, pairs: map<nat, Pair>,
          free: seq<seq<int>>, done: int, k: nat)
    requires Balanced(n0, size0, nodes, size, pairs, free, done) && Pending(nodes, pairs) && k in pairs
    ensures var p := pairs[k];
      Balanced(n0, size0, Trimmed(nodes, k, p.remain), size - (p.orig - p.remain), pairs - {k},
          free + [nodes[k].value[p.remain..]], done)
  {
    var r, v := pairs[k].remain, nodes[k].value;
    var nodes' := Trimmed(nodes, k, r);
    TrimmedKeeps(nodes, pairs, k);
    FlatAppend(free, v[r..]);
    RemainsWithout(pairs, |nodes|, k);
    TrimmedTokens(nodes, pairs, k);
    Moved(Flat(free), v[..r], v[r..], Tokens(nodes), Tokens(nodes'));
  }

  lemma TrimmedTokens(nodes: seq<Node>, pairs: map<nat, Pair>, k: nat)
    requires Sound(nodes) && Pending(nodes, pairs) && k in pairs
    ensures var r, v := pairs[k].remain, nodes[k].value;
      Tokens(Trimmed(nodes, k, r)) + multiset(v[..r] + v[r..]) == Tokens(nodes) + multiset(v[..r])
  {
    var r, v := pairs[k].remain, nodes[k].value;
    var nodes' := Trimmed(nodes, k, r);
    assert Candidate(nodes, k) && v[..r] + v[r..] == v;
    TrimmedKeeps(nodes, pairs, k);
    forall i | 0 <= i < |nodes| && i != k ensures Part(nodes', i) == Part(nodes, i) {
      assert InTree(nodes', i) <==> InTree(nodes, i);
    }
    assert InTree(nodes', k) <==> InTree(nodes, k);
    TokensChange(nodes, nodes', k);
  }

  /** What holds each time the loop over `leaves_set` comes around; `n2` is the tree before it. */
  ghost predicate Cutting(n1: seq<Node>, size1: int, n2: seq<Node>, nodes: seq<Node>, size: int, todo: map<nat, Pair>,
          free: seq<seq<int>>, done: int)
  {
    && Balanced(n1, size1, nodes, size, todo, free, done) && Pending(nodes, todo)
    && Careful(n1, nodes)
    && forall i: nat :: Candidate(nodes, i) <==> Candidate(n2, i)
  }

  lemma CutKeeps(n1: seq<Node>, size1: int, n2: seq<Node>, nodes: seq<Node>, size: int, todo: map<nat, Pair>,
          free: seq<seq<int>>, done: int, k: nat)
    requires Cutting(n1, size1, n2, nodes, size, todo, free, done) && k in todo
    ensures Candidate(nodes, k) && todo[k].remain <= |nodes[k].value|
    ensures Cutting(n1, size1, n2, Trimmed(nodes, k, todo[k].remain), size - (todo[k].orig - todo[k].remain),
            todo - {k},
              free + [nodes[k].value[todo[k].remain..]], done)
  {
    TrimmedBalance(n1, size1, nodes, size, todo, free, done, k);
    TrimmedKeeps(nodes, todo, k);
    assert Candidate(nodes, k);
    TrimmedCareful(n1, nodes, todo, k);
  }

  lemma TrimmedCareful(n1: seq<Node>, nodes: seq<Node>, todo: map<nat, Pair>, k: nat)
    requires Sound(nodes) && Pending(nodes, todo) && k in todo && Careful(n1, nodes)
    ensures k < |nodes| && todo[k].remain <= |nodes[k].value| && Careful(n1, Trimmed(nodes, k, todo[k].remain))
  {
    assert Candidate(nodes, k);
    TrimmedKeeps(nodes, todo, k);
    var nodes' := Trimmed(nodes, k, todo[k].remain);
    forall i: nat | InTree(nodes', i) ensures InTree(n1, i) && Shrunk(n1[i], nodes'[i]) {
      assert InTree(nodes, i) && Shrunk(n1[i], nodes[i]);
    }
  }

  lemma NothingTaken(n: nat)
    ensures Sum(Takens(map[], n)) == 0 && Sum(Remains(map[], n)) == 0
  {
    SumZero(Takens(map[], n));
    SumZero(Remains(map[], n));
  }

  /** The candidates among the first `n` nodes, with all their tokens still to take. */
  ghost predicate Collected(nodes: seq<Node>, n: nat, leaves: seq<nat>, pairs: map<nat, Pair>, capacity: int) {
    && OneEach(leaves, pairs) && Entered(nodes, n, pairs)
    && capacity == Sum(Remains(pairs, |nodes|)) && Sum(Takens(pairs, |nodes|)) == 0
  }

  ghost predicate OneEach(leaves: seq<nat>, pairs: map<nat, Pair>) {
    && (forall j, k | 0 <= j < k < |leaves| :: leaves[j] != leaves[k])
    && (forall k: nat :: k in leaves <==> k in pairs)
  }

  ghost predicate Entered(nodes: seq<Node>, n: nat, pairs: map<nat, Pair>) {
    && (forall k: nat {:trigger Candidate(nodes, k)} {:trigger k in pairs} :: k in pairs <==>
         Candidate(nodes, k) && k < n)
    && (forall k | k in pairs :: 0 < pairs[k].remain == pairs[k].orig == |nodes[k].value|)
  }

  lemma CollectedMore(nodes: seq<Node>, n: nat, leaves: seq<nat>, pairs: map<nat, Pair>, capacity: int)
    requires Collected(nodes, n, leaves, pairs, capacity) && n < |nodes|
    ensures !Candidate(nodes, n) ==> Collected(nodes, n + 1, leaves, pairs, capacity)
    ensures Candidate(nodes, n) ==>
              Collected(nodes, n + 1, leaves + [n], pairs[n := Pair(|nodes[n].value|, |nodes[n].value|)],
                  capacity + |nodes[n].value|)
  {
    var p := Pair(|nodes[n].value|, |nodes[n].value|);
    assert n !in pairs;
    if Candidate(nodes, n) {
      RemainsUpdate(pairs, |nodes|, n, p);
      TakensUpdate(pairs, |nodes|, n, p);
      EnteredMore(nodes, n, pairs);
      OneMoreEach(leaves, pairs, n, p);
    } else {
      assert Entered(nodes, n + 1, pairs);
    }
  }

  lemma OneMoreEach(leaves: seq<nat>, pairs: map<nat, Pair>, n: nat, p: Pair)
    requires OneEach(leaves, pairs) && n !in pairs
    ensures OneEach(leaves + [n], pairs[n := p])
  {
    assert n !in leaves;
  }

  lemma EnteredMore(nodes: seq<Node>, n: nat, pairs: map<nat, Pair>)
    requires Entered(nodes, n, pairs) && Candidate(nodes, n)
    ensures Entered(nodes, n + 1, pairs[n := Pair(|nodes[n].value|, |nodes[n].value|)])
  {
  }

  // ----- collecting the leaves -----

  /** A leaf that holds no tokens, which the collection deletes. */
  predicate Bare(nodes: seq<Node>, i: nat) {
    InTree(nodes, i) && i != 0 && !nodes[i].marked && nodes[i].lockRef <= 0 && nodes[i].children == {}
        && nodes[i].value == []
  }

  /** The tree without the bare leaves among the first `n` nodes. */
  function Pruned(nodes: seq<Node>, n: nat): seq<Node> {
    seq(|nodes|, i requires 0 <= i < |nodes| =>
      nodes[i].(children := set c | c in nodes[i].children && !(c < n && Bare(nodes, c))))
  }

  lemma PrunedNone(nodes: seq<Node>)
    ensures Pruned(nodes, 0) == nodes
  {
    forall i | 0 <= i < |nodes| ensures Pruned(nodes, 0)[i] == nodes[i] {
      assert (set c | c in nodes[i].children && !(c < 0 && Bare(nodes, c))) == nodes[i].children;
    }
  }

  lemma PrunedStep(nodes: seq<Node>, n: nat)
    requires Sound(nodes) && n < |nodes|
    ensures Pruned(nodes, n + 1) == if Bare(nodes, n) then Unlinked(Pruned(nodes, n), n) else Pruned(nodes, n)
  {
    var before, after := Pruned(nodes, n), Pruned(nodes, n + 1);
    forall i | 0 <= i < |nodes|
      ensures after[i].children == if Bare(nodes, n) && nodes[n].parent == Some(i) then
                before[i].children - {n}
              else before[i].children
    {
      if n in nodes[i].children {
        assert nodes[n].parent == Some(i);
      }
    }
    if Bare(nodes, n) {
      assert after == Unlinked(before, n);
    } else {
      assert after == before;
    }
  }

  lemma PrunedParts(nodes: seq<Node>)
    requires Sound(nodes)
    ensures Sound(Pruned(nodes, |nodes|))
    ensures forall i: nat :: InTree(Pruned(nodes, |nodes|), i) <==> InTree(nodes, i) && !Bare(nodes, i)
  {
    var nodes' := Pruned(nodes, |nodes|);
    forall i: nat ensures InTree(nodes', i) <==> InTree(nodes, i) && !Bare(nodes, i) {
    }
    forall i: nat | i < |nodes'| && nodes'[i].children != {} ensures InTree(nodes', i) {
      var c :| c in nodes'[i].children;
      assert c in nodes[i].children && InTree(nodes, i);
    }
  }

  lemma PrunedTokens(nodes: seq<Node>)
    requires Sound(nodes)
    ensures Tokens(Pruned(nodes, |nodes|)) == Tokens(nodes)
  {
    PrunedParts(nodes);
    forall i | 0 <= i < |nodes| ensures Part(Pruned(nodes, |nodes|), i) == Part(nodes, i) {
      assert InTree(Pruned(nodes, |nodes|), i) <==> InTree(nodes, i) && !Bare(nodes, i);
    }
    assert Parts(Pruned(nodes, |nodes|)) == Parts(nodes);
  }

  lemma PrunedCareful(nodes: seq<Node>)
    requires Sound(nodes)
    ensures Careful(nodes, Pruned(nodes, |nodes|))
  {
    PrunedParts(nodes);
    var nodes' := Pruned(nodes, |nodes|);
    forall i: nat | InTree(nodes', i) ensures InTree(nodes, i) && Shrunk(nodes[i], nodes'[i]) {
    }
    forall i | 0 <= i < |nodes| && (i == 0 || nodes[i].marked || nodes[i].lockRef > 0)
      ensures InTree(nodes', i) <==> InTree(nodes, i)
    {
      assert !Bare(nodes, i);
    }
  }

  /** A node that becomes a leaf when its bare leaves are deleted. It has been passed by then. */
  predicate Stripped(nodes: seq<Node>, i: nat) {
    && InTree(nodes, i) && i != 0 && !nodes[i].marked && nodes[i].lockRef <= 0 && nodes[i].value != []
    && nodes[i].children != {} && forall c | c in nodes[i].children :: Bare(nodes, c)
  }

  ghost function AllStripped(nodes: seq<Node>): set<nat> { set i | 0 <= i < |nodes| && Stripped(nodes, i) }

  lemma PrunedCandidates(nodes: seq<Node>, i: nat)
    requires Sound(nodes)
    ensures Candidate(Pruned(nodes, |nodes|), i) <==> Candidate(nodes, i) || Stripped(nodes, i)
  {
    PrunedParts(nodes);
    if i < |nodes| {
      var left := Pruned(nodes, |nodes|)[i].children;
      assert InTree(Pruned(nodes, |nodes|), i) <==> InTree(nodes, i) && !Bare(nodes, i);
      forall c | c in nodes[i].children ensures c in left <==> !Bare(nodes, c) {
      }
    }
  }

  /** Every candidate that is left has been collected exactly if no node becomes a leaf by the deletion;
      none does if only the root may be without tokens. */
  lemma NothingMissedExactlyIf(nodes: seq<Node>, leaves: seq<nat>, pairs: map<nat, Pair>)
    requires Sound(nodes) && Listed(Pruned(nodes, |nodes|), leaves, pairs, AllStripped(nodes))
    ensures (forall i: nat | Candidate(Pruned(nodes, |nodes|), i) :: i in leaves) <==> AllStripped(nodes) == {}
    ensures Filled(nodes) ==> AllStripped(nodes) == {}
  {
    if i :| i in AllStripped(nodes) {
      assert Candidate(Pruned(nodes, |nodes|), i) && i !in leaves;
      var c :| c in nodes[i].children;
      assert Bare(nodes, c) && InTree(nodes, c);
    }
  }

  /** A leaf without tokens below a node with one: the deletion makes the node a leaf, and it is missed. */
  lemma LeafMissed()
    ensures var nodes := [Node([], None, {1}, false, 0), Node([7], Some(0), {2}, false, 0),
            Node([], Some(1), {}, false, 0)];
      && Sound(nodes) && AllStripped(nodes) == {1} && Candidate(Pruned(nodes, 3), 1)
      && forall leaves, pairs, i: nat | Listed(Pruned(nodes, 3), leaves, pairs, AllStripped(nodes)) :: i !in leaves
  {
    var nodes := [Node([], None, {1}, false, 0), Node([7], Some(0), {2}, false, 0), Node([], Some(1), {}, false, 0)];
    assert InTree(nodes, 1) && InTree(nodes, 2) && Bare(nodes, 2) && Stripped(nodes, 1);
    PrunedCandidates(nodes, 1);
    forall leaves, pairs, i: nat | Listed(Pruned(nodes, 3), leaves, pairs, AllStripped(nodes)) ensures i !in leaves {
      PrunedCandidates(nodes, i);
    }
  }

  lemma CollectedListed(nodes: seq<Node>, leaves: seq<nat>, pairs: map<nat, Pair>, capacity: int)
    requires Sound(nodes) && Collected(nodes, |nodes|, leaves, pairs, capacity)
    ensures Listed(Pruned(nodes, |nodes|), leaves, pairs, AllStripped(nodes)) && capacity == Capacity(nodes)
  {
    var nodes' := Pruned(nodes, |nodes|);
    forall k: nat ensures Candidate(nodes', k) && k !in AllStripped(nodes) <==> k in pairs {
      PrunedCandidates(nodes, k);
      assert k in pairs <==> Candidate(nodes, k);
    }
    forall k | k in AllStripped(nodes) ensures Candidate(nodes', k) {
      PrunedCandidates(nodes, k);
    }
    forall k | k in pairs ensures k < |nodes| {
      assert Candidate(nodes, k);
    }
    assert Remains(pairs, |nodes|) == Loads(nodes);
  }

  function Loads(nodes: seq<Node>): seq<int> {
    seq(|nodes|, i requires 0 <= i < |nodes| => if Candidate(nodes, i) then |nodes[i].value| else 0)
  }

  /** The tokens of all candidates. */
  function Capacity(nodes: seq<Node>): int { Sum(Loads(nodes)) }

  // ----- phases -----

  function Unmarked(nodes: seq<Node>): seq<Node> {
    seq(|nodes|, i requires 0 <= i < |nodes| => if i == 0 then nodes[i] else nodes[i].(marked := false))
  }

  lemma UnmarkedSame(nodes: seq<Node>)
    requires Sound(nodes)
    ensures Sound(Unmarked(nodes)) && Tokens(Unmarked(nodes)) == Tokens(nodes)
    ensures forall i: nat :: InTree(Unmarked(nodes), i) <==> InTree(nodes, i)
  {
    forall i: nat ensures InTree(Unmarked(nodes), i) <==> InTree(nodes, i) {
    }
    assert Parts(Unmarked(nodes)) == Parts(nodes);
  }

  lemma UnmarkedTwice(nodes: seq<Node>)
    ensures Unmarked(Unmarked(nodes)) == Unmarked(nodes)
  {
  }

  lemma UnmarkedCareful(nodes: seq<Node>, nodes': seq<Node>)
    requires Sound(nodes) && Sound(nodes') && Careful(nodes, nodes')
    ensures Careful(Unmarked(nodes), Unmarked(nodes'))
  {
    UnmarkedSame(nodes);
    UnmarkedSame(nodes');
    forall i: nat | InTree(Unmarked(nodes'), i)
      ensures InTree(Unmarked(nodes), i) && Shrunk(Unmarked(nodes)[i], Unmarked(nodes')[i])
    {
      assert InTree(nodes', i) && Shrunk(nodes[i], nodes'[i]);
    }
  }

  lemma UnmarkedShrinks(nodes: seq<Node>, nodes': seq<Node>)
    requires Sound(nodes) && Shrinks(Unmarked(nodes), nodes')
    ensures Shrinks(nodes, nodes')
  {
    UnmarkedSame(nodes);
    forall i: nat | InTree(nodes', i) ensures InTree(nodes, i) && Shrunk(nodes[i], nodes'[i]) {
      assert InTree(Unmarked(nodes), i) && Shrunk(Unmarked(nodes)[i], nodes'[i]);
    }
  }

  /** Before the eviction the node had a child without tokens. */
  ghost predicate HadBare(n0: seq<Node>, i: nat) {
    i < |n0| && exists c :: c in n0[i].children && c < |n0| && n0[c].value == []
  }

  /** The stripped nodes of a tree that has been pruned, or unmarked and pruned again, had a child
      without tokens to begin with. */
  lemma StrippedHadBare(n0: seq<Node>, nodes: seq<Node>)
    requires Sound(n0) && Sound(nodes) && Shrinks(n0, nodes) && forall i | 0 <= i < |n0| ::
             nodes[i].value == n0[i].value
    ensures forall i | i in AllStripped(nodes) :: HadBare(n0, i)
  {
    forall i | i in AllStripped(nodes) ensures HadBare(n0, i) {
      var c :| c in nodes[i].children;
      assert Bare(nodes, c);
      assert InTree(nodes, i) && Shrunk(n0[i], nodes[i]);
      assert c in n0[i].children;
    }
  }

  /** Of the leaves that are left, other than the root, each is locked or holds no tokens or had a child
      without tokens. */
  ghost predicate NothingLeft(n0: seq<Node>, nodes: seq<Node>) {
    forall i: nat | InTree(nodes, i) && i != 0 && nodes[i].children == {} ::
      nodes[i].lockRef > 0 || nodes[i].value == [] || HadBare(n0, i)
  }

  lemma NoneLeft(n0: seq<Node>, nodes: seq<Node>, skip: set<nat>)
    requires (forall i: nat | Candidate(nodes, i) :: i in skip) && (forall i | i in skip :: HadBare(n0, i))
    requires forall i | 0 < i < |nodes| :: !nodes[i].marked
    ensures NothingLeft(n0, nodes)
  {
    forall i: nat | InTree(nodes, i) && i != 0 && nodes[i].children == {}
      ensures nodes[i].lockRef > 0 || nodes[i].value == [] || HadBare(n0, i)
    {
      assert Candidate(nodes, i) ==> i in skip;
    }
  }

  /** No node but the root is without tokens. */
  ghost predicate Filled(nodes: seq<Node>) {
    forall i: nat {:trigger InTree(nodes, i)} | InTree(nodes, i) && i != 0 :: nodes[i].value != []
  }

  /** Then this stays so, and only locked leaves are left. */
  lemma StillFilled(n0: seq<Node>, nodes: seq<Node>)
    requires Sound(n0) && Filled(n0) && Shrinks(n0, nodes)
    ensures Filled(nodes)
    ensures NothingLeft(n0, nodes) ==> forall i: nat | InTree(nodes, i) && i != 0 && nodes[i].children == {} ::
            nodes[i].lockRef > 0
  {
    forall i: nat | InTree(nodes, i) && i != 0 ensures nodes[i].value != [] && !HadBare(n0, i) {
      assert InTree(n0, i) && Shrunk(n0[i], nodes[i]);
      forall c | c in n0[i].children ensures c < |n0| && n0[c].value != [] {
        assert InTree(n0, c) && c != 0;
      }
    }
  }

  lemma EntriesPending(nodes: seq<Node>, pairs: map<nat, Pair>, skip: set<nat>)
    requires EntriesOk(nodes, pairs, skip)
    ensures Pending(nodes, pairs)
  {
  }

  lemma EmptyCapacity(pairs: map<nat, Pair>, n: nat)
    ensures pairs == map[] ==> Sum(Remains(pairs, n)) == 0
  {
    NothingTaken(n);
  }

  lemma ItselfShrinks(n0: seq<Node>, n1: seq<Node>)
    requires Sound(n0) && (n1 == n0 || n1 == Unmarked(n0))
    ensures Sound(n1) && Tokens(n1) == Tokens(n0) && Shrinks(n0, n1) && |n1| == |n0| && forall i | 0 <= i < |n0| ::
            n1[i].value == n0[i].value
  {
    UnmarkedSame(n0);
    forall i: nat | InTree(n1, i) ensures InTree(n0, i) && Shrunk(n0[i], n1[i]) {
    }
  }

  /** The leaves are collected. */
  lemma FirstRound(n0: seq<Node>, n1: seq<Node>)
    requires Sound(n0) && (n1 == n0 || n1 == Unmarked(n0))
    ensures var n2 := Pruned(n1, |n1|);
      && Sound(n1) && Sound(n2) && Shrinks(n0, n1) && Tokens(n2) == Tokens(n0) && Careful(n1, n2)
      && forall i | i in AllStripped(n1) :: HadBare(n0, i)
  {
    ItselfShrinks(n0, n1);
    StrippedHadBare(n0, n1);
    PrunedParts(n1);
    PrunedTokens(n1);
    PrunedCareful(n1);
  }

  /** The leaves are collected, all marks are cleared, and the leaves are collected again. */
  lemma SecondRound(n0: seq<Node>, n1: seq<Node>, n2: seq<Node>)
    requires Sound(n0) && (n1 == n0 || n1 == Unmarked(n0)) && n2 == Pruned(n1, |n1|)
    ensures var n3 := Unmarked(n2);
      var n4 := Pruned(n3, |n3|);
      && Sound(n3) && Sound(n4) && Tokens(n4) == Tokens(n0) && Careful(Unmarked(n0), n4)
      && forall i | i in AllStripped(n3) :: HadBare(n0, i)
  {
    var n3 := Unmarked(n2);
    FirstRound(n0, n1);
    UnmarkedSame(n2);
    UnmarkedTwice(n0);
    UnmarkedCareful(n1, n2);
    PrunedParts(n3);
    PrunedTokens(n3);
    PrunedCareful(n3);
    CarefulTwice(Unmarked(n1), n3, Pruned(n3, |n3|));
    UnmarkedShrinks(n0, n3);
    StrippedHadBare(n0, n3);
  }

  /** From the leaves chosen to the end of the eviction. */
  lemma AllKept(n0: seq<Node>, newPhase: bool, n1: seq<Node>, nodes: seq<Node>)
    requires Sound(n0) && Careful(if newPhase then Unmarked(n0) else n0, n1) && Careful(n1, nodes)
    ensures Careful(if newPhase then Unmarked(n0) else n0, nodes) && Shrinks(n0, nodes)
    ensures Filled(n0) ==> Filled(nodes)
    ensures MarkedTokens(nodes) == if newPhase then 0 else MarkedTokens(n0)
  {
    KeptTwice(n0, newPhase, n1, nodes);
    MarksCounted(n0, newPhase, nodes);
    if Filled(n0) {
      StillFilled(n0, nodes);
    }
  }

  lemma KeptTwice(n0: seq<Node>, newPhase: bool, n1: seq<Node>, nodes: seq<Node>)
    requires Sound(n0) && Careful(if newPhase then Unmarked(n0) else n0, n1) && Careful(n1, nodes)
    ensures Careful(if newPhase then Unmarked(n0) else n0, nodes) && Shrinks(n0, nodes)
  {
    CarefulTwice(if newPhase then Unmarked(n0) else n0, n1, nodes);
    if newPhase {
      UnmarkedShrinks(n0, nodes);
    }
  }

  /** The tokens ran out, in a new phase. */
  lemma AllGone(n0: seq<Node>, nodes: seq<Node>, skip: set<nat>)
    requires forall i: nat | Candidate(nodes, i) :: i in skip
    requires (forall i | i in skip :: HadBare(n0, i)) && Careful(Unmarked(n0), nodes)
    ensures NothingLeft(n0, nodes)
  {
    NoneLeft(n0, nodes, skip);
  }

  // ----- the tokens of marked nodes -----

  function MarkedLoads(nodes: seq<Node>): seq<int> {
    seq(|nodes|, i requires 0 <= i < |nodes| => if InTree(nodes, i) && i != 0 && nodes[i].marked then |nodes[i].value|
        else 0)
  }

  /** The tokens of all marked nodes, which `marked_count` is to keep. */
  function MarkedTokens(nodes: seq<Node>): int { Sum(MarkedLoads(nodes)) }

  /** A new phase leaves no marked tokens, and otherwise none of them is lost. */
  lemma MarksCounted(n0: seq<Node>, newPhase: bool, nodes: seq<Node>)
    requires Careful(if newPhase then Unmarked(n0) else n0, nodes)
    ensures MarkedTokens(nodes) == if newPhase then 0 else MarkedTokens(n0)
  {
    if newPhase {
      SumZero(MarkedLoads(nodes));
    } else {
      assert MarkedLoads(nodes) == MarkedLoads(n0);
    }
  }

  class RandomRadixCache {
    var nodes: seq<Node>
    var evictableSize: int
    var markedCount: int
    const phaseLimit: int

    constructor (phaseLimit: int, root: Node)
      requires root.parent == None && root.children == {}
      ensures Sound(nodes) && this.phaseLimit == phaseLimit && evictableSize == 0 && markedCount == 0
    {
      this.phaseLimit := phaseLimit;
      nodes := [root];
      evictableSize, markedCount := 0, 0;
    }

    /** `start_new_phase` without a node to keep. */
    method StartNewPhase()
      modifies this`nodes, this`markedCount
      ensures nodes == Unmarked(old(nodes)) && markedCount == 0
    {
      ghost var n0 := nodes;
      for i := 0 to |nodes|
        invariant |nodes| == |n0|
        invariant forall j | 0 <= j < |n0| :: nodes[j] == if j < i then Unmarked(n0)[j] else n0[j]
      {
        if i != 0 {
          nodes := nodes[i := nodes[i].(marked := false)];
        }
      }
      markedCount := 0;
    }

    /** `collect_leaves`: every candidate, with all of its tokens still to take; bare leaves are deleted on
        the way. The tree is walked from the root, so a node is looked at before its children. */
    method CollectLeaves() returns (leaves: seq<nat>, pairs: map<nat, Pair>, capacity: nat)
      requires Sound(nodes)
      modifies this`nodes, this`evictableSize
      ensures nodes == Pruned(old(nodes), |old(nodes)|) && evictableSize == old(evictableSize)
      ensures Listed(nodes, leaves, pairs, AllStripped(old(nodes)))
      ensures capacity == Sum(Remains(pairs, |nodes|)) == Capacity(old(nodes)) && Sum(Takens(pairs, |nodes|)) == 0
    {
      var tree := nodes;
      leaves, pairs, capacity := [], map[], 0;
      NothingTaken(|nodes|);
      PrunedNone(tree);
      for i := 0 to |tree|
        invariant nodes == Pruned(tree, i) && evictableSize == old(evictableSize)
        invariant Collected(tree, i, leaves, pairs, capacity)
      {
        CollectedMore(tree, i, leaves, pairs, capacity);
        PrunedStep(tree, i);
        if Candidate(tree, i) {
          leaves := leaves + [i];
          pairs := pairs[i := Pair(|tree[i].value|, |tree[i].value|)];
          capacity := capacity + |tree[i].value|;
        } else if Bare(tree, i) {
          nodes := Unlinked(nodes, i);
          evictableSize := evictableSize - |tree[i].value|;
        }
      }
      CollectedListed(tree, leaves, pairs, capacity);
    }

    /** `evict_core`, which works in place on the list of leaves. It stops short of `need` only when no
        candidate is left. */
    method EvictCore(leaves: array<nat>, leavesSet: map<nat, Pair>, need: nat, ghost capacity: nat,
            ghost skip: set<nat>)
      returns (pairs: map<nat, Pair>, free: seq<seq<int>>, left: nat)
      requires Sound(nodes) && Listed(nodes, leaves[..], leavesSet, skip)
      requires capacity == Sum(Remains(leavesSet, |nodes|)) && Sum(Takens(leavesSet, |nodes|)) == 0
      modifies this`nodes, this`evictableSize, leaves
      ensures left <= need && Balanced(old(nodes), old(evictableSize), nodes, evictableSize, pairs, free, need - left)
      ensures EntriesOk(nodes, pairs, skip) && Careful(old(nodes), nodes)
      ensures left == 0 || (pairs == map[] && capacity < need)
    {
      ghost var n0, size0 := nodes, evictableSize;
      pairs, free, left := leavesSet, [], need;
      var size := leaves.Length;
      ghost var w := Work(nodes, evictableSize, leaves[..], pairs, free, skip);
      NothingYet(nodes, evictableSize, leaves[..], pairs, skip);
      while size > 0 && left > 0
        invariant 0 <= size <= leaves.Length && left <= need
        invariant w == Work(nodes, evictableSize, leaves[..size], pairs, free, skip)
        invariant Evicting(n0, size0, w, need - left, capacity)
      {
        LeavesHaveEntries(w);
        ghost var idx;
        idx, size, pairs, free := TakeOne(leaves, size, pairs, free, skip);
        TakenKeeps(n0, size0, w, need - left, capacity, idx);
        left := left - 1;
        w := Taken(w, idx);
      }
      if left > 0 {
        assert leaves[..size] == [];
        RanOut(n0, size0, w, need - left, capacity);
      }
    }

    /** One pass through its loop: a leaf is picked at random and gives up a token. That a picked leaf
        has no entry or an empty one, which the code looks out for, cannot happen. */
    method TakeOne(leaves: array<nat>, size: nat, pairs: map<nat, Pair>, free: seq<seq<int>>, ghost skip: set<nat>)
      returns (idx: nat, size': nat, pairs': map<nat, Pair>, free': seq<seq<int>>)
      requires 0 < size <= leaves.Length
      requires forall i | 0 <= i < size :: leaves[i] in pairs && leaves[i] < |nodes| && 0 < pairs[leaves[i]].remain
      modifies this`nodes, this`evictableSize, leaves
      ensures idx < size && size' <= size
      ensures Work(nodes, evictableSize, leaves[..size'], pairs', free', skip) ==
              Taken(Work(old(nodes), old(evictableSize), old(leaves[..size]), pairs, free, skip), idx)
    {
      idx :| idx < size;
      ghost var before := leaves[..size];
      var leaf := leaves[idx];
      leaves[idx] := leaves[size - 1];
      size' := size - 1;
      ghost var rest := leaves[..size'];
      assert rest == Without(before, idx);
      var remain := pairs[leaf].remain;
      pairs', free' := pairs, free;
      if remain == 1 {
        var parent := nodes[leaf].parent;
        free' := free' + [nodes[leaf].value];
        evictableSize := evictableSize - |nodes[leaf].value|;
        nodes := Unlinked(nodes, leaf);
        pairs' := pairs' - {leaf};
        if parent.Some? && Candidate(nodes, parent.value) && parent.value !in pairs' {
          var l := |nodes[parent.value].value|;
          pairs' := pairs'[parent.value := Pair(l, l)];
          leaves[size'] := parent.value;
          size' := size' + 1;
          assert leaves[..size'] == rest + [parent.value];
        }
      } else {
        pairs' := pairs'[leaf := Pair(remain - 1, pairs[leaf].orig)];
        leaves[size'] := leaf;
        size' := size' + 1;
        assert leaves[..size'] == rest + [leaf];
      }
    }

    /** `evict`: exactly the tokens asked for leave the cache, or, if there are not enough, all but those
        of locked nodes and what hangs on to them. What was freed and what is left make up what was
        there, and the size is kept in step. What is left is in its place, and only leaves are shortened,
        from the end. The root and locked nodes keep their tokens, and so do marked ones unless a new
        phase begins, which it does exactly if the marked tokens leave no room or the candidates hold
        too little. */
    method Evict(numTokens: int) returns (freed: seq<int>, newPhase: bool)
      requires Sound(nodes)
      modifies this
      ensures Sound(nodes)
      ensures multiset(freed) + Tokens(nodes) == Tokens(old(nodes)) && evictableSize == old(evictableSize) - |freed|
      ensures numTokens <= 0 ==> freed == [] && nodes == old(nodes)
      ensures numTokens > 0 ==> |freed| <= numTokens && (|freed| == numTokens || NothingLeft(old(nodes), nodes))
      ensures newPhase <==>
                numTokens > 0 && (numTokens + old(markedCount) >= phaseLimit || Capacity(old(nodes)) < numTokens)
      ensures Careful(if newPhase then Unmarked(old(nodes)) else old(nodes), nodes) && Shrinks(old(nodes), nodes)
      ensures Filled(old(nodes)) ==> Filled(nodes)
      ensures markedCount == if newPhase then 0 else old(markedCount)
      ensures old(markedCount) == MarkedTokens(old(nodes)) ==> markedCount == MarkedTokens(nodes)
    {
      newPhase := false;
      ghost var n0 := nodes;
      if numTokens <= 0 {
        return [], newPhase;
      }
      var list, leavesSet, capacity;
      ghost var skip, left;
      list, leavesSet, capacity, newPhase, skip := ChooseLeaves(numTokens);
      ghost var n1 := nodes;
      freed, left := TakeTokens(list, leavesSet, numTokens, capacity, skip);
      AllKept(n0, newPhase, n1, nodes);
      if left > 0 {
        AllGone(n0, nodes, skip);
      }
    }

    /** The rest of `evict`, once the leaves are chosen. */
    method TakeTokens(list: seq<nat>, leavesSet: map<nat, Pair>, need: nat, ghost capacity: nat, ghost skip: set<nat>)
      returns (freed: seq<int>, ghost left: nat)
      requires Sound(nodes) && Listed(nodes, list, leavesSet, skip)
      requires capacity == Sum(Remains(leavesSet, |nodes|)) && Sum(Takens(leavesSet, |nodes|)) == 0
      modifies this`nodes, this`evictableSize
      ensures Sound(nodes) && Careful(old(nodes), nodes)
      ensures multiset(freed) + Tokens(nodes) == Tokens(old(nodes)) && evictableSize == old(evictableSize) - |freed|
      ensures |freed| == need - left
      ensures left > 0 ==> capacity < need && forall i: nat | Candidate(nodes, i) :: i in skip
    {
      ghost var n1, size1 := nodes, evictableSize;
      var leaves := new nat[|list|](i requires 0 <= i < |list| => list[i]);
      assert leaves[..] == list;
      var pairs, free, rest := EvictCore(leaves, leavesSet, need, capacity, skip);
      left := rest;
      EntriesPending(nodes, pairs, skip);
      freed := CutEnds(n1, size1, pairs, free, need - left);
    }

    /** The phases: a new one begins if the marked tokens leave no room, and if the unmarked leaves do
        not hold enough. */
    method ChooseLeaves(need: nat)
      returns (list: seq<nat>, leavesSet: map<nat, Pair>, capacity: nat, newPhase: bool, ghost skip: set<nat>)
      requires Sound(nodes) && 0 < need
      modifies this`nodes, this`evictableSize, this`markedCount
      ensures Sound(nodes) && Tokens(nodes) == Tokens(old(nodes)) && evictableSize == old(evictableSize)
      ensures newPhase <==> need + old(markedCount) >= phaseLimit || Capacity(old(nodes)) < need
      ensures Careful(if newPhase then Unmarked(old(nodes)) else old(nodes), nodes)
      ensures Listed(nodes, list, leavesSet, skip) && forall i | i in skip :: HadBare(old(nodes), i)
      ensures capacity == Sum(Remains(leavesSet, |nodes|)) && Sum(Takens(leavesSet, |nodes|)) == 0
      ensures capacity < need ==> newPhase
      ensures markedCount == if newPhase then 0 else old(markedCount)
    {
      newPhase := false;
      ghost var n0 := nodes;
      UnmarkedSame(n0);
      if need + markedCount >= phaseLimit {
        StartNewPhase();
        newPhase := true;
      }
      ghost var n1 := nodes;
      FirstRound(n0, n1);
      list, leavesSet, capacity := CollectLeaves();
      skip := AllStripped(n1);
      if |list| == 0 || capacity < need {
        EmptyCapacity(leavesSet, |nodes|);
        newPhase := true;
        list, leavesSet, capacity, skip := CollectAgain(n0, n1);
      }
    }

    /** A new phase after all, and another look at the leaves. */
    method CollectAgain(ghost n0: seq<Node>, ghost n1: seq<Node>)
      returns (list: seq<nat>, leavesSet: map<nat, Pair>, capacity: nat, ghost skip: set<nat>)
      requires Sound(n0) && (n1 == n0 || n1 == Unmarked(n0)) && nodes == Pruned(n1, |n1|)
      modifies this`nodes, this`evictableSize, this`markedCount
      ensures Sound(nodes) && Tokens(nodes) == Tokens(n0) && evictableSize == old(evictableSize)
      ensures Careful(Unmarked(n0), nodes)
      ensures Listed(nodes, list, leavesSet, skip) && forall i | i in skip :: HadBare(n0, i)
      ensures capacity == Sum(Remains(leavesSet, |nodes|)) && Sum(Takens(leavesSet, |nodes|)) == 0
      ensures markedCount == 0
    {
      ghost var n2 := nodes;
      StartNewPhase();
      SecondRound(n0, n1, n2);
      list, leavesSet, capacity := CollectLeaves();
      skip := AllStripped(Unmarked(n2));
    }

    /** The loop over what is left of `leaves_set`: the tokens taken off the end of a leaf are freed. */
    method CutEnds(ghost n1: seq<Node>, ghost size1: int, pairs: map<nat, Pair>, free: seq<seq<int>>, ghost done: nat)
      returns (freed: seq<int>)
      requires Balanced(n1, size1, nodes, evictableSize, pairs, free, done) && Pending(nodes, pairs)
      requires Careful(n1, nodes)
      modifies this`nodes, this`evictableSize
      ensures Sound(nodes) && |freed| == done && evictableSize == size1 - done
      ensures multiset(freed) + Tokens(nodes) == Tokens(n1)
      ensures Careful(n1, nodes)
      ensures forall i: nat :: Candidate(nodes, i) <==> Candidate(old(nodes), i)
    {
      var todo, tokens := pairs, free;
      ghost var n2 := nodes;
      while todo != map[]
        invariant Cutting(n1, size1, n2, nodes, evictableSize, todo, tokens, done)
        decreases todo.Keys
      {
        ghost var nodes1, size2, todo1, tokens1 := nodes, evictableSize, todo, tokens;
        assert forall k | k in todo :: Candidate(nodes, k);
        ghost var k;
        k, todo, tokens := CutOne(todo, tokens);
        CutKeeps(n1, size1, n2, nodes1, size2, todo1, tokens1, done, k);
      }
      NothingTaken(|nodes|);
      freed := Flat(tokens);
    }

    /** One pass through it. */
    method CutOne(todo: map<nat, Pair>, tokens: seq<seq<int>>)
      returns (k: nat, todo': map<nat, Pair>, tokens': seq<seq<int>>)
      requires todo != map[] && forall k | k in todo :: k < |nodes| && todo[k].remain <= |nodes[k].value|
      modifies this`nodes, this`evictableSize
      ensures k in todo && todo' == todo - {k} && tokens' == tokens + [old(nodes)[k].value[todo[k].remain..]]
      ensures evictableSize == old(evictableSize) - (todo[k].orig - todo[k].remain)
      ensures nodes == Trimmed(old(nodes), k, todo[k].remain)
    {
      k :| k in todo;
      var remain, orig := todo[k].remain, todo[k].orig;
      tokens' := tokens + [nodes[k].value[remain..]];
      evictableSize := evictableSize - orig + remain;
      nodes := Trimmed(nodes, k, remain);
      todo' := todo - {k};
    }
  }
}
