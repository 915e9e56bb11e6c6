/** The nodes of the router's prefix tree (`sgl-router/src/tree.rs`) and the four ways its operations
    change them. A node is an entry of an arena and a reference to it is its index, so that a node
    reached by two references is one node. What a node stands for is its path, the text from the root
    to its end; the paths are auxiliary and no operation looks at them. */
module RadixNodes {
  import opened Common
  import opened Sums

  type Tenant = string

  /** `tenants` maps a tenant to its last access time. */
  datatype Node = Node(text: string, children: map<char, nat>, tenants: map<Tenant, nat>, parent: Option<nat>)

  /** The path of every node that is linked into the tree. */
  type Paths = map<nat, string>

  // ----- the shape of the tree -----

  ghost predicate ParentOk(nodes: seq<Node>, at: Paths, id: nat) {
    && id in at && id < |nodes|
    && var v := nodes[id];
    if id == 0 then v.text == "" && v.parent == None && at[id] == ""
    else
      && v.parent.Some? && v.parent.value in at && v.parent.value < |nodes| && v.text != ""
      && at[id] == at[v.parent.value] + v.text
      && v.text[0] in nodes[v.parent.value].children && nodes[v.parent.value].children[v.text[0]] == id
      && v.tenants != map[] && v.tenants.Keys <= nodes[v.parent.value].tenants.Keys
  }

  ghost predicate ChildOk(nodes: seq<Node>, at: Paths, id: nat, c: char)
    requires id < |nodes| && c in nodes[id].children
  {
    var k := nodes[id].children[c];
    k in at && k != 0 && k < |nodes| && nodes[k].parent == Some(id) && nodes[k].text != "" && nodes[k].text[0] == c
  }

  ghost predicate Parents(nodes: seq<Node>, at: Paths) {
    forall id {:trigger ParentOk(nodes, at, id)} | id in at :: ParentOk(nodes, at, id)
  }

  ghost predicate Children(nodes: seq<Node>, at: Paths) {
    forall id, c {:trigger ChildOk(nodes, at, id, c)} | id in at && id < |nodes| && c in nodes[id].children ::
        ChildOk(nodes, at, id, c)
  }

  /** Parents and children agree, siblings differ in their first character, a node belongs to someone,
      and whoever has a node has its parent. */
  ghost predicate Sound(nodes: seq<Node>, at: Paths) {
    && 0 in at && (forall id | id in at :: id < |nodes|)
    && Parents(nodes, at) && Children(nodes, at)
    && (forall id | 0 <= id < |nodes| && id !in at :: nodes[id].tenants == map[])
  }

  /** A tenant has stored a text: it has a node whose path begins with the text. */
  ghost predicate Stored(nodes: seq<Node>, at: Paths, t: Tenant, p: string) {
    exists id :: id in at && id < |nodes| && t in nodes[id].tenants && p <= at[id]
  }

  /** The child of `a` towards a node further down. */
  lemma {:induction false} Below(nodes: seq<Node>, at: Paths, a: nat, id: nat)
    requires Sound(nodes, at) && a in at && id in at && at[a] < at[id]
    ensures at[id][|at[a]|] in nodes[a].children
    ensures nodes[a].children[at[id][|at[a]|]] in at && at[nodes[a].children[at[id][|at[a]|]]] <= at[id]
    decreases |at[id]|, 0
  {
    assert ParentOk(nodes, at, id) && ParentOk(nodes, at, a);
    var q := nodes[id].parent.value;
    assert ParentOk(nodes, at, q);
    if |at[q]| < |at[a]| {
      assert at[q] < at[a];
      Below(nodes, at, q, a);
      assert false;
    } else if |at[q]| == |at[a]| {
      assert at[q] == at[a];
      Unique(nodes, at, q, a);
    } else {
      assert at[a] < at[q];
      Below(nodes, at, a, q);
    }
  }

  /** No two nodes have the same path. */
  lemma {:induction false} Unique(nodes: seq<Node>, at: Paths, a: nat, b: nat)
    requires Sound(nodes, at) && a in at && b in at && at[a] == at[b]
    ensures a == b
    decreases |at[a]|, 0
  {
    assert ParentOk(nodes, at, a) && ParentOk(nodes, at, b);
    if a != 0 && b != 0 {
      var q, r := nodes[a].parent.value, nodes[b].parent.value;
      assert ParentOk(nodes, at, q) && ParentOk(nodes, at, r);
      assert at[q] == at[a][..|at[q]|] && at[r] == at[a][..|at[r]|];
      if |at[q]| == |at[r]| {
        Unique(nodes, at, q, r);
        assert nodes[a].text == nodes[b].text by {
          assert nodes[a].text == at[a][|at[q]|..] && nodes[b].text == at[b][|at[r]|..];
        }
      } else if |at[q]| < |at[r]| {
        NotBetween(nodes, at, q, r, a);
      } else {
        NotBetween(nodes, at, r, q, b);
      }
    }
  }

  /** No path lies strictly between those of a node and its child. */
  lemma {:induction false} NotBetween(nodes: seq<Node>, at: Paths, q: nat, r: nat, a: nat)
    requires Sound(nodes, at) && q in at && r in at && a in at && a != 0 && nodes[a].parent == Some(q)
    ensures !(at[q] < at[r] < at[a])
    decreases |at[r]|, 1
  {
    if at[q] < at[r] < at[a] {
      assert ParentOk(nodes, at, a);
      Below(nodes, at, q, r);
      assert false;
    }
  }

  /** Whoever has a node has every node on the way to it. */
  lemma {:induction false} Ancestor(nodes: seq<Node>, at: Paths, m: nat, id: nat, t: Tenant)
    requires Sound(nodes, at) && m in at && id in at && at[m] <= at[id] && t in nodes[id].tenants
    ensures t in nodes[m].tenants
    decreases |at[id]|
  {
    if at[m] == at[id] {
      Unique(nodes, at, m, id);
    } else {
      assert ParentOk(nodes, at, id) && ParentOk(nodes, at, m);
      var q := nodes[id].parent.value;
      assert t in nodes[q].tenants;
      NotBetween(nodes, at, q, m, id);
      assert at[m] <= at[q];
      Ancestor(nodes, at, m, q, t);
    }
  }

  // ----- how much a tenant uses -----

  function Share(v: Node, t: Tenant): nat { if t in v.tenants then |v.text| else 0 }

  function Shares(nodes: seq<Node>, t: Tenant): seq<int> {
    seq(|nodes|, i requires 0 <= i < |nodes| => Share(nodes[i], t))
  }

  /** The characters of all nodes of a tenant. */
  function Used(nodes: seq<Node>, t: Tenant): int { Sum(Shares(nodes, t)) }

  lemma UsedAtFirst(t: Tenant)
    ensures Used([Node("", map[], map[], None)], t) == 0
  {
    assert Shares([Node("", map[], map[], None)], t) == [0];
    assert [0][..0] == [];
  }

  /** Times never grow away from the root. */
  ghost predicate Recent(nodes: seq<Node>, at: Paths) {
    forall id, t {:trigger RecentAt(nodes, id, t)} | id in at && id != 0 && id < |nodes| && t in nodes[id].tenants ::
        RecentAt(nodes, id, t)
  }

  ghost predicate RecentAt(nodes: seq<Node>, id: nat, t: Tenant)
    requires id < |nodes| && t in nodes[id].tenants
  {
    && nodes[id].parent.Some? && nodes[id].parent.value < |nodes|
    && t in nodes[nodes[id].parent.value].tenants && nodes[id].tenants[t] <= nodes[nodes[id].parent.value].tenants[t]
  }

  // ----- recording an access -----

  function Touch(nodes: seq<Node>, id: nat, t: Tenant, now: nat): seq<Node>
    requires id < |nodes|
  {
    nodes[id := nodes[id].(tenants := nodes[id].tenants[t := now])]
  }

  ghost predicate HasParentOf(nodes: seq<Node>, id: nat, t: Tenant)
    requires id < |nodes|
  {
    id == 0 || (nodes[id].parent.Some? && nodes[id].parent.value < |nodes|
        && t in nodes[nodes[id].parent.value].tenants)
  }

  lemma TouchSound(nodes: seq<Node>, at: Paths, id: nat, t: Tenant, now: nat)
    requires Sound(nodes, at) && id in at && HasParentOf(nodes, id, t)
    ensures Sound(Touch(nodes, id, t, now), at)
  {
    var nodes' := Touch(nodes, id, t, now);
    forall i | i in at ensures ParentOk(nodes', at, i) {
      assert ParentOk(nodes, at, i);
    }
    forall i, c | i in at && i < |nodes| && c in nodes'[i].children ensures ChildOk(nodes', at, i, c) {
      assert ChildOk(nodes, at, i, c);
    }
  }

  /** The tenant now has the whole path of the node, and nothing else changes. */
  lemma TouchStores(nodes: seq<Node>, at: Paths, id: nat, t: Tenant, now: nat)
    requires Sound(nodes, at) && id in at
    ensures forall t', p :: Stored(Touch(nodes, id, t, now), at, t', p) <==>
            Stored(nodes, at, t', p) || (t' == t && p <= at[id])
  {
    var nodes' := Touch(nodes, id, t, now);
    forall t', p ensures Stored(nodes', at, t', p) <==> Stored(nodes, at, t', p) || (t' == t && p <= at[id]) {
      if Stored(nodes, at, t', p) {
        var i :| i in at && i < |nodes| && t' in nodes[i].tenants && p <= at[i];
        assert t' in nodes'[i].tenants;
      }
      assert t in nodes'[id].tenants;
    }
  }

  lemma TouchUsed(nodes: seq<Node>, id: nat, t: Tenant, now: nat, t': Tenant)
    requires id < |nodes|
    ensures Used(Touch(nodes, id, t, now), t') == Used(nodes, t')
            + if t' == t && t !in nodes[id].tenants then |nodes[id].text| else 0
  {
    var v := Touch(nodes, id, t, now)[id];
    SumUpdate(Shares(nodes, t'), id, Share(v, t'));
    assert Shares(Touch(nodes, id, t, now), t') == Shares(nodes, t')[id := Share(v, t')];
  }

  // ----- a new leaf -----

  function AddLeaf(nodes: seq<Node>, q: nat, text: string, t: Tenant, now: nat): seq<Node>
    requires q < |nodes| && text != ""
  {
    nodes[q := nodes[q].(children := nodes[q].children[text[0] := |nodes|])]
        + [Node(text, map[], map[t := now], Some(q))]
  }

  ghost predicate CanAddLeaf(nodes: seq<Node>, at: Paths, q: nat, text: string, t: Tenant) {
    Sound(nodes, at) && q in at && text != "" && text[0] !in nodes[q].children && t in nodes[q].tenants
  }

  lemma AddLeafSound(nodes: seq<Node>, at: Paths, q: nat, text: string, t: Tenant, now: nat)
    requires CanAddLeaf(nodes, at, q, text, t)
    ensures Sound(AddLeaf(nodes, q, text, t, now), at[|nodes| := at[q] + text])
  {
    var nodes', at' := AddLeaf(nodes, q, text, t, now), at[|nodes| := at[q] + text];
    forall i | i in at' ensures ParentOk(nodes', at', i) {
      if i == |nodes| {
        NewLeafParent(nodes, at, q, text, t, now);
      } else {
        AddLeafParent(nodes, at, q, text, t, now, i);
      }
    }
    AddLeafChildren(nodes, at, q, text, t, now);
  }

  lemma AddLeafChildren(nodes: seq<Node>, at: Paths, q: nat, text: string, t: Tenant, now: nat)
    requires CanAddLeaf(nodes, at, q, text, t)
    ensures Children(AddLeaf(nodes, q, text, t, now), at[|nodes| := at[q] + text])
  {
    var nodes', at' := AddLeaf(nodes, q, text, t, now), at[|nodes| := at[q] + text];
    forall i, c | i in at' && i < |nodes'| && c in nodes'[i].children ensures ChildOk(nodes', at', i, c) {
      if !(i == q && c == text[0]) {
        assert ChildOk(nodes, at, i, c);
      }
    }
  }

  lemma NewLeafParent(nodes: seq<Node>, at: Paths, q: nat, text: string, t: Tenant, now: nat)
    requires CanAddLeaf(nodes, at, q, text, t)
    ensures ParentOk(AddLeaf(nodes, q, text, t, now), at[|nodes| := at[q] + text], |nodes|)
  {
    assert |nodes| !in at && t in map[t := now];
  }

  lemma AddLeafParent(nodes: seq<Node>, at: Paths, q: nat, text: string, t: Tenant, now: nat, i: nat)
    requires CanAddLeaf(nodes, at, q, text, t) && i in at
    ensures ParentOk(AddLeaf(nodes, q, text, t, now), at[|nodes| := at[q] + text], i)
  {
    assert ParentOk(nodes, at, i) && |nodes| !in at;
    ParentKept(nodes, at, AddLeaf(nodes, q, text, t, now), at[|nodes| := at[q] + text], i);
  }

  /** A node whose surroundings stay as they are. */
  lemma ParentKept(nodes: seq<Node>, at: Paths, nodes': seq<Node>, at': Paths, i: nat)
    requires ParentOk(nodes, at, i) && i in at' && i < |nodes'| && at'[i] == at[i]
    requires nodes'[i].text == nodes[i].text && nodes'[i].parent == nodes[i].parent
             && nodes'[i].tenants == nodes[i].tenants
    requires i != 0 ==> SameUp(nodes, at, nodes', at', nodes[i].parent.value, nodes[i].text[0])
    ensures ParentOk(nodes', at', i)
  {
  }

  ghost predicate SameUp(nodes: seq<Node>, at: Paths, nodes': seq<Node>, at': Paths, q: nat, c: char)
    requires q in at && q < |nodes|
  {
    && q in at' && q < |nodes'| && at'[q] == at[q] && nodes'[q].tenants == nodes[q].tenants
    && (c in nodes[q].children ==> c in nodes'[q].children && nodes'[q].children[c] == nodes[q].children[c])
  }

  lemma AddLeafStores(nodes: seq<Node>, at: Paths, q: nat, text: string, t: Tenant, now: nat, t': Tenant, p: string)
    requires CanAddLeaf(nodes, at, q, text, t)
    ensures Stored(AddLeaf(nodes, q, text, t, now), at[|nodes| := at[q] + text], t', p) <==>
            Stored(nodes, at, t', p) || (t' == t && p <= at[q] + text)
  {
    var nodes', at' := AddLeaf(nodes, q, text, t, now), at[|nodes| := at[q] + text];
    if Stored(nodes, at, t', p) {
      var i :| i in at && i < |nodes| && t' in nodes[i].tenants && p <= at[i];
      assert i in at' && t' in nodes'[i].tenants;
    }
    assert |nodes| in at' && t in nodes'[|nodes|].tenants;
  }

  lemma AddLeafUsed(nodes: seq<Node>, q: nat, text: string, t: Tenant, now: nat, t': Tenant)
    requires q < |nodes| && text != ""
    ensures Used(AddLeaf(nodes, q, text, t, now), t') == Used(nodes, t') + if t' == t then |text| else 0
  {
    var nodes' := AddLeaf(nodes, q, text, t, now);
    assert Shares(nodes', t')[..|nodes|] == Shares(nodes, t') by {
      forall i | 0 <= i < |nodes| ensures Share(nodes'[i], t') == Share(nodes[i], t') {
      }
    }
  }

  // ----- splitting a node -----

  /** A new node takes the first `k` characters of `m` and its place; `m` becomes its only child. */
  function Split(nodes: seq<Node>, q: nat, m: nat, k: nat): seq<Node>
    requires q < |nodes| && m < |nodes| && 0 < k < |nodes[m].text|
  {
    var v, n := nodes[m], |nodes|;
    var linked := nodes[q := nodes[q].(children := nodes[q].children[v.text[0] := n])];
    linked[m := linked[m].(text := v.text[k..], parent := Some(n))]
        + [Node(v.text[..k], map[v.text[k] := m], v.tenants, Some(q))]
  }

  ghost predicate CanSplit(nodes: seq<Node>, at: Paths, q: nat, m: nat, k: nat) {
    Sound(nodes, at) && q in at && m in at && m != 0 && nodes[m].parent == Some(q) && 0 < k < |nodes[m].text|
  }

  ghost function SplitPaths(nodes: seq<Node>, at: Paths, q: nat, m: nat, k: nat): Paths
    requires CanSplit(nodes, at, q, m, k)
  {
    at[|nodes| := at[q] + nodes[m].text[..k]]
  }

  lemma SplitSound(nodes: seq<Node>, at: Paths, q: nat, m: nat, k: nat)
    requires CanSplit(nodes, at, q, m, k)
    ensures Sound(Split(nodes, q, m, k), SplitPaths(nodes, at, q, m, k))
  {
    SplitParents(nodes, at, q, m, k);
    SplitChildren(nodes, at, q, m, k);
  }

  lemma SplitParents(nodes: seq<Node>, at: Paths, q: nat, m: nat, k: nat)
    requires CanSplit(nodes, at, q, m, k)
    ensures Parents(Split(nodes, q, m, k), SplitPaths(nodes, at, q, m, k))
  {
    forall i | i in SplitPaths(nodes, at, q, m, k)
      ensures ParentOk(Split(nodes, q, m, k), SplitPaths(nodes, at, q, m, k), i)
    {
      if i == |nodes| || i == m {
        SplitParent(nodes, at, q, m, k);
      } else {
        SplitOther(nodes, at, q, m, k, i);
      }
    }
  }

  lemma SplitParent(nodes: seq<Node>, at: Paths, q: nat, m: nat, k: nat)
    requires CanSplit(nodes, at, q, m, k)
    ensures ParentOk(Split(nodes, q, m, k), SplitPaths(nodes, at, q, m, k), m)
    ensures ParentOk(Split(nodes, q, m, k), SplitPaths(nodes, at, q, m, k), |nodes|)
  {
    SplitParts(nodes, at, q, m, k);
    assert ParentOk(nodes, at, m);
  }

  lemma SplitOther(nodes: seq<Node>, at: Paths, q: nat, m: nat, k: nat, i: nat)
    requires CanSplit(nodes, at, q, m, k) && i in at && i != m
    ensures ParentOk(Split(nodes, q, m, k), SplitPaths(nodes, at, q, m, k), i)
  {
    SplitParts(nodes, at, q, m, k);
    assert ParentOk(nodes, at, i) && ParentOk(nodes, at, m);
    ParentKept(nodes, at, Split(nodes, q, m, k), SplitPaths(nodes, at, q, m, k), i);
  }

  /** What the nodes of a split look like. */
  lemma SplitParts(nodes: seq<Node>, at: Paths, q: nat, m: nat, k: nat)
    requires CanSplit(nodes, at, q, m, k)
    ensures q != m && |nodes| !in at && nodes[m].text[0] in nodes[q].children
            && nodes[q].children[nodes[m].text[0]] == m
    ensures var v, n, nodes' := nodes[m], |nodes|, Split(nodes, q, m, k);
      && |nodes'| == n + 1 && (forall i | 0 <= i < n && i != q && i != m :: nodes'[i] == nodes[i])
      && nodes'[q] == nodes[q].(children := nodes[q].children[v.text[0] := n])
      && nodes'[m] == v.(text := v.text[k..], parent := Some(n))
      && nodes'[n] == Node(v.text[..k], map[v.text[k] := m], v.tenants, Some(q))
    ensures at[q] + nodes[m].text[..k] + nodes[m].text[k..] == at[m]
  {
    assert ParentOk(nodes, at, m);
    assert nodes[m].text == nodes[m].text[..k] + nodes[m].text[k..];
    assert at[q] + nodes[m].text[..k] + nodes[m].text[k..] == at[q] + nodes[m].text;
  }

  lemma SplitChildren(nodes: seq<Node>, at: Paths, q: nat, m: nat, k: nat)
    requires CanSplit(nodes, at, q, m, k)
    ensures Children(Split(nodes, q, m, k), SplitPaths(nodes, at, q, m, k))
  {
    SplitParts(nodes, at, q, m, k);
    var nodes', at' := Split(nodes, q, m, k), SplitPaths(nodes, at, q, m, k);
    forall i, c | i in at' && i < |nodes'| && c in nodes'[i].children ensures ChildOk(nodes', at', i, c) {
      if i in at && !(i == q && c == nodes[m].text[0]) {
        assert ChildOk(nodes, at, i, c);
      }
    }
  }

  lemma SplitStores(nodes: seq<Node>, at: Paths, q: nat, m: nat, k: nat)
    requires CanSplit(nodes, at, q, m, k)
    ensures forall t, p :: Stored(Split(nodes, q, m, k), SplitPaths(nodes, at, q, m, k), t, p) <==>
            Stored(nodes, at, t, p)
  {
    var nodes', at' := Split(nodes, q, m, k), SplitPaths(nodes, at, q, m, k);
    assert ParentOk(nodes, at, m);
    assert at'[|nodes|] <= at[m] by {
      assert nodes[m].text == nodes[m].text[..k] + nodes[m].text[k..];
      assert at[m] == at'[|nodes|] + nodes[m].text[k..];
    }
    forall t, p ensures Stored(nodes', at', t, p) <==> Stored(nodes, at, t, p) {
      if Stored(nodes, at, t, p) {
        var i :| i in at && i < |nodes| && t in nodes[i].tenants && p <= at[i];
        assert i in at' && t in nodes'[i].tenants;
      }
      if Stored(nodes', at', t, p) {
        var i :| i in at' && i < |nodes'| && t in nodes'[i].tenants && p <= at'[i];
        var j := if i == |nodes| then m else i;
        assert j in at && t in nodes[j].tenants && p <= at[j];
      }
    }
  }

  lemma SplitUsed(nodes: seq<Node>, q: nat, m: nat, k: nat, t: Tenant)
    requires q < |nodes| && m < |nodes| && q != m && 0 < k < |nodes[m].text|
    ensures Used(Split(nodes, q, m, k), t) == Used(nodes, t)
  {
    var nodes' := Split(nodes, q, m, k);
    var s := Shares(nodes', t);
    SumUpdate(Shares(nodes, t), m, Share(nodes'[m], t));
    assert s[..|s| - 1] == Shares(nodes, t)[m := Share(nodes'[m], t)];
  }

  // ----- taking a tenant off a node -----

  /** The tenants of a node none of whose children they have. */
  function LeafOf(nodes: seq<Node>, id: nat): set<Tenant>
    requires id < |nodes|
  {
    set t | t in nodes[id].tenants && NoChildOf(nodes, id, t)
  }

  ghost predicate IsLeaf(nodes: seq<Node>, at: Paths, id: nat, t: Tenant) {
    id in at && id < |nodes| && t in nodes[id].tenants && NoChildOf(nodes, id, t)
  }

  predicate NoChildOf(nodes: seq<Node>, id: nat, t: Tenant)
    requires id < |nodes|
  {
    forall c | c in nodes[id].children :: nodes[id].children[c] < |nodes| ==> t !in nodes[nodes[id].children[c]].tenants
  }

  /** A node left without tenants and children is unlinked from its parent. */
  predicate Empties(nodes: seq<Node>, id: nat, t: Tenant)
    requires id < |nodes|
  {
    nodes[id].children == map[] && nodes[id].tenants - {t} == map[] && nodes[id].parent.Some?
  }

  function Drop(nodes: seq<Node>, id: nat, t: Tenant): seq<Node>
    requires id < |nodes|
  {
    var v := nodes[id];
    var dropped := nodes[id := v.(tenants := v.tenants - {t})];
    if Empties(nodes, id, t) && v.parent.value < |nodes| && v.text != "" then
      dropped[v.parent.value := dropped[v.parent.value].(children := dropped[v.parent.value].children - {v.text[0]})]
    else dropped
  }

  ghost function DropPaths(nodes: seq<Node>, at: Paths, id: nat, t: Tenant): Paths
    requires id < |nodes|
  {
    if Empties(nodes, id, t) then at - {id} else at
  }

  ghost predicate CanDrop(nodes: seq<Node>, at: Paths, id: nat, t: Tenant) {
    Sound(nodes, at) && IsLeaf(nodes, at, id, t)
  }

  lemma DropParts(nodes: seq<Node>, at: Paths, id: nat, t: Tenant)
    requires CanDrop(nodes, at, id, t)
    ensures var v, nodes' := nodes[id], Drop(nodes, id, t);
      && |nodes'| == |nodes| && nodes'[id] == v.(tenants := v.tenants - {t})
      && (id == 0 ==> v.parent == None && forall i | 0 < i < |nodes| :: nodes'[i] == nodes[i])
      && (id != 0 ==>
            && v.text != "" && v.parent.Some? && v.parent.value < |nodes| && v.parent.value != id
            && (forall i | 0 <= i < |nodes| && i != id && i != v.parent.value :: nodes'[i] == nodes[i])
            && nodes'[v.parent.value].(children := nodes[v.parent.value].children) == nodes[v.parent.value]
            && nodes'[v.parent.value].children ==
                 (if Empties(nodes, id, t) then nodes[v.parent.value].children - {v.text[0]}
                  else nodes[v.parent.value].children))
  {
    assert ParentOk(nodes, at, id);
  }

  /** If the tenant was the last one there were no children, for a child belongs to someone. */
  lemma DropEmpties(nodes: seq<Node>, at: Paths, id: nat, t: Tenant)
    requires CanDrop(nodes, at, id, t) && nodes[id].tenants - {t} == map[]
    ensures nodes[id].children == map[]
  {
    if c :| c in nodes[id].children {
      assert ChildOk(nodes, at, id, c);
      assert t !in nodes[nodes[id].children[c]].tenants;
      OnlyTenant(nodes[id].tenants, t);
      var t' := SharedTenant(nodes, at, id, c);
      assert false;
    }
  }

  lemma OnlyTenant(tenants: map<Tenant, nat>, t: Tenant)
    requires tenants - {t} == map[]
    ensures forall t' | t' in tenants :: t' == t
  {
    assert tenants.Keys - {t} == (tenants - {t}).Keys == {};
    forall t' | t' in tenants ensures t' == t {
      assert t' in tenants.Keys - {t} || t' == t;
    }
  }

  lemma SharedTenant(nodes: seq<Node>, at: Paths, id: nat, c: char) returns (t: Tenant)
    requires Sound(nodes, at) && id in at && c in nodes[id].children
    ensures t in nodes[id].tenants && nodes[id].children[c] < |nodes| && t in nodes[nodes[id].children[c]].tenants
  {
    assert ChildOk(nodes, at, id, c);
    assert ParentOk(nodes, at, nodes[id].children[c]);
    t :| t in nodes[nodes[id].children[c]].tenants;
  }

  lemma DropOther(nodes: seq<Node>, at: Paths, id: nat, t: Tenant, i: nat)
    requires CanDrop(nodes, at, id, t) && i in at && i != id
    ensures ParentOk(Drop(nodes, id, t), DropPaths(nodes, at, id, t), i)
  {
    DropParts(nodes, at, id, t);
    assert ParentOk(nodes, at, i) && ParentOk(nodes, at, id);
    var nodes', at' := Drop(nodes, id, t), DropPaths(nodes, at, id, t);
    if i != 0 && nodes[i].parent == Some(id) {
      var c := nodes[i].text[0];
      assert nodes[id].children[c] == i;
      assert t !in nodes[i].tenants;
      assert nodes[i].tenants.Keys <= (nodes[id].tenants - {t}).Keys;
    } else {
      if i != 0 && id != 0 && nodes[i].parent == nodes[id].parent {
        assert nodes[i].text[0] != nodes[id].text[0];
      }
      ParentKept(nodes, at, nodes', at', i);
    }
  }

  lemma DropSelf(nodes: seq<Node>, at: Paths, id: nat, t: Tenant)
    requires CanDrop(nodes, at, id, t) && (id == 0 || !Empties(nodes, id, t))
    ensures ParentOk(Drop(nodes, id, t), DropPaths(nodes, at, id, t), id)
  {
    DropParts(nodes, at, id, t);
    assert ParentOk(nodes, at, id);
    if id != 0 && nodes[id].tenants - {t} == map[] {
      DropEmpties(nodes, at, id, t);
    }
  }

  lemma DropChildren(nodes: seq<Node>, at: Paths, id: nat, t: Tenant)
    requires CanDrop(nodes, at, id, t)
    ensures Children(Drop(nodes, id, t), DropPaths(nodes, at, id, t))
  {
    DropParts(nodes, at, id, t);
    var nodes', at' := Drop(nodes, id, t), DropPaths(nodes, at, id, t);
    forall i, c | i in at' && i < |nodes'| && c in nodes'[i].children ensures ChildOk(nodes', at', i, c) {
      assert ChildOk(nodes, at, i, c);
      var k := nodes[i].children[c];
      assert ParentOk(nodes, at, id);
      if k == id {
        assert c == nodes[id].text[0];
      }
    }
  }

  lemma DropSound(nodes: seq<Node>, at: Paths, id: nat, t: Tenant)
    requires CanDrop(nodes, at, id, t)
    ensures Sound(Drop(nodes, id, t), DropPaths(nodes, at, id, t))
  {
    DropParents(nodes, at, id, t);
    DropChildren(nodes, at, id, t);
    DropParts(nodes, at, id, t);
    assert ParentOk(nodes, at, id);
  }

  lemma DropParents(nodes: seq<Node>, at: Paths, id: nat, t: Tenant)
    requires CanDrop(nodes, at, id, t)
    ensures Parents(Drop(nodes, id, t), DropPaths(nodes, at, id, t))
  {
    assert ParentOk(nodes, at, id);
    forall i | i in DropPaths(nodes, at, id, t) ensures ParentOk(Drop(nodes, id, t), DropPaths(nodes, at, id, t), i) {
      if i == id {
        DropSelf(nodes, at, id, t);
      } else {
        DropOther(nodes, at, id, t, i);
      }
    }
  }

  /** A tenant taken off a leaf loses exactly the texts that end inside it, and no one else loses any. */
  lemma DropStores(nodes: seq<Node>, at: Paths, id: nat, t: Tenant, t': Tenant, p: string)
    requires CanDrop(nodes, at, id, t)
    ensures Stored(Drop(nodes, id, t), DropPaths(nodes, at, id, t), t', p) <==>
            Stored(nodes, at, t', p) && !(t' == t && p <= at[id] && |p| + |nodes[id].text| > |at[id]|)
                && !(t' == t && id == 0)
  {
    if Stored(nodes, at, t', p) && !(t' == t && p <= at[id] && |p| + |nodes[id].text| > |at[id]|)
        && !(t' == t && id == 0) {
      DropLeaves(nodes, at, id, t, t', p);
    }
    if Stored(Drop(nodes, id, t), DropPaths(nodes, at, id, t), t', p) {
      DropTakes(nodes, at, id, t, t', p);
    }
  }

  lemma DropTakes(nodes: seq<Node>, at: Paths, id: nat, t: Tenant, t': Tenant, p: string)
    requires CanDrop(nodes, at, id, t) && Stored(Drop(nodes, id, t), DropPaths(nodes, at, id, t), t', p)
    ensures Stored(nodes, at, t', p) && !(t' == t && p <= at[id] && |p| + |nodes[id].text| > |at[id]|)
            && !(t' == t && id == 0)
  {
    DropParts(nodes, at, id, t);
    var nodes', at' := Drop(nodes, id, t), DropPaths(nodes, at, id, t);
    var i :| i in at' && i < |nodes'| && t' in nodes'[i].tenants && p <= at'[i];
    assert i in at && t' in nodes[i].tenants;
    if t' == t {
      OnlyLeaf(nodes, at, id, t, i, p);
    }
  }

  lemma DropLeaves(nodes: seq<Node>, at: Paths, id: nat, t: Tenant, t': Tenant, p: string)
    requires CanDrop(nodes, at, id, t) && Stored(nodes, at, t', p)
    requires !(t' == t && p <= at[id] && |p| + |nodes[id].text| > |at[id]|) && !(t' == t && id == 0)
    ensures Stored(Drop(nodes, id, t), DropPaths(nodes, at, id, t), t', p)
  {
    DropParts(nodes, at, id, t);
    var nodes', at' := Drop(nodes, id, t), DropPaths(nodes, at, id, t);
    assert ParentOk(nodes, at, id);
    var i :| i in at && i < |nodes| && t' in nodes[i].tenants && p <= at[i];
    if i != id || t' != t {
      assert t' in nodes'[i].tenants && i in at';
    } else {
      var q := nodes[id].parent.value;
      assert t in nodes'[q].tenants && q in at' && p <= at'[q];
    }
  }

  /** Nobody but the leaf holds the texts that end in it. */
  lemma OnlyLeaf(nodes: seq<Node>, at: Paths, id: nat, t: Tenant, i: nat, p: string)
    requires CanDrop(nodes, at, id, t) && i in at && i != id && t in nodes[i].tenants && p <= at[i]
    ensures id != 0 && !(p <= at[id] && |p| + |nodes[id].text| > |at[id]|)
  {
    assert ParentOk(nodes, at, id) && ParentOk(nodes, at, i);
    if id == 0 {
      NoneBelowLeaf(nodes, at, id, t, i);
    } else if p <= at[id] && |p| + |nodes[id].text| > |at[id]| {
      var q := nodes[id].parent.value;
      assert ParentOk(nodes, at, q);
      assert at[q] < at[i] by {
        assert at[q] == at[id][..|at[q]|] == p[..|at[q]|] == at[i][..|at[q]|];
      }
      Below(nodes, at, q, i);
      assert at[i][|at[q]|] == p[|at[q]|] == at[id][|at[q]|] == nodes[id].text[0];
      assert at[id] <= at[i];
      NoneBelowLeaf(nodes, at, id, t, i);
    }
  }

  lemma NoneBelowLeaf(nodes: seq<Node>, at: Paths, id: nat, t: Tenant, i: nat)
    requires CanDrop(nodes, at, id, t) && i in at && i != id && at[id] <= at[i]
    ensures t !in nodes[i].tenants
  {
    if at[id] == at[i] {
      Unique(nodes, at, id, i);
    } else if t in nodes[i].tenants {
      Below(nodes, at, id, i);
      var k := nodes[id].children[at[i][|at[id]|]];
      Ancestor(nodes, at, k, i, t);
    }
  }

  lemma DropUsed(nodes: seq<Node>, at: Paths, id: nat, t: Tenant, t': Tenant)
    requires CanDrop(nodes, at, id, t)
    ensures Used(Drop(nodes, id, t), t') == Used(nodes, t') - if t' == t then |nodes[id].text| else 0
  {
    DropParts(nodes, at, id, t);
    var nodes' := Drop(nodes, id, t);
    SumUpdate(Shares(nodes, t'), id, Share(nodes'[id], t'));
    assert Shares(nodes', t') == Shares(nodes, t')[id := Share(nodes'[id], t')];
  }

  /** When a tenant is taken off a leaf another leaf stays one ... */
  lemma LeafStays(nodes: seq<Node>, at: Paths, id: nat, t: Tenant, i: nat, t': Tenant)
    requires CanDrop(nodes, at, id, t) && IsLeaf(nodes, at, i, t') && !(i == id && t' == t)
    ensures IsLeaf(Drop(nodes, id, t), DropPaths(nodes, at, id, t), i, t')
  {
    DropParts(nodes, at, id, t);
    if Empties(nodes, id, t) {
      OnlyTenant(nodes[id].tenants, t);
    }
  }

  /** ... and, apart from the parent, was one before. */
  lemma LeafBefore(nodes: seq<Node>, at: Paths, id: nat, t: Tenant, i: nat, t': Tenant)
    requires CanDrop(nodes, at, id, t) && !(t' == t && nodes[id].parent == Some(i))
    requires IsLeaf(Drop(nodes, id, t), DropPaths(nodes, at, id, t), i, t')
    ensures IsLeaf(nodes, at, i, t') && !(i == id && t' == t)
  {
    DropParts(nodes, at, id, t);
    assert ParentOk(nodes, at, id);
    forall c | c in nodes[i].children && nodes[i].children[c] < |nodes|
      ensures t' !in nodes[nodes[i].children[c]].tenants
    {
      assert ChildOk(nodes, at, i, c);
      if Empties(nodes, id, t) && nodes[i].children[c] == id {
        OnlyTenant(nodes[id].tenants, t);
      }
    }
  }

  ghost function Deeper(at: Paths, n: nat): set<nat> { set i | i in at && n < |at[i]| }

  /** Below every node of a tenant there is a leaf of the tenant, seen no later. */
  lemma {:induction false} LeafBelow(nodes: seq<Node>, at: Paths, id: nat, t: Tenant) returns (leaf: nat)
    requires Sound(nodes, at) && id in at && t in nodes[id].tenants
    ensures IsLeaf(nodes, at, leaf, t)
    ensures Recent(nodes, at) ==> nodes[leaf].tenants[t] <= nodes[id].tenants[t]
    decreases Deeper(at, |at[id]|)
  {
    if NoChildOf(nodes, id, t) {
      leaf := id;
    } else {
      var c :| c in nodes[id].children && nodes[id].children[c] < |nodes| && t in nodes[nodes[id].children[c]].tenants;
      var k := nodes[id].children[c];
      assert ChildOk(nodes, at, id, c);
      assert ParentOk(nodes, at, k);
      assert k in Deeper(at, |at[id]|) && k !in Deeper(at, |at[k]|);
      leaf := LeafBelow(nodes, at, k, t);
      assert Recent(nodes, at) ==> RecentAt(nodes, k, t);
    }
  }

  // ----- times -----

  ghost predicate NotAfter(nodes: seq<Node>, now: nat) {
    forall id, t | 0 <= id < |nodes| && t in nodes[id].tenants :: nodes[id].tenants[t] <= now
  }

  /** `Recent`, except that `x` may have been seen by `t` after its parent. */
  ghost predicate RecentBut(nodes: seq<Node>, at: Paths, x: nat, t: Tenant) {
    forall id, t' {:trigger RecentAt(nodes, id, t')} | id in at && id != 0 && id < |nodes| && t' in nodes[id].tenants
        && !(id == x && t' == t) ::
      RecentAt(nodes, id, t')
  }

  /** An access recorded on the way down, after the parent's. */
  lemma TouchRecent(nodes: seq<Node>, at: Paths, id: nat, t: Tenant, now: nat)
    requires Sound(nodes, at) && Recent(nodes, at) && NotAfter(nodes, now) && id in at && HasParentOf(nodes, id, t)
    requires id == 0 || nodes[nodes[id].parent.value].tenants[t] == now
    ensures Recent(Touch(nodes, id, t, now), at) && NotAfter(Touch(nodes, id, t, now), now)
  {
    var nodes' := Touch(nodes, id, t, now);
    forall i, t' | i in at && i != 0 && i < |nodes'| && t' in nodes'[i].tenants ensures RecentAt(nodes', i, t') {
      assert ParentOk(nodes, at, i);
      if !(i == id && t' == t) {
        assert RecentAt(nodes, i, t');
      }
    }
  }

  /** An access recorded on the way up, from a child to its parent. */
  lemma TouchUpRecent(nodes: seq<Node>, at: Paths, x: nat, id: nat, t: Tenant, now: nat)
    requires Sound(nodes, at) && RecentBut(nodes, at, x, t) && NotAfter(nodes, now) && id in at
             && t in nodes[id].tenants
    requires x < |nodes| && (x == id || nodes[x].parent == Some(id))
    ensures RecentBut(Touch(nodes, id, t, now), at, id, t) && NotAfter(Touch(nodes, id, t, now), now)
  {
    var nodes' := Touch(nodes, id, t, now);
    forall i, t' | i in at && i != 0 && i < |nodes'| && t' in nodes'[i].tenants && !(i == id && t' == t)
      ensures RecentAt(nodes', i, t')
    {
      assert ParentOk(nodes, at, i);
      if !(i == x && t' == t) {
        assert RecentAt(nodes, i, t');
      }
    }
  }

  lemma AddLeafRecent(nodes: seq<Node>, at: Paths, q: nat, text: string, t: Tenant, now: nat)
    requires CanAddLeaf(nodes, at, q, text, t) && Recent(nodes, at) && NotAfter(nodes, now)
             && nodes[q].tenants[t] == now
    ensures Recent(AddLeaf(nodes, q, text, t, now), at[|nodes| := at[q] + text])
            && NotAfter(AddLeaf(nodes, q, text, t, now), now)
  {
    var nodes', at' := AddLeaf(nodes, q, text, t, now), at[|nodes| := at[q] + text];
    forall i, t' | i in at' && i != 0 && i < |nodes'| && t' in nodes'[i].tenants ensures RecentAt(nodes', i, t') {
      if i < |nodes| {
        assert RecentAt(nodes, i, t');
      }
    }
  }

  lemma SplitRecent(nodes: seq<Node>, at: Paths, q: nat, m: nat, k: nat, now: nat)
    requires CanSplit(nodes, at, q, m, k) && Recent(nodes, at) && NotAfter(nodes, now)
    ensures Recent(Split(nodes, q, m, k), SplitPaths(nodes, at, q, m, k)) && NotAfter(Split(nodes, q, m, k), now)
  {
    SplitParts(nodes, at, q, m, k);
    var nodes', at' := Split(nodes, q, m, k), SplitPaths(nodes, at, q, m, k);
    forall i, t | i in at' && i != 0 && i < |nodes'| && t in nodes'[i].tenants ensures RecentAt(nodes', i, t) {
      assert RecentAt(nodes, if i < |nodes| then i else m, t);
    }
    forall i, t | 0 <= i < |nodes'| && t in nodes'[i].tenants ensures nodes'[i].tenants[t] <= now {
      assert nodes'[i].tenants == nodes[if i < |nodes| then i else m].tenants;
    }
  }

  lemma DropRecent(nodes: seq<Node>, at: Paths, id: nat, t: Tenant)
    requires CanDrop(nodes, at, id, t) && Recent(nodes, at)
    ensures Recent(Drop(nodes, id, t), DropPaths(nodes, at, id, t))
  {
    DropParts(nodes, at, id, t);
    var nodes', at' := Drop(nodes, id, t), DropPaths(nodes, at, id, t);
    forall i, t' | i in at' && i != 0 && i < |nodes'| && t' in nodes'[i].tenants ensures RecentAt(nodes', i, t') {
      assert RecentAt(nodes, i, t');
      DropSound(nodes, at, id, t);
      assert ParentOk(nodes', at', i);
    }
  }
}
