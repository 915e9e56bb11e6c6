/** What the character count of a tenant in the prefix tree means: the number of different texts,
    other than the empty one, that the tenant has stored. */
module RadixCounts {
  import opened Sums
  import opened RadixNodes

  /** The text ends inside the node: after the end of the parent's path and not after that of its own. */
  ghost predicate EndsIn(nodes: seq<Node>, at: Paths, id: nat, p: string) {
    id in at && id < |nodes| && p <= at[id] && |at[id]| < |p| + |nodes[id].text|
  }

  lemma EndsOnce(nodes: seq<Node>, at: Paths, i: nat, j: nat, p: string)
    requires Sound(nodes, at) && EndsIn(nodes, at, i, p) && EndsIn(nodes, at, j, p)
    ensures i == j
  {
    assert ParentOk(nodes, at, i) && ParentOk(nodes, at, j);
    if i != 0 && j != 0 {
      var q, r := nodes[i].parent.value, nodes[j].parent.value;
      assert at[q] == at[i][..|at[q]|] == p[..|at[q]|] && at[r] == at[j][..|at[r]|] == p[..|at[r]|];
      if |at[q]| == |at[r]| {
        Unique(nodes, at, q, r);
        assert nodes[i].text[0] == at[i][|at[q]|] == p[|at[q]|] == at[j][|at[q]|] == nodes[j].text[0];
      } else if |at[q]| < |at[r]| {
        NotBetween(nodes, at, q, r, i);
      } else {
        NotBetween(nodes, at, r, q, j);
      }
    }
  }

  /** A text that a node's path begins with ends inside the node or one above it. */
  lemma {:induction false} EndsSomewhere(nodes: seq<Node>, at: Paths, id: nat, p: string, t: Tenant) returns (i: nat)
    requires Sound(nodes, at) && id in at && p <= at[id] && p != "" && t in nodes[id].tenants
    ensures EndsIn(nodes, at, i, p) && t in nodes[i].tenants
    decreases |at[id]|
  {
    assert ParentOk(nodes, at, id);
    if |at[id]| < |p| + |nodes[id].text| {
      i := id;
    } else {
      var q := nodes[id].parent.value;
      i := EndsSomewhere(nodes, at, q, p, t);
    }
  }

  /** The prefixes of `w` with more than `lo` and at most `lo + k` characters. */
  ghost function Prefixes(w: string, lo: nat, k: nat): (r: set<string>)
    requires lo + k <= |w|
    ensures forall p :: p in r <==> p <= w && lo < |p| <= lo + k
    ensures |r| == k
  {
    if k == 0 then {} else
      assert forall p | p <= w && |p| == lo + k :: p == w[..lo + k];
      Prefixes(w, lo, k - 1) + {w[..lo + k]}
  }

  /** The texts that end inside a node. */
  ghost function Ends(nodes: seq<Node>, at: Paths, id: nat): (r: set<string>)
    requires Sound(nodes, at) && id in at
    ensures forall p :: p in r <==> EndsIn(nodes, at, id, p)
    ensures |r| == |nodes[id].text|
  {
    assert ParentOk(nodes, at, id);
    Prefixes(at[id], |at[id]| - |nodes[id].text|, |nodes[id].text|)
  }

  /** The texts of tenant `t` that end inside node `id`. */
  ghost function TextsAt(nodes: seq<Node>, at: Paths, t: Tenant, id: nat): set<string>
    requires Sound(nodes, at)
  {
    if id in at && t in nodes[id].tenants then Ends(nodes, at, id) else {}
  }

  ghost function AllTexts(nodes: seq<Node>, at: Paths, t: Tenant): seq<set<string>>
    requires Sound(nodes, at)
  {
    seq(|nodes|, i requires 0 <= i < |nodes| => TextsAt(nodes, at, t, i))
  }

  ghost function Union(parts: seq<set<string>>): set<string> {
    if parts == [] then {} else Union(parts[..|parts| - 1]) + parts[|parts| - 1]
  }

  lemma {:induction false} InUnion(parts: seq<set<string>>, p: string)
    ensures p in Union(parts) <==> exists i :: 0 <= i < |parts| && p in parts[i]
    decreases |parts|
  {
    if parts != [] {
      InUnion(parts[..|parts| - 1], p);
    }
  }

  ghost function Sizes(parts: seq<set<string>>): seq<int> { seq(|parts|, i requires 0 <= i < |parts| => |parts[i]|) }

  lemma {:induction false} UnionSize(parts: seq<set<string>>)
    requires forall i, j | 0 <= i < j < |parts| :: parts[i] !! parts[j]
    ensures |Union(parts)| == Sum(Sizes(parts))
    decreases |parts|
  {
    if parts != [] {
      var n := |parts| - 1;
      UnionSize(parts[..n]);
      assert Sizes(parts)[..n] == Sizes(parts[..n]);
      forall p | p in parts[n] ensures p !in Union(parts[..n]) {
        InUnion(parts[..n], p);
      }
      assert Union(parts[..n]) !! parts[n];
    }
  }

  /** The count of a tenant is the number of texts it has stored. */
  lemma UsedCountsTexts(nodes: seq<Node>, at: Paths, t: Tenant) returns (texts: set<string>)
    requires Sound(nodes, at)
    ensures forall p :: p in texts <==> p != "" && Stored(nodes, at, t, p)
    ensures |texts| == Used(nodes, t)
  {
    var parts := AllTexts(nodes, at, t);
    texts := Union(parts);
    forall i, j | 0 <= i < j < |parts| ensures parts[i] !! parts[j] {
      DifferentTexts(nodes, at, t, i, j);
    }
    UnionSize(parts);
    assert Sizes(parts) == Shares(nodes, t) by {
      forall i | 0 <= i < |nodes| ensures |TextsAt(nodes, at, t, i)| == Share(nodes[i], t) {
      }
    }
    forall p ensures p in texts <==> p != "" && Stored(nodes, at, t, p) {
      InUnion(parts, p);
      TextIsStored(nodes, at, t, p);
    }
  }

  lemma DifferentTexts(nodes: seq<Node>, at: Paths, t: Tenant, i: nat, j: nat)
    requires Sound(nodes, at) && i != j
    ensures TextsAt(nodes, at, t, i) !! TextsAt(nodes, at, t, j)
  {
    forall p | p in TextsAt(nodes, at, t, i) ensures p !in TextsAt(nodes, at, t, j) {
      if p in TextsAt(nodes, at, t, j) {
        EndsOnce(nodes, at, i, j, p);
      }
    }
  }

  lemma TextIsStored(nodes: seq<Node>, at: Paths, t: Tenant, p: string)
    requires Sound(nodes, at)
    ensures (exists i :: 0 <= i < |nodes| && p in AllTexts(nodes, at, t)[i]) <==> p != "" && Stored(nodes, at, t, p)
  {
    if p != "" && Stored(nodes, at, t, p) {
      var id :| id in at && id < |nodes| && t in nodes[id].tenants && p <= at[id];
      var i := EndsSomewhere(nodes, at, id, p, t);
      assert p in AllTexts(nodes, at, t)[i];
    }
    if i :| 0 <= i < |nodes| && p in AllTexts(nodes, at, t)[i] {
      assert EndsIn(nodes, at, i, p) && ParentOk(nodes, at, i) && Stored(nodes, at, t, p);
    }
  }
}
