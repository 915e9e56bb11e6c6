/** Redirect resolution of `benchmark/line_retrieval/gen_data.py`: each line either holds a value or
    refers to another line. The chains are followed and rings detected while the table of values is
    being overwritten. */
module LineLinks {
  import opened Common

  type Redirects = seq<Option<nat>>

  ghost predicate Valid(r: Redirects) { forall i | 0 <= i < |r| && r[i].Some? :: r[i].value < |r| }

  /** The line `k` redirects away from line `i`; `None` once the chain has ended before. */
  function Hop(r: Redirects, i: nat, k: nat): Option<nat> {
    if k == 0 then Some(i) else
      var j := Hop(r, i, k - 1);
      if j.Some? && j.value < |r| then r[j.value] else None
  }

  /** The chain from line `i` ends after `k` redirects. */
  ghost predicate EndsAfter(r: Redirects, i: nat, k: nat) {
    var j := Hop(r, i, k);
    j.Some? && j.value < |r| && r[j.value].None?
  }

  /** Following redirects from `i` reaches a line that holds a value. */
  ghost predicate ReachesPlain(r: Redirects, i: nat) { exists k: nat :: EndsAfter(r, i, k) }

  /** `path` is what lies on the chain behind line `i`, up to a line that holds a value. */
  ghost predicate IsPath(r: Redirects, i: nat, path: seq<nat>) {
    && i < |r| && EndsAfter(r, i, |path|)
    && forall m | 0 <= m < |path| :: Hop(r, i, m + 1) == Some(path[m])
  }

  /** The line a path leads to. */
  function Last(i: nat, path: seq<nat>): nat { if path == [] then i else path[|path| - 1] }

  // ----- facts about chains -----

  lemma {:induction false} HopAdd(r: Redirects, i: nat, j: nat, m: nat, k: nat)
    requires Hop(r, i, m) == Some(j)
    ensures Hop(r, i, m + k) == Hop(r, j, k)
    decreases k
  {
    if k > 0 {
      HopAdd(r, i, j, m, k - 1);
      assert m + k - 1 == m + (k - 1);
    }
  }

  /** A chain that has ended has no further lines. */
  lemma {:induction false} HopEnded(r: Redirects, i: nat, k: nat, m: nat)
    requires EndsAfter(r, i, k) && k < m
    ensures Hop(r, i, m) == None
    decreases m
  {
    if k + 1 < m {
      HopEnded(r, i, k, m - 1);
    }
  }

  /** A chain ends at most once. */
  lemma EndsOnce(r: Redirects, i: nat, k: nat, k': nat)
    requires EndsAfter(r, i, k) && EndsAfter(r, i, k')
    ensures k == k'
  {
    if k < k' {
      HopEnded(r, i, k, k');
    } else if k' < k {
      HopEnded(r, i, k', k);
    }
  }

  /** A line met twice on a chain means that the chain never ends. */
  lemma {:induction false} RingNeverEnds(r: Redirects, i: nat, a: nat, b: nat, k: nat)
    requires a < b && Hop(r, i, a).Some? && Hop(r, i, a) == Hop(r, i, b)
    ensures !EndsAfter(r, i, k)
    decreases k
  {
    if EndsAfter(r, i, k) {
      if k < b {
        HopEnded(r, i, k, b);
      } else {
        // after b the chain repeats what it did after a
        HopAdd(r, i, Hop(r, i, a).value, a, k - b);
        HopAdd(r, i, Hop(r, i, b).value, b, k - b);
        assert a + (k - b) < k && b + (k - b) == k;
        RingNeverEnds(r, i, a, b, a + (k - b));
      }
    }
  }

  /** A path repeats no line, and does not return to where it began. */
  lemma PathIsSimple(r: Redirects, i: nat, path: seq<nat>, a: nat, b: nat)
    requires IsPath(r, i, path) && a < b <= |path|
    ensures ([i] + path)[a] != ([i] + path)[b]
  {
    assert Hop(r, i, b - 1 + 1) == Some(path[b - 1]);
    if a > 0 {
      assert Hop(r, i, a - 1 + 1) == Some(path[a - 1]);
    }
    if Hop(r, i, a) == Hop(r, i, b) {
      RingNeverEnds(r, i, a, b, |path|);
    }
  }

  lemma PathUnique(r: Redirects, i: nat, p: seq<nat>, q: seq<nat>)
    requires IsPath(r, i, p) && IsPath(r, i, q)
    ensures p == q
  {
    EndsOnce(r, i, |p|, |q|);
    forall m | 0 <= m < |p| ensures p[m] == q[m] {
      assert Hop(r, i, m + 1) == Some(p[m]);
    }
  }

  /** A redirected line has the path of its target behind it, one hop longer. */
  lemma PathOfTarget(r: Redirects, i: nat, path: seq<nat>)
    requires IsPath(r, i, path) && r[i].Some?
    ensures path != [] && path[0] == r[i].value && path[0] < |r| && IsPath(r, path[0], path[1..])
  {
    assert EndsAfter(r, i, |path|);
    assert Hop(r, i, 0 + 1) == Some(path[0]) && Hop(r, i, 1) == r[i];
    var t := path[0];
    HopAdd(r, i, t, 1, |path| - 1);
    assert |path| > 1 ==> Hop(r, i, 1 + 1) == Some(path[1]);
    forall m | 0 <= m < |path[1..]| ensures Hop(r, t, m + 1) == Some(path[1..][m]) {
      HopAdd(r, i, t, 1, m + 1);
      assert Hop(r, i, (m + 1) + 1) == Some(path[m + 1]);
    }
  }

  // ----- following one chain -----

  /** The walk from `i` has taken the hops of `path`, is at `cur`, and remembers the lines it has left. */
  ghost predicate Walked(r: Redirects, i: nat, path: seq<nat>, cur: nat, visited: set<nat>) {
    && i < |r| && cur < |r|
    && Hop(r, i, |path|) == Some(cur)
    && (forall m | 0 <= m < |path| :: Hop(r, i, m + 1) == Some(path[m]))
    && visited == Left(r, i, |path|)
  }

  /** The first `k` lines of the chain from `i`. */
  function Left(r: Redirects, i: nat, k: nat): set<nat> {
    if k == 0 then {} else Left(r, i, k - 1) + if Hop(r, i, k - 1).Some? then {Hop(r, i, k - 1).value} else {}
  }

  lemma {:induction false} LeftMember(r: Redirects, i: nat, k: nat, v: nat) returns (m: nat)
    requires v in Left(r, i, k)
    ensures m < k && Hop(r, i, m) == Some(v)
  {
    if Hop(r, i, k - 1) == Some(v) {
      m := k - 1;
    } else {
      m := LeftMember(r, i, k - 1, v);
    }
  }

  lemma {:induction false} SetBelow(s: set<nat>, n: nat)
    requires forall x | x in s :: x < n
    ensures |s| <= n
  {
    if n == 0 {
      assert s == {};
    } else {
      SetBelow(s - {n - 1}, n - 1);
      if n - 1 in s {
        assert s == (s - {n - 1}) + {n - 1};
      } else {
        assert s == s - {n - 1};
      }
    }
  }

  lemma WalkStep(r: Redirects, i: nat, path: seq<nat>, cur: nat, visited: set<nat>)
    requires Valid(r) && Walked(r, i, path, cur, visited) && r[cur].Some?
    ensures Walked(r, i, path + [r[cur].value], r[cur].value, visited + {cur})
  {
  }

  /** Coming back to a line already left: the walk is on a ring, or leads into one. */
  lemma WalkRing(r: Redirects, i: nat, path: seq<nat>, cur: nat, visited: set<nat>)
    requires Walked(r, i, path, cur, visited) && cur in visited
    ensures !ReachesPlain(r, i)
  {
    var a := LeftMember(r, i, |path|, cur);
    forall k: nat ensures !EndsAfter(r, i, k) {
      RingNeverEnds(r, i, a, |path|, k);
    }
  }

  lemma WalkRoom(r: Redirects, visited: set<nat>, cur: nat)
    requires cur !in visited && cur < |r| && forall v | v in visited :: v < |r|
    ensures |visited| < |visited + {cur}| <= |r|
  {
    SetBelow(visited + {cur}, |r|);
  }

  /** The inner loop: follow the chain from `i` until a line with a value or a line seen before.
      `tmpLink` is `None` for a ring. */
  method Follow(r: Redirects, i: nat) returns (tmpLink: Option<seq<nat>>, cur: nat)
    requires Valid(r) && i < |r|
    ensures tmpLink.Some? ==> IsPath(r, i, tmpLink.value) && cur == Last(i, tmpLink.value)
    ensures tmpLink.None? ==> !ReachesPlain(r, i)
    ensures cur < |r|
  {
    var path: seq<nat> := [];
    cur := i;
    var visited: set<nat> := {};
    while r[cur].Some?
      invariant Walked(r, i, path, cur, visited) && cur !in visited && cur == Last(i, path)
      invariant forall v | v in visited :: v < |r|
      decreases |r| - |visited|
    {
      WalkStep(r, i, path, cur, visited);
      WalkRoom(r, visited, cur);
      visited := visited + {cur};
      path := path + [r[cur].value];
      cur := r[cur].value;
      if cur in visited {
        WalkRing(r, i, path, cur, visited);
        return None, cur;
      }
    }
    return Some(path), cur;
  }

  // ----- all lines -----

  /** What is known about line `j` once it has been processed. */
  ghost predicate Resolved(r: Redirects, values0: seq<string>, j: nat, value: string, link: Option<seq<nat>>,
          ring: bool)
    requires |values0| == |r|
  {
    && (ring <==> !ReachesPlain(r, j))
    && (ring <==> link.None?)
    && (link.Some? ==> IsPath(r, j, link.value) && Last(j, link.value) < |r| && value == values0[Last(j, link.value)])
  }

  /** The lines below `i` are resolved, the others untouched; lines that hold a value are never
      overwritten. */
  ghost predicate Progress(r: Redirects, values0: seq<string>, i: nat, values: seq<string>,
          links: seq<Option<seq<nat>>>, rings: set<nat>)
    requires |values0| == |r|
  {
    && i <= |values| == |links| == |r|
    && (forall j | 0 <= j < i :: Resolved(r, values0, j, values[j], links[j], j in rings))
    && (forall j | 0 <= j < |r| && (i <= j || r[j].None?) :: values[j] == values0[j])
    && (forall j | i <= j < |r| :: links[j] == Some([]))
    && (forall j | j in rings :: j < i)
  }

  lemma PlainIsResolved(r: Redirects, values0: seq<string>, i: nat)
    requires |values0| == |r| && i < |r| && r[i].None?
    ensures Resolved(r, values0, i, values0[i], Some([]), false)
  {
    assert EndsAfter(r, i, 0);
  }

  /** The value a followed line receives is the original one, although others were overwritten. */
  lemma FollowedIsResolved(r: Redirects, values0: seq<string>, i: nat, values: seq<string>,
          links: seq<Option<seq<nat>>>, rings: set<nat>, link: Option<seq<nat>>, cur: nat)
    requires |values0| == |r| && Progress(r, values0, i, values, links, rings) && i < |r| && cur < |r|
    requires link.Some? ==> IsPath(r, i, link.value) && cur == Last(i, link.value)
    requires link.None? ==> !ReachesPlain(r, i)
    ensures Resolved(r, values0, i, values[cur], link, link.None?)
  {
    if link.Some? {
      var p := link.value;
      assert EndsAfter(r, i, |p|);
      assert p != [] ==> Hop(r, i, |p| - 1 + 1) == Some(p[|p| - 1]);
      assert r[cur].None?;
    }
  }

  /** The loop that builds the links and finds the sources. */
  method BuildLinks(r: Redirects, values: array<string>) returns (links: seq<Option<seq<nat>>>, containsRing: set<nat>)
    requires Valid(r) && values.Length == |r|
    modifies values
    ensures Progress(r, old(values[..]), |r|, values[..], links, containsRing)
    ensures forall i, k: nat, s | 0 <= i < |r| && Hop(r, i, k) == Some(s) && s < |r| && r[s].None? ::
              i !in containsRing && values[i] == old(values[..])[s]
  {
    ghost var values0 := values[..];
    links := seq(|r|, _ => Some([]));
    containsRing := {};
    for i := 0 to |r|
      invariant Progress(r, values0, i, values[..], links, containsRing)
    {
      if r[i].None? {
        PlainIsResolved(r, values0, i);
        continue;
      }
      ghost var before := values[..];
      var tmpLink, cur := Follow(r, i);
      FollowedIsResolved(r, values0, i, before, links, containsRing, tmpLink, cur);
      if tmpLink.None? {
        containsRing := containsRing + {i};
      }
      values[i] := values[cur];
      assert values[..] == before[i := before[cur]];
      links := links[i := tmpLink];
    }
    forall i, k: nat, s | 0 <= i < |r| && Hop(r, i, k) == Some(s) && s < |r| && r[s].None?
      ensures i !in containsRing && values[..][i] == values0[s]
    {
      ValueOfEnd(r, values0, values[..], links, containsRing, i, k, s);
    }
  }

  /** Wherever the chain from line `i` meets a line that holds a value, line `i` gets that value. */
  lemma ValueOfEnd(r: Redirects, values0: seq<string>, values: seq<string>, links: seq<Option<seq<nat>>>,
          rings: set<nat>, i: nat, k: nat, s: nat)
    requires |values0| == |r| && Progress(r, values0, |r|, values, links, rings)
    requires i < |r| && Hop(r, i, k) == Some(s) && s < |r| && r[s].None?
    ensures i !in rings && values[i] == values0[s]
  {
    assert Resolved(r, values0, i, values[i], links[i], i in rings);
    assert EndsAfter(r, i, k);
    var path := links[i].value;
    EndsOnce(r, i, k, |path|);
    if path != [] {
      assert Hop(r, i, |path| - 1 + 1) == Some(path[|path| - 1]);
    }
  }

  // ----- groups -----

  type Groups = map<nat, seq<nat>>

  /** The lines are in the order of the file, and none is twice there. */
  ghost predicate Ascending(lines: seq<nat>) { forall a, b | 0 <= a < b < |lines| :: lines[a] < lines[b] }

  /** Members of group `h`: the ring-free lines below `n` with `h - 1` lines behind them, in order. */
  function Members(links: seq<Option<seq<nat>>>, rings: set<nat>, h: nat, n: nat): seq<nat>
    requires n <= |links|
  {
    if n == 0 then [] else
      var m := Members(links, rings, h, n - 1);
      if n - 1 !in rings && links[n - 1].Some? && |links[n - 1].value| + 1 == h then m + [n - 1] else m
  }

  method GroupByNumHoops(links: seq<Option<seq<nat>>>, containsRing: set<nat>) returns (groups: Groups)
    requires forall i | 0 <= i < |links| && i !in containsRing :: links[i].Some?
    ensures forall h: nat :: (h in groups <==> Members(links, containsRing, h, |links|) != [])
    ensures forall h | h in groups :: groups[h] == Members(links, containsRing, h, |links|) && Ascending(groups[h])
  {
    groups := map[];
    for i := 0 to |links|
      invariant forall h: nat :: (h in groups <==> Members(links, containsRing, h, i) != [])
      invariant forall h | h in groups :: groups[h] == Members(links, containsRing, h, i)
    {
      if i in containsRing {
        continue;
      }
      var h := |links[i].value| + 1;
      groups := groups[h := (if h in groups then groups[h] else []) + [i]];
    }
    forall h | h in groups ensures Ascending(groups[h]) {
      MembersAscend(links, containsRing, h, |links|);
    }
  }

  lemma {:induction false} MembersAre(links: seq<Option<seq<nat>>>, rings: set<nat>, h: nat, n: nat, i: nat)
    requires n <= |links|
    ensures i in Members(links, rings, h, n) <==> i < n && i !in rings && links[i].Some? && |links[i].value| + 1 == h
  {
    if n > 0 {
      MembersAre(links, rings, h, n - 1, i);
    }
  }

  lemma {:induction false} MembersAscend(links: seq<Option<seq<nat>>>, rings: set<nat>, h: nat, n: nat)
    requires n <= |links|
    ensures Ascending(Members(links, rings, h, n))
    ensures forall a | 0 <= a < |Members(links, rings, h, n)| :: Members(links, rings, h, n)[a] < n
  {
    if n > 0 {
      MembersAscend(links, rings, h, n - 1);
    }
  }

  // ----- the main results -----

  /** A line is on or before a ring exactly if its target is; otherwise the target's chain is the rest
      of its own. */
  lemma TargetOf(r: Redirects, i: nat, path: seq<nat>, path': seq<nat>)
    requires Valid(r) && i < |r| && r[i].Some?
    ensures ReachesPlain(r, i) <==> ReachesPlain(r, r[i].value)
    ensures IsPath(r, i, path) && IsPath(r, r[i].value, path') ==> path == [r[i].value] + path'
  {
    var t := r[i].value;
    assert Hop(r, i, 1) == Some(t);
    if k: nat :| EndsAfter(r, t, k) {
      HopAdd(r, i, t, 1, k);
      assert EndsAfter(r, i, 1 + k);
    }
    if k: nat :| EndsAfter(r, i, k) {
      if k > 0 {
        HopAdd(r, i, t, 1, k - 1);
        assert EndsAfter(r, t, k - 1);
      }
    }
    if IsPath(r, i, path) && IsPath(r, t, path') {
      PathOfTarget(r, i, path);
      PathUnique(r, t, path[1..], path');
    }
  }

  /** Each ring-free line is in exactly one group, and a redirected line is in the group after that of
      its target, which is ring-free too. */
  lemma GroupsPartition(r: Redirects, values0: seq<string>, values: seq<string>, links: seq<Option<seq<nat>>>,
          rings: set<nat>, i: nat, h: nat)
    requires Valid(r) && |values0| == |r| && Progress(r, values0, |r|, values, links, rings) && i < |r|
    ensures i in rings ==> i !in Members(links, rings, h, |r|)
    ensures i !in rings ==> links[i].Some? && (i in Members(links, rings, h, |r|) <==> h == |links[i].value| + 1)
    ensures r[i].Some? ==> (r[i].value in rings <==> i in rings)
    ensures r[i].Some? && i !in rings ==> links[r[i].value].Some? && |links[i].value| == |links[r[i].value].value| + 1
  {
    assert Resolved(r, values0, i, values[i], links[i], i in rings);
    MembersAre(links, rings, h, |r|, i);
    if r[i].Some? {
      var t := r[i].value;
      assert Resolved(r, values0, t, values[t], links[t], t in rings);
      TargetOf(r, i, if links[i].Some? then links[i].value else [], if links[t].Some? then links[t].value else []);
    }
  }
}
