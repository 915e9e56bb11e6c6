/** The arithmetic behind the four-stage expert sort: how often an expert occurs, where the
    slice of a program begins, how an expert's count is padded to whole blocks, and the slot
    at which a token ends up. No memory appears here; `MoeAlign` and `MoeSchedule` relate the
    kernels to these functions. */
module MoeCounting {
  import opened Common

  function CeilDiv(a: nat, b: nat): nat
    requires 0 < b
  {
    (a + b - 1) / b
  }

  lemma CeilDivCovers(a: nat, b: nat)
    requires 0 < b
    ensures a <= CeilDiv(a, b) * b <= a + b - 1
  {
    var q := CeilDiv(a, b);
    assert q * b + (a + b - 1) % b == a + b - 1;
  }

  /** Every entry of `topk_ids` names an expert. */
  ghost predicate ValidIds(ids: seq<int>, E: nat) {
    forall i | 0 <= i < |ids| :: 0 <= ids[i] < E
  }

  /** How many positions in `ids[lo..hi]` hold expert `e`. */
  function Occ(ids: seq<int>, lo: nat, hi: nat, e: int): (r: nat)
    requires lo <= hi <= |ids|
    ensures r <= hi - lo
  {
    if lo == hi then 0 else Occ(ids, lo, hi - 1, e) + if ids[hi - 1] == e then 1 else 0
  }

  lemma {:induction false} OccSplit(ids: seq<int>, lo: nat, mid: nat, hi: nat, e: int)
    requires lo <= mid <= hi <= |ids|
    ensures Occ(ids, lo, hi, e) == Occ(ids, lo, mid, e) + Occ(ids, mid, hi, e)
    decreases hi
  {
    if mid < hi {
      OccSplit(ids, lo, mid, hi - 1, e);
    }
  }

  /** First index of the slice of program `p`, cut off at the end of the input; the slice ends
      where that of `p + 1` begins. */
  function Lo(n: nat, E: nat, p: nat): (r: nat)
    requires 0 < E
    ensures r <= n
  {
    Min(p * CeilDiv(n, E), n)
  }

  lemma LoMonotone(n: nat, E: nat, p: nat, q: nat)
    requires 0 < E && p <= q
    ensures Lo(n, E, p) <= Lo(n, E, q)
  {
    assert p * CeilDiv(n, E) <= q * CeilDiv(n, E) by { MulMonotone(p, q, CeilDiv(n, E)); }
  }

  lemma MulMonotone(p: nat, q: nat, k: nat)
    requires p <= q
    ensures p * k <= q * k
  {
  }

  /** The slices of the `E` programs cover the input. */
  lemma SlicesCover(n: nat, E: nat)
    requires 0 < E
    ensures Lo(n, E, 0) == 0 && Lo(n, E, E) == n
  {
    CeilDivCovers(n, E);
  }

  /** Each index lies in the slice of exactly one program. */
  lemma {:induction false} OwnerExists(n: nat, E: nat, i: nat, k: nat) returns (p: nat)
    requires 0 < E && k <= E && i < Lo(n, E, k)
    ensures p < k && Lo(n, E, p) <= i < Lo(n, E, p + 1)
  {
    if i < Lo(n, E, k - 1) {
      p := OwnerExists(n, E, i, k - 1);
    } else {
      p := k - 1;
    }
  }

  lemma OwnerUnique(n: nat, E: nat, i: nat, p: nat, q: nat)
    requires 0 < E
    requires Lo(n, E, p) <= i < Lo(n, E, p + 1) && Lo(n, E, q) <= i < Lo(n, E, q + 1)
    ensures p == q
  {
    if p < q {
      LoMonotone(n, E, p + 1, q);
    } else if q < p {
      LoMonotone(n, E, q + 1, p);
    }
  }

  // ----- padding -----

  /** A count rounded up to a whole number of blocks. */
  function Pad(c: nat, B: nat): (r: nat)
    requires 0 < B
  {
    CeilDiv(c, B) * B
  }

  /** Start of the segment of expert `k`, i.e. the padded counts of the experts below `k`. */
  function Start(ids: seq<int>, B: nat, k: nat): nat
    requires 0 < B
  {
    if k == 0 then 0 else Start(ids, B, k - 1) + Pad(Occ(ids, 0, |ids|, k - 1), B)
  }

  lemma {:induction false} StartMonotone(ids: seq<int>, B: nat, j: nat, k: nat)
    requires 0 < B && j <= k
    ensures Start(ids, B, j) <= Start(ids, B, k)
    decreases k
  {
    if j < k {
      StartMonotone(ids, B, j, k - 1);
    }
  }

  /** The same start counted in blocks. */
  function StartBlock(ids: seq<int>, B: nat, k: nat): nat
    requires 0 < B
  {
    if k == 0 then 0 else StartBlock(ids, B, k - 1) + CeilDiv(Occ(ids, 0, |ids|, k - 1), B)
  }

  lemma {:induction false} StartBlockMonotone(ids: seq<int>, B: nat, j: nat, k: nat)
    requires 0 < B && j <= k
    ensures StartBlock(ids, B, j) <= StartBlock(ids, B, k)
    decreases k
  {
    if j < k {
      StartBlockMonotone(ids, B, j, k - 1);
    }
  }

  lemma {:induction false} StartInBlocks(ids: seq<int>, B: nat, k: nat)
    requires 0 < B
    ensures Start(ids, B, k) == StartBlock(ids, B, k) * B
  {
    if k > 0 {
      StartInBlocks(ids, B, k - 1);
      Distribute(StartBlock(ids, B, k - 1), CeilDiv(Occ(ids, 0, |ids|, k - 1), B), B);
    }
  }

  lemma Distribute(p: nat, q: nat, k: nat)
    ensures (p + q) * k == p * k + q * k
  {
  }

  /** Segment starts are block boundaries. */
  lemma StartAligned(ids: seq<int>, B: nat, k: nat)
    requires 0 < B
    ensures Start(ids, B, k) % B == 0 && Start(ids, B, k) / B == StartBlock(ids, B, k)
  {
    StartInBlocks(ids, B, k);
    DivisionIsUnique(Start(ids, B, k), B, StartBlock(ids, B, k), 0);
  }

  lemma DivisionIsUnique(x: nat, d: nat, q: nat, r: nat)
    requires 0 < d && r < d && x == q * d + r
    ensures x / d == q && x % d == r
  {
    var q', r' := x / d, x % d;
    assert x == q' * d + r';
    if q' < q {
      MulMonotone(q' + 1, q, d);
    } else if q < q' {
      MulMonotone(q + 1, q', d);
    }
  }

  /** How many entries of a prefix belong to experts below `k`. */
  function BelowPrefix(ids: seq<int>, hi: nat, k: nat): nat
    requires hi <= |ids|
  {
    if k == 0 then 0 else BelowPrefix(ids, hi, k - 1) + Occ(ids, 0, hi, k - 1)
  }

  lemma {:induction false} BelowPrefixStep(ids: seq<int>, hi: nat, k: nat)
    requires 0 < hi <= |ids| && 0 <= ids[hi - 1]
    ensures BelowPrefix(ids, hi, k) == BelowPrefix(ids, hi - 1, k) + if ids[hi - 1] < k then 1 else 0
  {
    if k > 0 {
      BelowPrefixStep(ids, hi, k - 1);
    }
  }

  lemma {:induction false} BelowPrefixAll(ids: seq<int>, hi: nat, E: nat)
    requires hi <= |ids| && ValidIds(ids, E)
    ensures BelowPrefix(ids, hi, E) == hi
  {
    if hi > 0 {
      BelowPrefixStep(ids, hi, E);
      BelowPrefixAll(ids, hi - 1, E);
    } else {
      BelowPrefixEmpty(ids, E);
    }
  }

  lemma {:induction false} BelowPrefixEmpty(ids: seq<int>, k: nat)
    ensures BelowPrefix(ids, 0, k) == 0
  {
    if k > 0 {
      BelowPrefixEmpty(ids, k - 1);
    }
  }

  lemma {:induction false} StartBounds(ids: seq<int>, B: nat, k: nat)
    requires 0 < B
    ensures BelowPrefix(ids, |ids|, k) <= Start(ids, B, k) <= BelowPrefix(ids, |ids|, k) + k * (B - 1)
  {
    if k > 0 {
      StartBounds(ids, B, k - 1);
      CeilDivCovers(Occ(ids, 0, |ids|, k - 1), B);
      assert k * (B - 1) == (k - 1) * (B - 1) + (B - 1);
    }
  }

  /** The padded total lies between the number of entries and the size of the buffers. */
  lemma PaddedTotalBounds(ids: seq<int>, E: nat, B: nat)
    requires 0 < B && ValidIds(ids, E)
    ensures |ids| <= Start(ids, B, E) <= |ids| + E * (B - 1)
    ensures Start(ids, B, E) % B == 0
    ensures Start(ids, B, E) / B <= (|ids| + E * (B - 1)) / B
  {
    BelowPrefixAll(ids, |ids|, E);
    StartBounds(ids, B, E);
    StartAligned(ids, B, E);
    DivMonotone(Start(ids, B, E), |ids| + E * (B - 1), B);
  }

  lemma DivMonotone(a: nat, b: nat, d: nat)
    requires 0 < d && a <= b
    ensures a / d <= b / d
  {
    var p, q := a / d, b / d;
    assert a == p * d + a % d && b == q * d + b % d;
    if q < p {
      MulMonotone(q + 1, p, d);
    }
  }

  // ----- the slot of a token -----

  /** The slot of token `i`: the start of its expert's segment plus the number of earlier
      tokens with the same expert. */
  function Pos(ids: seq<int>, B: nat, i: nat): nat
    requires 0 < B && i < |ids| && 0 <= ids[i]
  {
    Start(ids, B, ids[i]) + Occ(ids, 0, i, ids[i])
  }

  /** The slot lies in the used part of the segment of the token's own expert. */
  lemma PosInSegment(ids: seq<int>, E: nat, B: nat, i: nat)
    requires 0 < B && ValidIds(ids, E) && i < |ids|
    ensures Start(ids, B, ids[i]) <= Pos(ids, B, i)
    ensures Pos(ids, B, i) < Start(ids, B, ids[i]) + Occ(ids, 0, |ids|, ids[i]) <= Start(ids, B, ids[i] + 1)
    ensures Start(ids, B, ids[i] + 1) <= Start(ids, B, E)
  {
    OccSplit(ids, 0, i + 1, |ids|, ids[i]);
    CeilDivCovers(Occ(ids, 0, |ids|, ids[i]), B);
    StartMonotone(ids, B, ids[i] + 1, E);
  }

  /** Slots are ordered by expert first and by position in the input second: the sort is stable. */
  lemma PosOrder(ids: seq<int>, E: nat, B: nat, i: nat, j: nat)
    requires 0 < B && ValidIds(ids, E) && i < |ids| && j < |ids|
    ensures Pos(ids, B, i) < Pos(ids, B, j) <==> ids[i] < ids[j] || (ids[i] == ids[j] && i < j)
  {
    PosBefore(ids, E, B, i, j);
    PosBefore(ids, E, B, j, i);
  }

  lemma PosBefore(ids: seq<int>, E: nat, B: nat, i: nat, j: nat)
    requires 0 < B && ValidIds(ids, E) && i < |ids| && j < |ids|
    ensures ids[i] < ids[j] || (ids[i] == ids[j] && i < j) ==> Pos(ids, B, i) < Pos(ids, B, j)
  {
    if ids[i] < ids[j] {
      PosInSegment(ids, E, B, i);
      PosInSegment(ids, E, B, j);
      StartMonotone(ids, B, ids[i] + 1, ids[j]);
    } else if ids[i] == ids[j] && i < j {
      OccSplit(ids, 0, i + 1, j, ids[i]);
    }
  }

  lemma PosInjective(ids: seq<int>, E: nat, B: nat, i: nat, j: nat)
    requires 0 < B && ValidIds(ids, E) && i < |ids| && j < |ids| && i != j
    ensures Pos(ids, B, i) != Pos(ids, B, j)
  {
    PosBefore(ids, E, B, i, j);
    PosBefore(ids, E, B, j, i);
  }

  /** The used part of a segment has no holes. */
  lemma {:induction false} PosSurjective(ids: seq<int>, B: nat, e: nat, hi: nat, r: nat) returns (i: nat)
    requires 0 < B && hi <= |ids| && r < Occ(ids, 0, hi, e)
    ensures i < hi && ids[i] == e && Pos(ids, B, i) == Start(ids, B, e) + r
    decreases hi
  {
    if ids[hi - 1] == e && Occ(ids, 0, hi - 1, e) == r {
      i := hi - 1;
    } else {
      i := PosSurjective(ids, B, e, hi - 1, r);
    }
  }

  /** Each block below the padded total lies inside the segment of exactly one expert. */
  lemma {:induction false} BlockOwner(ids: seq<int>, B: nat, b: nat, k: nat) returns (e: nat)
    requires 0 < B && b * B < Start(ids, B, k)
    ensures e < k && Start(ids, B, e) <= b * B && (b + 1) * B <= Start(ids, B, e + 1)
  {
    if b * B < Start(ids, B, k - 1) {
      e := BlockOwner(ids, B, b, k - 1);
    } else {
      e := k - 1;
      StartInBlocks(ids, B, k);
      var q := StartBlock(ids, B, k);
      if q < b + 1 {
        MulMonotone(q, b, B);
        assert false;
      }
      MulMonotone(b + 1, q, B);
    }
  }
}
