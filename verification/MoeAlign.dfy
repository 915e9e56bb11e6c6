/** The four kernels of the Triton expert sort on the buffers they share, one method a program,
    and the launcher that runs them in order. `tokens_cnts` is a table of `E + 1` rows of `E`
    counters kept in one flat buffer, as the kernels address it. */
module MoeAlign {
  import opened Common
  import opened MoeCounting

  /** Offset of counter `(t, e)` in the flat table; `CellIs` gives it in closed form. */
  function Cell(E: nat, t: nat, e: nat): (k: nat)
    ensures e <= k
  {
    if t == 0 then e else E + Cell(E, t - 1, e)
  }

  lemma {:induction false} CellIs(E: nat, t: nat, e: nat)
    ensures Cell(E, t, e) == t * E + e
  {
    if t > 0 {
      CellIs(E, t - 1, e);
      assert t * E == (t - 1) * E + E;
    }
  }

  lemma CellBound(E: nat, t: nat, e: nat, rows: nat)
    requires t < rows && e < E
    ensures Cell(E, t, e) < rows * E
  {
    CellIs(E, t, e);
    MulMonotone(t + 1, rows, E);
  }

  lemma CellsDistinct(E: nat, t: nat, e: nat, t': nat, e': nat)
    requires e < E && e' < E && Cell(E, t, e) == Cell(E, t', e')
    ensures t == t' && e == e'
  {
    CellIs(E, t, e);
    CellIs(E, t', e');
    DivisionIsUnique(Cell(E, t, e), E, t, e);
    DivisionIsUnique(Cell(E, t', e'), E, t', e');
  }

  /** A table of `E + 1` rows of `E` counters. */
  ghost predicate IsTable(c: seq<int>, E: nat) { |c| == (E + 1) * E }

  /** Counter `(t, e)` of a table. */
  ghost function At(c: seq<int>, E: nat, t: nat, e: nat): int
    requires IsTable(c, E) && t <= E && e < E
  {
    CellBound(E, t, e, E + 1);
    c[Cell(E, t, e)]
  }

  /** Storing one counter changes that counter and no other. */
  lemma StoreAt(c: seq<int>, E: nat, t: nat, e: nat, v: int)
    requires IsTable(c, E) && t <= E && e < E
    ensures Cell(E, t, e) < |c| && c[Cell(E, t, e)] == At(c, E, t, e)
    ensures IsTable(c[Cell(E, t, e) := v], E)
    ensures forall t', e' | 0 <= t' <= E && 0 <= e' < E ::
              At(c[Cell(E, t, e) := v], E, t', e') == if t' == t && e' == e then v else At(c, E, t', e')
  {
    CellBound(E, t, e, E + 1);
    forall t', e' | 0 <= t' <= E && 0 <= e' < E
      ensures At(c[Cell(E, t, e) := v], E, t', e') == if t' == t && e' == e then v else At(c, E, t', e')
    {
      CellBound(E, t', e', E + 1);
      if Cell(E, t', e') == Cell(E, t, e) {
        CellsDistinct(E, t, e, t', e');
      }
    }
  }

  /** `c` after one has been added, for each token `lo..hi` in turn, to the counter of its expert in row `row`. */
  ghost function Bumped(c: seq<int>, ids: seq<int>, E: nat, row: nat, lo: nat, hi: nat): (r: seq<int>)
    requires IsTable(c, E) && ValidIds(ids, E) && row <= E && lo <= hi <= |ids|
    ensures IsTable(r, E)
  {
    if lo == hi then c else
      var b := Bumped(c, ids, E, row, lo, hi - 1);
      CellBound(E, row, ids[hi - 1], E + 1);
      b[Cell(E, row, ids[hi - 1]) := At(b, E, row, ids[hi - 1]) + 1]
  }

  /** Bumping counts: the row gains the number of occurrences of each expert, the rest stays. */
  lemma {:induction false} BumpedContents(c: seq<int>, ids: seq<int>, E: nat, row: nat, lo: nat, hi: nat)
    requires IsTable(c, E) && ValidIds(ids, E) && row <= E && lo <= hi <= |ids|
    ensures forall t, e | 0 <= t <= E && 0 <= e < E ::
              At(Bumped(c, ids, E, row, lo, hi), E, t, e) ==
                At(c, E, t, e) + if t == row then Occ(ids, lo, hi, e) else 0
    decreases hi
  {
    if lo < hi {
      BumpedContents(c, ids, E, row, lo, hi - 1);
      var b := Bumped(c, ids, E, row, lo, hi - 1);
      StoreAt(b, E, row, ids[hi - 1], At(b, E, row, ids[hi - 1]) + 1);
    }
  }

  /** Stage 1: program `pid` adds the expert counts of its own slice to row `pid + 1`. */
  method Stage1Program(pid: nat, ids: seq<int>, cnts: array<int>, E: nat, tokensPerThread: nat)
    requires pid < E && ValidIds(ids, E) && tokensPerThread == CeilDiv(|ids|, E)
    requires IsTable(cnts[..], E)
    modifies cnts
    ensures Lo(|ids|, E, pid) <= Lo(|ids|, E, pid + 1)
    ensures cnts[..] == Bumped(old(cnts[..]), ids, E, pid + 1, Lo(|ids|, E, pid), Lo(|ids|, E, pid + 1))
  {
    var numel := |ids|;
    var startIdx := pid * tokensPerThread;
    var offC := (pid + 1) * E;
    assert startIdx + tokensPerThread == (pid + 1) * tokensPerThread;
    for i := 0 to tokensPerThread
      invariant cnts[..] == Bumped(old(cnts[..]), ids, E, pid + 1, Lo(numel, E, pid), Min(startIdx + i, numel))
    {
      if startIdx + i < numel {
        var idx := ids[startIdx + i];
        CellIs(E, pid + 1, idx);
        CellBound(E, pid + 1, idx, E + 1);
        ghost var before := cnts[..];
        var tokenCnt := cnts[offC + idx];
        cnts[offC + idx] := tokenCnt + 1;
        assert cnts[..] == before[offC + idx := At(before, E, pid + 1, idx) + 1];
      }
    }
  }

  /** Sum of column `e` over rows `1..t`. */
  ghost function ColumnSum(c: seq<int>, E: nat, t: nat, e: nat): int
    requires IsTable(c, E) && t <= E && e < E
  {
    if t == 0 then 0 else ColumnSum(c, E, t - 1, e) + At(c, E, t, e)
  }

  /** Column `pid` above row `i` holds running sums, all else is as in `c0`. */
  ghost predicate Summed(c0: seq<int>, c: seq<int>, E: nat, pid: nat, i: nat) {
    && pid < E && IsTable(c0, E) && IsTable(c, E)
    && forall t, e {:trigger At(c, E, t, e)} | 0 <= t <= E && 0 <= e < E ::
         At(c, E, t, e) == if e == pid && 0 < t < i then ColumnSum(c0, E, t, e) else At(c0, E, t, e)
  }

  lemma SummedStep(c0: seq<int>, c: seq<int>, E: nat, pid: nat, i: nat)
    requires Summed(c0, c, E, pid, i) && 1 <= i <= E
    ensures Cell(E, i, pid) < |c| && ColumnSum(c0, E, i, pid) == ColumnSum(c0, E, i - 1, pid) + c[Cell(E, i, pid)]
    ensures Summed(c0, c[Cell(E, i, pid) := ColumnSum(c0, E, i, pid)], E, pid, i + 1)
  {
    var v := ColumnSum(c0, E, i, pid);
    StoreAt(c, E, i, pid, v);
    assert At(c, E, i, pid) == At(c0, E, i, pid);
    var c' := c[Cell(E, i, pid) := v];
    forall t, e | 0 <= t <= E && 0 <= e < E
      ensures At(c', E, t, e) == if e == pid && 0 < t < i + 1 then ColumnSum(c0, E, t, e) else At(c0, E, t, e)
    {
      assert At(c', E, t, e) == if t == i && e == pid then v else At(c, E, t, e);
    }
  }

  /** Stage 2: program `pid` replaces each counter of column `pid` below row 0 by the sum of the
      column down to it. */
  method Stage2Program(pid: nat, cnts: array<int>, E: nat)
    requires pid < E && IsTable(cnts[..], E)
    modifies cnts
    ensures Summed(old(cnts[..]), cnts[..], E, pid, E + 1)
  {
    ghost var c0 := cnts[..];
    var lastCnt := 0;
    for i := 1 to E + 1
      invariant lastCnt == ColumnSum(c0, E, i - 1, pid)
      invariant Summed(c0, cnts[..], E, pid, i)
    {
      ghost var before := cnts[..];
      CellIs(E, i, pid);
      SummedStep(c0, before, E, pid, i);
      var tokenCnt := cnts[i * E + pid];
      lastCnt := lastCnt + tokenCnt;
      cnts[i * E + pid] := lastCnt;
      assert cnts[..] == before[i * E + pid := lastCnt];
    }
  }

  /** Rounded up to a multiple of `B`: `tl.cdiv` times `B`. */
  function RoundUp(a: int, B: nat): int
    requires 0 < B
  {
    (a + B - 1) / B * B
  }

  /** Sum of the first `k` counters of the last row, each rounded up to whole blocks. */
  ghost function PaddedSum(c: seq<int>, E: nat, B: nat, k: nat): int
    requires 0 < B && IsTable(c, E) && k <= E
  {
    if k == 0 then 0 else PaddedSum(c, E, B, k - 1) + RoundUp(At(c, E, E, k - 1), B)
  }

  /** The sums below entry `i` are in place, and `last` is the one before it. */
  ghost predicate Padding(c: seq<int>, cumsum: seq<int>, E: nat, B: nat, i: nat, last: int) {
    && 0 < B && IsTable(c, E) && |cumsum| == E + 1 && 1 <= i <= E + 1
    && last == PaddedSum(c, E, B, i - 1) && forall k | 1 <= k < i :: cumsum[k] == PaddedSum(c, E, B, k)
  }

  lemma PaddingStep(c: seq<int>, cumsum: seq<int>, E: nat, B: nat, i: nat, last: int)
    requires Padding(c, cumsum, E, B, i, last) && i <= E
    ensures Cell(E, E, i - 1) < |c|
    ensures var next := last + RoundUp(c[Cell(E, E, i - 1)], B); Padding(c, cumsum[i := next], E, B, i + 1, next)
  {
    CellBound(E, E, i - 1, E + 1);
    assert PaddedSum(c, E, B, i) == PaddedSum(c, E, B, i - 1) + RoundUp(At(c, E, E, i - 1), B);
  }

  /** What stage 3 makes of a buffer of zeros. */
  ghost function PaddedSums(c: seq<int>, E: nat, B: nat): seq<int>
    requires 0 < B && IsTable(c, E)
  {
    seq(E + 1, k requires 0 <= k <= E => PaddedSum(c, E, B, k))
  }

  /** Stage 3: a single program sums up the last row, rounding each counter up to whole blocks. */
  method Stage3(totalTokensPostPad: array<int>, cnts: array<int>, cumsum: array<int>, E: nat, B: nat)
    requires 0 < B && IsTable(cnts[..], E) && cumsum.Length == E + 1 && totalTokensPostPad.Length == 1
    requires cumsum != cnts && totalTokensPostPad != cnts && totalTokensPostPad != cumsum
    modifies cumsum, totalTokensPostPad
    ensures forall k | 1 <= k <= E :: cumsum[k] == PaddedSum(cnts[..], E, B, k)
    ensures cumsum[0] == old(cumsum[0]) && totalTokensPostPad[0] == PaddedSum(cnts[..], E, B, E)
  {
    var lastCumsum := 0;
    var offCnt := E * E;
    ghost var c := cnts[..];
    for i := 1 to E + 1
      invariant cnts[..] == c && Padding(c, cumsum[..], E, B, i, lastCumsum) && cumsum[0] == old(cumsum[0])
    {
      ghost var before := cumsum[..];
      CellIs(E, E, i - 1);
      PaddingStep(c, before, E, B, i, lastCumsum);
      var tokenCnt := cnts[offCnt + i - 1];
      lastCumsum := lastCumsum + RoundUp(tokenCnt, B);
      cumsum[i] := lastCumsum;
      assert cumsum[..] == before[i := lastCumsum];
    }
    totalTokensPostPad[0] := lastCumsum;
  }

  /** On the counts of stage 2 these sums are the starts of the padded segments. */
  lemma {:induction false} SumsAreStarts(c: seq<int>, ids: seq<int>, E: nat, B: nat, k: nat)
    requires 0 < B && IsTable(c, E) && k <= E
    requires forall e | 0 <= e < E :: At(c, E, E, e) == Occ(ids, 0, |ids|, e)
    ensures PaddedSum(c, E, B, k) == Start(ids, B, k)
  {
    if k > 0 {
      SumsAreStarts(c, ids, E, B, k - 1);
    }
  }

  /** What stage 4 finds when it begins: the segment starts, and buffers that reach to the padded total. */
  ghost predicate Stage4Ready(ids: seq<int>, E: nat, B: nat, cumsum: seq<int>, sorted: seq<int>, experts: seq<int>) {
    && 0 < B && ValidIds(ids, E)
    && |cumsum| == E + 1 && (forall k | 0 <= k <= E :: cumsum[k] == Start(ids, B, k))
    && Start(ids, B, E) <= |sorted|
    && StartBlock(ids, B, E) <= |experts|
  }

  /** Slot `k` is taken by a token of `ids[lo..hi]`. */
  ghost predicate Taken(ids: seq<int>, E: nat, B: nat, lo: nat, hi: nat, k: int)
    requires 0 < B && ValidIds(ids, E) && hi <= |ids|
  {
    exists i | lo <= i < hi :: Pos(ids, B, i) == k
  }

  /** Stage 4, first loop: the blocks of the segment of expert `pid` are labelled with it. */
  method LabelBlocks(pid: nat, ids: seq<int>, experts: array<int>, cumsum: array<int>, sorted: array<int>, E: nat,
          B: nat)
    requires pid < E && Stage4Ready(ids, E, B, cumsum[..], sorted[..], experts[..])
    requires experts != cumsum && experts != sorted
    modifies experts
    ensures forall b | 0 <= b < experts.Length ::
              experts[b] == if StartBlock(ids, B, pid) <= b < StartBlock(ids, B, pid + 1) then pid else old(experts[b])
  {
    var startIdx := cumsum[pid];
    var endIdx := cumsum[pid + 1];
    ghost var q, r := StartBlock(ids, B, pid), StartBlock(ids, B, pid + 1);
    StartInBlocks(ids, B, pid);
    StartInBlocks(ids, B, pid + 1);
    StartBlockMonotone(ids, B, pid + 1, E);
    var i := startIdx;
    ghost var b := q;
    while i < endIdx
      invariant q <= b <= r && i == b * B
      invariant forall k | 0 <= k < experts.Length :: experts[k] == if q <= k < b then pid else old(experts[k])
      decreases endIdx - i
    {
      if r <= b {
        MulMonotone(r, b, B);
      }
      DivisionIsUnique(i, B, b, 0);
      experts[i / B] := pid;
      Distribute(b, 1, B);
      b := b + 1;
      i := i + B;
    }
    if b < r {
      MulMonotone(b + 1, r, B);
      Distribute(b, 1, B);
    }
  }

  /** `s` after the tokens `lo..hi` have been written to their slots in this order. */
  ghost function Scattered(s: seq<int>, ids: seq<int>, E: nat, B: nat, lo: nat, hi: nat): (r: seq<int>)
    requires 0 < B && ValidIds(ids, E) && lo <= hi <= |ids| && Start(ids, B, E) <= |s|
    ensures |r| == |s|
  {
    if lo == hi then s else
      PosInSegment(ids, E, B, hi - 1);
      Scattered(s, ids, E, B, lo, hi - 1)[Pos(ids, B, hi - 1) := hi - 1]
  }

  /** No slot is written twice, so every token of the range is found at its slot, and a slot that
      belongs to none of them keeps its value. */
  lemma {:induction false} ScatteredContents(s: seq<int>, ids: seq<int>, E: nat, B: nat, lo: nat, hi: nat)
    requires 0 < B && ValidIds(ids, E) && lo <= hi <= |ids| && Start(ids, B, E) <= |s|
    ensures forall i | lo <= i < hi :: Pos(ids, B, i) < |s| && Scattered(s, ids, E, B, lo, hi)[Pos(ids, B, i)] == i
    ensures forall k | 0 <= k < |s| && !Taken(ids, E, B, lo, hi, k) :: Scattered(s, ids, E, B, lo, hi)[k] == s[k]
    decreases hi
  {
    if lo < hi {
      ScatteredContents(s, ids, E, B, lo, hi - 1);
      PosInSegment(ids, E, B, hi - 1);
      forall i | lo <= i < hi - 1 ensures Pos(ids, B, i) != Pos(ids, B, hi - 1) {
        PosInjective(ids, E, B, i, hi - 1);
      }
    }
  }

  /** The tokens `lo..i` of the slice are in their slots and counted. */
  ghost predicate Scattering(c0: seq<int>, c: seq<int>, s0: seq<int>, s: seq<int>, ids: seq<int>, E: nat, B: nat,
          pid: nat, lo: nat, i: nat)
  {
    && pid < E && 0 < B && ValidIds(ids, E) && lo <= i <= |ids| && IsTable(c0, E) && Start(ids, B, E) <= |s0|
    && c == Bumped(c0, ids, E, pid, lo, i) && s == Scattered(s0, ids, E, B, lo, i)
  }

  /** Token `i` of the slice: where its counter is, that it leads to its slot, and what the two stores do. */
  lemma ScatterStep(c0: seq<int>, c: seq<int>, s0: seq<int>, s: seq<int>, ids: seq<int>, E: nat, B: nat, pid: nat,
          lo: nat, i: nat)
    requires Scattering(c0, c, s0, s, ids, E, B, pid, lo, i) && i < |ids|
             && At(c0, E, pid, ids[i]) == Occ(ids, 0, lo, ids[i])
    ensures var k, slot := Cell(E, pid, ids[i]), Pos(ids, B, i);
      && k < |c| && c[k] + Start(ids, B, ids[i]) == slot < |s|
      && Scattering(c0, c[k := c[k] + 1], s0, s[slot := i], ids, E, B, pid, lo, i + 1)
  {
    CellBound(E, pid, ids[i], E + 1);
    BumpedContents(c0, ids, E, pid, lo, i);
    assert c[Cell(E, pid, ids[i])] == At(c, E, pid, ids[i]);
    OccSplit(ids, 0, lo, i, ids[i]);
    PosInSegment(ids, E, B, i);
  }

  /** Stage 4, second loop: each token of the slice goes to its slot. */
  method ScatterSlice(pid: nat, ids: seq<int>, sorted: array<int>, cnts: array<int>, cumsum: array<int>,
          ghost experts: seq<int>, E: nat, B: nat, tokensPerThread: nat)
    requires pid < E && Stage4Ready(ids, E, B, cumsum[..], sorted[..], experts)
    requires IsTable(cnts[..], E) && tokensPerThread == CeilDiv(|ids|, E)
    requires sorted != cnts && sorted != cumsum && cnts != cumsum
    requires forall e | 0 <= e < E :: At(cnts[..], E, pid, e) == Occ(ids, 0, Lo(|ids|, E, pid), e)
    modifies sorted, cnts
    ensures Lo(|ids|, E, pid) <= Lo(|ids|, E, pid + 1)
    ensures sorted[..] == Scattered(old(sorted[..]), ids, E, B, Lo(|ids|, E, pid), Lo(|ids|, E, pid + 1))
    ensures cnts[..] == Bumped(old(cnts[..]), ids, E, pid, Lo(|ids|, E, pid), Lo(|ids|, E, pid + 1))
  {
    var numel := |ids|;
    var startIdx := pid * tokensPerThread;
    var offT := pid * E;
    assert startIdx + tokensPerThread == (pid + 1) * tokensPerThread;
    ghost var c0, s0 := cnts[..], sorted[..];
    var i := startIdx;
    while i < Min(startIdx + tokensPerThread, numel)
      invariant startIdx <= i && (i <= startIdx + tokensPerThread)
      invariant Scattering(c0, cnts[..], s0, sorted[..], ids, E, B, pid, Lo(numel, E, pid), Min(i, numel))
    {
      var expertId := ids[i];
      ghost var before, slots := cnts[..], sorted[..];
      CellIs(E, pid, expertId);
      ScatterStep(c0, before, s0, slots, ids, E, B, pid, startIdx, i);
      assert cumsum[..][expertId] == Start(ids, B, expertId);
      var tokenCnt := cnts[offT + expertId];
      var rankPostPad := tokenCnt + cumsum[expertId];
      sorted[rankPostPad] := i;
      assert sorted[..] == slots[rankPostPad := i];
      cnts[offT + expertId] := tokenCnt + 1;
      assert cnts[..] == before[offT + expertId := tokenCnt + 1];
      i := i + 1;
    }
  }

  // ----- the launcher -----

  /** The tables between the stages: counts per slice, then counts of everything before a slice. */
  ghost predicate SliceCounts(c: seq<int>, ids: seq<int>, E: nat, rows: nat) {
    && 0 < E && IsTable(c, E)
    && forall t, e {:trigger At(c, E, t, e)} | 0 <= t <= E && 0 <= e < E ::
         At(c, E, t, e) == if 1 <= t <= rows then OccSlice(ids, E, t - 1, e) else 0
  }

  ghost function OccSlice(ids: seq<int>, E: nat, p: nat, e: int): nat
    requires 0 < E
  {
    LoMonotone(|ids|, E, p, p + 1);
    Occ(ids, Lo(|ids|, E, p), Lo(|ids|, E, p + 1), e)
  }

  ghost predicate CountsBefore(c: seq<int>, ids: seq<int>, E: nat, columns: nat) {
    && 0 < E && IsTable(c, E)
    && forall t, e {:trigger At(c, E, t, e)} | 0 <= t <= E && 0 <= e < E ::
         At(c, E, t, e) == if e < columns then Occ(ids, 0, Lo(|ids|, E, t), e)
                           else if 1 <= t then OccSlice(ids, E, t - 1, e) else 0
  }

  /** Summing a column of slice counts counts the whole prefix. */
  lemma {:induction false} ColumnOfSlices(c: seq<int>, ids: seq<int>, E: nat, t: nat, e: nat)
    requires 0 < E && IsTable(c, E) && t <= E && e < E
    requires forall t' | 1 <= t' <= E :: At(c, E, t', e) == OccSlice(ids, E, t' - 1, e)
    ensures ColumnSum(c, E, t, e) == Occ(ids, 0, Lo(|ids|, E, t), e)
  {
    if t > 0 {
      ColumnOfSlices(c, ids, E, t - 1, e);
      LoMonotone(|ids|, E, t - 1, t);
      OccSplit(ids, 0, Lo(|ids|, E, t - 1), Lo(|ids|, E, t), e);
    } else {
      SlicesCover(|ids|, E);
    }
  }

  lemma {:induction false} ScatteredTwice(s: seq<int>, ids: seq<int>, E: nat, B: nat, lo: nat, mid: nat, hi: nat)
    requires 0 < B && ValidIds(ids, E) && lo <= mid <= hi <= |ids| && Start(ids, B, E) <= |s|
    ensures Scattered(Scattered(s, ids, E, B, lo, mid), ids, E, B, mid, hi) == Scattered(s, ids, E, B, lo, hi)
    decreases hi
  {
    if mid < hi {
      ScatteredTwice(s, ids, E, B, lo, mid, hi - 1);
    }
  }

  /** What the sort leaves behind: token `i` at slot `Pos(i)` and no other slot touched; each block
      of the segment of an expert labelled with that expert and no other block touched. */
  ghost predicate Aligned(ids: seq<int>, E: nat, B: nat, sorted0: seq<int>, sorted: seq<int>, experts0: seq<int>,
          experts: seq<int>)
    requires 0 < B && ValidIds(ids, E)
  {
    && |sorted| == |sorted0| && |experts| == |experts0|
    && (forall i | 0 <= i < |ids| :: Pos(ids, B, i) < |sorted| && sorted[Pos(ids, B, i)] == i)
    && (forall k | 0 <= k < |sorted| && !Taken(ids, E, B, 0, |ids|, k) :: sorted[k] == sorted0[k])
    && Labelled(ids, B, E, experts0, experts)
  }

  ghost predicate Labelled(ids: seq<int>, B: nat, upTo: nat, experts0: seq<int>, experts: seq<int>)
    requires 0 < B
  {
    && |experts| == |experts0|
    && (forall b, e | 0 <= e < upTo && StartBlock(ids, B, e) <= b < StartBlock(ids, B, e + 1) && b < |experts| ::
         experts[b] == e)
    && (forall b | StartBlock(ids, B, upTo) <= b < |experts| :: experts[b] == experts0[b])
  }

  lemma LabelledStep(ids: seq<int>, B: nat, pid: nat, experts0: seq<int>, before: seq<int>, after: seq<int>)
    requires 0 < B && Labelled(ids, B, pid, experts0, before) && |after| == |before|
    requires forall b | 0 <= b < |after| ::
               after[b] == if StartBlock(ids, B, pid) <= b < StartBlock(ids, B, pid + 1) then pid else before[b]
    ensures Labelled(ids, B, pid + 1, experts0, after)
  {
    forall b, e | 0 <= e < pid + 1 && StartBlock(ids, B, e) <= b < StartBlock(ids, B, e + 1) && b < |after|
      ensures after[b] == e
    {
      StartBlockMonotone(ids, B, e + 1, if e < pid then pid else e + 1);
    }
    StartBlockMonotone(ids, B, pid, pid + 1);
  }

  method RunStage1(ids: seq<int>, cnts: array<int>, E: nat, tokensPerThread: nat)
    requires 0 < E && ValidIds(ids, E) && tokensPerThread == CeilDiv(|ids|, E)
    requires SliceCounts(cnts[..], ids, E, 0)
    modifies cnts
    ensures SliceCounts(cnts[..], ids, E, E)
  {
    for pid := 0 to E
      invariant SliceCounts(cnts[..], ids, E, pid)
    {
      ghost var before := cnts[..];
      Stage1Program(pid, ids, cnts, E, tokensPerThread);
      BumpedContents(before, ids, E, pid + 1, Lo(|ids|, E, pid), Lo(|ids|, E, pid + 1));
    }
  }

  method RunStage2(ghost ids: seq<int>, cnts: array<int>, E: nat)
    requires SliceCounts(cnts[..], ids, E, E)
    modifies cnts
    ensures CountsBefore(cnts[..], ids, E, E)
  {
    for pid := 0 to E
      invariant CountsBefore(cnts[..], ids, E, pid)
    {
      ghost var before := cnts[..];
      Stage2Program(pid, cnts, E);
      SlicesCover(|ids|, E);
      forall t | 0 <= t <= E ensures ColumnSum(before, E, t, pid) == Occ(ids, 0, Lo(|ids|, E, t), pid) {
        ColumnOfSlices(before, ids, E, t, pid);
      }
    }
  }

  /** Where stage 4 stands when the programs below `pid` are done. */
  ghost predicate Aligning(ids: seq<int>, E: nat, B: nat, pid: nat, s0: seq<int>, sorted: seq<int>, c: seq<int>)
    requires 0 < E && 0 < B && ValidIds(ids, E)
  {
    && IsTable(c, E) && Lo(|ids|, E, pid) <= |ids| && Start(ids, B, E) <= |s0|
    && sorted == Scattered(s0, ids, E, B, 0, Lo(|ids|, E, pid))
    && forall t, e {:trigger At(c, E, t, e)} | pid <= t <= E && 0 <= e < E ::
         At(c, E, t, e) == Occ(ids, 0, Lo(|ids|, E, t), e)
  }

  lemma AligningStep(ids: seq<int>, E: nat, B: nat, pid: nat, s0: seq<int>, sorted: seq<int>, c: seq<int>)
    requires 0 < E && 0 < B && ValidIds(ids, E) && pid < E && Aligning(ids, E, B, pid, s0, sorted, c)
    ensures var lo, hi := Lo(|ids|, E, pid), Lo(|ids|, E, pid + 1);
      lo <= hi <= |ids| && Aligning(ids, E, B, pid + 1, s0, Scattered(sorted, ids, E, B, lo, hi),
          Bumped(c, ids, E, pid, lo, hi))
  {
    SlicesCover(|ids|, E);
    LoMonotone(|ids|, E, pid, pid + 1);
    LoMonotone(|ids|, E, pid + 1, E);
    ScatteredTwice(s0, ids, E, B, 0, Lo(|ids|, E, pid), Lo(|ids|, E, pid + 1));
    BumpedContents(c, ids, E, pid, Lo(|ids|, E, pid), Lo(|ids|, E, pid + 1));
  }

  method RunStage4(ids: seq<int>, sorted: array<int>, experts: array<int>, cnts: array<int>, cumsum: array<int>,
          E: nat, B: nat, tokensPerThread: nat)
    requires 0 < E && Stage4Ready(ids, E, B, cumsum[..], sorted[..], experts[..])
    requires CountsBefore(cnts[..], ids, E, E) && tokensPerThread == CeilDiv(|ids|, E)
    requires sorted != cnts && sorted != cumsum && cnts != cumsum && experts != cumsum && experts != sorted
             && experts != cnts
    modifies sorted, experts, cnts
    ensures Aligned(ids, E, B, old(sorted[..]), sorted[..], old(experts[..]), experts[..])
  {
    ghost var s0, x0 := sorted[..], experts[..];
    SlicesCover(|ids|, E);
    for pid := 0 to E
      invariant Aligning(ids, E, B, pid, s0, sorted[..], cnts[..])
      invariant Labelled(ids, B, pid, x0, experts[..])
    {
      ghost var x := experts[..];
      AligningStep(ids, E, B, pid, s0, sorted[..], cnts[..]);
      LabelBlocks(pid, ids, experts, cumsum, sorted, E, B);
      LabelledStep(ids, B, pid, x0, x, experts[..]);
      ScatterSlice(pid, ids, sorted, cnts, cumsum, experts[..], E, B, tokensPerThread);
    }
    ScatteredContents(s0, ids, E, B, 0, |ids|);
  }

  /** `moe_align_block_size_triton`: the four stages in order. */
  method MoeAlignBlockSize(ids: seq<int>, E: nat, B: nat, sorted: array<int>, experts: array<int>,
          numTokensPostPad: array<int>)
    requires 0 < E && 0 < B && ValidIds(ids, E) && numTokensPostPad.Length == 1
    requires Start(ids, B, E) <= sorted.Length && StartBlock(ids, B, E) <= experts.Length
    requires sorted != experts && sorted != numTokensPostPad && experts != numTokensPostPad
    modifies sorted, experts, numTokensPostPad
    ensures Aligned(ids, E, B, old(sorted[..]), sorted[..], old(experts[..]), experts[..])
    ensures numTokensPostPad[0] == Start(ids, B, E)
  {
    var cnts := new int[(E + 1) * E](_ => 0);
    var cumsum := new int[E + 1](_ => 0);
    var tokensPerThread := CeilDiv(|ids|, E);
    SlicesCover(|ids|, E);
    assert SliceCounts(cnts[..], ids, E, 0) by {
      forall t, e | 0 <= t <= E && 0 <= e < E ensures At(cnts[..], E, t, e) == 0 {
        CellBound(E, t, e, E + 1);
      }
    }
    RunStage1(ids, cnts, E, tokensPerThread);
    RunStage2(ids, cnts, E);
    Stage3(numTokensPostPad, cnts, cumsum, E, B);
    forall k | 0 <= k <= E ensures PaddedSum(cnts[..], E, B, k) == Start(ids, B, k) {
      SumsAreStarts(cnts[..], ids, E, B, k);
    }
    RunStage4(ids, sorted, experts, cnts, cumsum, E, B, tokensPerThread);
  }

  /** The slot buffer `calculate_diff` allocates, and one label for each whole block in it, are large
      enough for any input. */
  lemma BuffersSuffice(ids: seq<int>, E: nat, B: nat)
    requires 0 < B && ValidIds(ids, E)
    ensures |ids| <= Start(ids, B, E) <= |ids| + E * (B - 1)
    ensures StartBlock(ids, B, E) <= (|ids| + E * (B - 1)) / B
  {
    PaddedTotalBounds(ids, E, B);
    StartAligned(ids, B, E);
  }

  /** The Triton leg of `calculate_diff`: the slot buffer is filled with the number of entries. */
  method AlignInFreshBuffers(ids: seq<int>, E: nat, B: nat)
    returns (sorted: array<int>, experts: array<int>, numTokensPostPad: array<int>)
    requires 0 < E && 0 < B && ValidIds(ids, E)
    ensures fresh(sorted) && fresh(experts) && fresh(numTokensPostPad)
    ensures sorted.Length == |ids| + E * (B - 1) && experts.Length == (|ids| + E * (B - 1)) / B
    ensures numTokensPostPad.Length == 1 && numTokensPostPad[0] == Start(ids, B, E)
    ensures Aligned(ids, E, B, seq(sorted.Length, _ => |ids|), sorted[..], seq(experts.Length, _ => 0), experts[..])
  {
    BuffersSuffice(ids, E, B);
    var numel := |ids|;
    var maxNumTokensPadded := numel + E * (B - 1);
    var maxNumBlocks := maxNumTokensPadded / B;
    sorted := new int[maxNumTokensPadded](_ => numel);
    experts := new int[maxNumBlocks](_ => 0);
    numTokensPostPad := new int[1](_ => 0);
    assert sorted[..] == seq(maxNumTokensPadded, _ => numel) && experts[..] == seq(maxNumBlocks, _ => 0);
    MoeAlignBlockSize(ids, E, B, sorted, experts, numTokensPostPad);
  }

  // ----- what the result means -----

  /** With the sentinel in every slot beforehand, each token is in exactly one slot, in the segment
      of its own expert, and every other slot still holds the sentinel. */
  lemma EachTokenOnce(ids: seq<int>, E: nat, B: nat, sorted0: seq<int>, sorted: seq<int>, experts0: seq<int>,
          experts: seq<int>, k: nat)
    requires 0 < B && ValidIds(ids, E) && Aligned(ids, E, B, sorted0, sorted, experts0, experts)
    requires forall j | 0 <= j < |sorted0| :: sorted0[j] == |ids|
    requires k < |sorted|
    ensures 0 <= sorted[k] <= |ids|
    ensures sorted[k] < |ids| ==>
            k == Pos(ids, B, sorted[k]) && Start(ids, B, ids[sorted[k]]) <= k < Start(ids, B, ids[sorted[k]] + 1)
    ensures sorted[k] == |ids| <==> !Taken(ids, E, B, 0, |ids|, k)
  {
    if Taken(ids, E, B, 0, |ids|, k) {
      var i :| 0 <= i < |ids| && Pos(ids, B, i) == k;
      PosInSegment(ids, E, B, i);
    }
  }

  /** What the labels are for: the block of a slot that holds a token names the expert of that token. */
  lemma LabelsMatchTokens(ids: seq<int>, E: nat, B: nat, sorted0: seq<int>, sorted: seq<int>, experts0: seq<int>,
          experts: seq<int>, i: nat)
    requires 0 < B && ValidIds(ids, E) && Aligned(ids, E, B, sorted0, sorted, experts0, experts)
    requires StartBlock(ids, B, E) <= |experts| && i < |ids|
    ensures Pos(ids, B, i) / B < |experts| && experts[Pos(ids, B, i) / B] == ids[i]
  {
    var k, e := Pos(ids, B, i), ids[i];
    PosInSegment(ids, E, B, i);
    StartInBlocks(ids, B, e);
    StartInBlocks(ids, B, e + 1);
    BlockBetween(k, B, StartBlock(ids, B, e), StartBlock(ids, B, e + 1));
    StartBlockMonotone(ids, B, e + 1, E);
  }

  /** Every block below the padded total carries the label of the one expert whose segment holds it. */
  lemma EveryBlockLabelled(ids: seq<int>, E: nat, B: nat, experts0: seq<int>, experts: seq<int>, b: nat)
    requires 0 < B && Labelled(ids, B, E, experts0, experts)
    requires b < StartBlock(ids, B, E) <= |experts|
    ensures 0 <= experts[b] < E
    ensures Start(ids, B, experts[b]) <= b * B && (b + 1) * B <= Start(ids, B, experts[b] + 1)
    ensures forall e | 0 <= e < E && Start(ids, B, e) <= b * B < Start(ids, B, e + 1) :: e == experts[b]
  {
    StartInBlocks(ids, B, E);
    MulMonotone(b + 1, StartBlock(ids, B, E), B);
    Distribute(b, 1, B);
    var owner := BlockOwner(ids, B, b, E);
    LabelOfBlock(ids, E, B, experts0, experts, b, owner);
    forall e | 0 <= e < E && Start(ids, B, e) <= b * B < Start(ids, B, e + 1) ensures e == experts[b] {
      LabelOfBlock(ids, E, B, experts0, experts, b, e);
    }
  }

  lemma LabelOfBlock(ids: seq<int>, E: nat, B: nat, experts0: seq<int>, experts: seq<int>, b: nat, e: nat)
    requires 0 < B && Labelled(ids, B, E, experts0, experts) && b < |experts|
    requires e < E && Start(ids, B, e) <= b * B < Start(ids, B, e + 1)
    ensures experts[b] == e
  {
    StartInBlocks(ids, B, e);
    StartInBlocks(ids, B, e + 1);
    BlockBetween(b * B, B, StartBlock(ids, B, e), StartBlock(ids, B, e + 1));
    DivisionIsUnique(b * B, B, b, 0);
  }

  lemma BlockBetween(k: nat, B: nat, lo: nat, hi: nat)
    requires 0 < B && lo * B <= k < hi * B
    ensures lo <= k / B < hi
  {
    var q := k / B;
    assert k == q * B + k % B;
    if q < lo {
      MulMonotone(q + 1, lo, B);
    } else if hi <= q {
      MulMonotone(hi, q, B);
    }
  }
}
