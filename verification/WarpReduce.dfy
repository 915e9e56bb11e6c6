/** The butterfly maximum of `sgl-kernel/include/utils.h`: every lane of a warp takes the maximum of
    its own register and that of the lane whose number differs in one bit, for each bit from the
    highest to the lowest; a block of warps reduces its warps and then lets the first warp reduce
    the results. */
module WarpReduce {
  import opened Common

  const WARP_SIZE := 32

  /** A floating-point number; rounding plays no part here, and the two zeros are equal. */
  datatype Float = NaN | MinusInfinity | Num(value: real) | PlusInfinity

  /** `a < b` as a comparison of floating-point numbers, which is false if one of them is NaN. */
  predicate Less(a: Float, b: Float) {
    match (a, b)
    case (Num(x), Num(y)) => x < y
    case _ => !a.NaN? && !b.NaN? && a != b && (a.MinusInfinity? || b.PlusInfinity?)
  }

  /** The order in which NaN comes before all numbers. */
  predicate AtMost(a: Float, b: Float) { a.NaN? || (!b.NaN? && !Less(b, a)) }

  /** `fmaxf`, which returns the other operand if one is NaN. */
  function Fmaxf(a: Float, b: Float): (m: Float)
    ensures AtMost(a, m) && AtMost(b, m) && (m == a || m == b)
  {
    if a.NaN? then b else if b.NaN? then a else if Less(a, b) then b else a
  }

  /** Lane number `l` with bit `j` flipped: `l ^ (1 << j)`. */
  function Flip(l: nat, j: nat): nat {
    if j == 0 then (if l % 2 == 0 then l + 1 else l - 1) else 2 * Flip(l / 2, j - 1) + l % 2
  }

  /** The lowest `j` bits of two lane numbers are the same. */
  predicate Agree(l: nat, m: nat, j: nat) { j == 0 || (l % 2 == m % 2 && Agree(l / 2, m / 2, j - 1)) }

  lemma {:induction false} FlipInRange(l: nat, j: nat, k: nat)
    requires j < k && l < Pow2(k)
    ensures Flip(l, j) < Pow2(k)
    decreases j
  {
    if j > 0 {
      FlipInRange(l / 2, j - 1, k - 1);
    }
  }

  lemma {:induction false} AgreeSelf(l: nat, j: nat)
    ensures Agree(l, l, j)
    decreases j
  {
    if j > 0 {
      AgreeSelf(l / 2, j - 1);
    }
  }

  /** The lanes that agree on `j` bits are those that agree with the lane or its partner on one more. */
  lemma {:induction false} AgreeSplits(l: nat, m: nat, j: nat)
    ensures Agree(l, m, j) <==> Agree(l, m, j + 1) || Agree(Flip(l, j), m, j + 1)
    decreases j
  {
    if j > 0 {
      AgreeSplits(l / 2, m / 2, j - 1);
      assert Flip(l, j) / 2 == Flip(l / 2, j - 1) && Flip(l, j) % 2 == l % 2;
    } else {
      assert Agree(l / 2, m / 2, 0) && Agree(Flip(l, 0) / 2, m / 2, 0);
    }
  }

  /** Lanes of a warp of `2^k` that agree on `k` bits are the same lane. */
  lemma {:induction false} AgreeAll(l: nat, m: nat, k: nat)
    requires l < Pow2(k) && m < Pow2(k)
    ensures Agree(l, m, k) <==> l == m
    decreases k
  {
    if k > 0 {
      AgreeAll(l / 2, m / 2, k - 1);
    }
  }

  // ----- one warp -----

  /** All lanes exchange along bit `j` at once. */
  function Shuffled(v: seq<Float>, j: nat): (r: seq<Float>)
    requires forall l: nat | l < |v| :: Flip(l, j) < |v|
    ensures |r| == |v|
  {
    seq(|v|, l requires 0 <= l < |v| => Fmaxf(v[l], v[Flip(l, j)]))
  }

  /** The exchanges along bits `j - 1` down to 0, on a warp of `2^k` lanes. */
  function Reduced(v: seq<Float>, j: nat, k: nat): (r: seq<Float>)
    requires j <= k && |v| == Pow2(k)
    ensures |r| == |v|
    decreases j
  {
    if j == 0 then v else
      FlipsInRange(j - 1, k);
      Reduced(Shuffled(v, j - 1), j - 1, k)
  }

  lemma FlipsInRange(j: nat, k: nat)
    requires j < k
    ensures forall l: nat | l < Pow2(k) :: Flip(l, j) < Pow2(k)
  {
    forall l: nat | l < Pow2(k) ensures Flip(l, j) < Pow2(k) {
      FlipInRange(l, j, k);
    }
  }

  /** `x` is the maximum of the registers `v0` of the lanes that agree with `l` on `j` bits. */
  ghost predicate MaxOver(v0: seq<Float>, l: nat, j: nat, x: Float) {
    && (forall m: nat | m < |v0| && Agree(l, m, j) :: AtMost(v0[m], x))
    && (exists m: nat :: m < |v0| && Agree(l, m, j) && v0[m] == x)
  }

  lemma MaxOverStep(v0: seq<Float>, l: nat, j: nat, x: Float, y: Float)
    requires MaxOver(v0, l, j + 1, x) && MaxOver(v0, Flip(l, j), j + 1, y)
    ensures MaxOver(v0, l, j, Fmaxf(x, y))
  {
    forall m: nat ensures Agree(l, m, j) <==> Agree(l, m, j + 1) || Agree(Flip(l, j), m, j + 1) {
      AgreeSplits(l, m, j);
    }
    var a: nat :| a < |v0| && Agree(l, a, j + 1) && v0[a] == x;
    var b: nat :| b < |v0| && Agree(Flip(l, j), b, j + 1) && v0[b] == y;
    assert v0[if Fmaxf(x, y) == x then a else b] == Fmaxf(x, y);
  }

  /** Every lane holds the maximum over the lanes that agree with it on `j` bits. */
  ghost predicate AllMax(v0: seq<Float>, v: seq<Float>, j: nat) {
    |v| == |v0| && forall m: nat {:trigger MaxOver(v0, m, j, v[m])} | m < |v| :: MaxOver(v0, m, j, v[m])
  }

  lemma ShuffledIsMax(v0: seq<Float>, v: seq<Float>, j: nat, k: nat)
    requires j < k && |v| == Pow2(k) && AllMax(v0, v, j + 1)
    ensures forall l: nat | l < |v| :: Flip(l, j) < |v|
    ensures AllMax(v0, Shuffled(v, j), j)
  {
    FlipsInRange(j, k);
    forall m: nat | m < |v| ensures MaxOver(v0, m, j, Shuffled(v, j)[m]) {
      assert MaxOver(v0, m, j + 1, v[m]) && MaxOver(v0, Flip(m, j), j + 1, v[Flip(m, j)]);
      MaxOverStep(v0, m, j, v[m], v[Flip(m, j)]);
    }
  }

  lemma {:induction false} ReducedIsMax(v0: seq<Float>, v: seq<Float>, j: nat, k: nat)
    requires j <= k && |v| == Pow2(k) && AllMax(v0, v, j)
    ensures AllMax(v0, Reduced(v, j, k), 0)
    decreases j
  {
    if j > 0 {
      ShuffledIsMax(v0, v, j - 1, k);
      var w := Shuffled(v, j - 1);
      ReducedIsMax(v0, w, j - 1, k);
      assert Reduced(v, j, k) == Reduced(w, j - 1, k);
    } else {
      assert Reduced(v, j, k) == v;
    }
  }

  /** A greatest element in that order: the largest number, or NaN if there is none. */
  ghost predicate IsMax(v: seq<Float>, x: Float) { x in v && forall y | y in v :: AtMost(y, x) }

  /** After the exchanges along all bits every lane of a warp of `2^k` lanes holds the maximum. */
  lemma WarpMaximum(v: seq<Float>, k: nat, l: nat)
    requires |v| == Pow2(k) && l < |v|
    ensures IsMax(v, Reduced(v, k, k)[l])
  {
    forall m: nat | m < |v| ensures MaxOver(v, m, k, v[m]) {
      AgreeSelf(m, k);
      forall n: nat | n < |v| && Agree(m, n, k) ensures AtMost(v[n], v[m]) {
        AgreeAll(m, n, k);
      }
    }
    ReducedIsMax(v, v, k, k);
    assert MaxOver(v, l, 0, Reduced(v, k, k)[l]);
  }

  // ----- the kernels -----

  /** One `__shfl_xor_sync` with its `fmaxf`, for the warp that begins at `base`. */
  method ShuffleMax(regs: array<Float>, base: nat, j: nat)
    requires j < 5 && base + WARP_SIZE <= regs.Length
    modifies regs
    ensures forall l: nat | l < WARP_SIZE :: Flip(l, j) < WARP_SIZE
    ensures regs[base..base + WARP_SIZE] == Shuffled(old(regs[base..base + WARP_SIZE]), j)
    ensures forall t | 0 <= t < regs.Length && !(base <= t < base + WARP_SIZE) :: regs[t] == old(regs[t])
  {
    assert Pow2(5) == WARP_SIZE;
    FlipsInRange(j, 5);
    ghost var v := regs[base..base + WARP_SIZE];
    forall l | 0 <= l < WARP_SIZE {
      regs[base + l] := Fmaxf(regs[base + l], regs[base + Flip(l, j)]);
    }
    assert forall l | 0 <= l < WARP_SIZE :: regs[base + l] == Fmaxf(v[l], v[Flip(l, j)]);
  }

  /** `warpReduceMax`, lane masks 16, 8, 4, 2 and 1: every lane gets the maximum of the warp. */
  method WarpReduceMax(regs: array<Float>, base: nat)
    requires base + WARP_SIZE <= regs.Length
    modifies regs
    ensures forall t | base <= t < base + WARP_SIZE :: IsMax(old(regs[base..base + WARP_SIZE]), regs[t])
    ensures forall t | 0 <= t < regs.Length && !(base <= t < base + WARP_SIZE) :: regs[t] == old(regs[t])
  {
    ghost var v := regs[base..base + WARP_SIZE];
    ExchangeAll(regs, base);
    forall t | base <= t < base + WARP_SIZE ensures IsMax(v, regs[t]) {
      assert regs[t] == regs[base..base + WARP_SIZE][t - base];
      WarpMaximum(v, 5, t - base);
    }
  }

  method ExchangeAll(regs: array<Float>, base: nat)
    requires base + WARP_SIZE <= regs.Length
    modifies regs
    ensures Pow2(5) == WARP_SIZE
    ensures regs[base..base + WARP_SIZE] == Reduced(old(regs[base..base + WARP_SIZE]), 5, 5)
    ensures forall t | 0 <= t < regs.Length && !(base <= t < base + WARP_SIZE) :: regs[t] == old(regs[t])
  {
    assert Pow2(5) == WARP_SIZE;
    ShuffleMax(regs, base, 4);
    ShuffleMax(regs, base, 3);
    ShuffleMax(regs, base, 2);
    ShuffleMax(regs, base, 1);
    ShuffleMax(regs, base, 0);
  }

  // ----- one block -----

  /** Registers of warp `w` of a block. */
  function Warp(v: seq<Float>, w: nat): seq<Float>
    requires (w + 1) * WARP_SIZE <= |v|
  {
    v[w * WARP_SIZE..(w + 1) * WARP_SIZE]
  }

  ghost predicate WarpsReduced(v0: seq<Float>, regs: seq<Float>, shared: seq<Float>, warps: nat, done: nat)
    requires |v0| == |regs| == warps * WARP_SIZE && done <= warps <= |shared|
  {
    && (forall t | done * WARP_SIZE <= t < |regs| :: regs[t] == v0[t])
    && (forall w | 0 <= w < done :: IsMax(Warp(v0, w), shared[w]))
  }

  /** Each warp reduces its registers, and its first lane publishes the result. */
  method ReduceWarps(regs: array<Float>, warpLevelMaxs: array<Float>, warps: nat)
    requires warps <= WARP_SIZE && regs.Length == warps * WARP_SIZE && warpLevelMaxs.Length == WARP_SIZE
             && regs != warpLevelMaxs
    modifies regs, warpLevelMaxs
    ensures WarpsReduced(old(regs[..]), regs[..], warpLevelMaxs[..], warps, warps)
  {
    ghost var v0 := regs[..];
    for w := 0 to warps
      invariant WarpsReduced(v0, regs[..], warpLevelMaxs[..], warps, w)
    {
      ghost var before := regs[..];
      var base := w * WARP_SIZE;
      WarpReduceMax(regs, base);
      assert before[base..base + WARP_SIZE] == Warp(v0, w);
      warpLevelMaxs[w] := regs[base];
    }
  }

  /** After the barrier the first threads pick up one warp result each, the others zero. */
  method PickUp(regs: array<Float>, warpLevelMaxs: array<Float>, warps: nat)
    requires warps <= WARP_SIZE == warpLevelMaxs.Length && regs != warpLevelMaxs
    modifies regs
    ensures forall t | 0 <= t < regs.Length :: regs[t] == if t < warps then warpLevelMaxs[t] else Num(0.0)
  {
    for t := 0 to regs.Length
      invariant forall u | 0 <= u < t :: regs[u] == if u < warps then warpLevelMaxs[u] else Num(0.0)
    {
      regs[t] := if t < warps then warpLevelMaxs[t % WARP_SIZE] else Num(0.0);
    }
  }

  /** `blockReduceMax` for a block of full warps, at most 32 of them; `warpLevelMaxs` is the shared
      array, with whatever it held before. */
  method BlockReduceMax(regs: array<Float>, warpLevelMaxs: array<Float>, warps: nat)
    requires 0 < warps <= WARP_SIZE && regs.Length == warps * WARP_SIZE && warpLevelMaxs.Length == WARP_SIZE
             && regs != warpLevelMaxs
    modifies regs, warpLevelMaxs
    ensures forall t | 0 <= t < WARP_SIZE :: regs[t] == WithMissing(Largest(old(regs[..])), warps)
    ensures forall t | WARP_SIZE <= t < regs.Length :: regs[t] == Num(0.0)
  {
    ghost var v0 := regs[..];
    ReduceWarps(regs, warpLevelMaxs, warps);
    PickUp(regs, warpLevelMaxs, warps);
    ghost var first := regs[0..WARP_SIZE];
    WarpReduceMax(regs, 0);
    forall t | 0 <= t < WARP_SIZE ensures regs[t] == WithMissing(Largest(v0), warps) {
      BlockMaximum(v0, warpLevelMaxs[..], first, warps, regs[t]);
    }
  }

  /** What the zeros of missing lanes make of a maximum. */
  function WithMissing(m: Float, warps: nat): Float { if warps < WARP_SIZE then Fmaxf(m, Num(0.0)) else m }

  /** The maximum of the warp maxima is that of the block. */
  lemma MaximumOfMaxima(v0: seq<Float>, shared: seq<Float>, warps: nat)
    requires 0 < warps <= |shared| && |v0| == warps * WARP_SIZE
    requires forall w | 0 <= w < warps :: IsMax(Warp(v0, w), shared[w])
    ensures IsMax(shared[..warps], Largest(v0))
  {
    forall w | 0 <= w < warps ensures AtMost(shared[w], Largest(v0)) {
      WarpIsBelow(v0, w, shared[w]);
    }
    var w := WarpOfLargest(v0, warps);
    assert IsMax(Warp(v0, w), shared[w]);
    SameMax(shared[w], Largest(v0));
    assert shared[..warps][w] == Largest(v0);
  }

  lemma WarpIsBelow(v0: seq<Float>, w: nat, x: Float)
    requires (w + 1) * WARP_SIZE <= |v0| && x in Warp(v0, w)
    ensures AtMost(x, Largest(v0))
  {
    var i :| 0 <= i < WARP_SIZE && Warp(v0, w)[i] == x;
    assert v0[w * WARP_SIZE + i] == x;
  }

  lemma WarpOfLargest(v0: seq<Float>, warps: nat) returns (w: nat)
    requires 0 < warps && |v0| == warps * WARP_SIZE
    ensures w < warps && Largest(v0) in Warp(v0, w)
  {
    var t :| 0 <= t < |v0| && v0[t] == Largest(v0);
    w := t / WARP_SIZE;
    assert w * WARP_SIZE <= t < (w + 1) * WARP_SIZE <= |v0|;
    var warp := Warp(v0, w);
    assert warp[t - w * WARP_SIZE] == v0[t];
  }

  lemma AtMostTransitive(x: Float, y: Float, z: Float)
    requires AtMost(x, y) && AtMost(y, z)
    ensures AtMost(x, z)
  {
  }

  lemma SameMax(x: Float, y: Float)
    requires AtMost(x, y) && AtMost(y, x)
    ensures x == y
  {
  }

  lemma BlockMaximum(v0: seq<Float>, shared: seq<Float>, first: seq<Float>, warps: nat, x: Float)
    requires 0 < warps <= WARP_SIZE == |shared| == |first| && |v0| == warps * WARP_SIZE
    requires forall w | 0 <= w < warps :: IsMax(Warp(v0, w), shared[w])
    requires forall t | 0 <= t < WARP_SIZE :: first[t] == if t < warps then shared[t] else Num(0.0)
    requires IsMax(first, x)
    ensures x == WithMissing(Largest(v0), warps)
  {
    MaximumOfMaxima(v0, shared, warps);
    WithZeros(shared, first, warps, Largest(v0));
    SameMax(x, WithMissing(Largest(v0), warps));
  }

  lemma WithZeros(shared: seq<Float>, first: seq<Float>, warps: nat, m: Float)
    requires 0 < warps <= WARP_SIZE == |shared| == |first| && IsMax(shared[..warps], m)
    requires forall t | 0 <= t < WARP_SIZE :: first[t] == if t < warps then shared[t] else Num(0.0)
    ensures IsMax(first, WithMissing(m, warps))
  {
    var w :| 0 <= w < warps && shared[..warps][w] == m;
    assert first[w] == m;
    assert warps < WARP_SIZE ==> first[WARP_SIZE - 1] == Num(0.0);
    forall t | 0 <= t < WARP_SIZE ensures AtMost(first[t], WithMissing(m, warps)) {
      if t < warps {
        assert shared[..warps][t] == first[t] && AtMost(first[t], m);
        AtMostTransitive(first[t], m, WithMissing(m, warps));
      }
    }
  }

  function Largest(v: seq<Float>): (m: Float)
    requires v != []
    ensures IsMax(v, m)
  {
    if |v| == 1 then v[0] else
      assert v == [v[0]] + v[1..];
      Fmaxf(v[0], Largest(v[1..]))
  }

  /** The first warp gets the block maximum exactly if no lane is missing or some input is zero
      or above: missing lanes contribute zero. */
  lemma BlockMaximumExactlyIf(v: seq<Float>, warps: nat)
    requires v != []
    ensures WithMissing(Largest(v), warps) == Largest(v) <==> warps >= WARP_SIZE || exists y ::
            y in v && AtMost(Num(0.0), y)
  {
    if y :| y in v && AtMost(Num(0.0), y) {
      assert AtMost(y, Largest(v));
    }
  }

  /** A single warp that holds minus one everywhere gets zero, which is none of its inputs. */
  lemma MissingLanesCount()
    ensures var v := seq(WARP_SIZE, _ => Num(-1.0)); WithMissing(Largest(v), 1) == Num(0.0) && Num(0.0) !in v
  {
    var v := seq(WARP_SIZE, _ => Num(-1.0));
    assert Largest(v) in v;
  }
}
