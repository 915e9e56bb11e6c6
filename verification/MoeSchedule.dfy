/** The kernels again, one load or store at a time and in any interleaving of the programs of a
    grid. `MoeAlign` runs the programs of a grid one after the other; here a schedule, a sequence
    of program numbers, says who moves next, and a program that has halted stands still. Every
    stage is shown free of conflicting accesses, every program halts after a number of turns of
    its own that does not depend on the others, and the memory left behind is the one that
    `MoeAlign` computes. */
module MoeSchedule {
  import opened Common
  import opened MoeCounting
  import opened MoeAlign

  datatype Buffer = Counters | Slots | Labels

  /** The next access of a program to a buffer that some program of the grid writes. */
  datatype Access = Quiet | Load(buffer: Buffer, cell: nat) | Store(buffer: Buffer, cell: nat)

  ghost predicate Conflict(a: Access, b: Access) {
    && !a.Quiet? && !b.Quiet? && a.buffer == b.buffer && a.cell == b.cell && (a.Store? || b.Store?)
  }

  /** A schedule names programs of the grid. */
  ghost predicate Schedule(sched: seq<int>, E: nat) { ValidIds(sched, E) }

  function Turns(sched: seq<int>, p: nat): nat { Occ(sched, 0, |sched|, p) }

  lemma TurnsStep(sched: seq<int>, p: nat)
    requires |sched| > 0
    ensures Turns(sched, p) == Turns(sched[..|sched| - 1], p) + if sched[|sched| - 1] == p then 1 else 0
  {
    OccPrefix(sched, sched[..|sched| - 1], |sched| - 1, p);
  }

  lemma {:induction false} OccPrefix(s: seq<int>, t: seq<int>, hi: nat, e: int)
    requires hi <= |s| && hi <= |t| && s[..hi] == t[..hi]
    ensures Occ(s, 0, hi, e) == Occ(t, 0, hi, e)
  {
    if hi > 0 {
      assert s[hi - 1] == s[..hi][hi - 1] == t[..hi][hi - 1];
      assert s[..hi - 1] == s[..hi][..hi - 1] == t[..hi][..hi - 1] == t[..hi - 1];
      OccPrefix(s, t, hi - 1, e);
    }
  }

  // ----- stage 1 -----

  datatype Pc1 = Next(i: nat) | Read(i: nat, idx: int) | Write(i: nat, idx: int, cnt: int)

  datatype Grid1 = Grid1(pcs: seq<Pc1>, cnts: seq<int>)

  /** First index not yet counted by program `p`. */
  ghost function Reached(ids: seq<int>, E: nat, p: nat, i: nat): nat
    requires 0 < E
  {
    Min(p * CeilDiv(|ids|, E) + i, |ids|)
  }

  ghost predicate Inv1(ids: seq<int>, E: nat, g: Grid1) {
    && 0 < E && ValidIds(ids, E) && |g.pcs| == E && IsTable(g.cnts, E)
    && (forall p | 0 <= p < E :: Local1(ids, E, p, g.pcs[p], g.cnts))
    && (forall e | 0 <= e < E :: At(g.cnts, E, 0, e) == 0)
  }

  /** Where program `p` is, and what its own row holds. */
  ghost predicate Local1(ids: seq<int>, E: nat, p: nat, pc: Pc1, c: seq<int>)
    requires p < E && ValidIds(ids, E) && IsTable(c, E)
  {
    var start := p * CeilDiv(|ids|, E);
    && pc.i <= CeilDiv(|ids|, E)
    && (!pc.Next? ==> start + pc.i < |ids| && pc.i < CeilDiv(|ids|, E) && pc.idx == ids[start + pc.i])
    && (pc.Write? ==> pc.cnt == At(c, E, p + 1, pc.idx))
    && Lo(|ids|, E, p) <= Reached(ids, E, p, pc.i)
    && forall e | 0 <= e < E :: At(c, E, p + 1, e) == Occ(ids, Lo(|ids|, E, p), Reached(ids, E, p, pc.i), e)
  }

  ghost predicate Halted1(ids: seq<int>, E: nat, pc: Pc1)
    requires 0 < E
  {
    pc.Next? && pc.i >= CeilDiv(|ids|, E)
  }

  ghost function Step1(ids: seq<int>, E: nat, g: Grid1, p: nat): Grid1
    requires Inv1(ids, E, g) && p < E
  {
    assert Local1(ids, E, p, g.pcs[p], g.cnts);
    var start := p * CeilDiv(|ids|, E);
    match g.pcs[p]
    case Next(i) =>
      if i >= CeilDiv(|ids|, E) then g
      else if start + i < |ids| then g.(pcs := g.pcs[p := Read(i, ids[start + i])])
      else g.(pcs := g.pcs[p := Next(i + 1)])
    case Read(i, idx) => g.(pcs := g.pcs[p := Write(i, idx, At(g.cnts, E, p + 1, idx))])
    case Write(i, idx, cnt) =>
      CellBound(E, p + 1, idx, E + 1);
      Grid1(g.pcs[p := Next(i + 1)], g.cnts[Cell(E, p + 1, idx) := cnt + 1])
  }

  ghost function Access1(ids: seq<int>, E: nat, g: Grid1, p: nat): Access
    requires Inv1(ids, E, g) && p < E
  {
    assert Local1(ids, E, p, g.pcs[p], g.cnts);
    match g.pcs[p]
    case Next(_) => Quiet
    case Read(_, idx) => Load(Counters, Cell(E, p + 1, idx))
    case Write(_, idx, _) => Store(Counters, Cell(E, p + 1, idx))
  }

  /** No two programs of stage 1 ever touch the same counter, one in one state and the other in the
      same or any other. */
  lemma NoConflict1(ids: seq<int>, E: nat, g: Grid1, g': Grid1, p: nat, q: nat)
    requires Inv1(ids, E, g) && Inv1(ids, E, g') && p < E && q < E && p != q
    ensures !Conflict(Access1(ids, E, g, p), Access1(ids, E, g', q))
  {
    assert Local1(ids, E, p, g.pcs[p], g.cnts) && Local1(ids, E, q, g'.pcs[q], g'.cnts);
    if !g.pcs[p].Next? && !g'.pcs[q].Next? && Cell(E, p + 1, g.pcs[p].idx) == Cell(E, q + 1, g'.pcs[q].idx) {
      CellsDistinct(E, p + 1, g.pcs[p].idx, q + 1, g'.pcs[q].idx);
    }
  }

  /** A program does not notice changes outside its own row. */
  lemma Local1Frame(ids: seq<int>, E: nat, q: nat, pc: Pc1, c: seq<int>, c': seq<int>)
    requires 0 < E && q < E && ValidIds(ids, E) && IsTable(c, E) && IsTable(c', E)
    requires Local1(ids, E, q, pc, c)
    requires forall t, e | 0 <= e < E && t == q + 1 :: At(c', E, t, e) == At(c, E, t, e)
    ensures Local1(ids, E, q, pc, c')
  {
  }

  lemma Step1Own(ids: seq<int>, E: nat, g: Grid1, p: nat)
    requires Inv1(ids, E, g) && p < E
    ensures IsTable(Step1(ids, E, g, p).cnts, E)
    ensures Local1(ids, E, p, Step1(ids, E, g, p).pcs[p], Step1(ids, E, g, p).cnts)
    ensures forall t, e | 0 <= t <= E && 0 <= e < E && t != p + 1 ::
            At(Step1(ids, E, g, p).cnts, E, t, e) == At(g.cnts, E, t, e)
  {
    var pc := g.pcs[p];
    assert Local1(ids, E, p, pc, g.cnts);
    match pc
    case Next(i) =>
    case Read(i, idx) =>
    case Write(i, idx, cnt) =>
      StoreAt(g.cnts, E, p + 1, idx, cnt + 1);
  }

  lemma Step1Keeps(ids: seq<int>, E: nat, g: Grid1, p: nat)
    requires Inv1(ids, E, g) && p < E
    ensures Inv1(ids, E, Step1(ids, E, g, p))
  {
    var g' := Step1(ids, E, g, p);
    Step1Own(ids, E, g, p);
    forall q | 0 <= q < E ensures Local1(ids, E, q, g'.pcs[q], g'.cnts) {
      if q != p {
        Local1Frame(ids, E, q, g.pcs[q], g.cnts, g'.cnts);
      }
    }
  }

  ghost function Init1(E: nat): Grid1 { Grid1(seq(E, _ => Next(0)), seq((E + 1) * E, _ => 0)) }

  lemma Init1Inv(ids: seq<int>, E: nat)
    requires 0 < E && ValidIds(ids, E)
    ensures Inv1(ids, E, Init1(E))
  {
    var c := Init1(E).cnts;
    assert IsTable(c, E);
    forall t, e | 0 <= t <= E && 0 <= e < E ensures At(c, E, t, e) == 0 {
      CellBound(E, t, e, E + 1);
    }
  }

  /** The grid after the turns of a schedule. */
  ghost function Exec1(ids: seq<int>, E: nat, sched: seq<int>): (g: Grid1)
    requires 0 < E && ValidIds(ids, E) && Schedule(sched, E)
    ensures Inv1(ids, E, g)
  {
    if sched == [] then
      Init1Inv(ids, E);
      Init1(E)
    else
      var g := Exec1(ids, E, sched[..|sched| - 1]);
      Step1Keeps(ids, E, g, sched[|sched| - 1]);
      Step1(ids, E, g, sched[|sched| - 1])
  }

  ghost function Done1(pc: Pc1): nat {
    match pc
    case Next(i) => 3 * i
    case Read(i, _) => 3 * i + 1
    case Write(i, _, _) => 3 * i + 2
  }

  /** Three turns an index of the slice are enough for a program to halt. */
  lemma {:induction false} Progress1(ids: seq<int>, E: nat, sched: seq<int>, p: nat)
    requires 0 < E && ValidIds(ids, E) && Schedule(sched, E) && p < E
    ensures Halted1(ids, E, Exec1(ids, E, sched).pcs[p]) || Turns(sched, p) <= Done1(Exec1(ids, E, sched).pcs[p])
    decreases |sched|
  {
    if sched != [] {
      var prefix := sched[..|sched| - 1];
      Progress1(ids, E, prefix, p);
      TurnsStep(sched, p);
      assert Local1(ids, E, p, Exec1(ids, E, prefix).pcs[p], Exec1(ids, E, prefix).cnts);
    }
  }

  lemma RowDone1(ids: seq<int>, E: nat, g: Grid1, p: nat, e: nat)
    requires Inv1(ids, E, g) && p < E && Halted1(ids, E, g.pcs[p]) && e < E
    ensures At(g.cnts, E, p + 1, e) == OccSlice(ids, E, p, e)
  {
    assert Local1(ids, E, p, g.pcs[p], g.cnts);
    assert p * CeilDiv(|ids|, E) + CeilDiv(|ids|, E) == (p + 1) * CeilDiv(|ids|, E);
    assert Reached(ids, E, p, CeilDiv(|ids|, E)) == Lo(|ids|, E, p + 1);
  }

  /** Stage 1 under any schedule that gives each program enough turns. */
  lemma AnySchedule1(ids: seq<int>, E: nat, sched: seq<int>)
    requires 0 < E && ValidIds(ids, E) && Schedule(sched, E)
    requires forall p | 0 <= p < E :: 3 * CeilDiv(|ids|, E) <= Turns(sched, p)
    ensures SliceCounts(Exec1(ids, E, sched).cnts, ids, E, E)
  {
    var g := Exec1(ids, E, sched);
    forall t, e | 0 <= t <= E && 0 <= e < E
      ensures At(g.cnts, E, t, e) == if 1 <= t <= E then OccSlice(ids, E, t - 1, e) else 0
    {
      if 1 <= t {
        Progress1(ids, E, sched, t - 1);
        RowDone1(ids, E, g, t - 1, e);
      }
    }
  }

  // ----- stage 2 -----

  datatype Pc2 = Fetch(i: nat, last: int) | Put(i: nat, last: int)

  datatype Grid2 = Grid2(pcs: seq<Pc2>, cnts: seq<int>)

  ghost predicate Inv2(c0: seq<int>, E: nat, g: Grid2) {
    && 0 < E && IsTable(c0, E) && |g.pcs| == E && IsTable(g.cnts, E)
    && forall p | 0 <= p < E :: Local2(c0, E, p, g.pcs[p], g.cnts)
  }

  /** Program `p` has summed its column above row `pc.i`; when it is about to store it has added that row too. */
  ghost predicate Local2(c0: seq<int>, E: nat, p: nat, pc: Pc2, c: seq<int>)
    requires p < E && IsTable(c0, E) && IsTable(c, E)
  {
    && 1 <= pc.i <= E + 1 && (pc.Put? ==> pc.i <= E)
    && pc.last == ColumnSum(c0, E, if pc.Put? then pc.i else pc.i - 1, p)
    && forall t | 0 <= t <= E :: At(c, E, t, p) == if 0 < t < pc.i then ColumnSum(c0, E, t, p) else At(c0, E, t, p)
  }

  ghost predicate Halted2(E: nat, pc: Pc2) { pc.Fetch? && pc.i > E }

  ghost function Step2(c0: seq<int>, E: nat, g: Grid2, p: nat): Grid2
    requires Inv2(c0, E, g) && p < E
  {
    assert Local2(c0, E, p, g.pcs[p], g.cnts);
    match g.pcs[p]
    case Fetch(i, last) =>
      if i > E then g else g.(pcs := g.pcs[p := Put(i, last + At(g.cnts, E, i, p))])
    case Put(i, last) =>
      CellBound(E, i, p, E + 1);
      Grid2(g.pcs[p := Fetch(i + 1, last)], g.cnts[Cell(E, i, p) := last])
  }

  ghost function Access2(c0: seq<int>, E: nat, g: Grid2, p: nat): Access
    requires Inv2(c0, E, g) && p < E
  {
    match g.pcs[p]
    case Fetch(i, _) => if i > E then Quiet else Load(Counters, Cell(E, i, p))
    case Put(i, _) => Store(Counters, Cell(E, i, p))
  }

  /** No two programs of stage 2 ever touch the same counter, in whatever states. */
  lemma NoConflict2(c0: seq<int>, E: nat, g: Grid2, g': Grid2, p: nat, q: nat)
    requires Inv2(c0, E, g) && Inv2(c0, E, g') && p < E && q < E && p != q
    ensures !Conflict(Access2(c0, E, g, p), Access2(c0, E, g', q))
  {
    assert Local2(c0, E, p, g.pcs[p], g.cnts) && Local2(c0, E, q, g'.pcs[q], g'.cnts);
    if Cell(E, g.pcs[p].i, p) == Cell(E, g'.pcs[q].i, q) {
      CellsDistinct(E, g.pcs[p].i, p, g'.pcs[q].i, q);
    }
  }

  lemma Step2Keeps(c0: seq<int>, E: nat, g: Grid2, p: nat)
    requires Inv2(c0, E, g) && p < E
    ensures Inv2(c0, E, Step2(c0, E, g, p))
  {
    var g' := Step2(c0, E, g, p);
    var pc := g.pcs[p];
    assert Local2(c0, E, p, pc, g.cnts);
    if pc.Put? {
      StoreAt(g.cnts, E, pc.i, p, pc.last);
    }
    forall q | 0 <= q < E ensures Local2(c0, E, q, g'.pcs[q], g'.cnts) {
      assert Local2(c0, E, q, g.pcs[q], g.cnts);
    }
  }

  ghost function Exec2(c0: seq<int>, E: nat, sched: seq<int>): (g: Grid2)
    requires 0 < E && IsTable(c0, E) && Schedule(sched, E)
    ensures Inv2(c0, E, g)
  {
    if sched == [] then
      Grid2(seq(E, _ => Fetch(1, 0)), c0)
    else
      var g := Exec2(c0, E, sched[..|sched| - 1]);
      Step2Keeps(c0, E, g, sched[|sched| - 1]);
      Step2(c0, E, g, sched[|sched| - 1])
  }

  ghost function Done2(pc: Pc2): int {
    match pc
    case Fetch(i, _) => 2 * (i - 1)
    case Put(i, _) => 2 * (i - 1) + 1
  }

  lemma {:induction false} Progress2(c0: seq<int>, E: nat, sched: seq<int>, p: nat)
    requires 0 < E && IsTable(c0, E) && Schedule(sched, E) && p < E
    ensures Halted2(E, Exec2(c0, E, sched).pcs[p]) || Turns(sched, p) <= Done2(Exec2(c0, E, sched).pcs[p])
    decreases |sched|
  {
    if sched != [] {
      var prefix := sched[..|sched| - 1];
      Progress2(c0, E, prefix, p);
      TurnsStep(sched, p);
    }
  }

  /** Stage 2 on the table of stage 1, under any schedule that gives each program enough turns. */
  lemma AnySchedule2(ids: seq<int>, c0: seq<int>, E: nat, sched: seq<int>)
    requires SliceCounts(c0, ids, E, E) && Schedule(sched, E)
    requires forall p | 0 <= p < E :: 2 * E <= Turns(sched, p)
    ensures CountsBefore(Exec2(c0, E, sched).cnts, ids, E, E)
  {
    var g := Exec2(c0, E, sched);
    SlicesCover(|ids|, E);
    forall t, e | 0 <= t <= E && 0 <= e < E ensures At(g.cnts, E, t, e) == Occ(ids, 0, Lo(|ids|, E, t), e) {
      Progress2(c0, E, sched, e);
      assert Local2(c0, E, e, g.pcs[e], g.cnts);
      ColumnOfSlices(c0, ids, E, t, e);
    }
  }

  // ----- stage 4 -----

  datatype Pc4 =
    | LoadStart
    | LoadEnd(start: int)
    | Label(at: int, end: int)
    | NextToken(i: nat)
    | LoadCount(i: nat, e: int)
    | LoadSegment(i: nat, e: int, cnt: int)
    | StoreSlot(i: nat, e: int, cnt: int, rank: int)
    | StoreCount(i: nat, e: int, cnt: int)
  {
    predicate Scattering() { LoadCount? || LoadSegment? || StoreSlot? || StoreCount? }
    predicate Labelling() { LoadStart? || LoadEnd? || Label? }
  }

  datatype Grid4 = Grid4(pcs: seq<Pc4>, cnts: seq<int>, sorted: seq<int>, experts: seq<int>)

  /** What the grid of stage 4 is started on. */
  datatype Launch4 = Launch4(ids: seq<int>, E: nat, B: nat, cnts: seq<int>, cumsum: seq<int>, sorted: seq<int>,
            experts: seq<int>) {
    ghost predicate Ready() {
      && 0 < E && Stage4Ready(ids, E, B, cumsum, sorted, experts) && CountsBefore(cnts, ids, E, E)
    }

    ghost function First(p: nat): nat
      requires 0 < E
    {
      p * CeilDiv(|ids|, E)
    }

    ghost function Lo(p: nat): nat
      requires 0 < E
    {
      MoeCounting.Lo(|ids|, E, p)
    }
  }

  lemma SliceEnd(l: Launch4, p: nat)
    requires 0 < l.E
    ensures l.First(p + 1) == l.First(p) + CeilDiv(|l.ids|, l.E)
    ensures l.Lo(p) == Min(l.First(p), |l.ids|) <= l.Lo(p + 1) == Min(l.First(p) + CeilDiv(|l.ids|, l.E), |l.ids|)
  {
    Distribute(p, 1, CeilDiv(|l.ids|, l.E));
  }

  /** Tokens below this index have been written to their slots by program `p`. */
  ghost function SlotsDone(l: Launch4, p: nat, pc: Pc4): nat
    requires 0 < l.E
  {
    if pc.Labelling() then l.Lo(p)
    else if pc.StoreCount? then Min(pc.i + 1, |l.ids|)
    else Min(pc.i, |l.ids|)
  }

  /** Tokens below this index have been counted by program `p`. */
  ghost function CountsDone(l: Launch4, p: nat, pc: Pc4): nat
    requires 0 < l.E
  {
    if pc.Labelling() then l.Lo(p) else Min(pc.i, |l.ids|)
  }

  /** Blocks below this index have been labelled by program `p`. */
  ghost function LabelsDone(l: Launch4, p: nat, pc: Pc4): int
    requires 0 < l.B
  {
    match pc
    case LoadStart => StartBlock(l.ids, l.B, p)
    case LoadEnd(_) => StartBlock(l.ids, l.B, p)
    case Label(at, _) => at / l.B
    case _ => StartBlock(l.ids, l.B, p + 1)
  }

  /** The registers of program `p`. */
  ghost predicate Registers4(l: Launch4, p: nat, pc: Pc4)
    requires l.Ready() && p < l.E
  {
    && (pc.LoadEnd? ==> pc.start == Start(l.ids, l.B, p))
    && (pc.Label? ==>
          && pc.end == Start(l.ids, l.B, p + 1)
          && StartBlock(l.ids, l.B, p) <= pc.at / l.B <= StartBlock(l.ids, l.B, p + 1)
          && pc.at == pc.at / l.B * l.B)
    && (!pc.Labelling() ==> l.First(p) <= pc.i <= l.First(p + 1))
    && (pc.Scattering() ==> l.Lo(p) <= pc.i < l.Lo(p + 1) && pc.e == l.ids[pc.i])
    && (pc.LoadSegment? || pc.StoreSlot? || pc.StoreCount? ==> pc.cnt == Occ(l.ids, 0, pc.i, pc.e))
    && (pc.StoreSlot? ==> pc.rank == Pos(l.ids, l.B, pc.i))
  }

  ghost predicate RowDone(l: Launch4, p: nat, upTo: nat, c: seq<int>)
    requires l.Ready() && p < l.E && IsTable(c, l.E) && upTo <= |l.ids|
  {
    forall e | 0 <= e < l.E :: At(c, l.E, p, e) == Occ(l.ids, 0, upTo, e)
  }

  ghost predicate SliceDone(l: Launch4, p: nat, upTo: nat, s: seq<int>)
    requires l.Ready() && p < l.E
  {
    && |s| == |l.sorted|
    && forall j {:trigger Slot(l, j)} | l.Lo(p) <= j < l.Lo(p + 1) ::
         s[Slot(l, j)] == if j < upTo then j else l.sorted[Slot(l, j)]
  }

  /** The slot of token `j`, an index of the slot buffer. */
  ghost function Slot(l: Launch4, j: nat): (k: nat)
    requires l.Ready() && j < |l.ids|
    ensures k < |l.sorted|
  {
    PosInSegment(l.ids, l.E, l.B, j);
    Pos(l.ids, l.B, j)
  }

  ghost predicate SegmentDone(l: Launch4, p: nat, upTo: int, x: seq<int>)
    requires l.Ready() && p < l.E
  {
    && |x| == |l.experts|
    && forall b | StartBlock(l.ids, l.B, p) <= b < StartBlock(l.ids, l.B, p + 1) && b < |x| ::
         x[b] == if b < upTo then p else l.experts[b]
  }

  ghost predicate Local4(l: Launch4, p: nat, g: Grid4)
    requires l.Ready() && p < l.E && |g.pcs| == l.E && IsTable(g.cnts, l.E)
  {
    && Registers4(l, p, g.pcs[p])
    && RowDone(l, p, CountsDone(l, p, g.pcs[p]), g.cnts)
    && SliceDone(l, p, SlotsDone(l, p, g.pcs[p]), g.sorted)
    && SegmentDone(l, p, LabelsDone(l, p, g.pcs[p]), g.experts)
  }

  ghost predicate Inv4(l: Launch4, g: Grid4) {
    && l.Ready() && |g.pcs| == l.E && IsTable(g.cnts, l.E) && |g.sorted| == |l.sorted| && |g.experts| == |l.experts|
    && (forall p | 0 <= p < l.E :: Local4(l, p, g))
    && (forall k | 0 <= k < |g.sorted| && !Taken(l.ids, l.E, l.B, 0, |l.ids|, k) :: g.sorted[k] == l.sorted[k])
    && (forall b | StartBlock(l.ids, l.B, l.E) <= b < |g.experts| :: g.experts[b] == l.experts[b])
  }

  ghost predicate Halted4(l: Launch4, p: nat, pc: Pc4)
    requires 0 < l.E
  {
    pc.NextToken? && pc.i >= Min(l.First(p) + CeilDiv(|l.ids|, l.E), |l.ids|)
  }

  /** One turn of program `p`; everything but its own registers and the cell it stores to stays. */
  ghost function Step4(l: Launch4, g: Grid4, p: nat): Grid4
    requires Inv4(l, g) && p < l.E
  {
    assert Local4(l, p, g);
    StartBlockMonotone(l.ids, l.B, p + 1, l.E);
    SliceEnd(l, p);
    match g.pcs[p]
    case LoadStart => g.(pcs := g.pcs[p := LoadEnd(l.cumsum[p])])
    case LoadEnd(start) => g.(pcs := g.pcs[p := Label(start, l.cumsum[p + 1])])
    case Label(at, end) =>
      if at < end then
        BlockBelow(l, p, at);
        g.(pcs := g.pcs[p := Label(at + l.B, end)], experts := g.experts[at / l.B := p])
      else g.(pcs := g.pcs[p := NextToken(l.First(p))])
    case NextToken(i) =>
      if i < Min(l.First(p) + CeilDiv(|l.ids|, l.E), |l.ids|) then g.(pcs := g.pcs[p := LoadCount(i, l.ids[i])]) else g
    case LoadCount(i, e) => g.(pcs := g.pcs[p := LoadSegment(i, e, At(g.cnts, l.E, p, e))])
    case LoadSegment(i, e, cnt) => g.(pcs := g.pcs[p := StoreSlot(i, e, cnt, cnt + l.cumsum[e])])
    case StoreSlot(i, e, cnt, rank) =>
      assert rank == Slot(l, i);
      g.(pcs := g.pcs[p := StoreCount(i, e, cnt)], sorted := g.sorted[rank := i])
    case StoreCount(i, e, cnt) =>
      CellBound(l.E, p, e, l.E + 1);
      g.(pcs := g.pcs[p := NextToken(i + 1)], cnts := g.cnts[Cell(l.E, p, e) := cnt + 1])
  }

  /** A label position before the end of the segment is in a block of the segment. */
  lemma BlockBelow(l: Launch4, p: nat, at: int)
    requires l.Ready() && p < l.E && at == at / l.B * l.B && at < Start(l.ids, l.B, p + 1)
    requires 0 <= at / l.B
    ensures at / l.B < StartBlock(l.ids, l.B, p + 1) <= |l.experts|
  {
    StartInBlocks(l.ids, l.B, p + 1);
    StartBlockMonotone(l.ids, l.B, p + 1, l.E);
    if StartBlock(l.ids, l.B, p + 1) <= at / l.B {
      MulMonotone(StartBlock(l.ids, l.B, p + 1), at / l.B, l.B);
    }
  }

  ghost function Access4(l: Launch4, g: Grid4, p: nat): Access
    requires Inv4(l, g) && p < l.E
  {
    assert Local4(l, p, g);
    match g.pcs[p]
    case Label(at, end) => if at < end then Store(Labels, at / l.B) else Quiet
    case LoadCount(_, e) => Load(Counters, Cell(l.E, p, e))
    case StoreSlot(i, _, _, rank) => Store(Slots, Slot(l, i))
    case StoreCount(_, e, _) => Store(Counters, Cell(l.E, p, e))
    case _ => Quiet
  }

  lemma SlotsDiffer(l: Launch4, p: nat, i: nat, q: nat, j: nat)
    requires l.Ready() && p < l.E && q < l.E && p != q
    requires l.Lo(p) <= i < l.Lo(p + 1) && l.Lo(q) <= j < l.Lo(q + 1)
    ensures Slot(l, i) != Slot(l, j)
  {
    if i == j {
      OwnerUnique(|l.ids|, l.E, i, p, q);
    }
    PosInjective(l.ids, l.E, l.B, i, j);
  }

  lemma BlockNotOf(l: Launch4, p: nat, b: nat, q: nat)
    requires l.Ready() && p < l.E && q < l.E && p != q
    requires StartBlock(l.ids, l.B, p) <= b < StartBlock(l.ids, l.B, p + 1)
    ensures !(StartBlock(l.ids, l.B, q) <= b < StartBlock(l.ids, l.B, q + 1))
  {
    if p < q {
      StartBlockMonotone(l.ids, l.B, p + 1, q);
    } else {
      StartBlockMonotone(l.ids, l.B, q + 1, p);
    }
  }

  /** No two programs of stage 4 ever touch the same cell of a buffer that either of them writes, in
      whatever states. */
  lemma NoConflict4(l: Launch4, g: Grid4, g': Grid4, p: nat, q: nat)
    requires Inv4(l, g) && Inv4(l, g') && p < l.E && q < l.E && p != q
    ensures !Conflict(Access4(l, g, p), Access4(l, g', q))
  {
    assert Local4(l, p, g) && Local4(l, q, g');
    var a, b := g.pcs[p], g'.pcs[q];
    if a.Label? && b.Label? && a.at < a.end && b.at < b.end {
      BlockBelow(l, p, a.at);
      BlockBelow(l, q, b.at);
      BlockNotOf(l, p, a.at / l.B, q);
    } else if a.StoreSlot? && b.StoreSlot? {
      SlotsDiffer(l, p, a.i, q, b.i);
    } else if a.Scattering() && b.Scattering() && Cell(l.E, p, a.e) == Cell(l.E, q, b.e) {
      CellsDistinct(l.E, p, a.e, q, b.e);
    }
  }

  lemma Step4Registers(l: Launch4, g: Grid4, p: nat)
    requires Inv4(l, g) && p < l.E
    ensures Registers4(l, p, Step4(l, g, p).pcs[p])
  {
    assert Local4(l, p, g);
    SliceEnd(l, p);
    var pc := g.pcs[p];
    if pc.LoadEnd? {
      StartInBlocks(l.ids, l.B, p);
      StartAligned(l.ids, l.B, p);
      StartBlockMonotone(l.ids, l.B, p, p + 1);
    } else if pc.Label? && pc.at < pc.end {
      BlockBelow(l, p, pc.at);
      Distribute(pc.at / l.B, 1, l.B);
      DivisionIsUnique(pc.at + l.B, l.B, pc.at / l.B + 1, 0);
    }
  }

  lemma Step4Row(l: Launch4, g: Grid4, p: nat)
    requires Inv4(l, g) && p < l.E
    ensures IsTable(Step4(l, g, p).cnts, l.E)
    ensures RowDone(l, p, CountsDone(l, p, Step4(l, g, p).pcs[p]), Step4(l, g, p).cnts)
    ensures forall t, e | 0 <= t <= l.E && 0 <= e < l.E && t != p ::
            At(Step4(l, g, p).cnts, l.E, t, e) == At(g.cnts, l.E, t, e)
  {
    assert Local4(l, p, g);
    SliceEnd(l, p);
    var pc := g.pcs[p];
    if pc.StoreCount? {
      StoreAt(g.cnts, l.E, p, pc.e, pc.cnt + 1);
    }
  }

  lemma Step4Slots(l: Launch4, g: Grid4, p: nat, q: nat)
    requires Inv4(l, g) && p < l.E && q < l.E
    ensures |Step4(l, g, p).sorted| == |l.sorted|
    ensures SliceDone(l, q, SlotsDone(l, q, Step4(l, g, p).pcs[q]), Step4(l, g, p).sorted)
  {
    assert Local4(l, p, g) && Local4(l, q, g);
    Step4SliceEffect(l, g, p, q);
    var pc := g.pcs[p];
    if pc.StoreSlot? {
      if p == q {
        OwnSlotStored(l, p, pc.i, g.sorted);
      } else {
        OtherSlotStored(l, p, pc.i, q, SlotsDone(l, q, g.pcs[q]), g.sorted);
      }
    }
  }

  lemma Step4SliceEffect(l: Launch4, g: Grid4, p: nat, q: nat)
    requires Inv4(l, g) && p < l.E && q < l.E
    ensures var pc, g' := g.pcs[p], Step4(l, g, p);
      if pc.StoreSlot? then
        && l.Lo(p) <= pc.i < l.Lo(p + 1) && Slot(l, pc.i) < |g.sorted| && g'.sorted == g.sorted[Slot(l, pc.i) := pc.i]
        && SlotsDone(l, q, g'.pcs[q]) == if p == q then pc.i + 1 else SlotsDone(l, q, g.pcs[q])
      else g'.sorted == g.sorted && SlotsDone(l, q, g'.pcs[q]) == SlotsDone(l, q, g.pcs[q])
  {
    assert Local4(l, p, g);
    SliceEnd(l, p);
  }

  lemma OwnSlotStored(l: Launch4, p: nat, i: nat, s: seq<int>)
    requires l.Ready() && p < l.E && l.Lo(p) <= i < l.Lo(p + 1) && |s| == |l.sorted| && SliceDone(l, p, i, s)
    ensures Slot(l, i) < |s| && SliceDone(l, p, i + 1, s[Slot(l, i) := i])
  {
    forall j | l.Lo(p) <= j < l.Lo(p + 1) && j != i ensures Slot(l, j) != Slot(l, i) {
      PosInjective(l.ids, l.E, l.B, i, j);
    }
  }

  lemma OtherSlotStored(l: Launch4, p: nat, i: nat, q: nat, upTo: nat, s: seq<int>)
    requires l.Ready() && p < l.E && q < l.E && p != q && l.Lo(p) <= i < l.Lo(p + 1)
    requires |s| == |l.sorted| && SliceDone(l, q, upTo, s)
    ensures Slot(l, i) < |s| && SliceDone(l, q, upTo, s[Slot(l, i) := i])
  {
    forall j | l.Lo(q) <= j < l.Lo(q + 1) ensures Slot(l, j) != Slot(l, i) {
      SlotsDiffer(l, p, i, q, j);
    }
  }

  /** The label position moves on by one block. */
  lemma NextBlock(at: int, B: nat)
    requires 0 < B && at == at / B * B && 0 <= at / B
    ensures (at + B) / B == at / B + 1
  {
    Distribute(at / B, 1, B);
    DivisionIsUnique(at + B, B, at / B + 1, 0);
  }

  /** The loop over the blocks ends exactly at the end of the segment. */
  lemma LastBlock(l: Launch4, p: nat, at: int)
    requires l.Ready() && p < l.E && at == at / l.B * l.B && Start(l.ids, l.B, p + 1) <= at
    requires 0 <= at / l.B <= StartBlock(l.ids, l.B, p + 1)
    ensures at / l.B == StartBlock(l.ids, l.B, p + 1)
  {
    StartInBlocks(l.ids, l.B, p + 1);
    if at / l.B < StartBlock(l.ids, l.B, p + 1) {
      MulMonotone(at / l.B + 1, StartBlock(l.ids, l.B, p + 1), l.B);
      Distribute(at / l.B, 1, l.B);
    }
  }

  /** The effect of a turn on the labels: at most one block of the program's own segment. */
  lemma Step4LabelEffect(l: Launch4, g: Grid4, p: nat)
    requires Inv4(l, g) && p < l.E
    ensures |Step4(l, g, p).experts| == |l.experts|
    ensures var pc, pc' := g.pcs[p], Step4(l, g, p).pcs[p];
      || (Step4(l, g, p).experts == g.experts && LabelsDone(l, p, pc') == LabelsDone(l, p, pc))
      || (var b := LabelsDone(l, p, pc);
          && StartBlock(l.ids, l.B, p) <= b < StartBlock(l.ids, l.B, p + 1) <= StartBlock(l.ids, l.B, l.E)
          && Step4(l, g, p).experts == g.experts[b := p] && LabelsDone(l, p, pc') == b + 1)
  {
    assert Local4(l, p, g);
    var pc := g.pcs[p];
    if pc.LoadEnd? {
      StartAligned(l.ids, l.B, p);
    } else if pc.Label? {
      if pc.at < pc.end {
        BlockBelow(l, p, pc.at);
        NextBlock(pc.at, l.B);
        StartBlockMonotone(l.ids, l.B, p + 1, l.E);
      } else {
        LastBlock(l, p, pc.at);
      }
    }
  }

  lemma Step4Labels(l: Launch4, g: Grid4, p: nat, q: nat)
    requires Inv4(l, g) && p < l.E && q < l.E
    ensures |Step4(l, g, p).experts| == |l.experts|
    ensures SegmentDone(l, q, LabelsDone(l, q, Step4(l, g, p).pcs[q]), Step4(l, g, p).experts)
  {
    assert Local4(l, q, g);
    Step4LabelEffect(l, g, p);
    var b := LabelsDone(l, p, g.pcs[p]);
    if p != q && StartBlock(l.ids, l.B, p) <= b < StartBlock(l.ids, l.B, p + 1) {
      BlockNotOf(l, p, b, q);
    }
  }

  lemma Step4Keeps(l: Launch4, g: Grid4, p: nat)
    requires Inv4(l, g) && p < l.E
    ensures Inv4(l, Step4(l, g, p))
  {
    var g' := Step4(l, g, p);
    Step4Row(l, g, p);
    forall q | 0 <= q < l.E ensures Local4(l, q, g') {
      assert Local4(l, q, g);
      Step4Slots(l, g, p, q);
      Step4Labels(l, g, p, q);
      if q == p {
        Step4Registers(l, g, p);
      }
    }
    Step4Outside(l, g, p);
  }

  /** Slots of no token and blocks past the padded total keep what they held. */
  lemma Step4Outside(l: Launch4, g: Grid4, p: nat)
    requires Inv4(l, g) && p < l.E
    ensures |Step4(l, g, p).sorted| == |l.sorted| && |Step4(l, g, p).experts| == |l.experts|
    ensures forall k | 0 <= k < |l.sorted| && !Taken(l.ids, l.E, l.B, 0, |l.ids|, k) ::
            Step4(l, g, p).sorted[k] == l.sorted[k]
    ensures forall b | StartBlock(l.ids, l.B, l.E) <= b < |l.experts| :: Step4(l, g, p).experts[b] == l.experts[b]
  {
    assert Local4(l, p, g);
    Step4LabelEffect(l, g, p);
    Step4SlotEffect(l, g, p);
  }

  lemma Step4SlotEffect(l: Launch4, g: Grid4, p: nat)
    requires Inv4(l, g) && p < l.E
    ensures Step4(l, g, p).sorted == g.sorted
      || exists i | 0 <= i < |l.ids| :: Step4(l, g, p).sorted == g.sorted[Slot(l, i) := i]
  {
    assert Local4(l, p, g);
    var pc := g.pcs[p];
    if pc.StoreSlot? {
      assert Step4(l, g, p).sorted == g.sorted[Slot(l, pc.i) := pc.i];
    }
  }

  ghost function Init4(l: Launch4): Grid4
    requires 0 < l.E
  {
    Grid4(seq(l.E, _ => LoadStart), l.cnts, l.sorted, l.experts)
  }

  ghost function Exec4(l: Launch4, sched: seq<int>): (g: Grid4)
    requires l.Ready() && Schedule(sched, l.E)
    ensures Inv4(l, g)
  {
    if sched == [] then
      assert forall p | 0 <= p < l.E :: Local4(l, p, Init4(l));
      Init4(l)
    else
      var g := Exec4(l, sched[..|sched| - 1]);
      Step4Keeps(l, g, sched[|sched| - 1]);
      Step4(l, g, sched[|sched| - 1])
  }

  /** Turns after which program `p` of stage 4 has halted: two loads, one turn for each block of its
      segment and one to leave the loop, five for each index of its slice. */
  ghost function Enough4(l: Launch4, p: nat): int
    requires l.Ready()
  {
    3 + StartBlock(l.ids, l.B, p + 1) - StartBlock(l.ids, l.B, p) + 5 * CeilDiv(|l.ids|, l.E)
  }

  ghost function Done4(l: Launch4, p: nat, pc: Pc4): int
    requires l.Ready()
  {
    if pc.LoadStart? then 0
    else if pc.LoadEnd? then 1
    else if pc.Label? then 2 + LabelsDone(l, p, pc) - StartBlock(l.ids, l.B, p)
    else Enough4(l, p) + 5 * (pc.i - l.First(p + 1)) + Phase4(pc)
  }

  ghost function Phase4(pc: Pc4): int {
    match pc
    case LoadCount(_, _) => 1
    case LoadSegment(_, _, _) => 2
    case StoreSlot(_, _, _, _) => 3
    case StoreCount(_, _, _) => 4
    case _ => 0
  }

  lemma Step4Done(l: Launch4, g: Grid4, p: nat)
    requires Inv4(l, g) && p < l.E && !Halted4(l, p, g.pcs[p])
    ensures Done4(l, p, Step4(l, g, p).pcs[p]) >= Done4(l, p, g.pcs[p]) + 1
  {
    assert Local4(l, p, g);
    SliceEnd(l, p);
    var pc := g.pcs[p];
    if pc.LoadEnd? {
      StartAligned(l.ids, l.B, p);
    } else if pc.Label? && pc.at < pc.end {
      NextBlock(pc.at, l.B);
    } else if pc.Label? {
      LastBlock(l, p, pc.at);
    }
  }

  lemma {:induction false} Progress4(l: Launch4, sched: seq<int>, p: nat)
    requires l.Ready() && Schedule(sched, l.E) && p < l.E
    ensures Halted4(l, p, Exec4(l, sched).pcs[p]) || Turns(sched, p) <= Done4(l, p, Exec4(l, sched).pcs[p])
    decreases |sched|
  {
    if sched != [] {
      var prefix := sched[..|sched| - 1];
      Progress4(l, prefix, p);
      TurnsStep(sched, p);
      var g := Exec4(l, prefix);
      if !Halted4(l, p, g.pcs[p]) && sched[|sched| - 1] == p {
        Step4Done(l, g, p);
      }
    }
  }

  lemma Halts4(l: Launch4, sched: seq<int>, p: nat)
    requires l.Ready() && Schedule(sched, l.E) && p < l.E
    requires Enough4(l, p) <= Turns(sched, p)
    ensures var pc := Exec4(l, sched).pcs[p];
      Halted4(l, p, pc) && SlotsDone(l, p, pc) >= l.Lo(p + 1) && LabelsDone(l, p, pc) == StartBlock(l.ids, l.B, p + 1)
  {
    Progress4(l, sched, p);
    SliceEnd(l, p);
    assert Local4(l, p, Exec4(l, sched));
  }

  /** Stage 4 under any schedule that gives each program enough turns. */
  lemma AnySchedule4(l: Launch4, sched: seq<int>)
    requires l.Ready() && Schedule(sched, l.E)
    requires forall p | 0 <= p < l.E :: Enough4(l, p) <= Turns(sched, p)
    ensures Aligned(l.ids, l.E, l.B, l.sorted, Exec4(l, sched).sorted, l.experts, Exec4(l, sched).experts)
  {
    var g := Exec4(l, sched);
    forall i | 0 <= i < |l.ids| ensures Pos(l.ids, l.B, i) < |g.sorted| && g.sorted[Pos(l.ids, l.B, i)] == i {
      SlicesCover(|l.ids|, l.E);
      var p := OwnerExists(|l.ids|, l.E, i, l.E);
      Halts4(l, sched, p);
      assert Local4(l, p, g);
      assert g.sorted[Slot(l, i)] == i;
    }
    forall b, e | 0 <= e < l.E && StartBlock(l.ids, l.B, e) <= b < StartBlock(l.ids, l.B, e + 1) && b < |g.experts|
      ensures g.experts[b] == e
    {
      Halts4(l, sched, e);
      assert Local4(l, e, g);
    }
  }

  // ----- the whole pipeline -----

  /** The result of the sort is determined by its input and by what the buffers held before. */
  lemma AlignedUnique(ids: seq<int>, E: nat, B: nat, sorted0: seq<int>, s: seq<int>, s': seq<int>, experts0: seq<int>,
          x: seq<int>, x': seq<int>)
    requires 0 < B && ValidIds(ids, E)
    requires Aligned(ids, E, B, sorted0, s, experts0, x) && Aligned(ids, E, B, sorted0, s', experts0, x')
    ensures s == s' && x == x'
  {
    forall k | 0 <= k < |s| ensures s[k] == s'[k] {
      if Taken(ids, E, B, 0, |ids|, k) {
        var i :| 0 <= i < |ids| && Pos(ids, B, i) == k;
      }
    }
    forall b | 0 <= b < |x| ensures x[b] == x'[b] {
      if b < StartBlock(ids, B, E) {
        StartInBlocks(ids, B, E);
        MulMonotone(b + 1, StartBlock(ids, B, E), B);
        Distribute(b, 1, B);
        var e := SegmentOf(ids, B, b, E);
      }
    }
  }

  lemma {:induction false} SegmentOf(ids: seq<int>, B: nat, b: nat, k: nat) returns (e: nat)
    requires 0 < B && b < StartBlock(ids, B, k)
    ensures e < k && StartBlock(ids, B, e) <= b < StartBlock(ids, B, e + 1)
  {
    if b < StartBlock(ids, B, k - 1) {
      e := SegmentOf(ids, B, b, k - 1);
    } else {
      e := k - 1;
    }
  }

  /** Whatever the schedules of the three parallel stages, as long as each program gets its turns, and
      with the single program of stage 3 on what stage 2 leaves, the buffers end up exactly as
      `MoeAlign.MoeAlignBlockSize` leaves them. */
  lemma ScheduleIndependence(ids: seq<int>, E: nat, B: nat, sched1: seq<int>, sched2: seq<int>, sched4: seq<int>,
          sorted0: seq<int>, experts0: seq<int>, sorted: seq<int>, experts: seq<int>)
    requires 0 < E && 0 < B && ValidIds(ids, E) && Start(ids, B, E) <= |sorted0| && StartBlock(ids, B, E) <= |experts0|
    requires Schedule(sched1, E) && Schedule(sched2, E) && Schedule(sched4, E)
    requires forall p | 0 <= p < E :: 3 * CeilDiv(|ids|, E) <= Turns(sched1, p) && 2 * E <= Turns(sched2, p)
    requires forall p | 0 <= p < E ::
               3 + StartBlock(ids, B, p + 1) - StartBlock(ids, B, p) + 5 * CeilDiv(|ids|, E) <= Turns(sched4, p)
    requires Aligned(ids, E, B, sorted0, sorted, experts0, experts)
    ensures var cnts1 := Exec1(ids, E, sched1).cnts;
      var cnts2 := Exec2(cnts1, E, sched2).cnts;
      var l := Launch4(ids, E, B, cnts2, PaddedSums(cnts2, E, B), sorted0, experts0);
      l.Ready() && Exec4(l, sched4).sorted == sorted && Exec4(l, sched4).experts == experts
  {
    AnySchedule1(ids, E, sched1);
    var cnts1 := Exec1(ids, E, sched1).cnts;
    AnySchedule2(ids, cnts1, E, sched2);
    var cnts2 := Exec2(cnts1, E, sched2).cnts;
    var l := Launch4(ids, E, B, cnts2, PaddedSums(cnts2, E, B), sorted0, experts0);
    forall k | 0 <= k <= E ensures l.cumsum[k] == Start(ids, B, k) {
      SlicesCover(|ids|, E);
      SumsAreStarts(cnts2, ids, E, B, k);
    }
    AnySchedule4(l, sched4);
    var g := Exec4(l, sched4);
    AlignedUnique(ids, E, B, sorted0, g.sorted, sorted, experts0, g.experts, experts);
  }
}
