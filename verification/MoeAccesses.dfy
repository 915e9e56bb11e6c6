/** That the accesses named in `MoeSchedule` are those of the steps: a turn changes no cell of a shared buffer
    but the one a store names, and what it does depends on no such cell but the one a load names. */
module MoeAccesses {
  import opened Common
  import opened MoeCounting
  import opened MoeAlign
  import opened MoeSchedule

  /** Of the buffer at most the cell of a store has changed. */
  ghost predicate OnlyStored(a: Access, buffer: Buffer, before: seq<int>, after: seq<int>) {
    |after| == |before| && forall k | 0 <= k < |before| && after[k] != before[k] :: a == Store(buffer, k)
  }

  /** If a load is from this buffer, both contents agree at the cell it is from. */
  ghost predicate SameLoaded(a: Access, buffer: Buffer, s: seq<int>, s': seq<int>) {
    a.Load? && a.buffer == buffer ==> a.cell < |s| && a.cell < |s'| && s[a.cell] == s'[a.cell]
  }

  /** If a store is to this buffer, both contents agree at the cell it is to. */
  ghost predicate SameStored(a: Access, buffer: Buffer, s: seq<int>, s': seq<int>) {
    a.Store? && a.buffer == buffer ==> a.cell < |s| && a.cell < |s'| && s[a.cell] == s'[a.cell]
  }

  /** Only the program whose turn it is moves on. */
  ghost predicate OnlyMoves<T(!new)>(p: nat, pcs: seq<T>, pcs': seq<T>) {
    |pcs'| == |pcs| && forall q | 0 <= q < |pcs| && q != p :: pcs'[q] == pcs[q]
  }

  /** Stage 1: the access of a program is all that its turn reads and writes of the counters. Two states in
      which the program is at the same place, with the same registers, have the same access; if they agree
      at the cell loaded, the program goes on in the same way and stores the same. */
  lemma AccessIs1(ids: seq<int>, E: nat, g: Grid1, g': Grid1, p: nat)
    requires Inv1(ids, E, g) && Inv1(ids, E, g') && p < E && g'.pcs[p] == g.pcs[p]
    ensures var a, h, h' := Access1(ids, E, g, p), Step1(ids, E, g, p), Step1(ids, E, g', p);
      && OnlyMoves(p, g.pcs, h.pcs) && OnlyStored(a, Counters, g.cnts, h.cnts)
      && Access1(ids, E, g', p) == a && |h.pcs| == |h'.pcs| == E
      && (SameLoaded(a, Counters, g.cnts, g'.cnts) ==>
           h'.pcs[p] == h.pcs[p] && SameStored(a, Counters, h.cnts, h'.cnts))
  {
    assert Local1(ids, E, p, g.pcs[p], g.cnts) && Local1(ids, E, p, g'.pcs[p], g'.cnts);
    if !g.pcs[p].Next? {
      CellBound(E, p + 1, g.pcs[p].idx, E + 1);
    }
  }

  /** The same for stage 2. */
  lemma AccessIs2(c0: seq<int>, E: nat, g: Grid2, g': Grid2, p: nat)
    requires Inv2(c0, E, g) && Inv2(c0, E, g') && p < E && g'.pcs[p] == g.pcs[p]
    ensures var a, h, h' := Access2(c0, E, g, p), Step2(c0, E, g, p), Step2(c0, E, g', p);
      && OnlyMoves(p, g.pcs, h.pcs) && OnlyStored(a, Counters, g.cnts, h.cnts)
      && Access2(c0, E, g', p) == a && |h.pcs| == |h'.pcs| == E
      && (SameLoaded(a, Counters, g.cnts, g'.cnts) ==>
           h'.pcs[p] == h.pcs[p] && SameStored(a, Counters, h.cnts, h'.cnts))
  {
    assert Local2(c0, E, p, g.pcs[p], g.cnts) && Local2(c0, E, p, g'.pcs[p], g'.cnts);
    if g.pcs[p].i <= E {
      CellBound(E, g.pcs[p].i, p, E + 1);
    }
  }

  /** The same for stage 4 and its three buffers. */
  lemma AccessIs4(l: Launch4, g: Grid4, g': Grid4, p: nat)
    requires Inv4(l, g) && Inv4(l, g') && p < l.E && g'.pcs[p] == g.pcs[p]
    ensures var a, h, h' := Access4(l, g, p), Step4(l, g, p), Step4(l, g', p);
      && OnlyMoves(p, g.pcs, h.pcs) && OnlyStored(a, Counters, g.cnts, h.cnts)
      && OnlyStored(a, Slots, g.sorted, h.sorted) && OnlyStored(a, Labels, g.experts, h.experts)
      && Access4(l, g', p) == a && |h.pcs| == |h'.pcs| == l.E
      && (SameLoaded(a, Counters, g.cnts, g'.cnts) && SameLoaded(a, Slots, g.sorted, g'.sorted)
          && SameLoaded(a, Labels, g.experts, g'.experts) ==>
            && h'.pcs[p] == h.pcs[p] && SameStored(a, Counters, h.cnts, h'.cnts)
            && SameStored(a, Slots, h.sorted, h'.sorted) && SameStored(a, Labels, h.experts, h'.experts))
  {
    assert Local4(l, p, g) && Local4(l, p, g');
    var pc := g.pcs[p];
    SliceEnd(l, p);
    if pc.Label? && pc.at < pc.end {
      BlockBelow(l, p, pc.at);
    } else if pc.LoadCount? || pc.StoreCount? {
      CellBound(l.E, p, pc.e, l.E + 1);
    }
  }
}
