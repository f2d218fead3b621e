/** Correctness of the mask scan: the rectangles it emits are non-empty, lie
    in the mask, cover only visible cells of their own material, are pairwise
    disjoint, come in scan order, and together cover exactly the cells that
    were visible; afterwards no cell is visible. */
module GreedyExtraction {
  import opened VoxelTypes
  import opened SetCounting
  import opened GreedyMesher

  /** The visible cells of a mask. */
  ghost function VisCells(mk: Mask): set<(int, int)>
    requires mk.Wf()
  {
    set u, v | 0 <= u < mk.dx && 0 <= v < mk.dy && mk.Cell(u, v).visible :: (u, v)
  }

  lemma VisCellsMembership(mk: Mask, u: int, v: int)
    requires mk.Wf()
    ensures (u, v) in VisCells(mk) <==> 0 <= u < mk.dx && 0 <= v < mk.dy && mk.Cell(u, v).visible
  {
  }

  /** The cells a rectangle covers. */
  ghost function RectCells(r: MaskRect): set<(int, int)> {
    Rect(r.u, r.v, r.w, r.h)
  }

  /** The cells covered by a sequence of rectangles. */
  ghost function CellsOf(rects: seq<MaskRect>): set<(int, int)> {
    if |rects| == 0 then {} else CellsOf(rects[..|rects| - 1]) + RectCells(rects[|rects| - 1])
  }

  /** The summed area of a sequence of rectangles. */
  function AreaSum(rects: seq<MaskRect>): nat {
    if |rects| == 0 then 0 else AreaSum(rects[..|rects| - 1]) + rects[|rects| - 1].w * rects[|rects| - 1].h
  }

  lemma {:induction false} CellsOfContains(rects: seq<MaskRect>, i: int)
    requires 0 <= i < |rects|
    ensures RectCells(rects[i]) <= CellsOf(rects)
    decreases |rects|
  {
    if i < |rects| - 1 {
      CellsOfContains(rects[..|rects| - 1], i);
      assert rects[..|rects| - 1][i] == rects[i];
    }
  }

  /** (v1, u1) comes before (v2, u2) in scan order: rows first, then columns. */
  predicate Before(v1: int, u1: int, v2: int, u2: int) {
    v1 < v2 || (v1 == v2 && u1 < u2)
  }

  /** mk is m0 with some visible flags cleared. */
  ghost predicate Shrinks(m0: Mask, mk: Mask) {
    m0.Wf() && mk.Wf() && mk.dx == m0.dx && mk.dy == m0.dy
    && forall u, v :: 0 <= u < mk.dx && 0 <= v < mk.dy ==>
         mk.Cell(u, v).material == m0.Cell(u, v).material && (mk.Cell(u, v).visible ==> m0.Cell(u, v).visible)
  }

  /** No cell before scan position (v, u) is visible. */
  ghost predicate ClearedBefore(mk: Mask, v: int, u: int)
    requires mk.Wf()
  {
    forall u', v' :: 0 <= u' < mk.dx && 0 <= v' < mk.dy && Before(v', u', v, u) ==> !mk.Cell(u', v').visible
  }

  /** The originally visible cells are exactly those still visible plus those
      covered so far, the two are disjoint, and the covered area counts every
      covered cell once. */
  ghost predicate Accounted(m0: Mask, mk: Mask, rects: seq<MaskRect>)
    requires m0.Wf() && mk.Wf()
  {
    VisCells(m0) == VisCells(mk) + CellsOf(rects) && VisCells(mk) !! CellsOf(rects)
    && AreaSum(rects) == |CellsOf(rects)|
  }

  /** A rectangle is non-empty, fits in the mask, and covers only cells that
      were visible with its material. */
  ghost predicate RectOk(m0: Mask, r: MaskRect)
    requires m0.Wf()
  {
    1 <= r.w && 1 <= r.h && r.u + r.w <= m0.dx && r.v + r.h <= m0.dy
    && forall u, v :: InRect(u, v, r.u, r.v, r.w, r.h) ==> Matches(m0.Cell(u, v), r.material)
  }

  ghost predicate RectsOk(m0: Mask, rects: seq<MaskRect>)
    requires m0.Wf()
  {
    forall i :: 0 <= i < |rects| ==> RectOk(m0, rects[i])
  }

  ghost predicate PairwiseDisjoint(rects: seq<MaskRect>) {
    forall i, j :: 0 <= i < j < |rects| ==> RectCells(rects[i]) !! RectCells(rects[j])
  }

  /** Rectangles start in strictly increasing scan order, all before (v, u). */
  predicate Ordered(rects: seq<MaskRect>, v: int, u: int) {
    (forall i :: 0 <= i < |rects| ==> Before(rects[i].v, rects[i].u, v, u))
    && forall i, j :: 0 <= i < j < |rects| ==> Before(rects[i].v, rects[i].u, rects[j].v, rects[j].u)
  }

  /** The scan invariant at position (v, u). */
  ghost predicate Inv(m0: Mask, mk: Mask, rects: seq<MaskRect>, v: int, u: int) {
    Shrinks(m0, mk) && ClearedBefore(mk, v, u) && Accounted(m0, mk, rects)
    && RectsOk(m0, rects) && PairwiseDisjoint(rects) && Ordered(rects, v, u)
  }

  /** The scan invariant as a single proof obligation: comparing with true
      keeps the verifier from splitting it into one goal per conjunct at every
      call of the scan lemmas. */
  ghost predicate ScanInv(m0: Mask, mk: Mask, rects: seq<MaskRect>, v: int, u: int) {
    Inv(m0, mk, rects, v, u) == true
  }

  /** Every cell of the rectangle grown from a visible cell matches it. */
  lemma GrownRectMatches(mk: Mask, u: nat, v: nat)
    requires mk.Wf() && u < mk.dx && v < mk.dy && mk.Cell(u, v).visible
    ensures var mat := mk.Cell(u, v).material;
            var size := ExtendQuad(mk, u, v, mat);
            forall a, b :: InRect(a, b, u, v, size.x, size.y) ==> Matches(mk.Cell(a, b), mat)
  {
    var mat := mk.Cell(u, v).material;
    var size := ExtendQuad(mk, u, v, mat);
    ExtendQuadSpec(mk, u, v, mat);
    forall a, b | InRect(a, b, u, v, size.x, size.y)
      ensures Matches(mk.Cell(a, b), mat)
    {
      if b > v {
        assert RowMatches(mk, b, u, size.x, mat);
      } else if a > u {
      }
    }
  }

  /** Marking a rectangle of visible cells removes exactly its cells from the
      visible set. */
  lemma MarkVisCells(mk: Mask, u0: nat, v0: nat, w: nat, h: nat)
    requires mk.Wf() && u0 + w <= mk.dx && v0 + h <= mk.dy
    ensures VisCells(MarkQuadProcessed(mk, u0, v0, w, h)) == VisCells(mk) - Rect(u0, v0, w, h)
  {
    var r := MarkQuadProcessed(mk, u0, v0, w, h);
    forall a, b | 0 <= a < mk.dx && 0 <= b < mk.dy
      ensures r.Cell(a, b).visible == (mk.Cell(a, b).visible && !InRect(a, b, u0, v0, w, h))
    {
      MarkQuadProcessedCells(mk, u0, v0, w, h, a, b);
    }
  }

  /** Marking keeps the mask a shrinking of the original. */
  lemma MarkShrinks(m0: Mask, mk: Mask, u0: nat, v0: nat, w: nat, h: nat)
    requires Shrinks(m0, mk) && u0 + w <= mk.dx && v0 + h <= mk.dy
    ensures Shrinks(m0, MarkQuadProcessed(mk, u0, v0, w, h))
  {
    var r := MarkQuadProcessed(mk, u0, v0, w, h);
    forall a, b | 0 <= a < mk.dx && 0 <= b < mk.dy
      ensures r.Cell(a, b).material == m0.Cell(a, b).material && (r.Cell(a, b).visible ==> m0.Cell(a, b).visible)
    {
      MarkQuadProcessedCells(mk, u0, v0, w, h, a, b);
    }
  }

  /** Marking keeps the cleared prefix cleared and clears the start cell. */
  lemma MarkClearedBefore(mk: Mask, u0: nat, v0: nat, w: nat, h: nat)
    requires mk.Wf() && u0 + w <= mk.dx && v0 + h <= mk.dy && 1 <= w && 1 <= h
    requires ClearedBefore(mk, v0, u0)
    ensures ClearedBefore(MarkQuadProcessed(mk, u0, v0, w, h), v0, u0 + 1)
  {
    var r := MarkQuadProcessed(mk, u0, v0, w, h);
    forall a, b | 0 <= a < mk.dx && 0 <= b < mk.dy && Before(b, a, v0, u0 + 1)
      ensures !r.Cell(a, b).visible
    {
      MarkQuadProcessedCells(mk, u0, v0, w, h, a, b);
    }
  }

  /** The new rectangle is disjoint from every earlier one. */
  lemma NewRectDisjoint(m0: Mask, mk: Mask, rects: seq<MaskRect>, nr: MaskRect)
    requires m0.Wf() && mk.Wf() && Accounted(m0, mk, rects) && PairwiseDisjoint(rects)
    requires RectCells(nr) <= VisCells(mk)
    ensures PairwiseDisjoint(rects + [nr])
  {
    var rs := rects + [nr];
    forall i, j | 0 <= i < j < |rs|
      ensures RectCells(rs[i]) !! RectCells(rs[j])
    {
      if j == |rects| {
        CellsOfContains(rects, i);
      } else {
        assert rs[i] == rects[i] && rs[j] == rects[j];
      }
    }
  }

  /** Accounting after covering a rectangle of still-visible cells. */
  lemma AccountNewRect(m0: Mask, mk: Mask, mk': Mask, rects: seq<MaskRect>, nr: MaskRect)
    requires m0.Wf() && mk.Wf() && mk'.Wf() && Accounted(m0, mk, rects)
    requires RectCells(nr) <= VisCells(mk) && VisCells(mk') == VisCells(mk) - RectCells(nr)
    ensures Accounted(m0, mk', rects + [nr])
  {
    var rs := rects + [nr];
    assert rs[..|rs| - 1] == rects;
    assert CellsOf(rs) == CellsOf(rects) + RectCells(nr);
    assert AreaSum(rs) == AreaSum(rects) + nr.w * nr.h;
    RectCardinality(nr.u, nr.v, nr.w, nr.h);
    assert CellsOf(rects) !! RectCells(nr);
    assert |CellsOf(rects) + RectCells(nr)| == |CellsOf(rects)| + |RectCells(nr)|;
  }

  /** The rectangle grown at a visible cell, and the mask after marking it. */
  function GrownRect(mk: Mask, u: nat, v: nat): (r: MaskRect)
    requires mk.Wf() && u < mk.dx && v < mk.dy
    ensures 1 <= r.w && 1 <= r.h && r.u == u && r.v == v && u + r.w <= mk.dx && v + r.h <= mk.dy
  {
    var mat := mk.Cell(u, v).material;
    var size := ExtendQuad(mk, u, v, mat);
    MaskRect(u, v, size.x, size.y, mat)
  }

  function Marked(mk: Mask, r: MaskRect): (mk': Mask)
    requires mk.Wf() && r.u + r.w <= mk.dx && r.v + r.h <= mk.dy
    ensures mk'.Wf() && mk'.dx == mk.dx && mk'.dy == mk.dy
  {
    MarkQuadProcessed(mk, r.u, r.v, r.w, r.h)
  }

  /** The grown rectangle covers only still-visible cells of the start cell's
      material. */
  lemma GrownRectVisible(mk: Mask, u: nat, v: nat)
    requires mk.Wf() && u < mk.dx && v < mk.dy && mk.Cell(u, v).visible
    ensures var nr := GrownRect(mk, u, v);
            RectCells(nr) <= VisCells(mk) && nr.material == mk.Cell(u, v).material
            && forall a, b :: InRect(a, b, nr.u, nr.v, nr.w, nr.h) ==> Matches(mk.Cell(a, b), nr.material)
  {
    GrownRectMatches(mk, u, v);
  }

  lemma StepMask(m0: Mask, mk: Mask, v: nat, u: nat)
    requires Shrinks(m0, mk) && ClearedBefore(mk, v, u) && v < mk.dy && u < mk.dx
    ensures var nr := GrownRect(mk, u, v);
            Shrinks(m0, Marked(mk, nr)) && ClearedBefore(Marked(mk, nr), v, u + 1)
  {
    var nr := GrownRect(mk, u, v);
    MarkShrinks(m0, mk, u, v, nr.w, nr.h);
    MarkClearedBefore(mk, u, v, nr.w, nr.h);
  }

  lemma StepAccount(m0: Mask, mk: Mask, rects: seq<MaskRect>, v: nat, u: nat)
    requires m0.Wf() && mk.Wf() && Accounted(m0, mk, rects) && PairwiseDisjoint(rects)
    requires v < mk.dy && u < mk.dx && mk.Cell(u, v).visible
    ensures var nr := GrownRect(mk, u, v);
            Accounted(m0, Marked(mk, nr), rects + [nr]) && PairwiseDisjoint(rects + [nr])
  {
    var nr := GrownRect(mk, u, v);
    GrownRectVisible(mk, u, v);
    MarkVisCells(mk, u, v, nr.w, nr.h);
    AccountNewRect(m0, mk, Marked(mk, nr), rects, nr);
    NewRectDisjoint(m0, mk, rects, nr);
  }

  lemma StepRects(m0: Mask, mk: Mask, rects: seq<MaskRect>, v: nat, u: nat)
    requires Shrinks(m0, mk) && RectsOk(m0, rects) && Ordered(rects, v, u)
    requires v < mk.dy && u < mk.dx && mk.Cell(u, v).visible
    ensures var nr := GrownRect(mk, u, v);
            RectsOk(m0, rects + [nr]) && Ordered(rects + [nr], v, u + 1)
  {
    var nr := GrownRect(mk, u, v);
    var rs := rects + [nr];
    GrownRectVisible(mk, u, v);
    assert RectOk(m0, nr);
    forall i | 0 <= i < |rs| ensures RectOk(m0, rs[i]) {
      if i < |rects| { assert rs[i] == rects[i]; }
    }
  }

  /** One step of the row scan at a visible cell. */
  lemma StepVisible(m0: Mask, mk: Mask, rects: seq<MaskRect>, v: nat, u: nat)
    requires ScanInv(m0, mk, rects, v, u) && v < mk.dy && u < mk.dx && mk.Cell(u, v).visible
    ensures var nr := GrownRect(mk, u, v);
            ScanInv(m0, Marked(mk, nr), rects + [nr], v, u + 1)
  {
    StepMask(m0, mk, v, u);
    StepAccount(m0, mk, rects, v, u);
    StepRects(m0, mk, rects, v, u);
  }

  /** One step of the row scan at an invisible cell. */
  lemma StepInvisible(m0: Mask, mk: Mask, rects: seq<MaskRect>, v: nat, u: nat)
    requires ScanInv(m0, mk, rects, v, u) && v < mk.dy && u < mk.dx && !mk.Cell(u, v).visible
    ensures ScanInv(m0, mk, rects, v, u + 1)
  {
  }

  /** The row scan passes over an invisible cell. */
  lemma ScanRowSkip(mk: Mask, rects: seq<MaskRect>, v: nat, u: nat)
    requires mk.Wf() && v < mk.dy && u < mk.dx && !mk.Cell(u, v).visible
    ensures ScanRow(mk, v, u, rects) == ScanRow(mk, v, u + 1, rects)
  {
  }

  /** At a visible cell the row scan records the grown rectangle and marks it. */
  lemma ScanRowGrow(mk: Mask, rects: seq<MaskRect>, v: nat, u: nat)
    requires mk.Wf() && v < mk.dy && u < mk.dx && mk.Cell(u, v).visible
    ensures var nr := GrownRect(mk, u, v);
            ScanRow(mk, v, u, rects) == ScanRow(Marked(mk, nr), v, u + 1, rects + [nr])
  {
  }

  /** The row scan from column u keeps the invariant to the end of the row. */
  lemma {:induction false} ScanRowInv(m0: Mask, mk: Mask, rects: seq<MaskRect>, v: nat, u: nat)
    requires ScanInv(m0, mk, rects, v, u) && v < mk.dy && u <= mk.dx
    ensures var res := ScanRow(mk, v, u, rects);
            ScanInv(m0, res.0, res.1, v, mk.dx)
    decreases mk.dx - u, 1
  {
    if u == mk.dx {
      assert ScanRow(mk, v, u, rects) == (mk, rects);
    } else if mk.Cell(u, v).visible {
      ScanRowVisibleInv(m0, mk, rects, v, u);
    } else {
      StepInvisible(m0, mk, rects, v, u);
      ScanRowInvisibleInv(m0, mk, rects, v, u);
    }
  }

  lemma {:induction false} ScanRowInvisibleInv(m0: Mask, mk: Mask, rects: seq<MaskRect>, v: nat, u: nat)
    requires ScanInv(m0, mk, rects, v, u + 1) && v < mk.dy && u < mk.dx && !mk.Cell(u, v).visible
    ensures var res := ScanRow(mk, v, u, rects);
            ScanInv(m0, res.0, res.1, v, mk.dx)
    decreases mk.dx - u, 0
  {
    var res := ScanRow(mk, v, u + 1, rects);
    assert ScanInv(m0, res.0, res.1, v, mk.dx) by {
      ScanRowInv(m0, mk, rects, v, u + 1);
    }
    ScanRowSkip(mk, rects, v, u);
  }

  lemma {:induction false} ScanRowVisibleInv(m0: Mask, mk: Mask, rects: seq<MaskRect>, v: nat, u: nat)
    requires ScanInv(m0, mk, rects, v, u) && v < mk.dy && u < mk.dx && mk.Cell(u, v).visible
    ensures var res := ScanRow(mk, v, u, rects);
            ScanInv(m0, res.0, res.1, v, mk.dx)
    decreases mk.dx - u, 0
  {
    var nr := GrownRect(mk, u, v);
    var mk' := Marked(mk, nr);
    var res := ScanRow(mk', v, u + 1, rects + [nr]);
    assert ScanInv(m0, res.0, res.1, v, mk.dx) by {
      StepVisible(m0, mk, rects, v, u);
      ScanRowInv(m0, mk', rects + [nr], v, u + 1);
    }
    ScanRowGrow(mk, rects, v, u);
  }

  /** Finishing a row is the same as starting the next one. */
  lemma NextRow(m0: Mask, mk: Mask, rects: seq<MaskRect>, v: nat)
    requires ScanInv(m0, mk, rects, v, mk.dx)
    ensures ScanInv(m0, mk, rects, v + 1, 0)
  {
  }

  lemma {:induction false} ScanRowsInv(m0: Mask, mk: Mask, rects: seq<MaskRect>, v: nat)
    requires ScanInv(m0, mk, rects, v, 0) && v <= mk.dy
    ensures var res := ScanRows(mk, v, rects);
            ScanInv(m0, res.0, res.1, mk.dy, 0)
    decreases mk.dy - v, 1
  {
    if v == mk.dy {
      assert ScanRows(mk, v, rects) == (mk, rects);
    } else {
      ScanRowsStepInv(m0, mk, rects, v);
    }
  }

  lemma {:induction false} ScanRowsStepInv(m0: Mask, mk: Mask, rects: seq<MaskRect>, v: nat)
    requires ScanInv(m0, mk, rects, v, 0) && v < mk.dy
    ensures var res := ScanRows(mk, v, rects);
            ScanInv(m0, res.0, res.1, mk.dy, 0)
    decreases mk.dy - v, 0
  {
    var row := ScanRow(mk, v, 0, rects);
    ScanRowInv(m0, mk, rects, v, 0);
    NextRow(m0, row.0, row.1, v);
    ScanRowsInv(m0, row.0, row.1, v + 1);
    assert ScanRows(mk, v, rects) == ScanRows(row.0, v + 1, row.1);
  }

  /** The whole scan of a mask: afterwards nothing is visible; the rectangles
      are valid, pairwise disjoint, in scan order, cover exactly the initially
      visible cells, and their areas add up to the number of those cells. */
  lemma ExtractionCorrect(m0: Mask)
    requires m0.Wf()
    ensures var res := ScanRows(m0, 0, []);
            VisCells(res.0) == {} && CellsOf(res.1) == VisCells(m0) && AreaSum(res.1) == |VisCells(m0)|
            && RectsOk(m0, res.1) && PairwiseDisjoint(res.1) && Ordered(res.1, m0.dy, 0)
  {
    var res := ScanRows(m0, 0, []);
    assert ScanInv(m0, res.0, res.1, m0.dy, 0) by {
      assert ScanInv(m0, m0, [], 0, 0);
      ScanRowsInv(m0, m0, [], 0);
    }
    ScanFinished(m0, res.0, res.1);
  }

  /** Once the scan has passed the last row, nothing is visible and the
      rectangles account for every originally visible cell. */
  lemma ScanFinished(m0: Mask, mk: Mask, rects: seq<MaskRect>)
    requires ScanInv(m0, mk, rects, m0.dy, 0)
    ensures VisCells(mk) == {} && CellsOf(rects) == VisCells(m0) && AreaSum(rects) == |VisCells(m0)|
            && RectsOk(m0, rects) && PairwiseDisjoint(rects) && Ordered(rects, m0.dy, 0)
  {
    forall p | p in VisCells(mk) ensures false {
      VisCellsMembership(mk, p.0, p.1);
    }
  }
}
