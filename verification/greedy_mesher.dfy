/** The greedy mesher: for each face direction and each slice along that
    direction's axis, a 2-D mask of visible faces is built and scanned row by
    row; every still-visible cell grows into the largest rectangle it can
    (first along U, then whole rows along V), which becomes one quad and is
    cleared from the mask. */
module GreedyMesher {
  import opened VoxelTypes
  import MeshGenerator

  /** A merged face rectangle: the voxel of its first cell, its extent along the
      face's U and V axes (z is always 1), its face and its material. */
  datatype GreedyQuad = GreedyQuad(position: IntVec, size: IntVec, face: Face, material: Material)

  /** The default quad: a unit front-facing air quad at the origin. */
  const DefaultQuad: GreedyQuad := GreedyQuad(Zero, IntVec(1, 1, 1), Front, AIR)

  /** One cell of a face mask. */
  datatype FaceMask = FaceMask(material: Material, visible: bool) {
    predicate CanMergeWith(o: FaceMask) {
      visible && o.visible && material == o.material
    }
  }

  /** The default mask cell: air and not visible. */
  const DefaultMask: FaceMask := FaceMask(AIR, false)

  /** Merging is symmetric, and the default cell merges with nothing. */
  lemma CanMergeProperties(a: FaceMask, b: FaceMask)
    ensures a.CanMergeWith(b) <==> b.CanMergeWith(a)
    ensures a.CanMergeWith(b) ==> a.visible && a.material == b.material
    ensures !DefaultMask.CanMergeWith(a) && !a.CanMergeWith(DefaultMask)
  {
  }

  /** The slice (primary) axis and the mask's U and V axes of a face. */
  function FaceAxes(f: Face): (axes: (nat, nat, nat))
    ensures axes.0 < 3 && axes.1 < 3 && axes.2 < 3
  {
    match f
    case Front => (1, 0, 2)
    case Back => (1, 0, 2)
    case Right => (0, 1, 2)
    case Left => (0, 1, 2)
    case Top => (2, 0, 1)
    case Bottom => (2, 0, 1)
  }

  function PrimaryAxis(f: Face): nat { FaceAxes(f).0 }
  function UAxis(f: Face): nat { FaceAxes(f).1 }
  function VAxis(f: Face): nat { FaceAxes(f).2 }

  /** The three axes of every face are a permutation of X, Y, Z, and the slice
      axis is the axis of the face's normal. */
  lemma FaceAxesPermutation(f: Face)
    ensures PrimaryAxis(f) < 3 && UAxis(f) < 3 && VAxis(f) < 3
    ensures PrimaryAxis(f) != UAxis(f) && PrimaryAxis(f) != VAxis(f) && UAxis(f) != VAxis(f)
    ensures PrimaryAxis(f) == MeshGenerator.NormalAxis(f)
  {
  }

  /** The voxel under mask cell (u, v) of a slice. */
  function MaskToVoxelPosition(u: int, v: int, slice: int, f: Face): IntVec {
    match f
    case Front => IntVec(u, slice, v)
    case Back => IntVec(u, slice, v)
    case Right => IntVec(slice, u, v)
    case Left => IntVec(slice, u, v)
    case Top => IntVec(u, v, slice)
    case Bottom => IntVec(u, v, slice)
  }

  /** The mask coordinates land on the face's U and V axes and the slice on its
      primary axis. */
  lemma MaskToVoxelAxes(u: int, v: int, slice: int, f: Face)
    ensures var p := MaskToVoxelPosition(u, v, slice, f);
            p.Get(UAxis(f)) == u && p.Get(VAxis(f)) == v && p.Get(PrimaryAxis(f)) == slice
  {
  }

  /** Distinct mask cells or slices give distinct voxels. */
  lemma MaskToVoxelInjective(u1: int, v1: int, s1: int, u2: int, v2: int, s2: int, f: Face)
    requires MaskToVoxelPosition(u1, v1, s1, f) == MaskToVoxelPosition(u2, v2, s2, f)
    ensures u1 == u2 && v1 == v2 && s1 == s2
  {
    MaskToVoxelAxes(u1, v1, s1, f);
    MaskToVoxelAxes(u2, v2, s2, f);
  }

  /** In-range mask coordinates and slice give an in-bounds voxel. */
  lemma MaskToVoxelInBounds(s: ChunkSize, u: int, v: int, slice: int, f: Face)
    requires 0 <= u < s.Get(UAxis(f)) && 0 <= v < s.Get(VAxis(f)) && 0 <= slice < s.Get(PrimaryAxis(f))
    ensures s.ContainsVec(MaskToVoxelPosition(u, v, slice, f))
  {
  }

  /** The greedy mesher's own visibility test: air never shows a face, a face
      on the chunk boundary always shows, and otherwise the neighbour must be
      air or a different transparent material. */
  predicate IsFaceVisible(c: ChunkData, x: int, y: int, z: int, f: Face)
    requires c.Allocated()
  {
    var cur := c.GetVoxel(x, y, z);
    if cur.IsAir() then false
    else
      var d := MeshGenerator.FaceDirection(f);
      if !c.size.Contains(x + d.x, y + d.y, z + d.z) then true
      else
        var n := c.GetVoxel(x + d.x, y + d.y, z + d.z);
        n.IsAir() || (n.IsTransparent() && cur.material != n.material)
  }

  /** The greedy test is false on air and agrees with the basic mesher's test
      on every other voxel. */
  lemma VisibilityAgrees(c: ChunkData, x: int, y: int, z: int, f: Face)
    requires c.Allocated()
    ensures c.GetVoxel(x, y, z).IsAir() ==> !IsFaceVisible(c, x, y, z, f)
    ensures !c.GetVoxel(x, y, z).IsAir() ==>
              (IsFaceVisible(c, x, y, z, f) <==> MeshGenerator.IsFaceVisible(c, x, y, z, f))
  {
  }

  /** The flat index of mask cell (u, v) in a mask dx cells wide. */
  function GetMaskIndex(u: int, v: int, dx: int): int {
    u + v * dx
  }

  /** Mask indices of in-range cells are in range and distinct. */
  lemma MaskIndexProperties(u: int, v: int, u2: int, v2: int, dx: int, dy: int)
    requires 0 <= u < dx && 0 <= v < dy && 0 <= u2 < dx && 0 <= v2 < dy
    ensures 0 <= GetMaskIndex(u, v, dx) < dx * dy
    ensures GetMaskIndex(u, v, dx) == GetMaskIndex(u2, v2, dx) ==> u == u2 && v == v2
  {
    MixedRadixBound(u, v, dx, dy);
    if GetMaskIndex(u, v, dx) == GetMaskIndex(u2, v2, dx) {
      MixedRadixUnique(u, v, u2, v2, dx);
    }
  }

  /** A dx-by-dy face mask stored row by row. */
  datatype Mask = Mask(cells: seq<FaceMask>, dx: nat, dy: nat) {
    predicate Wf() {
      |cells| == dx * dy
    }

    function Cell(u: nat, v: nat): FaceMask
      requires Wf() && u < dx && v < dy
    {
      MixedRadixBound(u, v, dx, dy);
      cells[GetMaskIndex(u, v, dx)]
    }
  }

  /** The mask cell for mask coordinates (u, v) of a slice: air cells are
      invisible air; other cells carry their material and their visibility. */
  function MaskCellAt(c: ChunkData, f: Face, slice: int, u: int, v: int): FaceMask
    requires c.Allocated()
  {
    var p := MaskToVoxelPosition(u, v, slice, f);
    var cur := c.GetVoxel(p.x, p.y, p.z);
    if cur.IsAir() then FaceMask(AIR, false)
    else FaceMask(cur.material, IsFaceVisible(c, p.x, p.y, p.z, f))
  }

  /** The visibility mask of one slice of one face direction. */
  function CreateFaceMask(c: ChunkData, f: Face, slice: int): (mk: Mask)
    requires c.Allocated()
    ensures mk.Wf() && mk.dx == c.size.Get(UAxis(f)) && mk.dy == c.size.Get(VAxis(f))
  {
    var dx := c.size.Get(UAxis(f));
    var dy := c.size.Get(VAxis(f));
    if dx == 0 then Mask([], dx, dy)
    else Mask(seq(dx * dy, i requires 0 <= i < dx * dy => MaskCellAt(c, f, slice, i % dx, i / dx)), dx, dy)
  }

  /** Cell (u, v) of a slice's mask is visible exactly when the face of the
      voxel under it is visible, and then carries that voxel's material. */
  lemma CreateFaceMaskCells(c: ChunkData, f: Face, slice: int, u: nat, v: nat)
    requires c.Allocated()
    requires u < c.size.Get(UAxis(f)) && v < c.size.Get(VAxis(f))
    ensures var mk := CreateFaceMask(c, f, slice);
            var p := MaskToVoxelPosition(u, v, slice, f);
            mk.Cell(u, v).visible == IsFaceVisible(c, p.x, p.y, p.z, f)
            && (mk.Cell(u, v).visible ==> mk.Cell(u, v).material == c.GetVoxel(p.x, p.y, p.z).material)
  {
    var dx := c.size.Get(UAxis(f));
    var dy := c.size.Get(VAxis(f));
    var i := GetMaskIndex(u, v, dx);
    MixedRadixBound(u, v, dx, dy);
    MixedRadixDecode(u, v, dx);
    assert i % dx == u && i / dx == v;
    var mk := CreateFaceMask(c, f, slice);
    assert mk.cells[i] == MaskCellAt(c, f, slice, u, v);
  }

  /** A cell can join a rectangle of material mat: it is visible with that
      material. */
  predicate Matches(m: FaceMask, mat: Material) {
    m.visible && m.material == mat
  }

  /** Grows a rectangle along U in row v: the first column at or after u whose
      cell does not match, or the mask's width. */
  function ExtendU(mk: Mask, v: nat, mat: Material, u: nat): (maxU: nat)
    requires mk.Wf() && v < mk.dy && u <= mk.dx
    ensures u <= maxU <= mk.dx
    decreases mk.dx - u
  {
    if u == mk.dx || !Matches(mk.Cell(u, v), mat) then u
    else ExtendU(mk, v, mat, u + 1)
  }

  /** The U run matches up to, and only up to, where it stops. */
  lemma {:induction false} ExtendUSpec(mk: Mask, v: nat, mat: Material, u: nat)
    requires mk.Wf() && v < mk.dy && u <= mk.dx
    ensures var maxU := ExtendU(mk, v, mat, u);
            (forall k :: u <= k < maxU ==> Matches(mk.Cell(k, v), mat))
            && (maxU < mk.dx ==> !Matches(mk.Cell(maxU, v), mat))
    decreases mk.dx - u
  {
    if u < mk.dx && Matches(mk.Cell(u, v), mat) {
      ExtendUSpec(mk, v, mat, u + 1);
    }
  }

  /** Every cell of row v in columns u0 .. u0 + w - 1 matches. */
  predicate RowMatches(mk: Mask, v: nat, u0: nat, w: nat, mat: Material)
    requires mk.Wf() && v < mk.dy && u0 + w <= mk.dx
  {
    forall k :: u0 <= k < u0 + w ==> Matches(mk.Cell(k, v), mat)
  }

  /** Grows a rectangle along V one whole row at a time: the first row at or
      after v whose span does not match, or the mask's height. */
  function ExtendV(mk: Mask, u0: nat, w: nat, mat: Material, v: nat): (maxV: nat)
    requires mk.Wf() && u0 + w <= mk.dx && v <= mk.dy
    ensures v <= maxV <= mk.dy
    decreases mk.dy - v
  {
    if v == mk.dy || !RowMatches(mk, v, u0, w, mat) then v
    else ExtendV(mk, u0, w, mat, v + 1)
  }

  /** The V growth takes whole matching rows up to, and only up to, where it
      stops. */
  lemma {:induction false} ExtendVSpec(mk: Mask, u0: nat, w: nat, mat: Material, v: nat)
    requires mk.Wf() && u0 + w <= mk.dx && v <= mk.dy
    ensures var maxV := ExtendV(mk, u0, w, mat, v);
            (forall k :: v <= k < maxV ==> RowMatches(mk, k, u0, w, mat))
            && (maxV < mk.dy ==> !RowMatches(mk, maxV, u0, w, mat))
    decreases mk.dy - v
  {
    if v < mk.dy && RowMatches(mk, v, u0, w, mat) {
      ExtendVSpec(mk, u0, w, mat, v + 1);
    }
  }

  /** The size of the rectangle grown from (u0, v0): at least one cell and
      inside the mask. The start cell itself is not re-examined. */
  function ExtendQuad(mk: Mask, u0: nat, v0: nat, mat: Material): (size: IntVec)
    requires mk.Wf() && u0 < mk.dx && v0 < mk.dy
    ensures 1 <= size.x && u0 + size.x <= mk.dx && 1 <= size.y && v0 + size.y <= mk.dy && size.z == 1
  {
    var maxU := ExtendU(mk, v0, mat, u0 + 1);
    var maxV := ExtendV(mk, u0, maxU - u0, mat, v0 + 1);
    IntVec(maxU - u0, maxV - v0, 1)
  }

  /** The rectangle is as wide as the matching run of the start row allows,
      and as tall as whole matching rows allow. */
  lemma ExtendQuadSpec(mk: Mask, u0: nat, v0: nat, mat: Material)
    requires mk.Wf() && u0 < mk.dx && v0 < mk.dy
    ensures var size := ExtendQuad(mk, u0, v0, mat);
            (forall k :: u0 < k < u0 + size.x ==> Matches(mk.Cell(k, v0), mat))
            && (u0 + size.x < mk.dx ==> !Matches(mk.Cell(u0 + size.x, v0), mat))
            && (forall k :: v0 < k < v0 + size.y ==> RowMatches(mk, k, u0, size.x, mat))
            && (v0 + size.y < mk.dy ==> !RowMatches(mk, v0 + size.y, u0, size.x, mat))
  {
    var maxU := ExtendU(mk, v0, mat, u0 + 1);
    ExtendUSpec(mk, v0, mat, u0 + 1);
    ExtendVSpec(mk, u0, maxU - u0, mat, v0 + 1);
  }

  /** (u, v) lies in the w-by-h rectangle at (u0, v0). */
  predicate InRect(u: int, v: int, u0: int, v0: int, w: int, h: int) {
    u0 <= u < u0 + w && v0 <= v < v0 + h
  }

  /** Clears the visible flag of every cell of a rectangle. */
  function MarkQuadProcessed(mk: Mask, u0: nat, v0: nat, w: nat, h: nat): (r: Mask)
    requires mk.Wf() && u0 + w <= mk.dx && v0 + h <= mk.dy
    ensures r.Wf() && r.dx == mk.dx && r.dy == mk.dy
  {
    if mk.dx == 0 then mk
    else
      mk.(cells := seq(|mk.cells|, i requires 0 <= i < |mk.cells| =>
        if InRect(i % mk.dx, i / mk.dx, u0, v0, w, h) then mk.cells[i].(visible := false) else mk.cells[i]))
  }

  /** Marking clears exactly the rectangle's visible flags; materials and every
      other cell are unchanged. */
  lemma MarkQuadProcessedCells(mk: Mask, u0: nat, v0: nat, w: nat, h: nat, u: nat, v: nat)
    requires mk.Wf() && u0 + w <= mk.dx && v0 + h <= mk.dy && u < mk.dx && v < mk.dy
    ensures var r := MarkQuadProcessed(mk, u0, v0, w, h);
            r.Cell(u, v).material == mk.Cell(u, v).material
            && r.Cell(u, v).visible == (mk.Cell(u, v).visible && !InRect(u, v, u0, v0, w, h))
  {
    var i := GetMaskIndex(u, v, mk.dx);
    MixedRadixBound(u, v, mk.dx, mk.dy);
    MixedRadixDecode(u, v, mk.dx);
    assert i % mk.dx == u && i / mk.dx == v;
    var r := MarkQuadProcessed(mk, u0, v0, w, h);
    assert r.cells[i] == if InRect(u, v, u0, v0, w, h) then mk.cells[i].(visible := false) else mk.cells[i];
  }

  /** A rectangle found in a mask, in mask coordinates. */
  datatype MaskRect = MaskRect(u: nat, v: nat, w: nat, h: nat, material: Material)

  /** The inner (U) scan of row v from column u. */
  function ScanRow(mk: Mask, v: nat, u: nat, rects: seq<MaskRect>): (res: (Mask, seq<MaskRect>))
    requires mk.Wf() && v < mk.dy && u <= mk.dx
    ensures res.0.Wf() && res.0.dx == mk.dx && res.0.dy == mk.dy
    decreases mk.dx - u
  {
    if u == mk.dx then (mk, rects)
    else if !mk.Cell(u, v).visible then ScanRow(mk, v, u + 1, rects)
    else
      var mat := mk.Cell(u, v).material;
      var size := ExtendQuad(mk, u, v, mat);
      ScanRow(MarkQuadProcessed(mk, u, v, size.x, size.y), v, u + 1, rects + [MaskRect(u, v, size.x, size.y, mat)])
  }

  /** The outer (V) scan from row v. */
  function ScanRows(mk: Mask, v: nat, rects: seq<MaskRect>): (res: (Mask, seq<MaskRect>))
    requires mk.Wf() && v <= mk.dy
    ensures res.0.Wf() && res.0.dx == mk.dx && res.0.dy == mk.dy
    decreases mk.dy - v
  {
    if v == mk.dy then (mk, rects)
    else
      var row := ScanRow(mk, v, 0, rects);
      ScanRows(row.0, v + 1, row.1)
  }

  /** The quad of a mask rectangle of a given slice. */
  function ToQuad(r: MaskRect, f: Face, slice: int): GreedyQuad {
    GreedyQuad(MaskToVoxelPosition(r.u, r.v, slice, f), IntVec(r.w, r.h, 1), f, r.material)
  }

  function ToQuads(rects: seq<MaskRect>, f: Face, slice: int): (qs: seq<GreedyQuad>)
    ensures |qs| == |rects| && forall i :: 0 <= i < |rects| ==> qs[i] == ToQuad(rects[i], f, slice)
  {
    seq(|rects|, i requires 0 <= i < |rects| => ToQuad(rects[i], f, slice))
  }

  /** The quads of one slice's mask, in scan order. */
  function ExtractQuadsFromMask(mk: Mask, f: Face, slice: int): seq<GreedyQuad>
    requires mk.Wf()
  {
    ToQuads(ScanRows(mk, 0, []).1, f, slice)
  }

  /** The quads of slices s .. of one face direction. */
  function SlicesFrom(c: ChunkData, f: Face, s: nat): seq<GreedyQuad>
    requires c.Allocated()
    decreases c.size.Get(PrimaryAxis(f)) - s
  {
    if s >= c.size.Get(PrimaryAxis(f)) then []
    else ExtractQuadsFromMask(CreateFaceMask(c, f, s), f, s) + SlicesFrom(c, f, s + 1)
  }

  /** All quads of one face direction, slice by slice. */
  function ProcessFaceDirection(c: ChunkData, f: Face): seq<GreedyQuad>
    requires c.Allocated()
  {
    SlicesFrom(c, f, 0)
  }

  /** The quads of face directions fi .. 5. */
  function FacesFrom(c: ChunkData, fi: nat): seq<GreedyQuad>
    requires c.Allocated() && fi <= 6
    decreases 6 - fi
  {
    if fi == 6 then [] else ProcessFaceDirection(c, FaceOfIndex(fi)) + FacesFrom(c, fi + 1)
  }

  /** Every quad of a chunk: faces in enumeration order, then slices, then
      rows, then columns. The output starts empty. */
  function GenerateGreedyMesh(c: ChunkData): seq<GreedyQuad>
    requires c.Allocated()
  {
    FacesFrom(c, 0)
  }
}
