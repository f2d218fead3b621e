/** The greedy mesher against the basic one: the quads of a chunk cover its
    exposed unit faces exactly once, so their total area is the number of
    faces the basic mesher draws one by one. */
module GreedyCoverage {
  import opened VoxelTypes
  import opened SetCounting
  import opened GreedyMesher
  import opened GreedyExtraction
  import MeshGenerator
  import VisibleFaces

  type UnitFace = VisibleFaces.UnitFace

  /** The number of unit faces a quad stands for. */
  function QuadArea(q: GreedyQuad): int {
    q.size.x * q.size.y
  }

  /** The summed area of a sequence of quads. */
  function TotalArea(qs: seq<GreedyQuad>): int {
    if |qs| == 0 then 0 else TotalArea(qs[..|qs| - 1]) + QuadArea(qs[|qs| - 1])
  }

  lemma {:induction false} TotalAreaAppend(a: seq<GreedyQuad>, b: seq<GreedyQuad>)
    ensures TotalArea(a + b) == TotalArea(a) + TotalArea(b)
    decreases |b|
  {
    if |b| == 0 {
      assert a + b == a;
    } else {
      var b' := b[..|b| - 1];
      TotalAreaAppend(a, b');
      assert (a + b)[..|a + b| - 1] == a + b';
    }
  }

  /** A slice's quads have the areas of the mask rectangles they come from. */
  lemma {:induction false} ToQuadsArea(rects: seq<MaskRect>, f: Face, s: int)
    ensures TotalArea(ToQuads(rects, f, s)) == AreaSum(rects)
    decreases |rects|
  {
    if |rects| > 0 {
      var rs := rects[..|rects| - 1];
      ToQuadsArea(rs, f, s);
      assert ToQuads(rects, f, s)[..|rects| - 1] == ToQuads(rs, f, s);
    }
  }

  /** The unit face under mask cell p of slice s of face direction f. */
  function Place(f: Face, s: int): ((int, int)) -> UnitFace {
    (p: (int, int)) => VisibleFaces.UnitFace(MaskToVoxelPosition(p.0, p.1, s, f), f)
  }

  lemma PlaceInjective(cells: set<(int, int)>, f: Face, s: int)
    ensures InjectiveOn(cells, Place(f, s))
  {
    forall a1, a2 | a1 in cells && a2 in cells && Place(f, s)(a1) == Place(f, s)(a2) ensures a1 == a2 {
      MaskToVoxelInjective(a1.0, a1.1, s, a2.0, a2.1, s, f);
    }
  }

  /** Every voxel is the image of its own U, V and slice coordinates. */
  lemma MaskToVoxelOnto(p: IntVec, f: Face)
    ensures MaskToVoxelPosition(p.Get(UAxis(f)), p.Get(VAxis(f)), p.Get(PrimaryAxis(f)), f) == p
  {
  }

  /** The exposed faces of direction f on slice s. */
  ghost function SliceFaces(c: ChunkData, f: Face, s: int): set<UnitFace>
    requires c.Allocated()
  {
    set uf | uf in VisibleFaces.AllVisibleFaces(c) && uf.face == f && uf.pos.Get(PrimaryAxis(f)) == s
  }

  /** A visible mask cell is an exposed face of its slice. */
  lemma VisibleCellExposed(c: ChunkData, f: Face, s: nat, u: int, v: int)
    requires c.Allocated() && s < c.size.Get(PrimaryAxis(f))
    requires (u, v) in VisCells(CreateFaceMask(c, f, s))
    ensures Place(f, s)((u, v)) in SliceFaces(c, f, s)
  {
    var mk := CreateFaceMask(c, f, s);
    VisCellsMembership(mk, u, v);
    CreateFaceMaskCells(c, f, s, u, v);
    var p := MaskToVoxelPosition(u, v, s, f);
    VisibilityAgrees(c, p.x, p.y, p.z, f);
    MaskToVoxelInBounds(c.size, u, v, s, f);
    MaskToVoxelAxes(u, v, s, f);
    VisibleFaces.AllVisibleFacesMembership(c, Place(f, s)((u, v)));
  }

  /** An exposed face of a slice comes from a visible cell of its mask. */
  lemma ExposedFaceVisibleCell(c: ChunkData, f: Face, s: nat, uf: UnitFace)
    requires c.Allocated() && uf in SliceFaces(c, f, s)
    ensures var cell := (uf.pos.Get(UAxis(f)), uf.pos.Get(VAxis(f)));
            cell in VisCells(CreateFaceMask(c, f, s)) && Place(f, s)(cell) == uf
  {
    var mk := CreateFaceMask(c, f, s);
    var u, v := uf.pos.Get(UAxis(f)), uf.pos.Get(VAxis(f));
    VisibleFaces.AllVisibleFacesMembership(c, uf);
    MaskToVoxelOnto(uf.pos, f);
    FaceAxesPermutation(f);
    assert 0 <= u < c.size.Get(UAxis(f)) && 0 <= v < c.size.Get(VAxis(f));
    CreateFaceMaskCells(c, f, s, u, v);
    VisibilityAgrees(c, uf.pos.x, uf.pos.y, uf.pos.z, f);
    VisCellsMembership(mk, u, v);
  }

  /** The visible cells of a slice's mask are, one for one, the exposed faces
      of that slice. */
  lemma SliceImage(c: ChunkData, f: Face, s: nat)
    requires c.Allocated() && s < c.size.Get(PrimaryAxis(f))
    ensures Image(VisCells(CreateFaceMask(c, f, s)), Place(f, s)) == SliceFaces(c, f, s)
    ensures |VisCells(CreateFaceMask(c, f, s))| == |SliceFaces(c, f, s)|
  {
    var cells := VisCells(CreateFaceMask(c, f, s));
    var img := Image(cells, Place(f, s));
    forall uf | uf in img ensures uf in SliceFaces(c, f, s) {
      var p :| p in cells && uf == Place(f, s)(p);
      VisibleCellExposed(c, f, s, p.0, p.1);
    }
    forall uf | uf in SliceFaces(c, f, s) ensures uf in img {
      ExposedFaceVisibleCell(c, f, s, uf);
    }
    PlaceInjective(cells, f, s);
    ImageCardinality(cells, Place(f, s));
  }

  /** The quads of one slice have as much area as the slice has exposed faces. */
  lemma SliceArea(c: ChunkData, f: Face, s: nat)
    requires c.Allocated() && s < c.size.Get(PrimaryAxis(f))
    ensures TotalArea(ExtractQuadsFromMask(CreateFaceMask(c, f, s), f, s)) == |SliceFaces(c, f, s)|
  {
    var mk := CreateFaceMask(c, f, s);
    ExtractionCorrect(mk);
    ToQuadsArea(ScanRows(mk, 0, []).1, f, s);
    SliceImage(c, f, s);
  }

  /** The exposed faces of direction f on slices s and beyond. */
  ghost function FaceFacesFrom(c: ChunkData, f: Face, s: int): set<UnitFace>
    requires c.Allocated()
  {
    set uf | uf in VisibleFaces.AllVisibleFaces(c) && uf.face == f && uf.pos.Get(PrimaryAxis(f)) >= s
  }

  /** An exposed face lies inside the chunk. */
  lemma ExposedInside(c: ChunkData, uf: UnitFace)
    requires c.Allocated() && uf in VisibleFaces.AllVisibleFaces(c)
    ensures c.size.ContainsVec(uf.pos)
    ensures forall a :: 0 <= a < 3 ==> 0 <= uf.pos.Get(a) < c.size.Get(a)
  {
    VisibleFaces.AllVisibleFacesMembership(c, uf);
  }

  /** Past the last slice there are no exposed faces. */
  lemma NoFacesPastLastSlice(c: ChunkData, f: Face, s: nat)
    requires c.Allocated() && s >= c.size.Get(PrimaryAxis(f))
    ensures FaceFacesFrom(c, f, s) == {}
  {
    FaceAxesPermutation(f);
    forall uf | uf in FaceFacesFrom(c, f, s) ensures false {
      ExposedInside(c, uf);
    }
  }

  /** The faces from slice s on are those of slice s plus those beyond it. */
  lemma FaceFacesUnion(c: ChunkData, f: Face, s: nat)
    requires c.Allocated()
    ensures FaceFacesFrom(c, f, s) == SliceFaces(c, f, s) + FaceFacesFrom(c, f, s + 1)
  {
    var all := FaceFacesFrom(c, f, s);
    forall uf | uf in all ensures uf in SliceFaces(c, f, s) + FaceFacesFrom(c, f, s + 1) {
    }
  }

  /** No face lies both on slice s and beyond it. */
  lemma FaceFacesDisjoint(c: ChunkData, f: Face, s: nat)
    requires c.Allocated()
    ensures SliceFaces(c, f, s) !! FaceFacesFrom(c, f, s + 1)
  {
    forall uf | uf in SliceFaces(c, f, s) ensures uf !in FaceFacesFrom(c, f, s + 1) {
    }
  }

  /** Counting the faces from slice s on, slice by slice. */
  lemma FaceFacesSplit(c: ChunkData, f: Face, s: nat)
    requires c.Allocated()
    ensures |FaceFacesFrom(c, f, s)| == |SliceFaces(c, f, s)| + |FaceFacesFrom(c, f, s + 1)|
  {
    FaceFacesUnion(c, f, s);
    FaceFacesDisjoint(c, f, s);
    DisjointUnionCardinality(SliceFaces(c, f, s), FaceFacesFrom(c, f, s + 1));
  }

  lemma {:induction false} SlicesArea(c: ChunkData, f: Face, s: nat)
    requires c.Allocated()
    ensures TotalArea(SlicesFrom(c, f, s)) == |FaceFacesFrom(c, f, s)|
    decreases c.size.Get(PrimaryAxis(f)) - s
  {
    if s >= c.size.Get(PrimaryAxis(f)) {
      NoFacesPastLastSlice(c, f, s);
    } else {
      var here := ExtractQuadsFromMask(CreateFaceMask(c, f, s), f, s);
      var rest := SlicesFrom(c, f, s + 1);
      assert TotalArea(SlicesFrom(c, f, s)) == TotalArea(here) + TotalArea(rest) by {
        assert SlicesFrom(c, f, s) == here + rest;
        TotalAreaAppend(here, rest);
      }
      assert TotalArea(here) == |SliceFaces(c, f, s)| by {
        SliceArea(c, f, s);
      }
      assert TotalArea(rest) == |FaceFacesFrom(c, f, s + 1)| by {
        SlicesArea(c, f, s + 1);
      }
      FaceFacesSplit(c, f, s);
    }
  }

  /** The exposed faces of directions fi .. 5. */
  ghost function DirectionFacesFrom(c: ChunkData, fi: nat): set<UnitFace>
    requires c.Allocated()
  {
    set uf | uf in VisibleFaces.AllVisibleFaces(c) && FaceIndex(uf.face) >= fi
  }

  /** The faces of directions fi .. 5 are those of direction fi plus those of
      the later directions. */
  lemma DirectionFacesUnion(c: ChunkData, fi: nat)
    requires c.Allocated() && fi < 6
    ensures DirectionFacesFrom(c, fi) == FaceFacesFrom(c, FaceOfIndex(fi), 0) + DirectionFacesFrom(c, fi + 1)
  {
    var f := FaceOfIndex(fi);
    FaceIndexRoundTrip(f);
    forall uf | uf in DirectionFacesFrom(c, fi) ensures uf in FaceFacesFrom(c, f, 0) + DirectionFacesFrom(c, fi + 1) {
      ExposedInside(c, uf);
      FaceIndexRoundTrip(uf.face);
      FaceAxesPermutation(f);
    }
    forall uf | uf in FaceFacesFrom(c, f, 0) ensures uf in DirectionFacesFrom(c, fi) {
    }
  }

  /** No face belongs both to direction fi and to a later direction. */
  lemma DirectionFacesDisjoint(c: ChunkData, fi: nat)
    requires c.Allocated() && fi < 6
    ensures FaceFacesFrom(c, FaceOfIndex(fi), 0) !! DirectionFacesFrom(c, fi + 1)
  {
    var f := FaceOfIndex(fi);
    FaceIndexRoundTrip(f);
    forall uf | uf in FaceFacesFrom(c, f, 0) ensures uf !in DirectionFacesFrom(c, fi + 1) {
    }
  }

  /** Counting the faces of directions fi .. 5, direction by direction. */
  lemma DirectionFacesSplit(c: ChunkData, fi: nat)
    requires c.Allocated() && fi < 6
    ensures |DirectionFacesFrom(c, fi)| == |FaceFacesFrom(c, FaceOfIndex(fi), 0)| + |DirectionFacesFrom(c, fi + 1)|
  {
    DirectionFacesUnion(c, fi);
    DirectionFacesDisjoint(c, fi);
    DisjointUnionCardinality(FaceFacesFrom(c, FaceOfIndex(fi), 0), DirectionFacesFrom(c, fi + 1));
  }

  lemma {:induction false} FacesArea(c: ChunkData, fi: nat)
    requires c.Allocated() && fi <= 6
    ensures TotalArea(FacesFrom(c, fi)) == |DirectionFacesFrom(c, fi)|
    decreases 6 - fi
  {
    if fi == 6 {
      assert DirectionFacesFrom(c, fi) == {};
    } else {
      var f := FaceOfIndex(fi);
      DirectionFacesSplit(c, fi);
      SlicesArea(c, f, 0);
      FacesArea(c, fi + 1);
      TotalAreaAppend(ProcessFaceDirection(c, f), FacesFrom(c, fi + 1));
    }
  }

  /** The greedy quads of a chunk have exactly as much area as the chunk has
      exposed unit faces. */
  lemma GreedyAreaIsVisibleFaces(c: ChunkData)
    requires c.Allocated()
    ensures TotalArea(GenerateGreedyMesh(c)) == |VisibleFaces.AllVisibleFaces(c)|
  {
    FacesArea(c, 0);
    assert DirectionFacesFrom(c, 0) == VisibleFaces.AllVisibleFaces(c);
  }

  /** Hence the basic mesher draws two triangles and four vertices per unit of
      greedy quad area. */
  lemma GreedyMatchesBasic(c: ChunkData)
    requires c.Allocated()
    ensures var basic := MeshGenerator.GenerateBasicMesh(c);
            basic.triangleCount == 2 * TotalArea(GenerateGreedyMesh(c))
            && |basic.vertices| == 4 * TotalArea(GenerateGreedyMesh(c))
  {
    GreedyAreaIsVisibleFaces(c);
    VisibleFaces.BasicMeshCounts(c);
  }

  /** The unit faces a quad stands for: its size.x by size.y cells along the
      face's U and V axes, starting at its position. */
  ghost function QuadFaces(q: GreedyQuad): set<UnitFace> {
    set du, dv | 0 <= du < q.size.x && 0 <= dv < q.size.y
      :: VisibleFaces.UnitFace(q.position.Along(UAxis(q.face), du).Along(VAxis(q.face), dv), q.face)
  }

  /** The unit faces of a sequence of quads. */
  ghost function QuadsFaces(qs: seq<GreedyQuad>): set<UnitFace> {
    if |qs| == 0 then {} else QuadsFaces(qs[..|qs| - 1]) + QuadFaces(qs[|qs| - 1])
  }

  lemma {:induction false} QuadsFacesAppend(a: seq<GreedyQuad>, b: seq<GreedyQuad>)
    ensures QuadsFaces(a + b) == QuadsFaces(a) + QuadsFaces(b)
    decreases |b|
  {
    if |b| == 0 {
      assert a + b == a;
    } else {
      var b' := b[..|b| - 1];
      QuadsFacesAppend(a, b');
      assert (a + b)[..|a + b| - 1] == a + b';
    }
  }

  /** Moving along the mask's U and V axes moves the voxel along the face's U
      and V axes. */
  lemma MaskToVoxelShift(u: int, v: int, s: int, f: Face, du: int, dv: int)
    ensures MaskToVoxelPosition(u + du, v + dv, s, f)
            == MaskToVoxelPosition(u, v, s, f).Along(UAxis(f), du).Along(VAxis(f), dv)
  {
    FaceAxesPermutation(f);
  }

  lemma ToQuadFacesInImage(r: MaskRect, f: Face, s: int)
    ensures QuadFaces(ToQuad(r, f, s)) <= Image(RectCells(r), Place(f, s))
  {
    var q := ToQuad(r, f, s);
    FaceAxesPermutation(f);
    forall uf | uf in QuadFaces(q) ensures uf in Image(RectCells(r), Place(f, s)) {
      var du, dv :| 0 <= du < r.w && 0 <= dv < r.h
        && uf == VisibleFaces.UnitFace(q.position.Along(UAxis(f), du).Along(VAxis(f), dv), f);
      MaskToVoxelShift(r.u, r.v, s, f, du, dv);
      assert (r.u + du, r.v + dv) in RectCells(r);
    }
  }

  lemma ToQuadFacesCovers(r: MaskRect, f: Face, s: int)
    ensures Image(RectCells(r), Place(f, s)) <= QuadFaces(ToQuad(r, f, s))
  {
    var q := ToQuad(r, f, s);
    FaceAxesPermutation(f);
    forall uf | uf in Image(RectCells(r), Place(f, s)) ensures uf in QuadFaces(q) {
      var p :| p in RectCells(r) && uf == Place(f, s)(p);
      var du, dv := p.0 - r.u, p.1 - r.v;
      MaskToVoxelShift(r.u, r.v, s, f, du, dv);
      assert uf == VisibleFaces.UnitFace(q.position.Along(UAxis(f), du).Along(VAxis(f), dv), f);
    }
  }

  /** A rectangle's quad stands for the unit faces under the rectangle's cells. */
  lemma ToQuadFaces(r: MaskRect, f: Face, s: int)
    ensures QuadFaces(ToQuad(r, f, s)) == Image(RectCells(r), Place(f, s))
  {
    ToQuadFacesInImage(r, f, s);
    ToQuadFacesCovers(r, f, s);
  }

  /** A slice's quads stand for the unit faces under all its rectangles' cells. */
  lemma {:induction false} ToQuadsFaces(rects: seq<MaskRect>, f: Face, s: int)
    ensures QuadsFaces(ToQuads(rects, f, s)) == Image(CellsOf(rects), Place(f, s))
    decreases |rects|
  {
    if |rects| > 0 {
      var rs := rects[..|rects| - 1];
      ToQuadsFaces(rs, f, s);
      assert ToQuads(rects, f, s)[..|rects| - 1] == ToQuads(rs, f, s);
      ToQuadFaces(rects[|rects| - 1], f, s);
      ImageUnion(CellsOf(rs), RectCells(rects[|rects| - 1]), Place(f, s));
    }
  }

  /** The quads of one slice stand for exactly the slice's exposed faces. */
  lemma SliceCoverage(c: ChunkData, f: Face, s: nat)
    requires c.Allocated() && s < c.size.Get(PrimaryAxis(f))
    ensures QuadsFaces(ExtractQuadsFromMask(CreateFaceMask(c, f, s), f, s)) == SliceFaces(c, f, s)
  {
    var mk := CreateFaceMask(c, f, s);
    ExtractionCorrect(mk);
    ToQuadsFaces(ScanRows(mk, 0, []).1, f, s);
    SliceImage(c, f, s);
  }

  lemma {:induction false} SlicesCoverage(c: ChunkData, f: Face, s: nat)
    requires c.Allocated()
    ensures QuadsFaces(SlicesFrom(c, f, s)) == FaceFacesFrom(c, f, s)
    decreases c.size.Get(PrimaryAxis(f)) - s
  {
    if s >= c.size.Get(PrimaryAxis(f)) {
      NoFacesPastLastSlice(c, f, s);
    } else {
      var here := ExtractQuadsFromMask(CreateFaceMask(c, f, s), f, s);
      var rest := SlicesFrom(c, f, s + 1);
      assert QuadsFaces(SlicesFrom(c, f, s)) == QuadsFaces(here) + QuadsFaces(rest) by {
        assert SlicesFrom(c, f, s) == here + rest;
        QuadsFacesAppend(here, rest);
      }
      SliceCoverage(c, f, s);
      SlicesCoverage(c, f, s + 1);
      FaceFacesUnion(c, f, s);
    }
  }

  lemma {:induction false} FacesCoverage(c: ChunkData, fi: nat)
    requires c.Allocated() && fi <= 6
    ensures QuadsFaces(FacesFrom(c, fi)) == DirectionFacesFrom(c, fi)
    decreases 6 - fi
  {
    if fi == 6 {
      assert DirectionFacesFrom(c, fi) == {};
    } else {
      var f := FaceOfIndex(fi);
      DirectionFacesUnion(c, fi);
      SlicesCoverage(c, f, 0);
      FacesCoverage(c, fi + 1);
      QuadsFacesAppend(ProcessFaceDirection(c, f), FacesFrom(c, fi + 1));
    }
  }

  /** The greedy quads of a chunk stand for exactly its exposed unit faces. */
  lemma GreedyCoversVisibleFaces(c: ChunkData)
    requires c.Allocated()
    ensures QuadsFaces(GenerateGreedyMesh(c)) == VisibleFaces.AllVisibleFaces(c)
  {
    FacesCoverage(c, 0);
    assert DirectionFacesFrom(c, 0) == VisibleFaces.AllVisibleFaces(c);
  }
}
