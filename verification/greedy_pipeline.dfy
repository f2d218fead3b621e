/** The greedy meshing pipeline end to end: quads from a chunk, the welded
    mesh from the quads, and what the result promises against the basic
    one-quad-per-face mesh. */
module GreedyPipeline {
  import opened VoxelTypes
  import opened GreedyMesher
  import opened GreedyExtraction
  import opened GreedyCoverage
  import opened GreedyGeometry
  import opened GreedyConvert
  import MeshGenerator
  import VisibleFaces

  /** Every quad spans at least one cell in both of its extents. */
  predicate QuadsPositive(qs: seq<GreedyQuad>) {
    forall i :: 0 <= i < |qs| ==> qs[i].size.x >= 1 && qs[i].size.y >= 1
  }

  lemma QuadsPositiveAppend(a: seq<GreedyQuad>, b: seq<GreedyQuad>)
    requires QuadsPositive(a) && QuadsPositive(b)
    ensures QuadsPositive(a + b)
  {
    forall i | 0 <= i < |a + b| ensures (a + b)[i].size.x >= 1 && (a + b)[i].size.y >= 1 {
      if i >= |a| { assert (a + b)[i] == b[i - |a|]; }
    }
  }

  lemma SliceQuadsPositive(c: ChunkData, f: Face, s: nat)
    requires c.Allocated()
    ensures QuadsPositive(ExtractQuadsFromMask(CreateFaceMask(c, f, s), f, s))
  {
    var mk := CreateFaceMask(c, f, s);
    ExtractionCorrect(mk);
    var rects := ScanRows(mk, 0, []).1;
    forall i | 0 <= i < |rects| ensures rects[i].w >= 1 && rects[i].h >= 1 {
      assert RectOk(mk, rects[i]);
    }
  }

  lemma {:induction false} SlicesPositive(c: ChunkData, f: Face, s: nat)
    requires c.Allocated()
    ensures QuadsPositive(SlicesFrom(c, f, s))
    decreases c.size.Get(PrimaryAxis(f)) - s
  {
    if s < c.size.Get(PrimaryAxis(f)) {
      SliceQuadsPositive(c, f, s);
      SlicesPositive(c, f, s + 1);
      QuadsPositiveAppend(ExtractQuadsFromMask(CreateFaceMask(c, f, s), f, s), SlicesFrom(c, f, s + 1));
    }
  }

  lemma {:induction false} FacesPositive(c: ChunkData, fi: nat)
    requires c.Allocated() && fi <= 6
    ensures QuadsPositive(FacesFrom(c, fi))
    decreases 6 - fi
  {
    if fi < 6 {
      SlicesPositive(c, FaceOfIndex(fi), 0);
      FacesPositive(c, fi + 1);
      QuadsPositiveAppend(ProcessFaceDirection(c, FaceOfIndex(fi)), FacesFrom(c, fi + 1));
    }
  }

  /** No greedy quad is degenerate: each covers at least one unit face. */
  lemma GreedyQuadsPositive(c: ChunkData)
    requires c.Allocated()
    ensures QuadsPositive(GenerateGreedyMesh(c))
  {
    FacesPositive(c, 0);
  }

  /** Quads of positive size have at least as much area as there are quads. */
  lemma {:induction false} QuadCountBound(qs: seq<GreedyQuad>)
    requires QuadsPositive(qs)
    ensures |qs| <= TotalArea(qs)
    decreases |qs|
  {
    if |qs| > 0 {
      var n := |qs| - 1;
      assert QuadsPositive(qs[..n]) by {
        forall i | 0 <= i < n ensures qs[..n][i] == qs[i] { }
      }
      QuadCountBound(qs[..n]);
      var q := qs[n];
      assert q.size.x * q.size.y >= 1 by {
        assert q.size.x >= 1 && q.size.y >= 1;
      }
    }
  }

  /** The greedy mesh of a chunk as the engine builds it: its quads welded
      into one vertex per corner position under the engine's corner order,
      and the two statistics recounted from the buffers. Tangent
      post-processing is the identity. */
  function GenerateGreedyMeshData(c: ChunkData): (m: MeshData)
    requires c.Allocated()
    ensures m.Wf()
    ensures m.triangleCount * 3 == |m.triangles| && m.vertexCount == |m.vertices|
  {
    var m := ConvertQuadsToMesh(GenerateGreedyMesh(c), AsWritten);
    m.(triangleCount := |m.triangles| / 3, vertexCount := |m.vertices|)
  }

  /** The same mesh with bottom quads wound like top quads (see
      GreedyGeometry.Winding). */
  function GenerateGreedyMeshDataCorrected(c: ChunkData): (m: MeshData)
    requires c.Allocated()
    ensures m.Wf()
    ensures m.triangleCount * 3 == |m.triangles| && m.vertexCount == |m.vertices|
  {
    var m := ConvertQuadsToMesh(GenerateGreedyMesh(c), Corrected);
    m.(triangleCount := |m.triangles| / 3, vertexCount := |m.vertices|)
  }

  /** The greedy mesh never draws more triangles or keeps more vertices
      than the basic mesh of the same chunk, and it draws two triangles per
      greedy quad. */
  lemma GreedyNoLargerThanBasic(c: ChunkData)
    requires c.Allocated()
    ensures var g := GenerateGreedyMeshData(c); var basic := MeshGenerator.GenerateBasicMesh(c);
            g.triangleCount == 2 * |GenerateGreedyMesh(c)|
            && g.triangleCount <= basic.triangleCount && g.vertexCount <= basic.vertexCount
  {
    var qs := GenerateGreedyMesh(c);
    GreedyQuadsPositive(c);
    QuadCountBound(qs);
    GreedyMatchesBasic(c);
    ConvertVertexCount(qs, AsWritten);
  }

  /** The sign, along direction n, of the right-handed normal of triangle k. */
  function MeshTriangleFacing(m: MeshData, k: nat, n: IntVec): int
    requires m.IndicesValid() && 3 * k + 2 < |m.triangles|
  {
    var vs := m.vertices;
    var ts := m.triangles;
    MeshGenerator.Sign(TriangleNormal(vs[ts[3 * k]], vs[ts[3 * k + 1]], vs[ts[3 * k + 2]]).Dot(n))
  }

  /** Position k = 6i+j of a concatenation of six-position lists is position
      j of the list of quad i. */
  lemma {:induction false} ConcatMapAt(qs: seq<GreedyQuad>, f: GreedyQuad -> seq<IntVec>, i: nat, j: nat, k: nat)
    requires forall q :: |f(q)| == 6
    requires i < |qs| && j < 6 && k == 6 * i + j
    ensures |ConcatMap(qs, f)| == 6 * |qs| && ConcatMap(qs, f)[k] == f(qs[i])[j]
    decreases |qs|
  {
    var n := |qs| - 1;
    ConcatMapLength(qs[..n], f);
    if i < n {
      ConcatMapAt(qs[..n], f, i, j, k);
      assert qs[..n][i] == qs[i];
    }
  }

  /** Position k = 6i+j of the triangle soup is position j of quad i's two
      triangles. */
  lemma SoupAt(qs: seq<GreedyQuad>, rule: WindingRule, i: nat, j: nat, k: nat)
    requires i < |qs| && j < 6 && k == 6 * i + j
    ensures TriangleSoup(qs, rule)[k] == QuadTriangles(qs[i], rule)[j]
  {
    ConcatMapAt(qs, QuadTrianglesOf(rule), i, j, k);
  }

  /** Triangle k of a mesh faces as its three corner positions do. */
  lemma FacingOfCorners(m: MeshData, k: nat, a: IntVec, b: IntVec, d: IntVec, n: IntVec)
    requires m.IndicesValid() && 3 * k + 2 < |m.triangles|
    requires m.vertices[m.triangles[3 * k]] == a && m.vertices[m.triangles[3 * k + 1]] == b
    requires m.vertices[m.triangles[3 * k + 2]] == d
    ensures MeshTriangleFacing(m, k, n) == MeshGenerator.Sign(TriangleNormal(a, b, d).Dot(n))
  {
  }

  /** The facing both triangles of a quad of positive size get under a
      rule: against the outward normal, except bottom quads as written. */
  function RuleFacing(rule: WindingRule, f: Face): int {
    if rule == AsWritten && f == Bottom then 1 else -1
  }

  /** Both triangles of a quad of positive size face as the rule says. */
  lemma QuadTrianglesFacing(q: GreedyQuad, t: nat, rule: WindingRule)
    requires q.size.x >= 1 && q.size.y >= 1 && t < 2
    ensures var p := QuadTriangles(q, rule);
            MeshGenerator.Sign(TriangleNormal(p[3 * t], p[3 * t + 1], p[3 * t + 2]).Dot(MeshGenerator.FaceNormal(q.face)))
            == RuleFacing(rule, q.face)
  {
    if rule == Corrected {
      CorrectedWindingConsistent(q, t);
    } else {
      AsWrittenBottomReversed(q, t);
    }
  }

  /** In a mesh whose triangle corners are the triangle soup, corner c of
      triangle k is corner c of triangle k % 2 of quad k / 2. */
  lemma {:induction false} SoupCorner(m: MeshData, qs: seq<GreedyQuad>, rule: WindingRule, k: nat, c: nat)
    requires m.IndicesValid() && |m.triangles| == 6 * |qs| && 3 * k + 2 < |m.triangles| && c < 3
    requires forall p :: 0 <= p < |m.triangles| ==> m.vertices[m.triangles[p]] == TriangleSoup(qs, rule)[p]
    ensures m.vertices[m.triangles[3 * k + c]] == QuadTriangles(qs[k / 2], rule)[3 * (k % 2) + c]
  {
    var i, j := k / 2, 3 * (k % 2) + c;
    assert 3 * k + c == 6 * i + j;
    SoupAt(qs, rule, i, j, 3 * k + c);
  }

  /** A mesh whose triangle corners are the triangle soup of quads of
      positive size: its triangle k faces as the rule says for quad k/2. */
  lemma {:induction false} SoupTriangleFacing(m: MeshData, qs: seq<GreedyQuad>, rule: WindingRule, k: nat)
    requires QuadsPositive(qs) && m.IndicesValid() && |m.triangles| == 6 * |qs| && 3 * k + 2 < |m.triangles|
    requires forall p :: 0 <= p < |m.triangles| ==> m.vertices[m.triangles[p]] == TriangleSoup(qs, rule)[p]
    ensures MeshTriangleFacing(m, k, MeshGenerator.FaceNormal(qs[k / 2].face)) == RuleFacing(rule, qs[k / 2].face)
  {
    var i, t := k / 2, k % 2;
    var p := QuadTriangles(qs[i], rule);
    SoupCorner(m, qs, rule, k, 0);
    SoupCorner(m, qs, rule, k, 1);
    SoupCorner(m, qs, rule, k, 2);
    FacingOfCorners(m, k, p[3 * t], p[3 * t + 1], p[3 * t + 2], MeshGenerator.FaceNormal(qs[i].face));
    QuadTrianglesFacing(qs[i], t, rule);
  }

  /** Converting quads of positive size: triangles 2i and 2i+1 come from
      quad i and face as the rule says for it. */
  lemma ConvertFacing(qs: seq<GreedyQuad>, rule: WindingRule)
    requires QuadsPositive(qs)
    ensures var m := ConvertQuadsToMesh(qs, rule);
            forall k :: 0 <= k < m.triangleCount ==>
              MeshTriangleFacing(m, k, MeshGenerator.FaceNormal(qs[k / 2].face)) == RuleFacing(rule, qs[k / 2].face)
  {
    var m := ConvertQuadsToMesh(qs, rule);
    ConvertDrawsQuads(qs, rule);
    forall k | 0 <= k < m.triangleCount
      ensures MeshTriangleFacing(m, k, MeshGenerator.FaceNormal(qs[k / 2].face)) == RuleFacing(rule, qs[k / 2].face)
    {
      SoupTriangleFacing(m, qs, rule, k);
    }
  }

  /** As the engine builds it, every triangle of the greedy mesh faces
      against the outward normal of the face it was drawn for, except the
      triangles of bottom quads, which face along it: triangles 2i and 2i+1
      come from quad i. */
  lemma GreedyMeshBottomReversed(c: ChunkData)
    requires c.Allocated()
    ensures var qs := GenerateGreedyMesh(c); var m := GenerateGreedyMeshData(c);
            forall k :: 0 <= k < m.triangleCount ==>
              MeshTriangleFacing(m, k, MeshGenerator.FaceNormal(qs[k / 2].face)) == (if qs[k / 2].face == Bottom then 1 else -1)
  {
    var qs := GenerateGreedyMesh(c);
    var m := GenerateGreedyMeshData(c);
    var m0 := ConvertQuadsToMesh(qs, AsWritten);
    GreedyQuadsPositive(c);
    ConvertFacing(qs, AsWritten);
    forall k | 0 <= k < m.triangleCount
      ensures MeshTriangleFacing(m, k, MeshGenerator.FaceNormal(qs[k / 2].face)) == (if qs[k / 2].face == Bottom then 1 else -1)
    {
      assert MeshTriangleFacing(m, k, MeshGenerator.FaceNormal(qs[k / 2].face))
             == MeshTriangleFacing(m0, k, MeshGenerator.FaceNormal(qs[k / 2].face));
    }
  }

  /** With the corrected corner order, every triangle of the greedy mesh
      faces the same way relative to the outward normal of the face it was
      drawn for. */
  lemma GreedyWindingConsistent(c: ChunkData)
    requires c.Allocated()
    ensures var qs := GenerateGreedyMesh(c); var m := GenerateGreedyMeshDataCorrected(c);
            forall k :: 0 <= k < m.triangleCount ==>
              MeshTriangleFacing(m, k, MeshGenerator.FaceNormal(qs[k / 2].face)) == -1
  {
    var qs := GenerateGreedyMesh(c);
    var m := GenerateGreedyMeshDataCorrected(c);
    var m0 := ConvertQuadsToMesh(qs, Corrected);
    GreedyQuadsPositive(c);
    ConvertFacing(qs, Corrected);
    forall k | 0 <= k < m.triangleCount
      ensures MeshTriangleFacing(m, k, MeshGenerator.FaceNormal(qs[k / 2].face)) == -1
    {
      assert MeshTriangleFacing(m, k, MeshGenerator.FaceNormal(qs[k / 2].face))
             == MeshTriangleFacing(m0, k, MeshGenerator.FaceNormal(qs[k / 2].face));
    }
  }

  /** The greedy mesh draws exactly the exposed faces of the chunk: its
      quads' unit faces are the visible faces, with as much total area. */
  lemma GreedyDrawsVisibleFaces(c: ChunkData)
    requires c.Allocated()
    ensures QuadsFaces(GenerateGreedyMesh(c)) == VisibleFaces.AllVisibleFaces(c)
    ensures TotalArea(GenerateGreedyMesh(c)) == |VisibleFaces.AllVisibleFaces(c)|
  {
    GreedyCoversVisibleFaces(c);
    GreedyAreaIsVisibleFaces(c);
  }

  /** A chunk at the origin whose cells hold the given materials in flat
      index order. */
  function ChunkFromData(data: seq<Material>, size: ChunkSize): (c: ChunkData)
    ensures |c.voxels| == |data| && c.size == size && c.position == Zero
    ensures forall i :: 0 <= i < |data| ==> c.voxels[i].material == data[i]
  {
    ChunkData(seq(|data|, i requires 0 <= i < |data| => Voxel(data[i])), size, Zero, true)
  }

  /** Reading a cell of the built chunk gives the material stored at its
      flat index, and air outside the chunk. */
  lemma ChunkFromDataReads(data: seq<Material>, size: ChunkSize, x: int, y: int, z: int)
    requires |data| >= size.VoxelCount()
    ensures var c := ChunkFromData(data, size);
            c.Allocated()
            && (size.Contains(x, y, z) ==> 0 <= size.Index(x, y, z) < size.VoxelCount()
                                           && c.GetVoxel(x, y, z).material == data[size.Index(x, y, z)])
            && (!size.Contains(x, y, z) ==> c.GetVoxel(x, y, z).IsAir())
  {
    if size.Contains(x, y, z) {
      IndexInRange(size, x, y, z);
    }
  }

  /** The greedy mesh of a flat material array. The array must cover every
      cell of the chunk size: cells are read without a bounds check. */
  function GenerateGreedyMeshFromData(data: seq<Material>, size: ChunkSize): (m: MeshData)
    requires |data| >= size.VoxelCount()
    ensures m.Wf() && m.vertexCount == |m.vertices| && 3 * m.triangleCount == |m.triangles|
    ensures var c := ChunkFromData(data, size);
            QuadsFaces(GenerateGreedyMesh(c)) == VisibleFaces.AllVisibleFaces(c)
            && m.triangleCount <= MeshGenerator.GenerateBasicMesh(c).triangleCount
    ensures m == GenerateGreedyMeshData(ChunkFromData(data, size))
  {
    var c := ChunkFromData(data, size);
    GreedyDrawsVisibleFaces(c);
    GreedyNoLargerThanBasic(c);
    ConvertQuadsToMesh(GenerateGreedyMesh(c), AsWritten)
  }
}
