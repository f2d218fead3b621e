/** The basic (one quad per visible voxel face) mesher, and the face geometry
    helpers both meshers share. Coordinates are in voxel units. */
module MeshGenerator {
  import opened VoxelTypes

  /** The unit offset from a voxel to its neighbour across a face. */
  function FaceDirection(f: Face): IntVec {
    match f
    case Front => IntVec(0, 1, 0)
    case Back => IntVec(0, -1, 0)
    case Right => IntVec(1, 0, 0)
    case Left => IntVec(-1, 0, 0)
    case Top => IntVec(0, 0, 1)
    case Bottom => IntVec(0, 0, -1)
  }

  /** The outward normal of a face (a float vector in the engine, with integral
      components). */
  function FaceNormal(f: Face): (n: IntVec)
    ensures n == FaceDirection(f)
  {
    match f
    case Front => IntVec(0, 1, 0)
    case Back => IntVec(0, -1, 0)
    case Right => IntVec(1, 0, 0)
    case Left => IntVec(-1, 0, 0)
    case Top => IntVec(0, 0, 1)
    case Bottom => IntVec(0, 0, -1)
  }

  /** The opposite face of each face. */
  function Opposite(f: Face): Face {
    match f
    case Front => Back
    case Back => Front
    case Right => Left
    case Left => Right
    case Top => Bottom
    case Bottom => Top
  }

  /** Every face direction is a unit axis vector. */
  lemma FaceDirectionUnit(f: Face)
    ensures FaceDirection(f).IsUnitAxis()
  {
  }

  /** Opposite faces point in opposite directions. */
  lemma FaceDirectionsOpposite(f: Face)
    ensures FaceDirection(Opposite(f)) == FaceDirection(f).Neg()
  {
    match f
    case Front => assert FaceDirection(Back) == IntVec(0, -1, 0);
    case Back =>
    case Right =>
    case Left =>
    case Top =>
    case Bottom =>
  }

  /** Opposite is an involution without fixed points. */
  lemma OppositeInvolution(f: Face)
    ensures Opposite(Opposite(f)) == f && Opposite(f) != f
  {
  }

  /** The face a unit direction points through (Front for anything else). */
  function FaceOfDirection(d: IntVec): Face {
    if d == IntVec(0, -1, 0) then Back
    else if d == IntVec(1, 0, 0) then Right
    else if d == IntVec(-1, 0, 0) then Left
    else if d == IntVec(0, 0, 1) then Top
    else if d == IntVec(0, 0, -1) then Bottom
    else Front
  }

  /** A face is recovered from its direction, so the six directions are
      pairwise distinct. */
  lemma FaceDirectionInjective(f: Face, g: Face)
    ensures FaceOfDirection(FaceDirection(f)) == f
    ensures f != g ==> FaceDirection(f) != FaceDirection(g)
  {
    assert FaceOfDirection(FaceDirection(g)) == g;
  }

  /** The neighbour across a face: the stored voxel one step along the
      face's direction, or air when that cell lies outside the chunk. */
  function GetNeighborVoxel(c: ChunkData, x: int, y: int, z: int, f: Face): (v: Voxel)
    requires c.Allocated()
    ensures var d := FaceDirection(f);
            !c.size.Contains(x + d.x, y + d.y, z + d.z) ==> v == AirVoxel
    ensures var d := FaceDirection(f);
            c.size.Contains(x + d.x, y + d.y, z + d.z) ==>
              0 <= c.size.Index(x + d.x, y + d.y, z + d.z) < |c.voxels|
              && v == c.voxels[c.size.Index(x + d.x, y + d.y, z + d.z)]
  {
    var d := FaceDirection(f);
    assert c.size.Contains(x + d.x, y + d.y, z + d.z) ==>
             c.GetVoxel(x + d.x, y + d.y, z + d.z) == c.voxels[c.size.Index(x + d.x, y + d.y, z + d.z)] by {
      if c.size.Contains(x + d.x, y + d.y, z + d.z) {
        ReadsStoredVoxel(c, x + d.x, y + d.y, z + d.z);
      }
    }
    c.GetVoxel(x + d.x, y + d.y, z + d.z)
  }

  /** A face must be drawn when the neighbour across it is air, or is a
      transparent material different from this voxel's. The neighbour is read
      with the bounds-checked reader, so faces on the chunk boundary are always
      visible. */
  predicate IsFaceVisible(c: ChunkData, x: int, y: int, z: int, f: Face)
    requires c.Allocated()
  {
    var n := GetNeighborVoxel(c, x, y, z, f);
    n.IsAir() || (n.IsTransparent() && c.GetVoxel(x, y, z).material != n.material)
  }

  /** Every face whose neighbour lies outside the chunk is visible. */
  lemma BoundaryFacesVisible(c: ChunkData, x: int, y: int, z: int, f: Face)
    requires c.Allocated()
    requires var d := FaceDirection(f); !c.size.Contains(x + d.x, y + d.y, z + d.z)
    ensures IsFaceVisible(c, x, y, z, f)
  {
  }

  /** A face against a solid opaque neighbour, or against a neighbour of the
      same material, is hidden. */
  lemma HiddenFaces(c: ChunkData, x: int, y: int, z: int, f: Face)
    requires c.Allocated()
    requires var n := GetNeighborVoxel(c, x, y, z, f);
             n.IsSolid() && (!n.IsTransparent() || n == c.GetVoxel(x, y, z))
    ensures !IsFaceVisible(c, x, y, z, f)
  {
  }

  /** The four corners of a unit face of the voxel at p, in the engine's order. */
  function FaceVertices(f: Face, p: IntVec): (vs: seq<IntVec>)
    ensures |vs| == 4
    ensures forall i :: 0 <= i < 4 ==> p.x <= vs[i].x <= p.x + 1 && p.y <= vs[i].y <= p.y + 1 && p.z <= vs[i].z <= p.z + 1
  {
    match f
    case Front => [p.Add(IntVec(0, 1, 0)), p.Add(IntVec(1, 1, 0)), p.Add(IntVec(1, 1, 1)), p.Add(IntVec(0, 1, 1))]
    case Back => [p.Add(IntVec(1, 0, 0)), p.Add(IntVec(0, 0, 0)), p.Add(IntVec(0, 0, 1)), p.Add(IntVec(1, 0, 1))]
    case Right => [p.Add(IntVec(1, 1, 0)), p.Add(IntVec(1, 0, 0)), p.Add(IntVec(1, 0, 1)), p.Add(IntVec(1, 1, 1))]
    case Left => [p.Add(IntVec(0, 0, 0)), p.Add(IntVec(0, 1, 0)), p.Add(IntVec(0, 1, 1)), p.Add(IntVec(0, 0, 1))]
    case Top => [p.Add(IntVec(0, 0, 1)), p.Add(IntVec(1, 0, 1)), p.Add(IntVec(1, 1, 1)), p.Add(IntVec(0, 1, 1))]
    case Bottom => [p.Add(IntVec(0, 1, 0)), p.Add(IntVec(1, 1, 0)), p.Add(IntVec(1, 0, 0)), p.Add(IntVec(0, 0, 0))]
  }

  /** The coordinate of a face's plane along the face's own axis. */
  function FacePlane(f: Face, p: IntVec): int {
    match f
    case Front => p.y + 1
    case Back => p.y
    case Right => p.x + 1
    case Left => p.x
    case Top => p.z + 1
    case Bottom => p.z
  }

  /** The axis a face's normal lies along. */
  function NormalAxis(f: Face): (axis: nat)
    ensures axis < 3
  {
    match f
    case Front => 1
    case Back => 1
    case Right => 0
    case Left => 0
    case Top => 2
    case Bottom => 2
  }

  /** The normal is non-zero exactly along the face's normal axis. */
  lemma NormalAlongAxis(f: Face)
    ensures FaceNormal(f).Get(NormalAxis(f)) != 0
    ensures forall a :: 0 <= a < 3 && a != NormalAxis(f) ==> FaceNormal(f).Get(a) == 0
  {
  }

  /** All four corners of a face lie in the face's plane, on the side of the
      voxel its normal points to. */
  lemma FaceVerticesInPlane(f: Face, p: IntVec)
    ensures var vs := FaceVertices(f, p);
            forall i :: 0 <= i < 4 ==> vs[i].Get(NormalAxis(f)) == FacePlane(f, p)
  {
  }

  /** The four corners of a face are distinct points. */
  lemma FaceVerticesDistinct(f: Face, p: IntVec)
    ensures var vs := FaceVertices(f, p);
            forall i, j :: 0 <= i < j < 4 ==> vs[i] != vs[j]
  {
  }

  /** Texture coordinates of the four corners: the unit square. */
  function FaceUVs(f: Face): (uvs: seq<Uv>)
    ensures |uvs| == 4 && uvs[0] == Uv(0, 0) && uvs[2] == Uv(1, 1)
  {
    [Uv(0, 0), Uv(1, 0), Uv(1, 1), Uv(0, 1)]
  }

  function Sign(a: int): int {
    if a > 0 then 1 else if a < 0 then -1 else 0
  }

  /** The unit direction of a vector with at most one non-zero component (the
      engine normalises a float vector; for every tangent the meshers compute,
      exactly one component is non-zero and the two agree). */
  function Direction(v: IntVec): IntVec {
    IntVec(Sign(v.x), Sign(v.y), Sign(v.z))
  }

  /** The tangent the engine derives from a quad's corners and texture
      coordinates: the texture-space gradient along u, normalised; zero when
      the texture coordinates are degenerate. */
  function QuadTangent(v0: IntVec, v1: IntVec, v2: IntVec, uv0: Uv, uv1: Uv, uv2: Uv): IntVec {
    var e1 := v1.Sub(v0);
    var e2 := v2.Sub(v0);
    var d1 := Uv(uv1.u - uv0.u, uv1.v - uv0.v);
    var d2 := Uv(uv2.u - uv0.u, uv2.v - uv0.v);
    var div := d1.u * d2.v - d2.u * d1.v;
    if div == 0 then Zero
    else Direction(e1.Scale(d2.v).Sub(e2.Scale(d1.v)).Scale(Sign(div)))
  }

  /** The tangent of each face: the direction of its first edge. */
  function FaceTangent(f: Face): IntVec {
    match f
    case Front => IntVec(1, 0, 0)
    case Back => IntVec(-1, 0, 0)
    case Right => IntVec(0, -1, 0)
    case Left => IntVec(0, 1, 0)
    case Top => IntVec(1, 0, 0)
    case Bottom => IntVec(1, 0, 0)
  }

  /** With unit-square texture coordinates the derived tangent is the
      direction of the first edge. */
  lemma QuadTangentUnitSquare(v0: IntVec, v1: IntVec, v2: IntVec)
    ensures QuadTangent(v0, v1, v2, Uv(0, 0), Uv(1, 0), Uv(1, 1)) == Direction(v1.Sub(v0))
  {
    var e1 := v1.Sub(v0);
    var e2 := v2.Sub(v0);
    assert e1.Scale(1) == e1;
    assert e2.Scale(0) == Zero;
    assert e1.Sub(Zero).Scale(1) == e1;
  }

  /** A face's first edge runs along its tangent. */
  lemma FaceFirstEdge(f: Face, p: IntVec)
    ensures FaceVertices(f, p)[1].Sub(FaceVertices(f, p)[0]) == FaceTangent(f)
  {
    match f
    case Front =>
    case Back =>
    case Right =>
    case Left =>
    case Top =>
    case Bottom =>
  }

  /** For every face the tangent derived from its corners and unit-square
      texture coordinates is the face's tangent. */
  lemma FaceTangentDerived(f: Face, p: IntVec)
    ensures var vs := FaceVertices(f, p);
            var uvs := FaceUVs(f);
            QuadTangent(vs[0], vs[1], vs[2], uvs[0], uvs[1], uvs[2]) == FaceTangent(f)
  {
    var vs := FaceVertices(f, p);
    var uvs := FaceUVs(f);
    assert uvs[1] == Uv(1, 0);
    QuadTangentUnitSquare(vs[0], vs[1], vs[2]);
    FaceFirstEdge(f, p);
    assert Direction(FaceTangent(f)) == FaceTangent(f) by {
      match f
      case Front =>
      case Back =>
      case Right =>
      case Left =>
      case Top =>
      case Bottom =>
    }
  }

  /** Every face's tangent is a unit axis vector lying in the face's plane
      (perpendicular to the normal). */
  lemma FaceTangentInPlane(f: Face)
    ensures FaceTangent(f).IsUnitAxis() && FaceTangent(f).Get(NormalAxis(f)) == 0
  {
  }

  /** Returns the section index of a material, allocating the next free index
      the first time the material is seen. */
  function AllocateSection(s: map<Material, int>, mat: Material): (res: (map<Material, int>, int))
    requires DenseSections(s)
    ensures var (r, section) := res;
            DenseSections(r) && mat in r && r[mat] == section
            && r.Keys == s.Keys + {mat}
            && (forall k :: k in s ==> r[k] == s[k])
    ensures mat in s ==> res.0 == s
    ensures mat !in s ==> res.1 == |s|
  {
    if mat in s then (s, s[mat])
    else
      var section := |s|;
      var r := s[mat := section];
      assert |r| == section + 1 by {
        assert r.Keys == s.Keys + {mat};
      }
      (r, section)
  }

  /** The mesh-level form: only the section map changes. */
  function GetOrCreateMaterialSection(m: MeshData, mat: Material): (res: (MeshData, int))
    requires m.SectionsDense()
    ensures var (r, section) := res;
            r.SectionsDense() && mat in r.materialSections && r.materialSections[mat] == section
            && r.materialSections.Keys == m.materialSections.Keys + {mat}
            && r.(materialSections := m.materialSections) == m
    ensures mat in m.materialSections ==> res.0 == m
  {
    var (s, section) := AllocateSection(m.materialSections, mat);
    (m.(materialSections := s), section)
  }

  /** Appends one vertex with its attributes and returns its index. */
  function AddVertex(m: MeshData, p: IntVec, n: IntVec, uv: Uv, t: IntVec, color: Color): (res: (MeshData, int))
    requires m.Wf()
    ensures var (r, index) := res;
            r.Wf() && index == |m.vertices| && 0 <= index < |r.vertices|
            && r.vertices == m.vertices + [p] && r.normals == m.normals + [n] && r.uv0 == m.uv0 + [uv]
            && r.tangents == m.tangents + [t] && r.colors == m.colors + [color]
            && r.triangles == m.triangles && r.materialSections == m.materialSections
            && r.vertices[index] == p && r.normals[index] == n
  {
    (m.(vertices := m.vertices + [p], normals := m.normals + [n], uv0 := m.uv0 + [uv],
        tangents := m.tangents + [t], colors := m.colors + [color]),
     |m.vertices|)
  }

  /** Appending the two triangles of a quad whose four vertices start at s keeps
      every index valid. */
  lemma AppendQuadIndices(m: MeshData, s: int)
    requires m.IndicesValid() && 0 <= s && s + 4 <= |m.vertices|
    ensures m.(triangles := m.triangles + [s, s + 1, s + 2, s, s + 2, s + 3]).IndicesValid()
  {
    var r := m.(triangles := m.triangles + [s, s + 1, s + 2, s, s + 2, s + 3]);
    forall i | 0 <= i < |r.triangles|
      ensures 0 <= r.triangles[i] < |r.vertices|
    {
      if i < |m.triangles| {
        assert r.triangles[i] == m.triangles[i];
      }
    }
  }

  /** Appends a quad as four fresh vertices and two triangles (0,1,2) and
      (0,2,3), and registers its material section. */
  function AddQuad(m: MeshData, v0: IntVec, v1: IntVec, v2: IntVec, v3: IntVec, n: IntVec,
                   uv0: Uv, uv1: Uv, uv2: Uv, uv3: Uv, mat: Material): (r: MeshData)
    requires m.Wf()
    ensures r.Wf()
    ensures r.vertices == m.vertices + [v0, v1, v2, v3]
    ensures |r.normals| == |m.normals| + 4 && forall i :: |m.vertices| <= i < |r.vertices| ==> r.normals[i] == n
    ensures var s := |m.vertices|;
            r.triangles == m.triangles + [s, s + 1, s + 2, s, s + 2, s + 3]
    ensures mat in r.materialSections && r.materialSections.Keys == m.materialSections.Keys + {mat}
    ensures r.materialTriangles == m.materialTriangles
  {
    var t := QuadTangent(v0, v1, v2, uv0, uv1, uv2);
    var s := |m.vertices|;
    var m4 := AddVertex(AddVertex(AddVertex(AddVertex(m, v0, n, uv0, t, White).0, v1, n, uv1, t, White).0,
                                  v2, n, uv2, t, White).0, v3, n, uv3, t, White).0;
    var m5 := GetOrCreateMaterialSection(m4, mat).0;
    assert m5.vertices == m.vertices + [v0, v1, v2, v3];
    AppendQuadIndices(m5, s);
    m5.(triangles := m5.triangles + [s, s + 1, s + 2, s, s + 2, s + 3])
  }

  /** Appends the unit quad of one voxel face. */
  function AddFace(m: MeshData, p: IntVec, f: Face, mat: Material): (r: MeshData)
    requires m.Wf()
    ensures r.Wf()
    ensures r.vertices == m.vertices + FaceVertices(f, p)
    ensures |r.triangles| == |m.triangles| + 6
    ensures mat in r.materialSections
  {
    var vs := FaceVertices(f, p);
    var uvs := FaceUVs(f);
    AddQuad(m, vs[0], vs[1], vs[2], vs[3], FaceNormal(f), uvs[0], uvs[1], uvs[2], uvs[3], mat)
  }

  /** The face loop for one voxel: faces fi..5 in enumeration order. */
  function EmitVoxelFaces(c: ChunkData, m: MeshData, x: int, y: int, z: int, fi: nat): (r: MeshData)
    requires c.Allocated() && m.Wf() && fi <= 6
    ensures r.Wf()
    ensures |r.vertices| >= |m.vertices| && |r.triangles| >= |m.triangles|
    decreases 6 - fi
  {
    if fi == 6 then m
    else
      var f := FaceOfIndex(fi);
      var m1 := if IsFaceVisible(c, x, y, z, f) then AddFace(m, IntVec(x, y, z), f, c.GetVoxel(x, y, z).material) else m;
      EmitVoxelFaces(c, m1, x, y, z, fi + 1)
  }

  /** The innermost (X) loop over one row, skipping air voxels. */
  function EmitRow(c: ChunkData, m: MeshData, y: int, z: int, x: int): (r: MeshData)
    requires c.Allocated() && m.Wf() && 0 <= x <= c.size.x
    ensures r.Wf()
    ensures |r.vertices| >= |m.vertices| && |r.triangles| >= |m.triangles|
    decreases c.size.x - x
  {
    if x == c.size.x then m
    else
      var m1 := if c.GetVoxel(x, y, z).IsAir() then m else EmitVoxelFaces(c, m, x, y, z, 0);
      EmitRow(c, m1, y, z, x + 1)
  }

  /** The middle (Y) loop over one layer. */
  function EmitLayer(c: ChunkData, m: MeshData, z: int, y: int): (r: MeshData)
    requires c.Allocated() && m.Wf() && 0 <= y <= c.size.y
    ensures r.Wf()
    ensures |r.vertices| >= |m.vertices| && |r.triangles| >= |m.triangles|
    decreases c.size.y - y
  {
    if y == c.size.y then m
    else EmitLayer(c, EmitRow(c, m, y, z, 0), z, y + 1)
  }

  /** The outer (Z) loop over the whole chunk. */
  function EmitVolume(c: ChunkData, m: MeshData, z: int): (r: MeshData)
    requires c.Allocated() && m.Wf() && 0 <= z <= c.size.z
    ensures r.Wf()
    ensures |r.vertices| >= |m.vertices| && |r.triangles| >= |m.triangles|
    decreases c.size.z - z
  {
    if z == c.size.z then m
    else EmitVolume(c, EmitLayer(c, m, z, 0), z + 1)
  }

  /** One quad per visible face of every solid voxel, visiting Z, then Y, then X,
      then the six faces; the index optimisation and tangent passes are empty
      in the engine and leave the buffers unchanged. */
  function GenerateBasicMesh(c: ChunkData): (r: MeshData)
    requires c.Allocated()
    ensures r.Wf()
    ensures r.triangleCount * 3 == |r.triangles| && r.vertexCount == |r.vertices|
  {
    var m := EmitVolume(c, EmptyMesh, 0);
    m.(triangleCount := |m.triangles| / 3, vertexCount := |m.vertices|)
  }

  /** The level-of-detail entry point: every level uses the basic mesher,
      so the level is ignored (see VisibleFaces.LodMeshCounts). */
  function GenerateLODMesh(c: ChunkData, lodLevel: int): (r: MeshData)
    requires c.Allocated()
    ensures r.Wf()
    ensures r.triangleCount * 3 == |r.triangles| && r.vertexCount == |r.vertices|
  {
    GenerateBasicMesh(c)
  }
}
