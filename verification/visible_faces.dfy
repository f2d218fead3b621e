/** The set of visible voxel faces of a chunk, defined directly from the
    visibility rule, and the count the basic mesher produces from it: four
    vertices and six indices per visible face. */
module VisibleFaces {
  import opened VoxelTypes
  import opened MeshGenerator

  /** One unit face of one voxel. */
  datatype UnitFace = UnitFace(pos: IntVec, face: Face)

  /** The face f of the voxel at (x, y, z) is part of the chunk's surface: the
      voxel is inside the chunk, is not air, and the face is visible. */
  predicate Exposed(c: ChunkData, x: int, y: int, z: int, f: Face)
    requires c.Allocated()
  {
    c.size.Contains(x, y, z) && !c.GetVoxel(x, y, z).IsAir() && IsFaceVisible(c, x, y, z, f)
  }

  /** Every exposed face of the chunk. */
  ghost function AllVisibleFaces(c: ChunkData): set<UnitFace>
    requires c.Allocated()
  {
    set x, y, z, i | 0 <= x < c.size.x && 0 <= y < c.size.y && 0 <= z < c.size.z && 0 <= i < 6
                     && Exposed(c, x, y, z, FaceOfIndex(i)) :: UnitFace(IntVec(x, y, z), FaceOfIndex(i))
  }

  lemma AllVisibleFacesMembership(c: ChunkData, uf: UnitFace)
    requires c.Allocated()
    ensures uf in AllVisibleFaces(c) <==> Exposed(c, uf.pos.x, uf.pos.y, uf.pos.z, uf.face)
  {
    if Exposed(c, uf.pos.x, uf.pos.y, uf.pos.z, uf.face) {
      FaceIndexRoundTrip(uf.face);
      var i := FaceIndex(uf.face);
      assert uf == UnitFace(IntVec(uf.pos.x, uf.pos.y, uf.pos.z), FaceOfIndex(i));
    }
  }

  /** The exposed faces the voxel loop still has to visit: faces fi..5. */
  ghost function VoxelFacesFrom(c: ChunkData, x: int, y: int, z: int, fi: nat): set<UnitFace>
    requires c.Allocated()
  {
    set i | fi <= i < 6 && Exposed(c, x, y, z, FaceOfIndex(i)) :: UnitFace(IntVec(x, y, z), FaceOfIndex(i))
  }

  /** The exposed faces the row loop still has to visit: voxels x.. of a row. */
  ghost function RowFacesFrom(c: ChunkData, y: int, z: int, x: int): set<UnitFace>
    requires c.Allocated()
  {
    set x', i | x <= x' < c.size.x && 0 <= i < 6 && Exposed(c, x', y, z, FaceOfIndex(i))
      :: UnitFace(IntVec(x', y, z), FaceOfIndex(i))
  }

  /** The exposed faces the layer loop still has to visit: rows y.. of a layer. */
  ghost function LayerFacesFrom(c: ChunkData, z: int, y: int): set<UnitFace>
    requires c.Allocated()
  {
    set y', x', i | y <= y' < c.size.y && 0 <= x' < c.size.x && 0 <= i < 6 && Exposed(c, x', y', z, FaceOfIndex(i))
      :: UnitFace(IntVec(x', y', z), FaceOfIndex(i))
  }

  /** The exposed faces the volume loop still has to visit: layers z.. . */
  ghost function VolumeFacesFrom(c: ChunkData, z: int): set<UnitFace>
    requires c.Allocated()
  {
    set z', y', x', i | z <= z' < c.size.z && 0 <= y' < c.size.y && 0 <= x' < c.size.x && 0 <= i < 6
                        && Exposed(c, x', y', z', FaceOfIndex(i))
      :: UnitFace(IntVec(x', y', z'), FaceOfIndex(i))
  }

  /** A voxel's remaining faces split into face fi and the faces after it. */
  lemma VoxelFacesSplit(c: ChunkData, x: int, y: int, z: int, fi: nat)
    requires c.Allocated() && fi < 6
    ensures |VoxelFacesFrom(c, x, y, z, fi)|
            == (if Exposed(c, x, y, z, FaceOfIndex(fi)) then 1 else 0) + |VoxelFacesFrom(c, x, y, z, fi + 1)|
  {
    var f := FaceOfIndex(fi);
    var rest := VoxelFacesFrom(c, x, y, z, fi + 1);
    var here := if Exposed(c, x, y, z, f) then {UnitFace(IntVec(x, y, z), f)} else {};
    assert VoxelFacesFrom(c, x, y, z, fi) == here + rest;
    forall uf | uf in rest ensures uf.face != f {
      var i :| fi + 1 <= i < 6 && uf == UnitFace(IntVec(x, y, z), FaceOfIndex(i));
      FaceIndexRoundTrip(uf.face);
    }
    assert here !! rest;
  }

  lemma {:induction false} VoxelFacesCount(c: ChunkData, m: MeshData, x: int, y: int, z: int, fi: nat)
    requires c.Allocated() && m.Wf() && fi <= 6
    requires c.size.Contains(x, y, z) && !c.GetVoxel(x, y, z).IsAir()
    ensures var r := EmitVoxelFaces(c, m, x, y, z, fi);
            |r.vertices| == |m.vertices| + 4 * |VoxelFacesFrom(c, x, y, z, fi)|
            && |r.triangles| == |m.triangles| + 6 * |VoxelFacesFrom(c, x, y, z, fi)|
    decreases 6 - fi
  {
    if fi == 6 {
      assert VoxelFacesFrom(c, x, y, z, fi) == {};
    } else {
      var f := FaceOfIndex(fi);
      var m1 := if IsFaceVisible(c, x, y, z, f) then AddFace(m, IntVec(x, y, z), f, c.GetVoxel(x, y, z).material) else m;
      VoxelFacesCount(c, m1, x, y, z, fi + 1);
      VoxelFacesSplit(c, x, y, z, fi);
    }
  }

  /** A row's remaining faces split into the current voxel's and the rest. */
  lemma RowFacesSplit(c: ChunkData, y: int, z: int, x: int)
    requires c.Allocated() && 0 <= x < c.size.x
    ensures var rest := RowFacesFrom(c, y, z, x + 1);
            var here := VoxelFacesFrom(c, x, y, z, 0);
            |RowFacesFrom(c, y, z, x)| == |here| + |rest|
            && (c.GetVoxel(x, y, z).IsAir() ==> here == {})
  {
    var rest := RowFacesFrom(c, y, z, x + 1);
    var here := VoxelFacesFrom(c, x, y, z, 0);
    assert RowFacesFrom(c, y, z, x) == here + rest;
    assert here !! rest;
  }

  /** A layer's remaining faces split into the current row's and the rest. */
  lemma LayerFacesSplit(c: ChunkData, z: int, y: int)
    requires c.Allocated() && 0 <= y < c.size.y
    ensures |LayerFacesFrom(c, z, y)| == |RowFacesFrom(c, y, z, 0)| + |LayerFacesFrom(c, z, y + 1)|
  {
    var here := RowFacesFrom(c, y, z, 0);
    var rest := LayerFacesFrom(c, z, y + 1);
    assert LayerFacesFrom(c, z, y) == here + rest;
    assert here !! rest;
  }

  lemma {:induction false} RowFacesCount(c: ChunkData, m: MeshData, y: int, z: int, x: int)
    requires c.Allocated() && m.Wf() && 0 <= x <= c.size.x
    requires 0 <= y < c.size.y && 0 <= z < c.size.z
    ensures var r := EmitRow(c, m, y, z, x);
            |r.vertices| == |m.vertices| + 4 * |RowFacesFrom(c, y, z, x)|
            && |r.triangles| == |m.triangles| + 6 * |RowFacesFrom(c, y, z, x)|
    decreases c.size.x - x
  {
    if x == c.size.x {
      assert RowFacesFrom(c, y, z, x) == {};
    } else {
      RowFacesSplit(c, y, z, x);
      if c.GetVoxel(x, y, z).IsAir() {
        RowFacesCount(c, m, y, z, x + 1);
      } else {
        var m1 := EmitVoxelFaces(c, m, x, y, z, 0);
        VoxelFacesCount(c, m, x, y, z, 0);
        RowFacesCount(c, m1, y, z, x + 1);
      }
    }
  }

  lemma {:induction false} LayerFacesCount(c: ChunkData, m: MeshData, z: int, y: int)
    requires c.Allocated() && m.Wf() && 0 <= y <= c.size.y
    requires 0 <= z < c.size.z
    ensures var r := EmitLayer(c, m, z, y);
            |r.vertices| == |m.vertices| + 4 * |LayerFacesFrom(c, z, y)|
            && |r.triangles| == |m.triangles| + 6 * |LayerFacesFrom(c, z, y)|
    decreases c.size.y - y
  {
    if y == c.size.y {
      assert LayerFacesFrom(c, z, y) == {};
    } else {
      var m1 := EmitRow(c, m, y, z, 0);
      LayerFacesSplit(c, z, y);
      RowFacesCount(c, m, y, z, 0);
      LayerFacesCount(c, m1, z, y + 1);
    }
  }

  lemma {:induction false} VolumeFacesCount(c: ChunkData, m: MeshData, z: int)
    requires c.Allocated() && m.Wf() && 0 <= z <= c.size.z
    ensures var r := EmitVolume(c, m, z);
            |r.vertices| == |m.vertices| + 4 * |VolumeFacesFrom(c, z)|
            && |r.triangles| == |m.triangles| + 6 * |VolumeFacesFrom(c, z)|
    decreases c.size.z - z
  {
    if z == c.size.z {
      assert VolumeFacesFrom(c, z) == {};
    } else {
      var here := LayerFacesFrom(c, z, 0);
      var rest := VolumeFacesFrom(c, z + 1);
      var m1 := EmitLayer(c, m, z, 0);
      LayerFacesCount(c, m, z, 0);
      VolumeFacesCount(c, m1, z + 1);
      assert VolumeFacesFrom(c, z) == here + rest;
      assert here !! rest;
    }
  }

  /** The basic mesher emits exactly four vertices and two triangles for every
      exposed face of the chunk, and nothing else. */
  lemma BasicMeshCounts(c: ChunkData)
    requires c.Allocated()
    ensures var r := GenerateBasicMesh(c);
            |r.vertices| == 4 * |AllVisibleFaces(c)| && r.triangleCount == 2 * |AllVisibleFaces(c)|
  {
    VolumeFacesCount(c, EmptyMesh, 0);
    assert VolumeFacesFrom(c, 0) == AllVisibleFaces(c);
  }

  /** A level-of-detail mesh does not depend on the level: at every level it
      holds four vertices and two triangles per exposed face of the chunk. */
  lemma LodMeshCounts(c: ChunkData, lodLevel: int, otherLevel: int)
    requires c.Allocated()
    ensures var r := GenerateLODMesh(c, lodLevel);
            |r.vertices| == 4 * |AllVisibleFaces(c)| && r.vertexCount == 4 * |AllVisibleFaces(c)|
            && r.triangleCount == 2 * |AllVisibleFaces(c)|
            && r == GenerateLODMesh(c, otherLevel)
  {
    BasicMeshCounts(c);
  }
}
