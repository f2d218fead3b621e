/** Core value types of the voxel engine: materials, voxels, faces, chunk sizes,
    the flat chunk store and the mesh buffers the meshers fill.

    Positions and vertex coordinates are integers in voxel units: the engine
    multiplies by a voxel size of 25 world units, a constant scale that every
    property below is invariant under. */
module VoxelTypes {

  /** The conventional Some/None wrapper used for lookups that may fail. */
  datatype Option<+T> = None | Some(value: T)

  /** A one-byte material identifier (the engine's material enum is uint8, and a
      byte is cast to it unchecked, so every value 0..255 can occur). */
  type Material = m: int | 0 <= m < 256

  const AIR: Material := 0
  const GRASS: Material := 1
  const DIRT: Material := 2
  const STONE: Material := 3
  const WOOD: Material := 4
  const LEAVES: Material := 5
  const SAND: Material := 6
  const WATER: Material := 7
  const SNOW: Material := 8
  const ICE: Material := 9

  /** One voxel: a single material byte. */
  datatype Voxel = Voxel(material: Material) {
    predicate IsAir() { material == AIR }
    predicate IsSolid() { material != AIR }
    predicate IsTransparent() { material == WATER || material == ICE }
  }

  const AirVoxel: Voxel := Voxel(AIR)

  /** Every voxel is exactly one of air or solid, and air is never transparent. */
  lemma VoxelClassification(v: Voxel)
    ensures v.IsAir() <==> !v.IsSolid()
    ensures v.IsTransparent() ==> v.IsSolid()
    ensures v.IsTransparent() <==> v.material in {WATER, ICE}
  {
  }

  /** The six axis-aligned faces of a voxel, in the engine's enumeration order. */
  datatype Face = Front | Back | Right | Left | Top | Bottom

  function FaceIndex(f: Face): (i: nat)
    ensures i < 6
  {
    match f
    case Front => 0
    case Back => 1
    case Right => 2
    case Left => 3
    case Top => 4
    case Bottom => 5
  }

  function FaceOfIndex(i: nat): (f: Face)
    requires i < 6
    ensures FaceIndex(f) == i
  {
    if i == 0 then Front
    else if i == 1 then Back
    else if i == 2 then Right
    else if i == 3 then Left
    else if i == 4 then Top
    else Bottom
  }

  /** FaceIndex and FaceOfIndex are mutually inverse. */
  lemma FaceIndexRoundTrip(f: Face)
    ensures FaceOfIndex(FaceIndex(f)) == f
  {
  }

  /** An integer 3-vector (FIntVector). Axis 0 is X, 1 is Y, 2 is Z. */
  datatype IntVec = IntVec(x: int, y: int, z: int) {
    function Get(axis: nat): int
      requires axis < 3
    {
      if axis == 0 then x else if axis == 1 then y else z
    }

    function Add(o: IntVec): IntVec {
      IntVec(x + o.x, y + o.y, z + o.z)
    }

    function Sub(o: IntVec): IntVec {
      IntVec(x - o.x, y - o.y, z - o.z)
    }

    function Neg(): IntVec {
      IntVec(-x, -y, -z)
    }

    function Scale(k: int): IntVec {
      IntVec(k * x, k * y, k * z)
    }

    function Dot(o: IntVec): int {
      x * o.x + y * o.y + z * o.z
    }

    function Cross(o: IntVec): IntVec {
      IntVec(y * o.z - z * o.y, z * o.x - x * o.z, x * o.y - y * o.x)
    }

    /** A unit vector along one of the three axes. */
    predicate IsUnitAxis() {
      Abs(x) + Abs(y) + Abs(z) == 1
    }

    /** This vector moved by d along one axis. */
    function Along(axis: nat, d: int): (r: IntVec)
      requires axis < 3
      ensures r.Get(axis) == Get(axis) + d
      ensures forall a :: 0 <= a < 3 && a != axis ==> r.Get(a) == Get(a)
    {
      if axis == 0 then IntVec(x + d, y, z)
      else if axis == 1 then IntVec(x, y + d, z)
      else IntVec(x, y, z + d)
    }
  }

  const Zero: IntVec := IntVec(0, 0, 0)

  function Abs(a: int): nat {
    if a < 0 then -a else a
  }

  /** Two vectors agreeing on all three axes are equal. */
  lemma IntVecExt(a: IntVec, b: IntVec)
    requires forall axis :: 0 <= axis < 3 ==> a.Get(axis) == b.Get(axis)
    ensures a == b
  {
    assert a.Get(0) == b.Get(0) && a.Get(1) == b.Get(1) && a.Get(2) == b.Get(2);
  }

  /** A non-zero integer multiple of a positive n is at least n away from zero. */
  lemma MulAwayFromZero(k: int, n: int)
    requires n > 0
    ensures k >= 1 ==> k * n >= n
    ensures k <= -1 ==> k * n <= -n
  {
    if k >= 1 {
      assert k * n == (k - 1) * n + n;
    } else if k <= -1 {
      assert k * n == (k + 1) * n - n;
    }
  }

  /** Mixed-radix digits are unique: a + b*n determines a and b when 0 <= a < n. */
  lemma {:induction false} MixedRadixUnique(a1: int, b1: int, a2: int, b2: int, n: int)
    requires 0 <= a1 < n && 0 <= a2 < n && 0 <= b1 && 0 <= b2
    requires a1 + b1 * n == a2 + b2 * n
    ensures a1 == a2 && b1 == b2
  {
    MulAwayFromZero(b2 - b1, n);
    assert (b2 - b1) * n == b2 * n - b1 * n;
  }

  /** A digit pair (a, b) with a < n and b < m encodes into [0, n*m). */
  lemma MixedRadixBound(a: int, b: int, n: int, m: int)
    requires 0 <= a < n && 0 <= b < m
    ensures 0 <= a + b * n < n * m
  {
    assert b * n <= (m - 1) * n by {
      assert (m - 1 - b) * n >= 0;
    }
  }

  /** Euclidean division decodes a mixed-radix number back into its digits. */
  lemma MixedRadixDecode(a: int, b: int, n: int)
    requires 0 <= a < n && 0 <= b
    ensures (a + b * n) % n == a && (a + b * n) / n == b
  {
    var i := a + b * n;
    assert i == i % n + (i / n) * n;
    MixedRadixUnique(a, b, i % n, i / n, n);
  }

  /** Chunk dimensions in voxels (int32 in the engine; the engine's
      configuration clamps them to 1..64, so products never overflow). */
  datatype ChunkSize = ChunkSize(x: nat, y: nat, z: nat) {
    function Get(axis: nat): nat
      requires axis < 3
    {
      if axis == 0 then x else if axis == 1 then y else z
    }

    function VoxelCount(): nat {
      x * y * z
    }

    predicate Contains(px: int, py: int, pz: int) {
      0 <= px < x && 0 <= py < y && 0 <= pz < z
    }

    predicate ContainsVec(p: IntVec) {
      Contains(p.x, p.y, p.z)
    }

    /** Flat index of a cell: X fastest, then Y, then Z. */
    function Index(px: int, py: int, pz: int): int {
      px + py * x + pz * x * y
    }
  }

  /** A cubic chunk size (the one-argument constructor). */
  function CubicSize(n: nat): (s: ChunkSize)
    ensures s.x == n && s.y == n && s.z == n
  {
    ChunkSize(n, n, n)
  }

  /** The default chunk size: 16 per side on mobile targets, 32 elsewhere. */
  function DefaultChunkSize(mobile: bool): (s: ChunkSize)
    ensures s.x == s.y == s.z
    ensures s.VoxelCount() == if mobile then 4096 else 32768
  {
    if mobile then CubicSize(16) else CubicSize(32)
  }

  /** The flat index of an in-bounds cell lies in [0, X*Y*Z). */
  lemma IndexInRange(s: ChunkSize, px: int, py: int, pz: int)
    requires s.Contains(px, py, pz)
    ensures 0 <= s.Index(px, py, pz) < s.VoxelCount()
  {
    MixedRadixBound(px, py, s.x, s.y);
    MixedRadixBound(px + py * s.x, pz, s.x * s.y, s.z);
    assert s.Index(px, py, pz) == (px + py * s.x) + pz * (s.x * s.y);
    assert s.x * s.y * s.z == (s.x * s.y) * s.z;
  }

  /** Distinct in-bounds cells have distinct flat indices. */
  lemma IndexInjective(s: ChunkSize, x1: int, y1: int, z1: int, x2: int, y2: int, z2: int)
    requires s.Contains(x1, y1, z1) && s.Contains(x2, y2, z2)
    requires s.Index(x1, y1, z1) == s.Index(x2, y2, z2)
    ensures x1 == x2 && y1 == y2 && z1 == z2
  {
    MixedRadixBound(x1, y1, s.x, s.y);
    MixedRadixBound(x2, y2, s.x, s.y);
    assert s.Index(x1, y1, z1) == (x1 + y1 * s.x) + z1 * (s.x * s.y);
    assert s.Index(x2, y2, z2) == (x2 + y2 * s.x) + z2 * (s.x * s.y);
    MixedRadixUnique(x1 + y1 * s.x, z1, x2 + y2 * s.x, z2, s.x * s.y);
    MixedRadixUnique(x1, y1, x2, y2, s.x);
  }

  /** A chunk's voxel store (FVoxelChunkData). The generation timestamp is not
      modelled. */
  datatype ChunkData = ChunkData(voxels: seq<Voxel>, size: ChunkSize, position: IntVec, dirty: bool) {

    /** The flat array covers every in-bounds cell. The engine sizes it to
        exactly X*Y*Z; decoders may store a longer array. */
    predicate Allocated() {
      |voxels| >= size.VoxelCount()
    }

    function GetIndex(px: int, py: int, pz: int): int {
      size.Index(px, py, pz)
    }

    /** Reads a cell; every out-of-bounds coordinate reads as air. */
    function GetVoxel(px: int, py: int, pz: int): (v: Voxel)
      requires Allocated()
      ensures !size.Contains(px, py, pz) ==> v == AirVoxel
      ensures size.Contains(px, py, pz) ==> v in voxels
    {
      if !size.Contains(px, py, pz) then AirVoxel
      else
        IndexInRange(size, px, py, pz);
        voxels[GetIndex(px, py, pz)]
    }

    /** Writes an in-bounds cell and marks the chunk dirty; out-of-bounds
        writes change nothing. */
    function SetVoxel(px: int, py: int, pz: int, v: Voxel): (r: ChunkData)
      requires Allocated()
      ensures r.Allocated() && |r.voxels| == |voxels|
      ensures r.size == size && r.position == position
      ensures !size.Contains(px, py, pz) ==> r == this
      ensures size.Contains(px, py, pz) ==> r.dirty && r.GetVoxel(px, py, pz) == v
      ensures forall qx, qy, qz :: (qx, qy, qz) != (px, py, pz) ==>
                r.GetVoxel(qx, qy, qz) == GetVoxel(qx, qy, qz)
    {
      if !size.Contains(px, py, pz) then this
      else
        IndexInRange(size, px, py, pz);
        var r := this.(voxels := voxels[GetIndex(px, py, pz) := v], dirty := true);
        assert forall qx, qy, qz :: (qx, qy, qz) != (px, py, pz) && size.Contains(qx, qy, qz) ==>
                 r.GetVoxel(qx, qy, qz) == GetVoxel(qx, qy, qz) by {
          forall qx, qy, qz | (qx, qy, qz) != (px, py, pz) && size.Contains(qx, qy, qz)
            ensures r.GetVoxel(qx, qy, qz) == GetVoxel(qx, qy, qz)
          {
            IndexInRange(size, qx, qy, qz);
            if size.Index(qx, qy, qz) == size.Index(px, py, pz) {
              IndexInjective(size, qx, qy, qz, px, py, pz);
            }
          }
        }
        r
    }

    /** Resets every stored voxel to air and marks the chunk dirty. */
    function Clear(): (r: ChunkData)
      requires Allocated()
      ensures r.Allocated() && |r.voxels| == |voxels| && r.size == size && r.position == position
      ensures r.dirty
      ensures forall i :: 0 <= i < |r.voxels| ==> r.voxels[i].IsAir()
      ensures forall qx, qy, qz :: r.GetVoxel(qx, qy, qz) == AirVoxel
    {
      this.(voxels := seq(|voxels|, _ => AirVoxel), dirty := true)
    }
  }

  /** An in-bounds read returns the voxel stored at the cell's flat index. */
  lemma ReadsStoredVoxel(c: ChunkData, px: int, py: int, pz: int)
    requires c.Allocated() && c.size.Contains(px, py, pz)
    ensures 0 <= c.size.Index(px, py, pz) < |c.voxels|
    ensures c.GetVoxel(px, py, pz) == c.voxels[c.size.Index(px, py, pz)]
  {
    IndexInRange(c.size, px, py, pz);
  }

  /** A freshly constructed chunk store: default size, origin, dirty, all air. */
  function NewChunkData(mobile: bool): (c: ChunkData)
    ensures c.Allocated() && |c.voxels| == c.size.VoxelCount()
    ensures c.size == DefaultChunkSize(mobile) && c.position == Zero && c.dirty
    ensures forall qx, qy, qz :: c.GetVoxel(qx, qy, qz) == AirVoxel
  {
    var s := DefaultChunkSize(mobile);
    ChunkData(seq(s.VoxelCount(), _ => AirVoxel), s, Zero, true)
  }

  /** A 2-D texture coordinate. */
  datatype Uv = Uv(u: int, v: int)

  /** An RGBA byte colour. */
  datatype Color = Color(r: int, g: int, b: int, a: int)

  const White: Color := Color(255, 255, 255, 255)

  /** Renderable mesh buffers (FVoxelMeshData). The generation time is not
      modelled. */
  /** Section numbers are 0, 1, 2, ... with no gaps or repeats. */
  predicate DenseSections(s: map<Material, int>) {
    (forall m :: m in s ==> 0 <= s[m] < |s|)
    && (forall m1, m2 :: m1 in s && m2 in s && m1 != m2 ==> s[m1] != s[m2])
  }

  datatype MeshData = MeshData(
    vertices: seq<IntVec>,
    triangles: seq<int>,
    normals: seq<IntVec>,
    uv0: seq<Uv>,
    tangents: seq<IntVec>,
    colors: seq<Color>,
    materialSections: map<Material, int>,
    materialTriangles: seq<int>,
    triangleCount: int,
    vertexCount: int)
  {
    /** The per-vertex attribute arrays run in parallel with the vertices. */
    predicate ParallelArrays() {
      |normals| == |vertices| && |uv0| == |vertices| && |tangents| == |vertices| && |colors| == |vertices|
    }

    /** Every index refers to an existing vertex and indices come in triples. */
    predicate IndicesValid() {
      |triangles| % 3 == 0 && forall i :: 0 <= i < |triangles| ==> 0 <= triangles[i] < |vertices|
    }

    /** Section numbers are 0, 1, 2, ... with no gaps or repeats. */
    predicate SectionsDense() {
      DenseSections(materialSections) == true
    }

    predicate Wf() {
      ParallelArrays() && IndicesValid() && SectionsDense()
    }

    predicate IsEmpty() {
      vertices == [] && triangles == [] && normals == [] && uv0 == [] && tangents == []
      && colors == [] && materialSections == map[] && materialTriangles == []
      && triangleCount == 0 && vertexCount == 0
    }

    /** Empties every buffer and zeroes both statistics. */
    function Clear(): (r: MeshData)
      ensures r.IsEmpty() && r.Wf()
    {
      MeshData([], [], [], [], [], [], map[], [], 0, 0)
    }
  }

  /** The default-constructed mesh buffers. */
  const EmptyMesh: MeshData := MeshData([], [], [], [], [], [], map[], [], 0, 0)

  /** A freshly constructed mesh is empty and well formed, and clearing any mesh
      gives exactly the freshly constructed one. */
  lemma EmptyMeshProperties(m: MeshData)
    ensures EmptyMesh.IsEmpty() && EmptyMesh.Wf()
    ensures m.Clear() == EmptyMesh
  {
  }
}
