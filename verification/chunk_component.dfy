/** The chunk component (UVoxelChunkComponent) and its actor (AVoxelChunk):
    the voxel store, the mesh buffers, the generation state machine, the
    level of detail and the pooling flag.

    The worker-pool mesh job is modelled as two steps: starting it records a
    snapshot of the voxel store and level of detail, and completing it
    meshes the snapshot and applies the result. Rendering (the procedural
    mesh section upload), delegates and debug drawing are not modelled;
    a broadcast of OnChunkGenerated is returned as a flag. */
module ChunkComponent {
  import opened VoxelTypes
  import MeshGenerator
  import GreedyPipeline

  datatype ChunkState = Uninitialized | Generating | Generated | Meshing | Ready | Unloading

  /** Level of detail, from no mesh to full detail. */
  datatype Lod = Unloaded | Lod3 | Lod2 | Lod1 | Lod0 {
    /** The enum's numeric value: larger is more detailed. */
    function Detail(): (d: nat)
      ensures d <= 4 && (d == 0 <==> this == Unloaded) && (d == 4 <==> this == Lod0)
    {
      match this
      case Unloaded => 0
      case Lod3 => 1
      case Lod2 => 2
      case Lod1 => 3
      case Lod0 => 4
    }
  }

  /** A mesh job handed to the worker pool: the snapshot it meshes. */
  datatype Job = Job(data: ChunkData, lod: Lod)

  /** The per-chunk statistics copied from the mesh when it is applied to a
      render mesh (the timing field is not modelled). */
  datatype Stats = Stats(triangleCount: int, vertexCount: int)

  /** A chunk component. `job` is Some while a worker-pool mesh job is in
      flight (the engine's generating flag); `renderMesh` says whether a
      procedural mesh component was found or created at BeginPlay. */
  datatype Component = Component(
    data: ChunkData,
    mesh: MeshData,
    state: ChunkState,
    lod: Lod,
    job: Option<Job>,
    renderMesh: bool,
    stats: Stats)
  {
    /** The voxel store always holds exactly one voxel per cell, and so does
        the snapshot of an in-flight job. */
    predicate Wf() {
      |data.voxels| == data.size.VoxelCount()
      && (job.Some? ==> |job.value.data.voxels| == job.value.data.size.VoxelCount())
    }

    predicate Generating() { job.Some? }
  }

  /** A freshly constructed component: default-size all-air store, empty
      mesh, Uninitialized, Unloaded, not generating. */
  function NewComponent(mobile: bool, renderMesh: bool): (c: Component)
    ensures c.Wf() && c.state == Uninitialized && c.lod == Unloaded && !c.Generating()
    ensures c.mesh.IsEmpty() && c.data.dirty
    ensures forall x, y, z :: c.data.GetVoxel(x, y, z) == AirVoxel
  {
    Component(NewChunkData(mobile), EmptyMesh, Uninitialized, Unloaded, None, renderMesh, Stats(0, 0))
  }

  /** Resizes a voxel array as TArray::SetNum does: surviving elements keep
      their values and added ones are default (air) voxels. */
  function Resize(vs: seq<Voxel>, n: nat): (r: seq<Voxel>)
    ensures |r| == n
    ensures forall i :: 0 <= i < n && i < |vs| ==> r[i] == vs[i]
    ensures forall i :: |vs| <= i < n ==> r[i] == AirVoxel
  {
    if n <= |vs| then vs[..n] else vs + seq(n - |vs|, _ => AirVoxel)
  }

  /** Sets position and size, marks the store dirty, resizes it to the new
      cell count and enters Generating. Voxels that survive the resize are
      not cleared. */
  function Initialize(c: Component, pos: IntVec, size: ChunkSize): (r: Component)
    requires c.Wf()
    ensures r.Wf()
    ensures r.data.position == pos && r.data.size == size && r.data.dirty && r.state == Generating
    ensures |r.data.voxels| == size.VoxelCount()
    ensures r.mesh == c.mesh && r.lod == c.lod && r.job == c.job
  {
    var d := c.data.(position := pos, size := size, dirty := true,
                     voxels := Resize(c.data.voxels, size.VoxelCount()));
    c.(data := d, state := Generating)
  }

  /** A re-initialised component keeps every old voxel whose flat index
      still fits, and reads air at the cells the resize added. */
  lemma InitializeKeepsOldVoxels(c: Component, pos: IntVec, size: ChunkSize, x: int, y: int, z: int)
    requires c.Wf() && size.Contains(x, y, z)
    ensures var r := Initialize(c, pos, size); var i := size.Index(x, y, z);
            0 <= i && (i < |c.data.voxels| ==> r.data.GetVoxel(x, y, z) == c.data.voxels[i])
            && (i >= |c.data.voxels| ==> r.data.GetVoxel(x, y, z) == AirVoxel)
  {
    IndexInRange(size, x, y, z);
  }

  /** Writes one cell of the store (out-of-bounds writes are ignored). */
  function SetVoxel(c: Component, x: int, y: int, z: int, m: Material): (r: Component)
    requires c.Wf()
    ensures r.Wf() && r.data.size == c.data.size
    ensures r.data.GetVoxel(x, y, z) == if c.data.size.Contains(x, y, z) then Voxel(m) else AirVoxel
    ensures forall qx, qy, qz :: (qx, qy, qz) != (x, y, z) ==> r.data.GetVoxel(qx, qy, qz) == c.data.GetVoxel(qx, qy, qz)
    ensures r.data.dirty == (c.data.dirty || c.data.size.Contains(x, y, z))
    ensures r.(data := c.data) == c
  {
    c.(data := c.data.SetVoxel(x, y, z, Voxel(m)))
  }

  /** Reads the material of one cell: the stored voxel's material inside the
      chunk, air outside. */
  function GetVoxel(c: Component, x: int, y: int, z: int): (m: Material)
    requires c.Wf()
    ensures !c.data.size.Contains(x, y, z) ==> m == AIR
    ensures c.data.size.Contains(x, y, z) ==>
              0 <= c.data.size.Index(x, y, z) < |c.data.voxels|
              && m == c.data.voxels[c.data.size.Index(x, y, z)].material
  {
    assert c.data.size.Contains(x, y, z) ==>
             0 <= c.data.size.Index(x, y, z) < |c.data.voxels|
             && c.data.GetVoxel(x, y, z) == c.data.voxels[c.data.size.Index(x, y, z)] by {
      if c.data.size.Contains(x, y, z) { ReadsStoredVoxel(c.data, x, y, z); }
    }
    c.data.GetVoxel(x, y, z).material
  }

  /** The material of the last write in the batch aimed at cell p, if any. */
  function LastWrite(ps: seq<IntVec>, ms: seq<Material>, p: IntVec): (w: Option<Material>)
    requires |ps| == |ms|
    ensures w.Some? <==> p in ps
    decreases |ps|
  {
    if ps == [] then None
    else if ps[|ps| - 1] == p then Some(ms[|ms| - 1])
    else LastWrite(ps[..|ps| - 1], ms[..|ms| - 1], p)
  }

  /** Whether any write of the batch lands inside the chunk. */
  predicate AnyInside(ps: seq<IntVec>, s: ChunkSize) {
    exists i :: 0 <= i < |ps| && s.ContainsVec(ps[i])
  }

  /** One write of the batch extends the invariant from the first i writes
      to the first i + 1. */
  lemma BatchStep(c: Component, r: Component, r': Component, ps: seq<IntVec>, ms: seq<Material>, i: nat)
    requires c.Wf() && r.Wf() && |ps| == |ms| && i < |ps|
    requires r.data.size == c.data.size
    requires r.data.dirty == (c.data.dirty || AnyInside(ps[..i], c.data.size))
    requires forall x, y, z :: c.data.size.Contains(x, y, z) ==>
               r.data.GetVoxel(x, y, z)
               == match LastWrite(ps[..i], ms[..i], IntVec(x, y, z))
                  case Some(m) => Voxel(m)
                  case None => c.data.GetVoxel(x, y, z)
    requires r' == SetVoxel(r, ps[i].x, ps[i].y, ps[i].z, ms[i])
    ensures r'.data.dirty == (c.data.dirty || AnyInside(ps[..i + 1], c.data.size))
    ensures forall x, y, z :: c.data.size.Contains(x, y, z) ==>
              r'.data.GetVoxel(x, y, z)
              == match LastWrite(ps[..i + 1], ms[..i + 1], IntVec(x, y, z))
                 case Some(m) => Voxel(m)
                 case None => c.data.GetVoxel(x, y, z)
  {
    var p := ps[i];
    assert ps[..i + 1][..i] == ps[..i] && ms[..i + 1][..i] == ms[..i];
    assert AnyInside(ps[..i + 1], c.data.size) == (AnyInside(ps[..i], c.data.size) || c.data.size.ContainsVec(p)) by {
      if c.data.size.ContainsVec(p) {
        assert ps[..i + 1][i] == p;
      }
      if AnyInside(ps[..i + 1], c.data.size) && !c.data.size.ContainsVec(p) {
        var j :| 0 <= j < i + 1 && c.data.size.ContainsVec(ps[..i + 1][j]);
        assert j < i && ps[..i][j] == ps[..i + 1][j];
      }
    }
  }

  /** Writes a batch of cells in order. Arrays of different lengths are
      rejected before any write. Afterwards each in-bounds cell holds the
      material of the last write aimed at it, or its old voxel. */
  method SetVoxelBatch(c: Component, ps: seq<IntVec>, ms: seq<Material>) returns (r: Component)
    requires c.Wf()
    ensures r.Wf()
    ensures |ps| != |ms| ==> r == c
    ensures |ps| == |ms| ==>
              r.(data := c.data) == c && r.data.size == c.data.size && r.data.position == c.data.position
              && r.data.dirty == (c.data.dirty || AnyInside(ps, c.data.size))
              && forall x, y, z :: c.data.size.Contains(x, y, z) ==>
                   r.data.GetVoxel(x, y, z)
                   == match LastWrite(ps, ms, IntVec(x, y, z))
                      case Some(m) => Voxel(m)
                      case None => c.data.GetVoxel(x, y, z)
  {
    if |ps| != |ms| {
      return c;
    }
    r := c;
    var i := 0;
    while i < |ps|
      invariant 0 <= i <= |ps|
      invariant r.Wf() && r.(data := c.data) == c
      invariant r.data.size == c.data.size && r.data.position == c.data.position
      invariant r.data.dirty == (c.data.dirty || AnyInside(ps[..i], c.data.size))
      invariant forall x, y, z :: c.data.size.Contains(x, y, z) ==>
                  r.data.GetVoxel(x, y, z)
                  == match LastWrite(ps[..i], ms[..i], IntVec(x, y, z))
                     case Some(m) => Voxel(m)
                     case None => c.data.GetVoxel(x, y, z)
    {
      var p := ps[i];
      var r' := SetVoxel(r, p.x, p.y, p.z, ms[i]);
      BatchStep(c, r, r', ps, ms, i);
      r := r';
      i := i + 1;
    }
    assert ps[..i] == ps && ms[..i] == ms;
  }

  /** The mesh the synchronous path leaves: full detail is greedy meshed
      from a cleared buffer; the lower-detail builders are empty stubs and
      leave the previous mesh in place. */
  function SyncMesh(c: Component): (m: MeshData)
    requires c.Wf()
    ensures c.lod == Lod0 ==> m.Wf() && 3 * m.triangleCount == |m.triangles|
    ensures c.lod != Lod0 ==> m == c.mesh
  {
    if c.lod == Lod0 then GreedyPipeline.GenerateGreedyMeshData(c.data) else c.mesh
  }

  /** The mesh a worker-pool job builds from its snapshot: greedy at full
      detail, the one-quad-per-face mesh at the lower levels, and an empty
      default mesh when unloaded. */
  function JobMesh(j: Job): (m: MeshData)
    requires |j.data.voxels| == j.data.size.VoxelCount()
    ensures m.Wf() && 3 * m.triangleCount == |m.triangles| && m.vertexCount == |m.vertices|
    ensures j.lod == Unloaded ==> m.IsEmpty()
  {
    match j.lod
    case Lod0 => GreedyPipeline.GenerateGreedyMeshData(j.data)
    case Lod1 => MeshGenerator.GenerateBasicMesh(j.data)
    case Lod2 => MeshGenerator.GenerateBasicMesh(j.data)
    case Lod3 => MeshGenerator.GenerateBasicMesh(j.data)
    case Unloaded => EmptyMesh
  }

  /** Installs the current mesh: Ready, store clean, statistics copied when
      a render mesh exists. Always broadcasts OnChunkGenerated. */
  function ApplyMeshData(c: Component): (r: Component)
    requires c.Wf()
    ensures r.Wf() && r.state == Ready && !r.data.dirty
    ensures r.data.voxels == c.data.voxels && r.mesh == c.mesh && r.lod == c.lod && r.job == c.job
    ensures r.stats == if c.renderMesh then Stats(c.mesh.triangleCount, c.mesh.vertexCount) else c.stats
  {
    var s := if c.renderMesh then Stats(c.mesh.triangleCount, c.mesh.vertexCount) else c.stats;
    c.(state := Ready, data := c.data.(dirty := false), stats := s)
  }

  /** Requests a mesh. Nothing happens while a job is in flight. Otherwise
      the state becomes Meshing and either a job is started on a snapshot
      (async) or the mesh is built and applied at once. The flag says
      whether OnChunkGenerated was broadcast. */
  function GenerateMesh(c: Component, async: bool): (res: (Component, bool))
    requires c.Wf()
    ensures res.0.Wf()
    ensures c.Generating() ==> res == (c, false)
    ensures !c.Generating() && async ==>
              res.0 == c.(state := Meshing, job := Some(Job(c.data, c.lod))) && !res.1
    ensures !c.Generating() && !async ==>
              res.0.state == Ready && !res.0.data.dirty && res.0.mesh == SyncMesh(c) && !res.0.Generating() && res.1
  {
    if c.Generating() then (c, false)
    else if async then (c.(state := Meshing, job := Some(Job(c.data, c.lod))), false)
    else (ApplyMeshData(c.(state := Meshing, mesh := SyncMesh(c))), true)
  }

  /** The worker-pool job finishes on the game thread: its mesh replaces the
      buffers, is applied, and the generating flag drops. */
  function CompleteJob(c: Component): (r: Component)
    requires c.Wf() && c.Generating()
    ensures r.Wf() && !r.Generating() && r.state == Ready && !r.data.dirty
    ensures r.mesh == JobMesh(c.job.value) && r.lod == c.lod && r.data.voxels == c.data.voxels
  {
    ApplyMeshData(c.(mesh := JobMesh(c.job.value), job := None))
  }

  /** At full detail, starting a job and completing it before any other
      change gives the same component as meshing synchronously. */
  lemma AsyncMatchesSyncAtFullDetail(c: Component)
    requires c.Wf() && !c.Generating() && c.lod == Lod0
    ensures CompleteJob(GenerateMesh(c, true).0) == GenerateMesh(c, false).0
  {
    var started := c.(state := Meshing, job := Some(Job(c.data, c.lod)));
    JobMatchesSync(c);
    assert started.(mesh := JobMesh(started.job.value), job := None) == c.(state := Meshing, mesh := SyncMesh(c));
  }

  /** A job on a snapshot of the store builds the synchronous path's mesh at
      full detail. */
  lemma JobMatchesSync(c: Component)
    requires c.Wf() && c.lod == Lod0
    ensures JobMesh(Job(c.data, c.lod)) == SyncMesh(c)
  {
    var g := GreedyPipeline.GenerateGreedyMeshData(c.data);
    assert JobMesh(Job(c.data, Lod0)) == g;
    assert SyncMesh(c) == g;
  }

  /** At the lower levels the two paths differ: the synchronous stubs keep
      the previous mesh while a job builds the one-quad-per-face mesh. */
  lemma SyncKeepsMeshBelowFullDetail(c: Component)
    requires c.Wf() && !c.Generating() && c.lod != Lod0 && c.lod != Unloaded
    ensures GenerateMesh(c, false).0.mesh == c.mesh
    ensures CompleteJob(GenerateMesh(c, true).0).mesh == MeshGenerator.GenerateBasicMesh(c.data)
  {
  }

  /** Empties the mesh buffers and returns to Uninitialized. */
  function ClearMesh(c: Component): (r: Component)
    requires c.Wf()
    ensures r.Wf() && r.mesh.IsEmpty() && r.state == Uninitialized
    ensures r.(mesh := c.mesh, state := c.state) == c
  {
    c.(mesh := c.mesh.Clear(), state := Uninitialized)
  }

  /** Switches the level of detail. The same level is a no-op; Unloaded
      clears the mesh; any other level starts an async mesh only when the
      store is dirty or the chunk is not Ready. */
  function SetLod(c: Component, l: Lod): (r: Component)
    requires c.Wf()
    ensures r.Wf()
    ensures l == c.lod ==> r == c
    ensures l != c.lod && l == Unloaded ==> r == ClearMesh(c.(lod := l))
    ensures l != c.lod && l != Unloaded && (c.data.dirty || c.state != Ready) ==> r == GenerateMesh(c.(lod := l), true).0
    ensures l != c.lod && l != Unloaded && !c.data.dirty && c.state == Ready ==> r == c.(lod := l)
  {
    if l == c.lod then c
    else
      var c1 := c.(lod := l);
      if l == Unloaded then ClearMesh(c1)
      else if c1.data.dirty || c1.state != Ready then GenerateMesh(c1, true).0
      else c1
  }

  /** Setting the same level twice is the same as setting it once. */
  lemma SetLodIdempotent(c: Component, l: Lod)
    requires c.Wf()
    ensures SetLod(SetLod(c, l), l) == SetLod(c, l)
  {
  }

  /** The level of detail for a distance, given as a squared distance in
      world units (None when no player pawn is cached, which the engine
      reads as the largest float). Thresholds are 5000, 10000, 20000 and
      30000 world units. */
  function TargetLod(dist2: Option<nat>): (l: Lod)
    ensures dist2.None? ==> l == Unloaded
    ensures dist2.Some? ==>
              (l == Lod0 <==> dist2.value < 5000 * 5000)
              && (l == Lod1 <==> 5000 * 5000 <= dist2.value < 10000 * 10000)
              && (l == Lod2 <==> 10000 * 10000 <= dist2.value < 20000 * 20000)
              && (l == Lod3 <==> 20000 * 20000 <= dist2.value < 30000 * 30000)
              && (l == Unloaded <==> 30000 * 30000 <= dist2.value)
  {
    match dist2
    case None => Unloaded
    case Some(d) =>
      if d < 5000 * 5000 then Lod0
      else if d < 10000 * 10000 then Lod1
      else if d < 20000 * 20000 then Lod2
      else if d < 30000 * 30000 then Lod3
      else Unloaded
  }

  /** A farther chunk never gets a more detailed level. */
  lemma TargetLodMonotone(d1: nat, d2: nat)
    requires d1 <= d2
    ensures TargetLod(Some(d2)).Detail() <= TargetLod(Some(d1)).Detail()
  {
  }

  /** A chunk actor: its component, the pool flag, and whether an owning
      world has been set. */
  datatype ChunkActor = ChunkActor(comp: Component, pooled: bool, hasWorld: bool) {
    predicate Wf() { comp.Wf() }
  }

  function NewActor(mobile: bool): (a: ChunkActor)
    ensures a.Wf() && !a.pooled && !a.hasWorld && a.comp.state == Uninitialized
  {
    ChunkActor(NewComponent(mobile, true), false, false)
  }

  /** Binds the actor to a world, clears the pool flag and initialises the
      component. */
  function InitializeChunk(a: ChunkActor, pos: IntVec, size: ChunkSize): (r: ChunkActor)
    requires a.Wf()
    ensures r.Wf() && !r.pooled && r.hasWorld && r.comp == Initialize(a.comp, pos, size)
  {
    ChunkActor(Initialize(a.comp, pos, size), false, true)
  }

  /** Parks the actor in the pool: flagged pooled, mesh cleared. */
  function ReturnToPool(a: ChunkActor): (r: ChunkActor)
    requires a.Wf()
    ensures r.Wf() && r.pooled && r.comp.mesh.IsEmpty() && r.comp.state == Uninitialized
    ensures r.comp.data == a.comp.data && r.comp.job == a.comp.job && r.hasWorld == a.hasWorld
  {
    a.(pooled := true, comp := ClearMesh(a.comp))
  }

  /** Takes the actor out of the pool: only the pool flag changes. */
  function ResetChunk(a: ChunkActor): (r: ChunkActor)
    requires a.Wf()
    ensures r.Wf() && !r.pooled && r.comp == a.comp && r.hasWorld == a.hasWorld
  {
    a.(pooled := false)
  }

  /** Resetting a pooled actor undoes only the pool flag: the mesh stays
      cleared and the component stays Uninitialized. */
  lemma PoolRoundTrip(a: ChunkActor)
    requires a.Wf()
    ensures var r := ResetChunk(ReturnToPool(a));
            !r.pooled && r.comp.mesh.IsEmpty() && r.comp.state == Uninitialized && r.comp.data == a.comp.data
  {
  }

  /** Chooses the level of detail for the player's distance. An actor
      without an owning world is left alone. */
  function UpdateLodBasedOnDistance(a: ChunkActor, dist2: Option<nat>): (r: ChunkActor)
    requires a.Wf()
    ensures r.Wf()
    ensures !a.hasWorld ==> r == a
    ensures a.hasWorld ==> r == a.(comp := SetLod(a.comp, TargetLod(dist2)))
  {
    if !a.hasWorld then a else a.(comp := SetLod(a.comp, TargetLod(dist2)))
  }
}
