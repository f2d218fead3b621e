/** The world streaming controller (AVoxelWorld): the map from chunk
    positions to active chunk actors, the LIFO pool of parked actors, the
    FIFO queue of mesh tasks and the in-flight generation counter.

    Actors are named by ids into an actor table, so that a chunk returned to
    the pool and later reused is recognisably the same actor. Positions are
    integers: chunk coordinates for chunks and world units (one voxel is 25
    units) for the tracked player. Float rounding is not modelled. */
module VoxelWorld {
  import opened VoxelTypes
  import opened ChunkComponent

  /** World units per voxel edge. */
  const VoxelSize: nat := 25
  /** Tasks dequeued per frame at most. */
  const MaxChunksPerFrame: nat := 5
  /** The priority given to every chunk while no player is tracked. */
  const NoPlayerPriority: int := 999

  type ChunkId = nat

  /** A queued mesh task. The priority is stored but never used for
      ordering: the queue is first in, first out. */
  datatype Task = Task(pos: IntVec, priority: int, regeneration: bool)

  datatype Config = Config(
    chunkSize: nat,
    viewDistance: nat,
    poolSize: nat,
    multithreading: bool,
    maxConcurrent: int,
    mobileBudgetMb: int,
    pcBudgetMb: int,
    mobile: bool)
  {
    /** The editor clamps the chunk size to at least 1; world-to-chunk
        conversion divides by it. */
    predicate Wf() { chunkSize >= 1 }

    /** The memory budget of the build's platform. */
    function Budget(): int { if mobile then mobileBudgetMb else pcBudgetMb }

    function Size(): ChunkSize { CubicSize(chunkSize) }
  }

  /** The default configuration of a desktop or mobile build. */
  function DefaultConfig(mobile: bool): (c: Config)
    ensures c.Wf() && c.poolSize == 100 && c.multithreading && c.maxConcurrent == 4
    ensures c.chunkSize == (if mobile then 16 else 32) && c.viewDistance == (if mobile then 6 else 10)
    ensures c.Budget() == (if mobile then 400 else 800)
  {
    if mobile then Config(16, 6, 100, true, 4, 400, 800, true)
    else Config(32, 10, 100, true, 4, 400, 800, false)
  }

  datatype World = World(
    active: map<IntVec, ChunkId>,
    pool: seq<ChunkId>,
    actors: map<ChunkId, ChunkActor>,
    queue: seq<Task>,
    activeGenerations: int,
    nextId: nat,
    config: Config,
    player: Option<IntVec>)
  {
    /** Every actor id is below the next fresh id; active and pooled ids
        name existing actors; no actor is active at two positions, pooled
        twice, or both active and pooled; an active actor is bound to the
        world, not flagged pooled, and its store sits at its map key with
        the configured size. */
    predicate Wf() {
      config.Wf()
      && (forall id :: id in actors ==> id < nextId && actors[id].Wf())
      && (forall p :: p in active ==> ActiveOk(p, active[p]))
      && (forall i :: 0 <= i < |pool| ==> pool[i] in actors)
      && (forall p, q :: p in active && q in active && p != q ==> active[p] != active[q])
      && (forall i, j :: 0 <= i < j < |pool| ==> pool[i] != pool[j])
      && (forall p, i :: p in active && 0 <= i < |pool| ==> active[p] != pool[i])
    }

    predicate ActiveOk(p: IntVec, id: ChunkId) {
      id in actors && actors[id].hasWorld && !actors[id].pooled
      && actors[id].comp.data.position == p && actors[id].comp.data.size == config.Size()
    }

    predicate IsPooled(id: ChunkId) {
      exists i :: 0 <= i < |pool| && pool[i] == id
    }
  }

  /** Replacing an actor by one with the same flags, position and size
      keeps the world well formed. */
  lemma WfUpdateActor(w: World, id: ChunkId, a: ChunkActor)
    requires w.Wf() && id in w.actors && a.Wf()
    requires a.hasWorld == w.actors[id].hasWorld && a.pooled == w.actors[id].pooled
    requires a.comp.data.position == w.actors[id].comp.data.position
    requires a.comp.data.size == w.actors[id].comp.data.size
    ensures w.(actors := w.actors[id := a]).Wf()
  {
    var r := w.(actors := w.actors[id := a]);
    assert forall p :: p in r.active ==> r.ActiveOk(p, r.active[p]) by {
      forall p | p in r.active ensures r.ActiveOk(p, r.active[p]) {
        assert w.ActiveOk(p, w.active[p]);
      }
    }
  }

  /** Replacing an actor that is not active keeps the world well formed. */
  lemma WfUpdateIdleActor(w: World, id: ChunkId, a: ChunkActor)
    requires w.Wf() && id in w.actors && a.Wf()
    requires forall p :: p in w.active ==> w.active[p] != id
    ensures w.(actors := w.actors[id := a]).Wf()
  {
    var r := w.(actors := w.actors[id := a]);
    assert forall p :: p in r.active ==> r.ActiveOk(p, r.active[p]) by {
      forall p | p in r.active ensures r.ActiveOk(p, r.active[p]) {
        assert w.ActiveOk(p, w.active[p]);
      }
    }
  }

  /** The queue and the counter play no part in well-formedness. */
  lemma WfIgnoresQueue(w: World, q: seq<Task>, g: int)
    requires w.Wf()
    ensures w.(queue := q, activeGenerations := g).Wf()
  {
  }

  /** Binding an idle, unpooled actor at a new position keeps the world
      well formed. */
  lemma WfAddActive(w: World, pos: IntVec, id: ChunkId)
    requires w.Wf() && pos !in w.active && !w.IsPooled(id) && w.ActiveOk(pos, id)
    requires forall p :: p in w.active ==> w.active[p] != id
    ensures w.(active := w.active[pos := id]).Wf()
  {
    var r := w.(active := w.active[pos := id]);
    assert forall p :: p in r.active ==> r.ActiveOk(p, r.active[p]) by {
      forall p | p in r.active ensures r.ActiveOk(p, r.active[p]) {
        if p != pos {
          assert w.ActiveOk(p, w.active[p]);
        }
      }
    }
  }

  /** BeginPlay: an empty world whose pool is pre-filled with freshly
      spawned actors. */
  function NewWorld(config: Config, player: Option<IntVec>): (w: World)
    requires config.Wf()
    ensures w.Wf() && w.active == map[] && |w.pool| == config.poolSize && w.queue == []
    ensures w.activeGenerations == 0 && w.config == config && w.player == player
  {
    World(map[], seq(config.poolSize, i => i), FreshActors(config.poolSize, config.mobile),
          [], 0, config.poolSize, config, player)
  }

  /** Actors 0..n-1, each freshly spawned. */
  function FreshActors(n: nat, mobile: bool): (m: map<ChunkId, ChunkActor>)
    ensures forall id :: id in m ==> id < n && m[id] == NewActor(mobile)
    ensures forall id: nat :: id < n ==> id in m
  {
    if n == 0 then map[] else FreshActors(n - 1, mobile)[n - 1 := NewActor(mobile)]
  }

  // ---------------------------------------------------------------------
  // Pool

  /** GetChunkFromPool: pops the most recently parked actor and resets its
      pool flag, or yields None when the pool is empty. */
  function PopPool(w: World): (r: (World, Option<ChunkId>))
    requires w.Wf()
    ensures r.0.Wf()
    ensures w.pool == [] ==> r == (w, None)
    ensures w.pool != [] ==>
              var id := w.pool[|w.pool| - 1];
              r.1 == Some(id) && r.0 == w.(pool := w.pool[..|w.pool| - 1], actors := w.actors[id := ResetChunk(w.actors[id])])
  {
    if w.pool == [] then (w, None)
    else
      var id := w.pool[|w.pool| - 1];
      var r := w.(pool := w.pool[..|w.pool| - 1], actors := w.actors[id := ResetChunk(w.actors[id])]);
      assert forall p :: p in r.active ==> r.ActiveOk(p, r.active[p]) by {
        forall p | p in r.active ensures r.ActiveOk(p, r.active[p]) {
          assert w.active[p] != w.pool[|w.pool| - 1];
        }
      }
      (r, Some(id))
  }

  /** ReturnChunkToPool: parks an actor that is neither active nor pooled,
      flagging it pooled and clearing its mesh. */
  function PushPool(w: World, id: ChunkId): (r: World)
    requires w.Wf() && id in w.actors && !w.IsPooled(id)
    requires forall p :: p in w.active ==> w.active[p] != id
    ensures r.Wf()
    ensures r == w.(pool := w.pool + [id], actors := w.actors[id := ReturnToPool(w.actors[id])])
  {
    var r := w.(pool := w.pool + [id], actors := w.actors[id := ReturnToPool(w.actors[id])]);
    assert forall i :: 0 <= i < |w.pool| ==> w.pool[i] != id;
    r
  }

  /** The pool is last in, first out: parking an actor and popping gives
      that actor back and the pool as it was. */
  lemma PoolIsLifo(w: World, id: ChunkId)
    requires w.Wf() && id in w.actors && !w.IsPooled(id)
    requires forall p :: p in w.active ==> w.active[p] != id
    ensures var r := PopPool(PushPool(w, id)); r.1 == Some(id) && r.0.pool == w.pool
    ensures PopPool(PushPool(w, id)).0.actors[id] == ResetChunk(ReturnToPool(w.actors[id]))
  {
    var w1 := PushPool(w, id);
    assert w1.pool[..|w1.pool| - 1] == w.pool;
  }

  // ---------------------------------------------------------------------
  // Distances and priorities

  /** The world-unit origin of a chunk. */
  function ChunkOrigin(c: Config, pos: IntVec): IntVec {
    pos.Scale(c.chunkSize * VoxelSize)
  }

  function Dist2(a: IntVec, b: IntVec): nat {
    var d := a.Sub(b);
    d.x * d.x + d.y * d.y + d.z * d.z
  }

  function Dist2D2(a: IntVec, b: IntVec): nat {
    var d := a.Sub(b);
    d.x * d.x + d.y * d.y
  }

  /** The largest step p in [lo, 999] with (1000p)^2 <= d2, searching up
      from lo. */
  function PrioritySearch(d2: nat, lo: nat): (r: nat)
    requires lo <= 999 && (1000 * lo) * (1000 * lo) <= d2
    ensures lo <= r <= 999 && (1000 * r) * (1000 * r) <= d2
    ensures r < 999 ==> d2 < (1000 * (r + 1)) * (1000 * (r + 1))
    decreases 999 - lo
  {
    if lo == 999 || d2 < (1000 * (lo + 1)) * (1000 * (lo + 1)) then lo
    else PrioritySearch(d2, lo + 1)
  }

  /** Floor of the distance in thousands of world units, clamped to
      [0, 999]; 999 with no player. The distance is given squared, so the
      result is the p with (1000p)^2 <= d2 < (1000(p+1))^2, or 999. */
  function CalculateChunkPriority(w: World, pos: IntVec): (r: int)
    ensures 0 <= r <= 999
    ensures w.player.None? ==> r == NoPlayerPriority
    ensures w.player.Some? ==>
              var d2 := Dist2(ChunkOrigin(w.config, pos), w.player.value);
              (1000 * r) * (1000 * r) <= d2 && (r < 999 ==> d2 < (1000 * (r + 1)) * (1000 * (r + 1)))
  {
    match w.player
    case None => NoPlayerPriority
    case Some(pl) => PrioritySearch(Dist2(ChunkOrigin(w.config, pos), pl), 0)
  }

  /** A chunk is wanted when the player is tracked and its origin lies
      within the view distance on the horizontal plane. */
  predicate ShouldLoadChunk(w: World, pos: IntVec) {
    match w.player
    case None => false
    case Some(pl) =>
      var reach := w.config.viewDistance * w.config.chunkSize * VoxelSize;
      Dist2D2(ChunkOrigin(w.config, pos), pl) <= reach * reach
  }

  // ---------------------------------------------------------------------
  // Creating and unloading chunks

  /** The placeholder terrain written into a new chunk: the lower half is
      stone, its top layer grass and the two layers beneath dirt. */
  function PatternMaterial(z: int, height: nat): (m: Material)
    ensures m == STONE || m == DIRT || m == GRASS
    ensures z == height / 2 - 1 ==> m == GRASS
  {
    if z == height / 2 - 1 then GRASS
    else if z > height / 2 - 4 then DIRT
    else STONE
  }

  /** Writes the placeholder terrain into every cell with z below half the
      height. The engine writes these cells one by one; they are distinct,
      so the order does not matter. */
  function FillTestPattern(c: Component): (r: Component)
    requires c.Wf()
    ensures r.Wf() && r.(data := c.data) == c
    ensures r.data.size == c.data.size && r.data.position == c.data.position
    ensures r.data.dirty == (c.data.dirty || (c.data.size.x * c.data.size.y * (c.data.size.z / 2) > 0))
  {
    var s := c.data.size;
    var layer := s.x * s.y;
    var n := layer * (s.z / 2);
    assert n <= |c.data.voxels| by {
      assert s.z / 2 <= s.z;
      assert layer * (s.z / 2) <= layer * s.z;
    }
    var vs := seq(|c.data.voxels|, i requires 0 <= i < |c.data.voxels| =>
                if i < n then Voxel(PatternMaterial(i / layer, s.z)) else c.data.voxels[i]);
    c.(data := c.data.(voxels := vs, dirty := c.data.dirty || n > 0))
  }

  /** With a < layer, the number a + z*layer lies below layer*h exactly
      when z < h. */
  lemma PrefixOfLayers(a: int, z: int, layer: int, h: int)
    requires 0 <= a < layer && 0 <= z && 0 <= h
    ensures a + z * layer < layer * h <==> z < h
  {
    if z < h {
      assert (h - (z + 1)) * layer >= 0;
      assert (z + 1) * layer <= layer * h;
    } else {
      assert (z - h) * layer >= 0;
      assert z * layer >= layer * h;
    }
  }

  /** The decoded layer of a flat index lies below half the height exactly
      when the index lies in the pattern's prefix. */
  lemma LayerOfIndex(s: ChunkSize, x: int, y: int, z: int)
    requires s.Contains(x, y, z)
    ensures var i := s.Index(x, y, z);
            s.x * s.y > 0 && i / (s.x * s.y) == z
            && (i < s.x * s.y * (s.z / 2) <==> z < s.z / 2)
  {
    var layer := s.x * s.y;
    var a := x + y * s.x;
    MixedRadixBound(x, y, s.x, s.y);
    assert s.Index(x, y, z) == a + z * layer;
    MixedRadixDecode(a, z, layer);
    PrefixOfLayers(a, z, layer, s.z / 2);
  }

  /** After the fill, each cell below half the height holds its pattern
      material and every other cell keeps its voxel. */
  lemma {:induction false} FillTestPatternReads(c: Component, x: int, y: int, z: int)
    requires c.Wf() && c.data.size.Contains(x, y, z)
    ensures FillTestPattern(c).data.GetVoxel(x, y, z)
            == if z < c.data.size.z / 2 then Voxel(PatternMaterial(z, c.data.size.z)) else c.data.GetVoxel(x, y, z)
  {
    LayerOfIndex(c.data.size, x, y, z);
    IndexInRange(c.data.size, x, y, z);
  }

  /** Takes an actor for a new chunk: the last pooled one, else a freshly
      spawned one when spawning succeeds, else None. */
  function AcquireActor(w: World, spawnOk: bool): (r: (World, Option<ChunkId>))
    requires w.Wf()
    ensures r.0.Wf() && r.0.active == w.active && r.0.queue == w.queue && r.0.config == w.config
    ensures r.0.player == w.player && r.0.activeGenerations == w.activeGenerations
    ensures w.pool != [] ==> r == PopPool(w)
    ensures w.pool == [] && !spawnOk ==> r == (w, None)
    ensures w.pool == [] && spawnOk ==>
              r.1 == Some(w.nextId) && w.nextId !in w.actors && r.0.pool == []
              && r.0.actors == w.actors[w.nextId := NewActor(w.config.mobile)]
    ensures r.1.Some? ==> r.0.IsPooled(r.1.value) == false && r.1.value in r.0.actors
                          && forall p :: p in r.0.active ==> r.0.active[p] != r.1.value
  {
    if w.pool != [] then
      var r := PopPool(w);
      assert forall i :: 0 <= i < |r.0.pool| ==> r.0.pool[i] == w.pool[i];
      r
    else if !spawnOk then (w, None)
    else
      var id := w.nextId;
      (w.(actors := w.actors[id := NewActor(w.config.mobile)], nextId := id + 1), Some(id))
  }

  /** Installs actor `id` at a new position: binds and initialises it,
      writes the placeholder terrain, and queues one non-regeneration mesh
      task with the position's priority. */
  function PlaceChunk(w: World, pos: IntVec, id: ChunkId): (r: World)
    requires w.Wf() && pos !in w.active && id in w.actors && !w.IsPooled(id)
    requires forall p :: p in w.active ==> w.active[p] != id
    ensures r.Wf()
    ensures r.active == w.active[pos := id] && r.pool == w.pool
    ensures r.queue == w.queue + [Task(pos, CalculateChunkPriority(w, pos), false)]
    ensures r.actors == w.actors[id := PlacedActor(w.actors[id], pos, w.config.Size())]
    ensures r.activeGenerations == w.activeGenerations && r.config == w.config && r.player == w.player
  {
    var a' := PlacedActor(w.actors[id], pos, w.config.Size());
    var w1 := w.(actors := w.actors[id := a']);
    WfUpdateIdleActor(w, id, a');
    WfAddActive(w1, pos, id);
    var w2 := w1.(active := w.active[pos := id]);
    WfIgnoresQueue(w2, w.queue + [Task(pos, CalculateChunkPriority(w, pos), false)], w.activeGenerations);
    w2.(queue := w.queue + [Task(pos, CalculateChunkPriority(w, pos), false)])
  }

  /** An actor bound at a position: initialised, then filled with the
      placeholder terrain. */
  function PlacedActor(a: ChunkActor, pos: IntVec, size: ChunkSize): (r: ChunkActor)
    requires a.Wf()
    ensures r.Wf() && r.hasWorld && !r.pooled && r.comp.data.position == pos && r.comp.data.size == size
    ensures r.comp == FillTestPattern(Initialize(a.comp, pos, size))
  {
    var b := InitializeChunk(a, pos, size);
    b.(comp := FillTestPattern(b.comp))
  }

  /** Returns the chunk at a position, creating it when absent. A present
      chunk is returned with nothing changed. A new chunk reuses the last
      pooled actor, or a freshly spawned one; when the pool is empty and
      spawning fails, nothing changes and None is returned. */
  function GetOrCreateChunk(w: World, pos: IntVec, spawnOk: bool): (r: (World, Option<ChunkId>))
    requires w.Wf()
    ensures r.0.Wf() && r.0.config == w.config && r.0.player == w.player
    ensures r.0.activeGenerations == w.activeGenerations
    ensures r.1.Some? ==> pos in r.0.active && r.0.active[pos] == r.1.value
    ensures forall p :: p in w.active ==> p in r.0.active && r.0.active[p] == w.active[p]
    ensures forall p :: p in r.0.active ==> p in w.active || p == pos
    ensures pos in w.active ==> r == (w, Some(w.active[pos]))
    ensures pos !in w.active && w.pool == [] && !spawnOk ==> r == (w, None)
    ensures pos !in w.active && (w.pool != [] || spawnOk) ==>
              r.1.Some? && r.0.active == w.active[pos := r.1.value]
              && r.0.queue == w.queue + [Task(pos, CalculateChunkPriority(w, pos), false)]
              && (w.pool != [] ==> r.1.value == w.pool[|w.pool| - 1] && r.0.pool == w.pool[..|w.pool| - 1])
              && (w.pool == [] ==> r.1.value !in w.actors && r.0.pool == [])
  {
    if pos in w.active then (w, Some(w.active[pos]))
    else
      var (w1, id) := AcquireActor(w, spawnOk);
      if id.None? then (w, None)
      else
        var r := PlaceChunk(w1, pos, id.value);
        assert CalculateChunkPriority(w1, pos) == CalculateChunkPriority(w, pos) by {
          assert w1.player == w.player && w1.config == w.config;
        }
        assert w.pool != [] ==> id.value == w.pool[|w.pool| - 1] && w1.pool == w.pool[..|w.pool| - 1] by {
          if w.pool != [] {
            assert (w1, id) == PopPool(w);
          }
        }
        (r, id)
  }

  /** A new chunk reads back the placeholder terrain below half its height.
      Above it, an actor reused from the pool still holds what re-initialisation
      kept: the parked voxel at the cell's flat index when the parked store is
      long enough, air otherwise; so a parked actor of the configured size
      reads back its own voxels. */
  lemma {:induction false} NewChunkContents(w: World, pos: IntVec, x: int, y: int, z: int)
    requires w.Wf() && pos !in w.active && w.pool != []
    requires w.config.Size().Contains(x, y, z)
    ensures var (r, id) := GetOrCreateChunk(w, pos, false);
            var old_ := w.actors[w.pool[|w.pool| - 1]].comp.data;
            var n := w.config.chunkSize;
            var i := w.config.Size().Index(x, y, z);
            id.Some? && id.value in r.actors
            && (z < n / 2 ==> r.actors[id.value].comp.data.GetVoxel(x, y, z) == Voxel(PatternMaterial(z, n)))
            && (z >= n / 2 && 0 <= i < |old_.voxels| ==> r.actors[id.value].comp.data.GetVoxel(x, y, z) == old_.voxels[i])
            && (z >= n / 2 && !(0 <= i < |old_.voxels|) ==> r.actors[id.value].comp.data.GetVoxel(x, y, z) == AirVoxel)
            && (z >= n / 2 && old_.size == w.config.Size() ==> r.actors[id.value].comp.data.GetVoxel(x, y, z) == old_.GetVoxel(x, y, z))
  {
    var id := w.pool[|w.pool| - 1];
    var a := w.actors[id];
    var s := w.config.Size();
    var c1 := Initialize(a.comp, pos, s);
    FillTestPatternReads(c1, x, y, z);
    InitializeKeepsOldVoxels(a.comp, pos, s, x, y, z);
    if a.comp.data.size == s {
      IndexInRange(s, x, y, z);
    }
  }

  /** Unloads the chunk at a position: the entry leaves the map and its
      actor is parked on the pool. An absent position changes nothing. */
  function UnloadChunk(w: World, pos: IntVec): (r: World)
    requires w.Wf()
    ensures r.Wf() && r.config == w.config && r.player == w.player
    ensures r.queue == w.queue && r.activeGenerations == w.activeGenerations
    ensures pos !in w.active ==> r == w
    ensures pos in w.active ==>
              r.active == w.active - {pos} && r.pool == w.pool + [w.active[pos]]
              && r.actors == w.actors[w.active[pos] := ReturnToPool(w.actors[w.active[pos]])]
  {
    if pos !in w.active then w
    else
      var id := w.active[pos];
      var w1 := w.(active := w.active - {pos});
      assert !w.IsPooled(id);
      PushPool(w1, id)
  }

  /** Unloading a chunk and then creating one at an absent position reuses
      the unloaded chunk's actor. */
  lemma UnloadThenCreateReuses(w: World, p: IntVec, q: IntVec, spawnOk: bool)
    requires w.Wf() && p in w.active && (q !in w.active || q == p)
    ensures var (r, id) := GetOrCreateChunk(UnloadChunk(w, p), q, spawnOk);
            id == Some(w.active[p]) && r.pool == w.pool && q in r.active
  {
    var w1 := UnloadChunk(w, p);
    assert w1.pool[..|w1.pool| - 1] == w.pool;
  }

  /** QueueChunkGeneration: appends a task at the back of the queue. */
  function QueueChunkGeneration(w: World, pos: IntVec, priority: int, regeneration: bool): (r: World)
    ensures |r.queue| == |w.queue| + 1 && r.queue[..|w.queue|] == w.queue
    ensures r.queue[|w.queue|] == Task(pos, priority, regeneration)
    ensures r.(queue := w.queue) == w
  {
    w.(queue := w.queue + [Task(pos, priority, regeneration)])
  }

  // ---------------------------------------------------------------------
  // Mesh tasks and the generation counter

  /** A dequeued task starts a mesh when its chunk is active and either not
      Ready or the task is a regeneration. */
  predicate TaskQualifies(w: World, t: Task)
    requires w.Wf()
  {
    t.pos in w.active && (w.actors[w.active[t.pos]].comp.state != Ready || t.regeneration)
  }

  /** Runs one dequeued task: a qualifying task bumps the counter and asks
      its chunk for an asynchronous mesh (which does nothing if a job is
      already in flight). */
  function RunTask(w: World, t: Task): (r: World)
    requires w.Wf()
    ensures r.Wf() && r.active == w.active && r.pool == w.pool && r.queue == w.queue
    ensures r.config == w.config && r.player == w.player
    ensures r.activeGenerations == w.activeGenerations + (if TaskQualifies(w, t) then 1 else 0)
    ensures TaskQualifies(w, t) ==>
              var id := w.active[t.pos];
              r.actors == w.actors[id := w.actors[id].(comp := GenerateMesh(w.actors[id].comp, true).0)]
    ensures !TaskQualifies(w, t) ==> r == w
  {
    if TaskQualifies(w, t) then
      var id := w.active[t.pos];
      var a := w.actors[id];
      var a' := a.(comp := GenerateMesh(a.comp, true).0);
      WfUpdateActor(w, id, a');
      var w1 := w.(actors := w.actors[id := a']);
      WfIgnoresQueue(w1, w1.queue, w.activeGenerations + 1);
      w1.(activeGenerations := w.activeGenerations + 1)
    else w
  }

  /** Takes the front task off the queue and runs it. */
  function Dequeue(w: World): (r: World)
    requires w.Wf() && w.queue != []
    ensures r.Wf() && r.active == w.active && r.pool == w.pool && r.queue == w.queue[1..]
    ensures r.config == w.config && r.player == w.player
    ensures w.activeGenerations <= r.activeGenerations <= w.activeGenerations + 1
  {
    WfIgnoresQueue(w, w.queue[1..], w.activeGenerations);
    RunTask(w.(queue := w.queue[1..]), w.queue[0])
  }

  /** The per-frame drain loop from `processed` tasks on. Returns the world
      and how many tasks it dequeued. */
  function Drain(w: World, processed: nat): (r: (World, nat))
    requires w.Wf() && processed <= MaxChunksPerFrame
    ensures r.0.Wf() && r.0.active == w.active && r.0.pool == w.pool
    ensures r.0.config == w.config && r.0.player == w.player
    ensures r.1 <= |w.queue| && processed + r.1 <= MaxChunksPerFrame
    ensures r.0.queue == w.queue[r.1..]
    ensures w.activeGenerations <= r.0.activeGenerations <= w.activeGenerations + r.1
    ensures r.1 < |w.queue| && processed + r.1 < MaxChunksPerFrame ==>
              r.0.activeGenerations >= w.config.maxConcurrent
    decreases |w.queue|
  {
    if w.activeGenerations >= w.config.maxConcurrent || processed >= MaxChunksPerFrame || w.queue == [] then
      (w, 0)
    else
      var w1 := Dequeue(w);
      var (w2, k) := Drain(w1, processed + 1);
      assert w.queue[1..][k..] == w.queue[k + 1..];
      (w2, k + 1)
  }

  /** ProcessChunkTasks: with multithreading off nothing happens; otherwise
      tasks are taken from the front of the queue, at most five per frame,
      until the counter reaches the concurrency limit. */
  function ProcessChunkTasks(w: World): (r: World)
    requires w.Wf()
    ensures r.Wf() && r.active == w.active && r.pool == w.pool && r.config == w.config
    ensures !w.config.multithreading ==> r == w
    ensures w.config.multithreading ==>
              var k := |w.queue| - |r.queue|;
              0 <= k <= MaxChunksPerFrame && r.queue == w.queue[k..]
              && w.activeGenerations <= r.activeGenerations <= w.activeGenerations + k
              && (k < MaxChunksPerFrame && r.queue != [] ==> r.activeGenerations >= w.config.maxConcurrent)
  {
    if !w.config.multithreading then w else Drain(w, 0).0
  }

  /** OnChunkGenerated: every broadcast decrements the counter. */
  function OnChunkGenerated(w: World): (r: World)
    ensures w.Wf() ==> r.Wf()
    ensures r.activeGenerations == w.activeGenerations - 1
    ensures r.(activeGenerations := w.activeGenerations) == w
  {
    w.(activeGenerations := w.activeGenerations - 1)
  }

  /** The game-thread half of an asynchronous mesh job of actor `id`
      (active or parked): the mesh is applied and the broadcast decrements
      the counter. */
  function CompleteChunkJob(w: World, id: ChunkId): (r: World)
    requires w.Wf() && id in w.actors && w.actors[id].comp.Generating()
    ensures r.Wf() && r.active == w.active && r.pool == w.pool && r.queue == w.queue
    ensures r.activeGenerations == w.activeGenerations - 1
    ensures r.actors == w.actors[id := w.actors[id].(comp := CompleteJob(w.actors[id].comp))]
  {
    var a := w.actors[id].(comp := CompleteJob(w.actors[id].comp));
    WfUpdateActor(w, id, a);
    OnChunkGenerated(w.(actors := w.actors[id := a]))
  }

  /** RegenerateChunk: asks an active chunk for a mesh (asynchronous when
      multithreading is on), without touching the counter; a synchronous
      mesh broadcasts at once and so decrements it. */
  function RegenerateChunk(w: World, pos: IntVec): (r: World)
    requires w.Wf()
    ensures r.Wf() && r.active == w.active && r.pool == w.pool && r.queue == w.queue
    ensures pos !in w.active ==> r == w
    ensures pos in w.active ==>
              var id := w.active[pos];
              var g := GenerateMesh(w.actors[id].comp, w.config.multithreading);
              r.actors == w.actors[id := w.actors[id].(comp := g.0)]
              && r.activeGenerations == w.activeGenerations - (if g.1 then 1 else 0)
  {
    if pos !in w.active then w
    else
      var id := w.active[pos];
      var g := GenerateMesh(w.actors[id].comp, w.config.multithreading);
      var a := w.actors[id].(comp := g.0);
      WfUpdateActor(w, id, a);
      var w1 := w.(actors := w.actors[id := a]);
      if g.1 then OnChunkGenerated(w1) else w1
  }

  /** The counter is not balanced. A regeneration of an idle chunk never
      increments it, yet its completion decrements it: with multithreading
      on, regenerating and completing the job leaves it one lower. */
  lemma RegenerationUnderflowsCounter(w: World, pos: IntVec)
    requires w.Wf() && pos in w.active && !w.actors[w.active[pos]].comp.Generating()
    requires w.config.multithreading
    ensures var w1 := RegenerateChunk(w, pos);
            w1.actors[w.active[pos]].comp.Generating()
            && CompleteChunkJob(w1, w.active[pos]).activeGenerations == w.activeGenerations - 1
  {
  }

  /** The counter is not balanced the other way either: a qualifying task
      for a chunk whose job is still in flight bumps the counter while the
      chunk ignores the request, so no completion will ever match it. */
  lemma BusyChunkTaskLeaksCounter(w: World, t: Task)
    requires w.Wf() && TaskQualifies(w, t) && w.actors[w.active[t.pos]].comp.Generating()
    ensures RunTask(w, t).activeGenerations == w.activeGenerations + 1
    ensures RunTask(w, t).actors == w.actors
  {
    var id := w.active[t.pos];
    assert w.actors[id := w.actors[id]] == w.actors;
  }

  // ---------------------------------------------------------------------
  // Editing voxels

  /** A local coordinate on the outer layer of the chunk on some axis. */
  predicate OnBoundary(local: IntVec, n: int) {
    local.x == 0 || local.x == n - 1 || local.y == 0 || local.y == n - 1 || local.z == 0 || local.z == n - 1
  }

  /** The i-th of the 27 offsets in {-1,0,1}^3, with X outermost and Z
      innermost; offset 13 is the centre. */
  function NeighbourOffset(i: nat): IntVec
    requires i < 27
  {
    IntVec(i / 9 - 1, i / 3 % 3 - 1, i % 3 - 1)
  }

  predicate IsNeighbour(c: IntVec, p: IntVec) {
    p != c && -1 <= p.x - c.x <= 1 && -1 <= p.y - c.y <= 1 && -1 <= p.z - c.z <= 1
  }

  /** Regeneration tasks (priority 1) for the active neighbours of `c`
      among offsets i..26, in loop order. */
  function NeighbourTasks(c: IntVec, active: map<IntVec, ChunkId>, i: nat): (ts: seq<Task>)
    requires i <= 27
    ensures |ts| <= 27 - i
    ensures forall k :: 0 <= k < |ts| ==>
              ts[k].priority == 1 && ts[k].regeneration && ts[k].pos in active && IsNeighbour(c, ts[k].pos)
    decreases 27 - i
  {
    if i == 27 then []
    else
      var p := c.Add(NeighbourOffset(i));
      (if i != 13 && p in active then [Task(p, 1, true)] else []) + NeighbourTasks(c, active, i + 1)
  }

  /** Each offset index from i on whose neighbour is active contributes
      its task. */
  lemma {:induction false} NeighbourTasksComplete(c: IntVec, active: map<IntVec, ChunkId>, i: nat, j: nat)
    requires i <= j < 27 && j != 13 && c.Add(NeighbourOffset(j)) in active
    ensures Task(c.Add(NeighbourOffset(j)), 1, true) in NeighbourTasks(c, active, i)
    decreases 27 - i
  {
    if i < j {
      NeighbourTasksComplete(c, active, i + 1, j);
    }
  }

  /** Every neighbour of `c` is reached by an offset index other than 13. */
  lemma OffsetOfNeighbour(c: IntVec, p: IntVec) returns (j: nat)
    requires IsNeighbour(c, p)
    ensures j < 27 && j != 13 && c.Add(NeighbourOffset(j)) == p
  {
    var dx, dy, dz := p.x - c.x + 1, p.y - c.y + 1, p.z - c.z + 1;
    j := dx * 9 + dy * 3 + dz;
    assert j / 9 == dx && j / 3 % 3 == dy && j % 3 == dz;
  }

  /** The neighbour tasks name exactly the active neighbours. */
  lemma NeighbourTasksExact(c: IntVec, active: map<IntVec, ChunkId>, p: IntVec)
    ensures Task(p, 1, true) in NeighbourTasks(c, active, 0) <==> p in active && IsNeighbour(c, p)
  {
    if p in active && IsNeighbour(c, p) {
      var j := OffsetOfNeighbour(c, p);
      NeighbourTasksComplete(c, active, 0, j);
    }
  }

  /** Writes a cell of the active chunk at `pos`; nothing else changes. */
  function WriteVoxel(w: World, pos: IntVec, local: IntVec, m: Material): (r: World)
    requires w.Wf() && pos in w.active
    ensures r.Wf() && r.active == w.active && r.pool == w.pool && r.queue == w.queue && r.config == w.config
    ensures r.actors == w.actors[w.active[pos] := w.actors[w.active[pos]].(comp :=
              ChunkComponent.SetVoxel(w.actors[w.active[pos]].comp, local.x, local.y, local.z, m))]
  {
    var id := w.active[pos];
    var a' := w.actors[id].(comp := ChunkComponent.SetVoxel(w.actors[id].comp, local.x, local.y, local.z, m));
    WfUpdateActor(w, id, a');
    w.(actors := w.actors[id := a'])
  }

  /** After an edit at `local` in chunk `pos`: when the cell lies on the
      chunk's outer layer, a regeneration task is queued for every active
      neighbouring chunk; an interior edit queues nothing. */
  function PropagateEdit(w: World, pos: IntVec, local: IntVec): (r: World)
    ensures w.Wf() ==> r.Wf()
    ensures r.(queue := w.queue) == w
    ensures !OnBoundary(local, w.config.chunkSize) ==> r.queue == w.queue
    ensures OnBoundary(local, w.config.chunkSize) ==>
              |r.queue| >= |w.queue| && r.queue[..|w.queue|] == w.queue
              && forall t :: t in r.queue[|w.queue|..] <==> t.priority == 1 && t.regeneration && t.pos in w.active && IsNeighbour(pos, t.pos)
  {
    if OnBoundary(local, w.config.chunkSize) then
      var ts := NeighbourTasks(pos, w.active, 0);
      var r := w.(queue := w.queue + ts);
      assert r.queue[|w.queue|..] == ts;
      assert forall t :: t in ts <==> t.priority == 1 && t.regeneration && t.pos in w.active && IsNeighbour(pos, t.pos) by {
        forall t ensures t in ts <==> t.priority == 1 && t.regeneration && t.pos in w.active && IsNeighbour(pos, t.pos) {
          NeighbourTasksExact(pos, w.active, t.pos);
        }
      }
      r
    else w
  }

  /** SetVoxel on the world, with the chunk and the local cell already
      resolved: gets or creates the chunk, writes the cell, then propagates
      the edit to the neighbours. Nothing happens when no chunk could be
      obtained. */
  function SetVoxelAt(w: World, chunkPos: IntVec, local: IntVec, m: Material, spawnOk: bool): (r: World)
    requires w.Wf()
    ensures r.Wf() && r.config == w.config
    ensures GetOrCreateChunk(w, chunkPos, spawnOk).1.None? ==> r == w
    ensures GetOrCreateChunk(w, chunkPos, spawnOk).1.Some? ==>
              var w1 := GetOrCreateChunk(w, chunkPos, spawnOk).0;
              chunkPos in w1.active && r == PropagateEdit(WriteVoxel(w1, chunkPos, local, m), chunkPos, local)
  {
    var (w1, id) := GetOrCreateChunk(w, chunkPos, spawnOk);
    if id.None? then w
    else PropagateEdit(WriteVoxel(w1, chunkPos, local, m), chunkPos, local)
  }

  /** GetVoxel on the world: the chunk's cell, or air when no chunk is
      active there. */
  function VoxelAt(w: World, chunkPos: IntVec, local: IntVec): (m: Material)
    requires w.Wf()
    ensures chunkPos !in w.active ==> m == AIR
    ensures !w.config.Size().ContainsVec(local) ==> m == AIR
    ensures chunkPos in w.active && w.config.Size().ContainsVec(local) ==>
              var d := w.actors[w.active[chunkPos]].comp.data;
              0 <= d.size.Index(local.x, local.y, local.z) < |d.voxels|
              && m == d.voxels[d.size.Index(local.x, local.y, local.z)].material
  {
    if chunkPos !in w.active then AIR
    else ChunkComponent.GetVoxel(w.actors[w.active[chunkPos]].comp, local.x, local.y, local.z)
  }

  /** Writing a voxel and reading it back gives the written material when
      the cell lies inside the chunk and a chunk could be obtained. */
  lemma SetThenGetVoxel(w: World, chunkPos: IntVec, local: IntVec, m: Material, spawnOk: bool)
    requires w.Wf() && w.config.Size().ContainsVec(local)
    requires chunkPos in w.active || w.pool != [] || spawnOk
    ensures VoxelAt(SetVoxelAt(w, chunkPos, local, m, spawnOk), chunkPos, local) == m
  {
    var (w1, id) := GetOrCreateChunk(w, chunkPos, spawnOk);
    assert id.Some? && chunkPos in w1.active && w1.active[chunkPos] == id.value;
    var w2 := WriteVoxel(w1, chunkPos, local, m);
    var r := PropagateEdit(w2, chunkPos, local);
    assert SetVoxelAt(w, chunkPos, local, m, spawnOk) == r;
    assert r.active == w2.active && r.actors == w2.actors by {
      assert r.(queue := w2.queue) == w2;
    }
    var c := w1.actors[id.value].comp;
    assert w1.config.Size() == c.data.size;
    assert w2.actors[id.value].comp == ChunkComponent.SetVoxel(c, local.x, local.y, local.z, m);
  }
}
