/** Streaming around the tracked player (AVoxelWorld::UpdateChunks) and the
    memory budget (UpdateMemoryUsage followed by EnforceMemoryBudget).

    Map iteration order is not something the engine fixes, so where it
    matters it is a parameter: a sequence enumerating the active positions.
    Distances are compared squared, which orders them the same way. */
module WorldStreaming {
  import opened VoxelTypes
  import opened ChunkComponent
  import opened VoxelWorld

  // ---------------------------------------------------------------------
  // Loading and unloading around the player

  /** Floor division of a world-unit position by the chunk's world extent:
      the chunk containing it. */
  function WorldToChunk(c: Config, p: IntVec): (r: IntVec)
    requires c.Wf()
    ensures var e := c.chunkSize * VoxelSize;
            ChunkOrigin(c, r).x <= p.x < ChunkOrigin(c, r).x + e
            && ChunkOrigin(c, r).y <= p.y < ChunkOrigin(c, r).y + e
            && ChunkOrigin(c, r).z <= p.z < ChunkOrigin(c, r).z + e
  {
    var e := c.chunkSize * VoxelSize;
    IntVec(p.x / e, p.y / e, p.z / e)
  }

  /** The player's chunk. */
  function PlayerChunk(w: World): IntVec
    requires w.Wf() && w.player.Some?
  {
    WorldToChunk(w.config, w.player.value)
  }

  /** Positions the load loop visits: X and Y within the view distance of
      the centre, Z within two chunks. */
  predicate InWindow(center: IntVec, v: nat, p: IntVec) {
    Abs(p.x - center.x) <= v && Abs(p.y - center.y) <= v && Abs(p.z - center.z) <= 2
  }

  /** The i-th position of the load loop: X outermost, then Y, Z innermost. */
  function WindowCell(center: IntVec, v: nat, i: nat): IntVec {
    var side := 2 * v + 1;
    IntVec(center.x + i / 5 / side - v, center.y + i / 5 % side - v, center.z + i % 5 - 2)
  }

  /** The load loop's positions in visiting order. */
  function Window(center: IntVec, v: nat): (ps: seq<IntVec>)
    ensures |ps| == (2 * v + 1) * (2 * v + 1) * 5
    ensures forall i :: 0 <= i < |ps| ==> ps[i] == WindowCell(center, v, i)
  {
    seq((2 * v + 1) * (2 * v + 1) * 5, i requires 0 <= i => WindowCell(center, v, i))
  }

  /** A quotient of a number below n*b by b is below n. */
  lemma QuotientBelow(a: int, b: int, n: int)
    requires 0 <= a < n * b && b > 0
    ensures a / b < n
  {
    var q := a / b;
    assert q * b <= a;
    assert (n - q) * b > 0 by {
      assert (n - q) * b == n * b - q * b;
    }
    MulAwayFromZero(n - q, b);
  }

  /** The three digits of a loop index below side*side*5 are in range. */
  lemma WindowDigits(i: int, side: int)
    requires side > 0 && 0 <= i < side * side * 5
    ensures 0 <= i / 5 / side < side && 0 <= i / 5 % side < side && 0 <= i % 5 < 5
  {
    var q := i / 5;
    assert q < side * side by {
      QuotientBelow(i, 5, side * side);
    }
    QuotientBelow(q, side, side);
  }

  /** Every visited position lies in the window. */
  lemma WindowSound(center: IntVec, v: nat, i: nat)
    requires i < (2 * v + 1) * (2 * v + 1) * 5
    ensures InWindow(center, v, WindowCell(center, v, i))
  {
    var side := 2 * v + 1;
    WindowDigits(i, side);
    var dx, dy, dz := i / 5 / side, i / 5 % side, i % 5;
    assert WindowCell(center, v, i) == IntVec(center.x + dx - v, center.y + dy - v, center.z + dz - 2);
  }

  /** Every window position is visited. */
  lemma {:induction false} WindowComplete(center: IntVec, v: nat, p: IntVec)
    requires InWindow(center, v, p)
    ensures p in Window(center, v)
  {
    var side := 2 * v + 1;
    var dx, dy, dz := p.x - center.x + v, p.y - center.y + v, p.z - center.z + 2;
    var row := dy + dx * side;
    var i := dz + row * 5;
    MixedRadixDecode(dz, row, 5);
    MixedRadixDecode(dy, dx, side);
    MixedRadixBound(dy, dx, side, side);
    MixedRadixBound(dz, row, 5, side * side);
    assert side * side * 5 == 5 * (side * side);
    assert WindowCell(center, v, i) == p;
    assert Window(center, v)[i] == p;
  }

  /** One step of the load loop: a wanted position without a chunk gets
      one. */
  function LoadOne(w: World, pos: IntVec, spawnOk: bool): (r: World)
    requires w.Wf()
    ensures r.Wf() && r.config == w.config && r.player == w.player
    ensures forall p :: p in w.active ==> p in r.active && r.active[p] == w.active[p]
    ensures forall p :: p in r.active ==> p in w.active || (p == pos && ShouldLoadChunk(w, pos))
    ensures spawnOk && ShouldLoadChunk(w, pos) ==> pos in r.active
  {
    if ShouldLoadChunk(w, pos) && pos !in w.active then GetOrCreateChunk(w, pos, spawnOk).0 else w
  }

  /** The load loop over `ps`. */
  function LoadAll(w: World, ps: seq<IntVec>, spawnOk: bool): (r: World)
    requires w.Wf()
    ensures r.Wf() && r.config == w.config && r.player == w.player
    decreases |ps|
  {
    if ps == [] then w else LoadAll(LoadOne(w, ps[0], spawnOk), ps[1..], spawnOk)
  }

  /** Existing chunks are untouched by the load loop, every new chunk is
      wanted, and when spawning succeeds every wanted position visited is
      loaded. */
  lemma {:induction false} LoadAllLoadsWanted(w: World, ps: seq<IntVec>, spawnOk: bool)
    requires w.Wf()
    ensures var r := LoadAll(w, ps, spawnOk);
            (forall p :: p in w.active ==> p in r.active && r.active[p] == w.active[p])
            && (forall p :: p in r.active ==> p in w.active || ShouldLoadChunk(w, p))
            && (spawnOk ==> forall i :: 0 <= i < |ps| && ShouldLoadChunk(w, ps[i]) ==> ps[i] in r.active)
    decreases |ps|
  {
    if ps != [] {
      var w1 := LoadOne(w, ps[0], spawnOk);
      LoadAllLoadsWanted(w1, ps[1..], spawnOk);
      var r := LoadAll(w1, ps[1..], spawnOk);
      forall p | p in r.active ensures p in w.active || ShouldLoadChunk(w, p) {
        SameViewSameWanted(w1, w, p);
      }
      if spawnOk {
        forall i | 0 <= i < |ps| && ShouldLoadChunk(w, ps[i]) ensures ps[i] in r.active {
          if i > 0 {
            assert ps[i] == ps[1..][i - 1];
            SameViewSameWanted(w1, w, ps[i]);
          }
        }
      }
    }
  }

  /** Whether a chunk is wanted depends only on the configuration and the
      player. */
  lemma SameViewSameWanted(a: World, b: World, p: IntVec)
    requires a.config == b.config && a.player == b.player
    ensures ShouldLoadChunk(a, p) == ShouldLoadChunk(b, p)
  {
  }

  /** Lists the positions of a set once each, in an unspecified order (the
      order in which the engine iterates its map). */
  method ListPositions(s: set<IntVec>) returns (xs: seq<IntVec>)
    ensures forall p :: p in xs <==> p in s
    ensures forall i, j :: 0 <= i < j < |xs| ==> xs[i] != xs[j]
  {
    var left := s;
    xs := [];
    while left != {}
      invariant left <= s
      invariant forall p :: p in xs ==> p in s && p !in left
      invariant forall p :: p in s ==> p in xs || p in left
      invariant forall i, j :: 0 <= i < j < |xs| ==> xs[i] != xs[j]
      decreases |left|
    {
      var p :| p in left;
      xs := xs + [p];
      left := left - {p};
    }
  }

  /** Unloads every chunk at a position of `doomed`, in an unspecified
      order; the others stay with their actors. */
  method UnloadSet(w: World, doomed: set<IntVec>) returns (r: World)
    requires w.Wf()
    ensures r.Wf() && r.config == w.config && r.player == w.player
    ensures forall p :: p in r.active <==> p in w.active && p !in doomed
    ensures forall p :: p in r.active ==> r.active[p] == w.active[p]
  {
    var xs := ListPositions(doomed);
    r := UnloadAll(w, xs);
    UnloadAllKeepsRest(w, xs);
  }

  /** UpdateChunks. Without a tracked player nothing happens. Otherwise
      every wanted position in the window around the player's chunk that
      has no chunk gets one, then every active chunk that is not wanted is
      unloaded. Afterwards every active chunk is wanted, and chunks that were
      already active and wanted keep their actors. The unload order (the
      map's iteration order) is left open. */
  method UpdateChunks(w: World, spawnOk: bool) returns (r: World)
    requires w.Wf()
    ensures r.Wf() && r.config == w.config && r.player == w.player
    ensures w.player.None? ==> r == w
    ensures w.player.Some? ==>
              (forall p :: p in r.active ==> ShouldLoadChunk(w, p))
              && (forall p :: p in w.active && ShouldLoadChunk(w, p) ==> p in r.active && r.active[p] == w.active[p])
    ensures w.player.Some? && spawnOk ==>
              forall p :: InWindow(PlayerChunk(w), w.config.viewDistance, p) && ShouldLoadChunk(w, p) ==> p in r.active
  {
    if w.player.None? {
      return w;
    }
    var center := PlayerChunk(w);
    var ps := Window(center, w.config.viewDistance);
    var loaded := LoadAll(w, ps, spawnOk);
    LoadAllLoadsWanted(w, ps, spawnOk);
    var doomed := set p | p in loaded.active && !ShouldLoadChunk(w, p);
    r := UnloadSet(loaded, doomed);
    if spawnOk {
      forall p | InWindow(center, w.config.viewDistance, p) && ShouldLoadChunk(w, p)
        ensures p in r.active
      {
        WindowComplete(center, w.config.viewDistance, p);
        var i :| 0 <= i < |ps| && ps[i] == p;
      }
    }
  }

  // ---------------------------------------------------------------------
  // Memory budget

  /** `ks` lists each key of the map exactly once. */
  predicate Enumerates(ks: seq<IntVec>, m: map<IntVec, ChunkId>) {
    (forall i, j :: 0 <= i < j < |ks| ==> ks[i] != ks[j])
    && (forall p :: p in m ==> p in ks) && (forall p :: p in ks ==> p in m)
  }

  /** Triangle and vertex totals of the chunks at `ks`. */
  function TotalStats(w: World, ks: seq<IntVec>): (t: Stats)
    requires w.Wf() && forall p :: p in ks ==> p in w.active
  {
    if ks == [] then Stats(0, 0)
    else
      var s := w.actors[w.active[ks[0]]].comp.stats;
      var rest := TotalStats(w, ks[1..]);
      Stats(s.triangleCount + rest.triangleCount, s.vertexCount + rest.vertexCount)
  }

  /** 2^20, the bytes in a megabyte. */
  const MiB: nat := 1048576

  /** The memory estimate in megabytes scaled by 10 * 2^20, so that it is an
      integer: 0.1 MB per chunk, 32 bytes per vertex, 12 bytes per triangle
      become 2^20, 320 and 120. */
  function ScaledMemoryEstimate(w: World, ks: seq<IntVec>): int
    requires w.Wf() && forall p :: p in ks ==> p in w.active
  {
    var t := TotalStats(w, ks);
    |ks| * MiB + 320 * t.vertexCount + 120 * t.triangleCount
  }

  /** Whether the estimate exceeds the platform budget. */
  predicate OverBudget(w: World, ks: seq<IntVec>)
    requires w.Wf() && forall p :: p in ks ==> p in w.active
  {
    ScaledMemoryEstimate(w, ks) > w.config.Budget() * 10 * MiB
  }

  /** The eviction key: squared distance from the chunk's origin to the
      player, or to the world origin with no player. */
  function EvictionKey(w: World, p: IntVec): nat {
    var center := match w.player case None => Zero case Some(pl) => pl;
    Dist2(ChunkOrigin(w.config, p), center)
  }

  predicate SortedFarthestFirst(w: World, s: seq<IntVec>) {
    forall i, j :: 0 <= i < j < |s| ==> EvictionKey(w, s[i]) >= EvictionKey(w, s[j])
  }

  /** A sorted tail headed by an element at least as far as all of it is
      sorted. */
  lemma SortedCons(w: World, a: IntVec, t: seq<IntVec>)
    requires SortedFarthestFirst(w, t)
    requires forall x :: x in t ==> EvictionKey(w, a) >= EvictionKey(w, x)
    ensures SortedFarthestFirst(w, [a] + t)
  {
    var r := [a] + t;
    forall i, j | 0 <= i < j < |r| ensures EvictionKey(w, r[i]) >= EvictionKey(w, r[j]) {
      assert r[j] == t[j - 1];
      if i > 0 {
        assert r[i] == t[i - 1];
      }
    }
  }

  /** Inserts p before the first element no farther than it. */
  function InsertFarthestFirst(w: World, p: IntVec, s: seq<IntVec>): (r: seq<IntVec>)
    ensures multiset(r) == multiset(s) + multiset{p} && |r| == |s| + 1
  {
    if s == [] || EvictionKey(w, p) >= EvictionKey(w, s[0]) then [p] + s
    else
      assert s == [s[0]] + s[1..];
      [s[0]] + InsertFarthestFirst(w, p, s[1..])
  }

  /** Inserting into a farthest-first sequence keeps it farthest first. */
  lemma {:induction false} InsertKeepsOrder(w: World, p: IntVec, s: seq<IntVec>)
    requires SortedFarthestFirst(w, s)
    ensures SortedFarthestFirst(w, InsertFarthestFirst(w, p, s))
    decreases |s|
  {
    if s == [] || EvictionKey(w, p) >= EvictionKey(w, s[0]) {
      forall x | x in s ensures EvictionKey(w, p) >= EvictionKey(w, x) {
        var j :| 0 <= j < |s| && s[j] == x;
        if j > 0 {
          assert EvictionKey(w, s[0]) >= EvictionKey(w, s[j]);
        }
      }
      SortedCons(w, p, s);
    } else {
      var t := InsertFarthestFirst(w, p, s[1..]);
      InsertKeepsOrder(w, p, s[1..]);
      forall x | x in t ensures EvictionKey(w, s[0]) >= EvictionKey(w, x) {
        assert x in multiset(t);
        if x != p {
          assert x in multiset(s[1..]);
          var j :| 0 <= j < |s[1..]| && s[1..][j] == x;
          assert s[j + 1] == x;
        }
      }
      SortedCons(w, s[0], t);
    }
  }

  /** Orders positions farthest first (an insertion sort). */
  function SortFarthestFirst(w: World, s: seq<IntVec>): (r: seq<IntVec>)
    ensures multiset(r) == multiset(s) && |r| == |s|
  {
    if s == [] then []
    else
      assert s == [s[0]] + s[1..];
      InsertFarthestFirst(w, s[0], SortFarthestFirst(w, s[1..]))
  }

  /** The sort's output is farthest first. */
  lemma {:induction false} SortIsOrdered(w: World, s: seq<IntVec>)
    ensures SortedFarthestFirst(w, SortFarthestFirst(w, s))
    decreases |s|
  {
    if s != [] {
      SortIsOrdered(w, s[1..]);
      InsertKeepsOrder(w, s[0], SortFarthestFirst(w, s[1..]));
    }
  }

  /** A reordering of a sequence without repeats has no repeats. */
  lemma {:induction false} PermutationKeepsDistinct(a: seq<IntVec>, b: seq<IntVec>)
    requires multiset(a) == multiset(b)
    requires forall i, j :: 0 <= i < j < |a| ==> a[i] != a[j]
    ensures forall i, j :: 0 <= i < j < |b| ==> b[i] != b[j]
  {
    forall i, j | 0 <= i < j < |b| ensures b[i] != b[j] {
      if b[i] == b[j] {
        var x := b[i];
        assert b == b[..i] + [x] + b[i + 1..j] + [x] + b[j + 1..];
        assert multiset(b)[x] >= 2;
        DistinctCountsOnce(a, x);
      }
    }
  }

  /** In a sequence without repeats every element occurs at most once. */
  lemma {:induction false} DistinctCountsOnce(a: seq<IntVec>, x: IntVec)
    requires forall i, j :: 0 <= i < j < |a| ==> a[i] != a[j]
    ensures multiset(a)[x] <= 1
    decreases |a|
  {
    if a != [] {
      assert a == [a[0]] + a[1..];
      DistinctCountsOnce(a[1..], x);
      if a[0] == x {
        assert x !in a[1..];
      }
    }
  }

  /** Unloads the listed positions in order. */
  function UnloadAll(w: World, ps: seq<IntVec>): (r: World)
    requires w.Wf()
    ensures r.Wf() && r.config == w.config && r.player == w.player && r.queue == w.queue
    decreases |ps|
  {
    if ps == [] then w else UnloadAll(UnloadChunk(w, ps[0]), ps[1..])
  }

  /** After UnloadAll exactly the unlisted chunks stay, with their actors. */
  lemma {:induction false} UnloadAllKeepsRest(w: World, ps: seq<IntVec>)
    requires w.Wf()
    ensures var r := UnloadAll(w, ps);
            (forall p :: p in r.active <==> p in w.active && p !in ps)
            && (forall p :: p in r.active ==> r.active[p] == w.active[p])
    decreases |ps|
  {
    if ps != [] {
      UnloadAllKeepsRest(UnloadChunk(w, ps[0]), ps[1..]);
      assert forall p :: p in ps <==> p == ps[0] || p in ps[1..];
    }
  }

  /** Unloading distinct active positions returns each one's actor to the
      pool. */
  lemma {:induction false} UnloadAllGrowsPool(w: World, ps: seq<IntVec>)
    requires w.Wf()
    requires forall i, j :: 0 <= i < j < |ps| ==> ps[i] != ps[j]
    requires forall p :: p in ps ==> p in w.active
    ensures |UnloadAll(w, ps).pool| == |w.pool| + |ps|
    decreases |ps|
  {
    if ps != [] {
      var w1 := UnloadChunk(w, ps[0]);
      forall p | p in ps[1..] ensures p in w1.active {
        var j :| 0 <= j < |ps[1..]| && ps[1..][j] == p;
        assert ps[j + 1] == p && ps[0] != ps[j + 1];
      }
      UnloadAllGrowsPool(w1, ps[1..]);
    }
  }

  /** How many chunks one over-budget check unloads: a tenth, at least one,
      at most all. */
  function EvictionCount(n: nat): (k: nat)
    ensures k <= n && (n > 0 ==> k >= 1) && (n >= 10 ==> k == n / 10)
    ensures 0 < n < 10 ==> k == 1
  {
    var k := if n / 10 > 1 then n / 10 else 1;
    if k < n then k else n
  }

  /** The chunks EnforceMemoryBudget unloads when over budget: the first
      EvictionCount of the farthest-first order. */
  function Victims(w: World, ks: seq<IntVec>): (vs: seq<IntVec>)
    ensures |vs| == EvictionCount(|ks|)
    ensures forall p :: p in vs ==> p in ks
  {
    var ranked := SortFarthestFirst(w, ks);
    var vs := ranked[..EvictionCount(|ks|)];
    assert forall p :: p in vs ==> p in multiset(ranked);
    vs
  }

  /** EnforceMemoryBudget, with `ks` the map's iteration order. Within
      budget nothing changes; over budget the victims are unloaded. Equal
      distances are broken by `ks`; the engine's unstable sort breaks them
      arbitrarily. */
  function EnforceMemoryBudget(w: World, ks: seq<IntVec>): (r: World)
    requires w.Wf() && Enumerates(ks, w.active)
    ensures r.Wf() && r.config == w.config && r.player == w.player && r.queue == w.queue
    ensures !OverBudget(w, ks) ==> r == w
  {
    if !OverBudget(w, ks) then w else UnloadAll(w, Victims(w, ks))
  }

  /** Over budget, a tenth of the chunks (at least one) go back to the pool,
      the rest keep their actors, and every unloaded chunk is at least as far
      from the player as every chunk kept. */
  lemma EvictsFarthest(w: World, ks: seq<IntVec>)
    requires w.Wf() && Enumerates(ks, w.active) && OverBudget(w, ks)
    ensures var r := EnforceMemoryBudget(w, ks);
            |r.pool| == |w.pool| + EvictionCount(|ks|)
            && (forall p :: p in r.active ==> p in w.active && r.active[p] == w.active[p])
            && (forall p, q :: p in w.active && p !in r.active && q in r.active ==>
                  EvictionKey(w, p) >= EvictionKey(w, q))
  {
    var ranked := SortFarthestFirst(w, ks);
    SortIsOrdered(w, ks);
    var k := EvictionCount(|ks|);
    var victims := Victims(w, ks);
    assert victims == ranked[..k];
    PermutationKeepsDistinct(ks, ranked);
    UnloadAllGrowsPool(w, victims);
    UnloadAllKeepsRest(w, victims);
    var r := UnloadAll(w, victims);
    forall p, q | p in w.active && p !in r.active && q in r.active
      ensures EvictionKey(w, p) >= EvictionKey(w, q)
    {
      var i :| 0 <= i < k && victims[i] == p;
      assert q in multiset(ks);
      assert q in ranked;
      var j :| 0 <= j < |ranked| && ranked[j] == q;
      assert q !in victims;
      assert j >= k;
    }
  }
}
