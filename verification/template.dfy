/** World templates: saving the active chunks of a world as compressed byte
    arrays, and loading one chunk back.

    The compressor is a foreign library; it enters as a pair of function
    parameters, and the round trip is stated as an assumption (`RoundTrips`)
    of the lemmas that need it. The template's name, date and creator are
    clock and OS metadata; only the name is kept. */
module WorldTemplate {
  import opened VoxelTypes
  import opened ChunkComponent
  import opened VoxelWorld
  import opened WorldStreaming

  /** One unsigned byte of serialised voxel data. */
  type Byte = b: int | 0 <= b < 256

  /** The bounds start from the extremes of a signed 32-bit integer. */
  const Int32Max: int := 0x7FFF_FFFF
  const Int32Min: int := -0x8000_0000

  /** A saved chunk (FVoxelTemplateChunk). */
  datatype TemplateChunk = TemplateChunk(position: IntVec, compressed: seq<Byte>, uncompressedSize: nat, hasData: bool)

  /** A template asset (UVoxelWorldTemplate), without landmarks and
      variation settings. */
  datatype Template = Template(name: string, chunkSize: nat, minPos: IntVec, maxPos: IntVec, chunks: seq<TemplateChunk>)

  /** A fresh template: 32 voxels per side, bounds at the origin, no chunks. */
  const EmptyTemplate: Template := Template("Unnamed Template", 32, Zero, Zero, [])

  /** What SaveWorldAsTemplate reads from a world: its configured chunk size
      and the list of active chunks, where None stands for an entry without
      a chunk component. */
  datatype SourceWorld = SourceWorld(chunkSize: nat, activeChunks: seq<Option<ChunkData>>)

  /** Compression succeeds, or fails with no output. */
  type Compressor = seq<Byte> -> Option<seq<Byte>>

  /** Decompression into a buffer of the given size. */
  type Decompressor = (seq<Byte>, nat) -> Option<seq<Byte>>

  /** The decompressor writes into a buffer already sized to the requested
      length, so a successful decompression has exactly that many bytes. */
  ghost predicate FillsBuffer(decompress: Decompressor) {
    forall d, n :: decompress(d, n).Some? ==> |decompress(d, n).value| == n
  }

  /** Decompressing a successful compression at the original size gives
      back the original bytes. */
  ghost predicate RoundTrips(compress: Compressor, decompress: Decompressor) {
    forall d :: compress(d).Some? ==> decompress(compress(d).value, |d|) == Some(d)
  }

  // ---------------------------------------------------------------------
  // Byte conversion

  /** The material's byte value (the engine's cast to uint8). */
  function MaterialToByte(m: Material): (b: Byte)
    ensures b as int == m as int
  {
    m
  }

  /** The material with the byte's value (the engine's unchecked cast). */
  function ByteToMaterial(b: Byte): (m: Material)
    ensures m as int == b as int
  {
    b
  }

  /** Both casts are the identity on values, so each inverts the other. */
  lemma ByteMaterialRoundTrip(m: Material, b: Byte)
    ensures ByteToMaterial(MaterialToByte(m)) == m
    ensures MaterialToByte(ByteToMaterial(b)) == b
  {
  }

  /** One byte per voxel, holding its material. */
  function Serialize(vs: seq<Voxel>): (bs: seq<Byte>)
    ensures |bs| == |vs|
    ensures forall i :: 0 <= i < |vs| ==> ByteToMaterial(bs[i]) == vs[i].material
  {
    seq(|vs|, i requires 0 <= i < |vs| => MaterialToByte(vs[i].material))
  }

  /** One voxel per byte, with the byte as its material. */
  function Deserialize(bs: seq<Byte>): (vs: seq<Voxel>)
    ensures |vs| == |bs|
    ensures forall i :: 0 <= i < |bs| ==> MaterialToByte(vs[i].material) == bs[i]
  {
    seq(|bs|, i requires 0 <= i < |bs| => Voxel(ByteToMaterial(bs[i])))
  }

  /** Deserialising serialised voxels gives them back, and the other way
      round. */
  lemma {:induction false} SerializeRoundTrip(vs: seq<Voxel>, bs: seq<Byte>)
    ensures Deserialize(Serialize(vs)) == vs
    ensures Serialize(Deserialize(bs)) == bs
  {
    var a := Deserialize(Serialize(vs));
    forall i | 0 <= i < |vs| ensures a[i] == vs[i] {
      ByteMaterialRoundTrip(vs[i].material, 0);
    }
    var b := Serialize(Deserialize(bs));
    forall i | 0 <= i < |bs| ensures b[i] == bs[i] {
      ByteMaterialRoundTrip(AIR, bs[i]);
    }
  }

  // ---------------------------------------------------------------------
  // Lookup

  /** HasChunkData: some saved chunk sits at the position and holds data. */
  predicate HasChunkData(t: Template, pos: IntVec) {
    exists i :: 0 <= i < |t.chunks| && t.chunks[i].position == pos && t.chunks[i].hasData
  }

  /** The first saved chunk at the position holding data. */
  function FindChunk(cs: seq<TemplateChunk>, pos: IntVec): (r: Option<nat>)
    ensures r.Some? ==> r.value < |cs| && cs[r.value].position == pos && cs[r.value].hasData
    ensures r.Some? ==> forall j :: 0 <= j < r.value ==> !(cs[j].position == pos && cs[j].hasData)
    ensures r.None? <==> forall j :: 0 <= j < |cs| ==> !(cs[j].position == pos && cs[j].hasData)
  {
    if cs == [] then None
    else if cs[0].position == pos && cs[0].hasData then Some(0)
    else match FindChunk(cs[1..], pos)
      case None => None
      case Some(k) => Some(k + 1)
  }

  /** The lookup LoadChunkFromTemplate performs succeeds exactly when
      HasChunkData holds. */
  lemma FindIffHasData(t: Template, pos: IntVec)
    ensures FindChunk(t.chunks, pos).Some? <==> HasChunkData(t, pos)
  {
    if FindChunk(t.chunks, pos).Some? {
      var k := FindChunk(t.chunks, pos).value;
      assert t.chunks[k].position == pos && t.chunks[k].hasData;
    }
  }

  // ---------------------------------------------------------------------
  // Loading

  /** LoadChunkFromTemplate. With no template, no chunk with data at the
      position, or a failed decompression, it reports false and `out` is
      returned untouched. Otherwise the first matching chunk is decompressed
      at its recorded size and the result is a dirty cubic chunk of the
      template's size at the position, one voxel per byte. */
  function LoadChunkFromTemplate(t: Option<Template>, pos: IntVec, out: ChunkData, decompress: Decompressor): (r: (ChunkData, bool))
    ensures !r.1 ==> r.0 == out
    ensures r.1 <==> t.Some? && FindChunk(t.value.chunks, pos).Some?
                     && decompress(t.value.chunks[FindChunk(t.value.chunks, pos).value].compressed,
                                   t.value.chunks[FindChunk(t.value.chunks, pos).value].uncompressedSize).Some?
    ensures r.1 ==> r.0.position == pos && r.0.size == CubicSize(t.value.chunkSize) && r.0.dirty
    ensures r.1 ==> var tc := t.value.chunks[FindChunk(t.value.chunks, pos).value];
                    Serialize(r.0.voxels) == decompress(tc.compressed, tc.uncompressedSize).value
    ensures FillsBuffer(decompress) && r.1 ==>
              |r.0.voxels| == t.value.chunks[FindChunk(t.value.chunks, pos).value].uncompressedSize
  {
    if t.None? then (out, false)
    else match FindChunk(t.value.chunks, pos)
      case None => (out, false)
      case Some(k) =>
        var tc := t.value.chunks[k];
        match decompress(tc.compressed, tc.uncompressedSize)
        case None => (out, false)
        case Some(bytes) =>
          SerializeRoundTrip([], bytes);
          (ChunkData(Deserialize(bytes), CubicSize(t.value.chunkSize), pos, true), true)
  }

  // ---------------------------------------------------------------------
  // Saving

  /** Component-wise minimum and maximum of the positions of the present
      chunks, starting from the 32-bit extremes. */
  function Bounds(cs: seq<Option<ChunkData>>): (r: (IntVec, IntVec))
  {
    if cs == [] then (IntVec(Int32Max, Int32Max, Int32Max), IntVec(Int32Min, Int32Min, Int32Min))
    else
      var (lo, hi) := Bounds(cs[1..]);
      match cs[0]
      case None => (lo, hi)
      case Some(c) =>
        var p := c.position;
        (IntVec(Min(lo.x, p.x), Min(lo.y, p.y), Min(lo.z, p.z)),
         IntVec(Max(hi.x, p.x), Max(hi.y, p.y), Max(hi.z, p.z)))
  }

  function Min(a: int, b: int): int { if a <= b then a else b }
  function Max(a: int, b: int): int { if a >= b then a else b }

  /** The lower bound lies below every present position on every axis, and
      is the 32-bit maximum or attained by one of them; dually for the upper
      bound. */
  lemma {:induction false} BoundsAreExtremes(cs: seq<Option<ChunkData>>, axis: nat)
    requires axis < 3
    ensures var (lo, hi) := Bounds(cs);
            (forall i :: 0 <= i < |cs| && cs[i].Some? ==>
               lo.Get(axis) <= cs[i].value.position.Get(axis) <= hi.Get(axis))
            && lo.Get(axis) <= Int32Max && hi.Get(axis) >= Int32Min
            && (lo.Get(axis) == Int32Max
                || exists i :: 0 <= i < |cs| && cs[i].Some? && cs[i].value.position.Get(axis) == lo.Get(axis))
            && (hi.Get(axis) == Int32Min
                || exists i :: 0 <= i < |cs| && cs[i].Some? && cs[i].value.position.Get(axis) == hi.Get(axis))
    decreases |cs|
  {
    if cs != [] {
      BoundsAreExtremes(cs[1..], axis);
      var (lo, hi) := Bounds(cs[1..]);
      forall i | 0 <= i < |cs| - 1 && cs[1..][i].Some? ensures cs[i + 1].Some? {
      }
      if lo.Get(axis) != Int32Max {
        var i :| 0 <= i < |cs[1..]| && cs[1..][i].Some? && cs[1..][i].value.position.Get(axis) == lo.Get(axis);
        assert cs[i + 1] == cs[1..][i];
      }
      if hi.Get(axis) != Int32Min {
        var i :| 0 <= i < |cs[1..]| && cs[1..][i].Some? && cs[1..][i].value.position.Get(axis) == hi.Get(axis);
        assert cs[i + 1] == cs[1..][i];
      }
    }
  }

  /** The saved form of one chunk, or None when compression fails. */
  function SaveChunk(c: ChunkData, compress: Compressor): (r: Option<TemplateChunk>)
    ensures r.Some? <==> compress(Serialize(c.voxels)).Some?
    ensures r.Some? ==> r.value.position == c.position && r.value.hasData
                        && r.value.uncompressedSize == |c.voxels|
                        && r.value.compressed == compress(Serialize(c.voxels)).value
  {
    var bytes := Serialize(c.voxels);
    match compress(bytes)
    case None => None
    case Some(z) => Some(TemplateChunk(c.position, z, |bytes|, true))
  }

  /** The saved chunks, in list order, skipping absent entries and failed
      compressions. */
  function SaveChunks(cs: seq<Option<ChunkData>>, compress: Compressor): (r: seq<TemplateChunk>)
    ensures |r| <= |cs|
    ensures forall k :: 0 <= k < |r| ==> r[k].hasData
  {
    if cs == [] then []
    else
      var rest := SaveChunks(cs[1..], compress);
      match cs[0]
      case None => rest
      case Some(c) =>
        match SaveChunk(c, compress)
        case None => rest
        case Some(tc) => [tc] + rest
  }

  /** Whether a list entry is a chunk whose compression succeeds. */
  predicate Saves(e: Option<ChunkData>, compress: Compressor) {
    e.Some? && compress(Serialize(e.value.voxels)).Some?
  }

  /** Something is saved exactly when some entry saves; each saved chunk
      comes from an entry at its position. */
  lemma {:induction false} SaveChunksSource(cs: seq<Option<ChunkData>>, compress: Compressor)
    ensures |SaveChunks(cs, compress)| > 0 <==> exists i :: 0 <= i < |cs| && Saves(cs[i], compress)
    ensures forall k :: 0 <= k < |SaveChunks(cs, compress)| ==>
              exists i :: 0 <= i < |cs| && Saves(cs[i], compress)
                          && SaveChunks(cs, compress)[k] == SaveChunk(cs[i].value, compress).value
    decreases |cs|
  {
    if cs != [] {
      SaveChunksSource(cs[1..], compress);
      var rest := SaveChunks(cs[1..], compress);
      var r := SaveChunks(cs, compress);
      forall i | 0 <= i < |cs| - 1 && Saves(cs[1..][i], compress) ensures Saves(cs[i + 1], compress) {
      }
      forall k | 0 <= k < |r|
        ensures exists i :: 0 <= i < |cs| && Saves(cs[i], compress) && r[k] == SaveChunk(cs[i].value, compress).value
      {
        if Saves(cs[0], compress) {
          if k == 0 {
            assert r[0] == SaveChunk(cs[0].value, compress).value;
          } else {
            var i :| 0 <= i < |cs[1..]| && Saves(cs[1..][i], compress) && rest[k - 1] == SaveChunk(cs[1..][i].value, compress).value;
            assert cs[i + 1] == cs[1..][i];
          }
        } else {
          var i :| 0 <= i < |cs[1..]| && Saves(cs[1..][i], compress) && rest[k] == SaveChunk(cs[1..][i].value, compress).value;
          assert cs[i + 1] == cs[1..][i];
        }
      }
      if exists i :: 0 <= i < |cs| && Saves(cs[i], compress) {
        var i :| 0 <= i < |cs| && Saves(cs[i], compress);
        if i > 0 {
          assert cs[1..][i - 1] == cs[i];
        }
      }
    }
  }

  /** The entry at `i` is the first saved chunk at its position whenever no
      earlier entry shares that position. */
  lemma {:induction false} SavedChunkIsFound(cs: seq<Option<ChunkData>>, compress: Compressor, i: nat)
    requires i < |cs| && Saves(cs[i], compress)
    requires forall j :: 0 <= j < i && cs[j].Some? ==> cs[j].value.position != cs[i].value.position
    ensures var r := SaveChunks(cs, compress);
            var f := FindChunk(r, cs[i].value.position);
            f.Some? && r[f.value] == SaveChunk(cs[i].value, compress).value
    decreases i
  {
    var pos := cs[i].value.position;
    var r := SaveChunks(cs, compress);
    if i == 0 {
      assert r[0] == SaveChunk(cs[0].value, compress).value;
    } else {
      forall j | 0 <= j < i - 1 && cs[1..][j].Some? ensures cs[1..][j].value.position != pos {
        assert cs[1..][j] == cs[j + 1];
      }
      assert cs[1..][i - 1] == cs[i];
      SavedChunkIsFound(cs[1..], compress, i - 1);
      var rest := SaveChunks(cs[1..], compress);
      if Saves(cs[0], compress) {
        assert cs[0].value.position != pos;
        assert r == [SaveChunk(cs[0].value, compress).value] + rest;
      }
    }
  }

  /** SaveWorldAsTemplate. With no world or no template it reports false
      and changes nothing. Otherwise the template is renamed and emptied;
      with no active chunks it then reports false. Else it records the
      bounds of the chunk positions and the world's chunk size, saves every
      chunk whose compression succeeds, and reports whether any was
      saved. */
  function SaveWorldAsTemplate(world: Option<SourceWorld>, t: Option<Template>, name: string, compress: Compressor): (r: (Option<Template>, bool))
    ensures world.None? || t.None? ==> r == (t, false)
    ensures t.Some? ==> r.0.Some? && (world.Some? ==> r.0.value.name == name)
    ensures world.Some? && t.Some? && world.value.activeChunks == [] ==>
              r == (Some(t.value.(name := name, chunks := [])), false)
    ensures world.Some? && t.Some? && world.value.activeChunks != [] ==>
              var cs := world.value.activeChunks;
              var (lo, hi) := Bounds(cs);
              r.0.value == t.value.(name := name, chunkSize := world.value.chunkSize, minPos := lo, maxPos := hi,
                                    chunks := SaveChunks(cs, compress))
  {
    if world.None? || t.None? then (t, false)
    else
      var t1 := t.value.(name := name, chunks := []);
      var cs := world.value.activeChunks;
      if cs == [] then (Some(t1), false)
      else
        var (lo, hi) := Bounds(cs);
        var saved := SaveChunks(cs, compress);
        (Some(t1.(chunkSize := world.value.chunkSize, minPos := lo, maxPos := hi, chunks := saved)), |saved| > 0)
  }

  /** The save reports success exactly when both objects exist and some
      active chunk compresses. */
  lemma SaveSucceedsIffSomeSaved(world: Option<SourceWorld>, t: Option<Template>, name: string, compress: Compressor)
    ensures SaveWorldAsTemplate(world, t, name, compress).1 <==>
              world.Some? && t.Some? && exists i :: 0 <= i < |world.value.activeChunks| && Saves(world.value.activeChunks[i], compress)
  {
    if world.Some? && t.Some? {
      SaveChunksSource(world.value.activeChunks, compress);
    }
  }

  /** Saving then loading an active chunk gives back its voxels, as a dirty
      chunk at the same position, when its compression succeeds, its
      position is not shared with an earlier entry and its size is the
      world's cubic size. */
  lemma SaveThenLoad(world: SourceWorld, t: Template, name: string, compress: Compressor, decompress: Decompressor,
                     i: nat, out: ChunkData)
    requires RoundTrips(compress, decompress)
    requires i < |world.activeChunks| && Saves(world.activeChunks[i], compress)
    requires forall j :: 0 <= j < i && world.activeChunks[j].Some? ==>
               world.activeChunks[j].value.position != world.activeChunks[i].value.position
    requires world.activeChunks[i].value.size == CubicSize(world.chunkSize)
    ensures var saved := SaveWorldAsTemplate(Some(world), Some(t), name, compress).0;
            var c := world.activeChunks[i].value;
            LoadChunkFromTemplate(saved, c.position, out, decompress) == (c.(dirty := true), true)
  {
    var cs := world.activeChunks;
    var c := cs[i].value;
    var saved := SaveWorldAsTemplate(Some(world), Some(t), name, compress).0;
    SavedChunkIsFound(cs, compress, i);
    var bytes := Serialize(c.voxels);
    assert decompress(compress(bytes).value, |bytes|) == Some(bytes);
    SerializeRoundTrip(c.voxels, []);
  }

  // ---------------------------------------------------------------------
  // From the world model

  /** The active chunk list of a world, in the order `ks` enumerates its
      map. */
  function ActiveChunkList(w: World, ks: seq<IntVec>): (cs: seq<Option<ChunkData>>)
    requires w.Wf() && forall p :: p in ks ==> p in w.active
    ensures |cs| == |ks|
    ensures forall i :: 0 <= i < |ks| ==> cs[i].Some? && cs[i].value.position == ks[i]
                                          && cs[i].value.size == CubicSize(w.config.chunkSize)
  {
    seq(|ks|, i requires 0 <= i < |ks| => Some(w.actors[w.active[ks[i]]].comp.data))
  }

  /** For a world, saving then loading any active position whose chunk
      compresses gives back that chunk's voxels. */
  lemma SaveWorldThenLoad(w: World, ks: seq<IntVec>, t: Template, name: string, compress: Compressor,
                          decompress: Decompressor, pos: IntVec, out: ChunkData)
    requires w.Wf() && Enumerates(ks, w.active)
    requires RoundTrips(compress, decompress)
    requires pos in w.active
    requires compress(Serialize(w.actors[w.active[pos]].comp.data.voxels)).Some?
    ensures var world := SourceWorld(w.config.chunkSize, ActiveChunkList(w, ks));
            var saved := SaveWorldAsTemplate(Some(world), Some(t), name, compress).0;
            LoadChunkFromTemplate(saved, pos, out, decompress) == (w.actors[w.active[pos]].comp.data.(dirty := true), true)
  {
    var cs := ActiveChunkList(w, ks);
    var i :| 0 <= i < |ks| && ks[i] == pos;
    assert cs[i] == Some(w.actors[w.active[pos]].comp.data);
    SaveThenLoad(SourceWorld(w.config.chunkSize, cs), t, name, compress, decompress, i, out);
  }
}
