# Hearthshire voxel core in Dafny

A model of the voxel engine behind Hearthshire, an Unreal Engine plugin that
stores a world as cubic chunks of one-byte materials and turns each chunk
into a render mesh. The model covers:

- **Value types** (`voxel_types.dfy`, module `VoxelTypes`): materials,
  voxels, the six faces, chunk sizes and the flat X-fastest voxel index,
  the chunk voxel store (`FVoxelChunkData`) and the mesh buffers
  (`FVoxelMeshData`).
- **The basic mesher** (`mesh_generator.dfy`, `MeshGenerator`): one quad per
  visible face of every solid voxel, face geometry, normals, tangents and
  material sections. `visible_faces.dfy` (`VisibleFaces`) defines the set of
  exposed unit faces of a chunk directly and counts what the mesher emits
  against it.
- **The greedy mesher** (`greedy_mesher.dfy`, `greedy_extraction.dfy`,
  `greedy_coverage.dfy`, `greedy_geometry.dfy`, `greedy_convert.dfy`,
  `greedy_pipeline.dfy`): per-slice face masks, rectangle growth along U
  then V, marking, quad extraction, conversion of quads into a welded mesh,
  and the end-to-end claim that the quads cover exactly the exposed faces.
  `set_counting.dfy` (`SetCounting`) holds the set-cardinality facts these
  proofs use.
- **The chunk component and actor** (`chunk_component.dfy`,
  `ChunkComponent`): initialisation, voxel edits, synchronous and
  worker-pool meshing, level-of-detail switching, pooling.
- **The world** (`world.dfy`, `VoxelWorld`): the active-chunk map, the
  actor pool, the generation queue and its per-frame drain, chunk
  creation with the placeholder terrain, unloading, regeneration and
  world-level voxel edits with neighbour regeneration.
- **Streaming** (`world_streaming.dfy`, `WorldStreaming`): loading the
  window around the player, unloading what is no longer wanted, and the
  memory budget that evicts the farthest chunks.
- **Templates** (`template.dfy`, `WorldTemplate`): saving active chunks as
  compressed byte arrays and loading one chunk back.

Positions are integers in voxel units; world units are voxel units times
the voxel size 25. Engine actors are identified by natural-number ids. Map
iteration order, the outcome of spawning an actor, the compressor and the
player's position are parameters. The worker-pool meshing job is modelled
as two steps: starting the job (a snapshot of the voxels) and completing it
on the game thread. The greedy mesh is built with the engine's triangle
corner order; the corrected order described under Findings is a separate
variant with its own lemmas.

## Model

| member | source | states |
|---|---|---|
| `VoxelTypes.VoxelClassification` | Source/HearthshireVoxel/Public/VoxelTypes.h:48-50 | Every voxel is either air or solid and never both; a transparent voxel is solid, and transparency holds exactly for water and ice. |
| `VoxelTypes.FaceIndexRoundTrip` | Source/HearthshireVoxel/Public/VoxelTypes.h:60-69 | The six faces correspond one-to-one to the indices 0 to 5 in the enumeration order. |
| `VoxelTypes.DefaultChunkSize` | Source/HearthshireVoxel/Public/VoxelTypes.h:88-95 | The default chunk is a cube holding 4096 voxels on mobile builds and 32768 elsewhere. |
| `VoxelTypes.IndexInRange` | Source/HearthshireVoxel/Public/VoxelTypes.h:163-166 | The flat index of an in-bounds cell lies inside the voxel array of X*Y*Z entries. |
| `VoxelTypes.IndexInjective` | Source/HearthshireVoxel/Public/VoxelTypes.h:163-166 | Two in-bounds cells with the same flat index are the same cell, so cells never share storage. |
| `VoxelTypes.ChunkData.GetVoxel` | Source/HearthshireVoxel/Public/VoxelTypes.h:140-149 | A read outside the chunk yields air; a read inside yields one of the stored voxels. |
| `VoxelTypes.ReadsStoredVoxel` | Source/HearthshireVoxel/Public/VoxelTypes.h:140-149 | A read inside the chunk returns the voxel stored at the cell's flat X-fastest index, which lies within the store. |
| `VoxelTypes.ChunkData.SetVoxel` | Source/HearthshireVoxel/Public/VoxelTypes.h:152-160 | An in-bounds write is read back and marks the chunk dirty; every other cell reads as before; an out-of-bounds write changes nothing, not even the dirty flag. |
| `VoxelTypes.ChunkData.Clear` | Source/HearthshireVoxel/Public/VoxelTypes.h:169-176 | After clearing every cell reads as air and the chunk is dirty; size, position and array length are kept. |
| `VoxelTypes.NewChunkData` | Source/HearthshireVoxel/Public/VoxelTypes.h:127-137 | A new store has the default size, one voxel per cell, the origin as position, the dirty flag set, and every cell air. |
| `VoxelTypes.EmptyMeshProperties` | Source/HearthshireVoxel/Public/VoxelTypes.h:203-222 | A new mesh is empty and well formed, and clearing any mesh gives exactly the new mesh. |
| `MeshGenerator.FaceDirectionsOpposite` | Source/HearthshireVoxel/Private/VoxelMeshGenerator.cpp:274-286 | Opposite faces have opposite neighbour directions. |
| `MeshGenerator.FaceDirectionInjective` | Source/HearthshireVoxel/Private/VoxelMeshGenerator.cpp:274-286 | Each face is recovered from its direction, so the six directions are distinct. |
| `MeshGenerator.FaceNormal` | Source/HearthshireVoxel/Private/VoxelMeshGenerator.cpp:288-300 | The normal of a face is its outward neighbour direction. |
| `MeshGenerator.GetNeighborVoxel` | Source/HearthshireVoxel/Private/VoxelMeshGenerator.cpp:265-272 | The neighbour across a face is the voxel stored at the flat index of the cell one step along the face direction, and air when that cell lies outside the chunk. |
| `MeshGenerator.BoundaryFacesVisible` | Source/HearthshireVoxel/Private/VoxelMeshGenerator.cpp:254-263 | A face whose neighbour lies outside the chunk is always drawn. |
| `MeshGenerator.HiddenFaces` | Source/HearthshireVoxel/Private/VoxelMeshGenerator.cpp:254-263 | A face against a solid opaque neighbour, or against a transparent neighbour of the same material, is not drawn. |
| `MeshGenerator.FaceVerticesInPlane` | Source/HearthshireVoxel/Private/VoxelMeshGenerator.cpp:302-350 | All four corners of a face lie in the face's plane, on the outer side of the voxel. |
| `MeshGenerator.FaceVerticesDistinct` | Source/HearthshireVoxel/Private/VoxelMeshGenerator.cpp:302-350 | The four corners of a face are four different points. |
| `MeshGenerator.FaceUVs` | Source/HearthshireVoxel/Private/VoxelMeshGenerator.cpp:352-359 | Corner 0 maps to texture origin (0, 0) and corner 2 to the opposite corner (1, 1) of the unit square. |
| `MeshGenerator.FaceTangentDerived` | Source/HearthshireVoxel/Private/VoxelMeshGenerator.cpp:199-213 | The tangent derived from a face's first three corners and texture coordinates, then normalised, is that face direction's fixed tangent, whatever the voxel's position. |
| `MeshGenerator.FaceTangentInPlane` | Source/HearthshireVoxel/Private/VoxelMeshGenerator.cpp:199-213 | Each face direction's tangent is a unit axis vector with no component along the face's normal axis, so it lies in the face's plane. |
| `MeshGenerator.AllocateSection` | Source/HearthshireVoxel/Private/VoxelMeshGenerator.cpp:361-371 | A known material keeps its section number; a new one gets the next free number, keeping numbers dense. |
| `MeshGenerator.GetOrCreateMaterialSection` | Source/HearthshireVoxel/Private/VoxelMeshGenerator.cpp:361-371 | Only the section map changes, and a material that already has a section leaves the mesh unchanged. |
| `MeshGenerator.AddVertex` | Source/HearthshireVoxel/Private/VoxelMeshGenerator.cpp:237-252 | The vertex is appended with all its attributes, keeping the attribute arrays parallel, and its returned index points at it. |
| `MeshGenerator.AppendQuadIndices` | Source/HearthshireVoxel/Private/VoxelMeshGenerator.cpp:228-234 | Appending a quad's two triangles over four existing vertices keeps every index valid. |
| `MeshGenerator.AddQuad` | Source/HearthshireVoxel/Private/VoxelMeshGenerator.cpp:186-235 | A quad adds its four corners with the face normal, two triangles over those new vertices, and its material's section; the mesh stays well formed. |
| `MeshGenerator.AddFace` | Source/HearthshireVoxel/Private/VoxelMeshGenerator.cpp:168-184 | One visible face adds exactly its four unit-face corners and six indices, and registers its material. |
| `MeshGenerator.GenerateBasicMesh` | Source/HearthshireVoxel/Private/VoxelMeshGenerator.cpp:11-74 | The basic mesh is well formed and its two statistics agree with its buffers. |
| `VisibleFaces.LodMeshCounts` | Source/HearthshireVoxel/Private/VoxelMeshGenerator.cpp:106-115 | The level-of-detail mesh is the same at every level and holds four vertices and two triangles per exposed face of the chunk. |
| `VisibleFaces.AllVisibleFacesMembership` | Source/HearthshireVoxel/Private/VoxelMeshGenerator.cpp:254-263 | A unit face belongs to the chunk's surface exactly when its voxel is solid and in bounds and the face is visible. |
| `VisibleFaces.BasicMeshCounts` | Source/HearthshireVoxel/Private/VoxelMeshGenerator.cpp:29-57 | The basic mesher emits exactly two triangles and four vertices for each exposed unit face of the chunk. |
| `GreedyMesher.CanMergeProperties` | Source/HearthshireVoxel/Public/VoxelGreedyMesher.h:72-75 | Merging is symmetric, needs both cells visible with the same material, and the default cell merges with nothing. |
| `GreedyMesher.FaceAxesPermutation` | Source/HearthshireVoxel/Private/VoxelGreedyMesher.cpp:225-250 | The slice axis and the mask's U and V axes of every face are three different axes, and the slice axis is the normal's axis. |
| `GreedyMesher.MaskToVoxelInjective` | Source/HearthshireVoxel/Private/VoxelGreedyMesher.cpp:252-283 | Different mask cells or slices name different voxels. |
| `GreedyMesher.MaskToVoxelInBounds` | Source/HearthshireVoxel/Private/VoxelGreedyMesher.cpp:252-283 | An in-range mask cell of an in-range slice names an in-bounds voxel. |
| `GreedyCoverage.MaskToVoxelOnto` | Source/HearthshireVoxel/Private/VoxelGreedyMesher.cpp:252-283 | Every voxel is named by its own U, V and slice coordinates, so the mask-to-voxel map is onto. |
| `GreedyMesher.VisibilityAgrees` | Source/HearthshireVoxel/Private/VoxelGreedyMesher.cpp:285-326 | The greedy mesher's visibility test is false on air and agrees with the basic mesher's test on solid voxels. |
| `GreedyMesher.MaskIndexProperties` | Source/HearthshireVoxel/Public/VoxelGreedyMesher.h:120-123 | Mask indices of in-range cells are inside the mask and distinct. |
| `GreedyMesher.CreateFaceMask` | Source/HearthshireVoxel/Private/VoxelGreedyMesher.cpp:67-107 | The mask of a slice is as wide as the U extent and as tall as the V extent of the chunk. |
| `GreedyMesher.CreateFaceMaskCells` | Source/HearthshireVoxel/Private/VoxelGreedyMesher.cpp:67-107 | A mask cell is visible exactly when the face of its voxel is visible, and then carries the voxel's material. |
| `GreedyMesher.ExtendUSpec` | Source/HearthshireVoxel/Private/VoxelGreedyMesher.cpp:164-177 | The U run covers matching cells up to, and only up to, the first non-matching cell or the mask edge. |
| `GreedyMesher.ExtendVSpec` | Source/HearthshireVoxel/Private/VoxelGreedyMesher.cpp:180-204 | The V growth takes whole matching rows up to, and only up to, the first row that does not match across the full width. |
| `GreedyMesher.ExtendQuadSpec` | Source/HearthshireVoxel/Private/VoxelGreedyMesher.cpp:155-207 | The grown rectangle is at least one cell each way, lies in the mask, every cell of it matches, and it cannot be widened or heightened. |
| `GreedyMesher.MarkQuadProcessedCells` | Source/HearthshireVoxel/Private/VoxelGreedyMesher.cpp:209-223 | Marking clears the visible flag of exactly the rectangle's cells and changes nothing else. |
| `GreedyCoverage.ToQuadsFaces` | Source/HearthshireVoxel/Private/VoxelGreedyMesher.cpp:131-140 | The quads made from a slice's rectangles cover exactly the unit faces whose voxels lie under the rectangles' mask cells. |
| `GreedyCoverage.ToQuadsArea` | Source/HearthshireVoxel/Private/VoxelGreedyMesher.cpp:131-140 | Each quad keeps its rectangle's width and height, so the quads' total area equals the rectangles' total area. |
| `GreedyExtraction.ExtractionCorrect` | Source/HearthshireVoxel/Private/VoxelGreedyMesher.cpp:109-153 | Scanning a mask leaves nothing visible and yields valid, pairwise disjoint rectangles in scan order that cover exactly the initially visible cells, with areas summing to their number. |
| `GreedyCoverage.VisibleCellExposed` | Source/HearthshireVoxel/Private/VoxelGreedyMesher.cpp:67-107 | A visible mask cell stands for an exposed face of its slice. |
| `GreedyCoverage.ExposedFaceVisibleCell` | Source/HearthshireVoxel/Private/VoxelGreedyMesher.cpp:67-107 | Every exposed face of a slice comes from a visible cell of that slice's mask. |
| `GreedyCoverage.GreedyCoversVisibleFaces` | Source/HearthshireVoxel/Private/VoxelGreedyMesher.cpp:8-40 | The unit faces the greedy quads stand for are exactly the chunk's exposed faces. |
| `GreedyCoverage.GreedyAreaIsVisibleFaces` | Source/HearthshireVoxel/Private/VoxelGreedyMesher.cpp:8-40 | The greedy quads' total area equals the number of exposed faces, so no face is covered twice. |
| `GreedyCoverage.GreedyMatchesBasic` | Source/HearthshireVoxel/Private/VoxelGreedyMesher.cpp:8-40 | The basic mesh has two triangles and four vertices per unit of greedy quad area. |
| `GreedyGeometry.SizeVector` | Source/HearthshireVoxel/Private/VoxelGreedyMesher.cpp:398-409 | A quad's extent vector carries its width on the face's U axis, its height on the V axis and nothing on the normal axis. |
| `GreedyGeometry.UnitQuadCorners` | Source/HearthshireVoxel/Private/VoxelGreedyMesher.cpp:416-459 | A one-by-one greedy quad has exactly the corners the basic mesher gives the same voxel face. |
| `GreedyGeometry.QuadCornersInPlane` | Source/HearthshireVoxel/Private/VoxelGreedyMesher.cpp:416-459 | A quad's corners lie in its face's plane and span exactly its width and height. |
| `GreedyGeometry.GreedyTangentIsFaceTangent` | Source/HearthshireVoxel/Private/VoxelGreedyMesher.cpp:475-488 | A quad of positive size gets the same tangent as the basic mesher's face of the same direction. |
| `GreedyGeometry.QuadNormals` | Source/HearthshireVoxel/Private/VoxelGreedyMesher.cpp:416-459 | Both triangles (0,1,2) and (0,2,3) of a quad's corners have the quad's area normal. |
| `GreedyGeometry.AreaNormalFacing` | Source/HearthshireVoxel/Private/VoxelGreedyMesher.cpp:416-459 | For a quad of positive size, the normal of its corner parallelogram points along the outward face normal on top and bottom quads and against it on the four side faces. |
| `GreedyGeometry.AsWrittenBottomReversed` | Source/HearthshireVoxel/Private/VoxelGreedyMesher.cpp:585-617 | With the engine's index order, bottom quads face the opposite way from quads of the other five faces. |
| `GreedyGeometry.AsWrittenBottomWitness` | Source/HearthshireVoxel/Private/VoxelGreedyMesher.cpp:453-458 | A single unit bottom face at the origin faces the other way from a unit top face. |
| `GreedyGeometry.CorrectedWindingConsistent` | Source/HearthshireVoxel/Private/VoxelGreedyMesher.cpp:591-598 | With the top-face order applied to bottom quads too, both triangles of every quad face the same way relative to the outward normal. |
| `GreedyConvert.WeldVertex` | Source/HearthshireVoxel/Private/VoxelGreedyMesher.cpp:494-556 | A corner position already seen reuses its vertex; a new one appends a vertex at that position; the returned index names a vertex at the position. |
| `GreedyConvert.AddGreedyQuad` | Source/HearthshireVoxel/Private/VoxelGreedyMesher.cpp:375-627 | A quad welds its four corners, appends its two triangles, which draw the quad's corners in winding order, and registers its material's section. |
| `GreedyConvert.Owner` | Source/HearthshireVoxel/Private/VoxelGreedyMesher.cpp:494-556 | A position has an owning quad exactly when some quad has a corner there, and the owner is such a quad. |
| `GreedyConvert.ConvertQuadsToMesh` | Source/HearthshireVoxel/Private/VoxelGreedyMesher.cpp:375-676 | The mesh is well formed, draws two triangles per quad, and has one section per distinct material. |
| `GreedyConvert.ConvertDrawsQuads` | Source/HearthshireVoxel/Private/VoxelGreedyMesher.cpp:585-617 | The welded mesh draws exactly the triangles of the unwelded quads, in order. |
| `GreedyConvert.ConvertWeldsCorners` | Source/HearthshireVoxel/Private/VoxelGreedyMesher.cpp:494-556 | No two vertices share a position, and the vertex positions are exactly the quads' corners. |
| `GreedyConvert.ConvertAttributes` | Source/HearthshireVoxel/Private/VoxelGreedyMesher.cpp:494-556 | Every vertex carries the normal and tangent of the first quad with a corner at its position. |
| `GreedyConvert.ConvertVertexCount` | Source/HearthshireVoxel/Private/VoxelGreedyMesher.cpp:494-556 | Welding never leaves more than four vertices per quad. |
| `GreedyPipeline.GreedyQuadsPositive` | Source/HearthshireVoxel/Private/VoxelGreedyMesher.cpp:109-153 | Every greedy quad covers at least one cell in both directions. |
| `GreedyPipeline.GenerateGreedyMeshData` | Source/HearthshireVoxel/Private/VoxelMeshGenerator.cpp:76-104 | The greedy mesh the engine builds, with the engine's corner order, is well formed and its triangle and vertex statistics agree with its buffers. |
| `GreedyPipeline.GenerateGreedyMeshDataCorrected` | Source/HearthshireVoxel/Private/VoxelGreedyMesher.cpp:585-617 | The same mesh with bottom quads wound like top quads is well formed, with statistics that agree with its buffers. |
| `GreedyPipeline.GreedyNoLargerThanBasic` | Source/HearthshireVoxel/Private/VoxelGreedyMesher.cpp:8-40 | The greedy mesh has two triangles per quad and never more triangles or vertices than the basic mesh of the same chunk. |
| `GreedyPipeline.GreedyWindingConsistent` | Source/HearthshireVoxel/Private/VoxelGreedyMesher.cpp:585-617 | With the corrected corner order, every triangle of the greedy mesh faces against the outward normal of the face it was drawn for. |
| `GreedyPipeline.GreedyMeshBottomReversed` | Source/HearthshireVoxel/Private/VoxelGreedyMesher.cpp:585-617 | In the mesh the engine builds, the triangles of every bottom quad face along the outward normal, and all other triangles face against it. |
| `GreedyPipeline.GreedyDrawsVisibleFaces` | Source/HearthshireVoxel/Private/VoxelGreedyMesher.cpp:8-40 | The greedy mesh covers exactly the exposed faces, with total area equal to their number. |
| `GreedyPipeline.ChunkFromDataReads` | Source/HearthshireVoxel/Private/VoxelGreedyMesher.cpp:690-713 | A chunk built from a flat material array reads each in-bounds cell from its flat index and reads air outside. |
| `GreedyPipeline.GenerateGreedyMeshFromData` | Source/HearthshireVoxel/Private/VoxelGreedyMesher.cpp:690-713 | Meshing a flat material array is the greedy mesh of the chunk those materials fill (so what GreedyDrawsVisibleFaces and ConvertDrawsQuads say of that mesh holds here): its quads cover exactly the chunk's exposed faces, and it has no more triangles than the basic mesh. |
| `ChunkComponent.NewComponent` | Source/HearthshireVoxel/Private/VoxelChunk.cpp:15-25 | A new component is uninitialised, unloaded, idle, with an empty mesh and an all-air dirty store. |
| `ChunkComponent.Resize` | Source/HearthshireVoxel/Private/VoxelChunk.cpp:62-85 | Resizing keeps the surviving elements and fills new ones with air. |
| `ChunkComponent.Initialize` | Source/HearthshireVoxel/Private/VoxelChunk.cpp:62-85 | Initialisation sets position and size, marks the store dirty, sizes it to one voxel per cell and moves to Generating; mesh, level and job are kept. |
| `ChunkComponent.InitializeKeepsOldVoxels` | Source/HearthshireVoxel/Private/VoxelChunk.cpp:62-85 | Re-initialisation keeps every old voxel whose flat index survives the resize and reads air beyond the old array. |
| `ChunkComponent.SetVoxel` | Source/HearthshireVoxel/Private/VoxelChunk.cpp:87-95 | A component write is read back in bounds, leaves every other cell and every other field unchanged, and sets the dirty flag exactly for an in-bounds write. |
| `ChunkComponent.GetVoxel` | Source/HearthshireVoxel/Private/VoxelChunk.cpp:97-100 | A component read inside the chunk gives the material of the voxel stored at the cell's flat index; a read outside gives air. |
| `ChunkComponent.LastWrite` | Source/HearthshireVoxel/Private/VoxelChunk.cpp:102-120 | A cell has a last batch write exactly when the batch names it. |
| `ChunkComponent.SetVoxelBatch` | Source/HearthshireVoxel/Private/VoxelChunk.cpp:102-120 | Mismatched arrays change nothing; otherwise each cell holds its last write in the batch, untouched cells keep their voxels, and the store is dirty exactly when some write landed inside. |
| `ChunkComponent.SyncMesh` | Source/HearthshireVoxel/Private/VoxelChunk.cpp:261-292 | The synchronous path rebuilds a well-formed mesh at full detail and leaves the mesh as it was at lower detail. |
| `ChunkComponent.JobMesh` | Source/HearthshireVoxel/Private/VoxelChunk.cpp:199-228 | A worker-pool job builds a well-formed mesh, and an empty one for an unloaded level. |
| `ChunkComponent.ApplyMeshData` | Source/HearthshireVoxel/Private/VoxelChunk.cpp:240-259 | Applying the mesh makes the chunk Ready and clean and copies the mesh statistics when the mesh is rendered. |
| `ChunkComponent.GenerateMesh` | Source/HearthshireVoxel/Private/VoxelChunk.cpp:122-159 | A request while a job is in flight does nothing; otherwise it starts a job on a snapshot or meshes synchronously and reports the broadcast. |
| `ChunkComponent.CompleteJob` | Source/HearthshireVoxel/Private/VoxelChunk.cpp:231-236 | A finished job installs the mesh built from its snapshot and leaves the chunk idle, Ready and clean. |
| `ChunkComponent.AsyncMatchesSyncAtFullDetail` | Source/HearthshireVoxel/Private/VoxelChunk.cpp:122-238 | At full detail, starting a job and completing it gives the same component as meshing synchronously. |
| `ChunkComponent.JobMatchesSync` | Source/HearthshireVoxel/Private/VoxelChunk.cpp:213-216 | A background job on a snapshot of the voxel store at full detail builds the same greedy mesh as the synchronous full-detail path (VoxelChunk.cpp:261-277). |
| `ChunkComponent.SyncKeepsMeshBelowFullDetail` | Source/HearthshireVoxel/Private/VoxelChunk.cpp:279-292 | Below full detail the synchronous stubs keep the old mesh while a job builds the basic mesh. |
| `ChunkComponent.ClearMesh` | Source/HearthshireVoxel/Private/VoxelChunk.cpp:161-170 | Clearing empties the mesh, returns to Uninitialized and changes nothing else. |
| `ChunkComponent.SetLod` | Source/HearthshireVoxel/Private/VoxelChunk.cpp:172-187 | The same level is a no-op, Unloaded clears the mesh, and a new level re-meshes only a dirty or unready chunk. |
| `ChunkComponent.SetLodIdempotent` | Source/HearthshireVoxel/Private/VoxelChunk.cpp:172-187 | Setting the same level twice is the same as setting it once. |
| `ChunkComponent.TargetLod` | Source/HearthshireVoxel/Private/VoxelChunk.cpp:478-508 | No player gives Unloaded; otherwise the level follows the thresholds of 5000, 10000, 20000 and 30000 world units. |
| `ChunkComponent.TargetLodMonotone` | Source/HearthshireVoxel/Private/VoxelChunk.cpp:478-508 | A farther chunk never gets a more detailed level. |
| `ChunkComponent.NewActor` | Source/HearthshireVoxel/Private/VoxelChunk.cpp:303-327 | A new actor is unpooled, has no owning world and an uninitialised component. |
| `ChunkComponent.InitializeChunk` | Source/HearthshireVoxel/Private/VoxelChunk.cpp:372-381 | Binding an actor marks it owned and unpooled and initialises its component at the position and size. |
| `ChunkComponent.ReturnToPool` | Source/HearthshireVoxel/Private/VoxelChunk.cpp:383-394 | A parked actor is pooled with an empty mesh and keeps its voxels and job. |
| `ChunkComponent.ResetChunk` | Source/HearthshireVoxel/Private/VoxelChunk.cpp:396-402 | Taking an actor out of the pool changes only the pool flag. |
| `ChunkComponent.PoolRoundTrip` | Source/HearthshireVoxel/Private/VoxelChunk.cpp:383-402 | Parking and resetting an actor leaves it unpooled with its voxels but with the mesh cleared. |
| `ChunkComponent.UpdateLodBasedOnDistance` | Source/HearthshireVoxel/Private/VoxelChunk.cpp:478-508 | An actor without a world is untouched; otherwise its level becomes the target level for the player's distance. |
| `VoxelWorld.DefaultConfig` | Source/HearthshireVoxel/Public/VoxelWorld.h:51-65 | Desktop defaults are 32-voxel chunks, 10 chunks of view and 800 MB; mobile ones are 16, 6 and 400 MB; pool 100, multithreading on, four concurrent jobs. |
| `VoxelWorld.NewWorld` | Source/HearthshireVoxel/Private/VoxelWorld.cpp:24-53 | A world starts with no active chunks, an empty queue and counter, and a pool of as many fresh actors as configured. |
| `VoxelWorld.PopPool` | Source/HearthshireVoxel/Private/VoxelWorld.cpp:498-508 | An empty pool yields nothing; otherwise the last parked actor leaves the pool, reset. |
| `VoxelWorld.PushPool` | Source/HearthshireVoxel/Private/VoxelWorld.cpp:510-519 | A returned actor is parked at the back of the pool with its mesh cleared. |
| `VoxelWorld.PoolIsLifo` | Source/HearthshireVoxel/Private/VoxelWorld.cpp:498-519 | Parking an actor and popping the pool gives that actor back and restores the pool. |
| `VoxelWorld.PrioritySearch` | Source/HearthshireVoxel/Private/VoxelWorld.cpp:548-560 | The result is the largest whole number of thousands, at most 999, whose square does not exceed the squared distance. |
| `VoxelWorld.CalculateChunkPriority` | Source/HearthshireVoxel/Private/VoxelWorld.cpp:548-560 | The priority is 999 without a player and otherwise the distance in thousands of world units, rounded down and clamped to 0..999. |
| `VoxelWorld.PatternMaterial` | Source/HearthshireVoxel/Private/VoxelWorld.cpp:137-156 | The placeholder terrain is stone, dirt or grass, with grass on the top layer of the lower half. |
| `VoxelWorld.FillTestPatternReads` | Source/HearthshireVoxel/Private/VoxelWorld.cpp:137-156 | After the fill every cell below half the height holds its pattern material and every other cell is unchanged. |
| `VoxelWorld.AcquireActor` | Source/HearthshireVoxel/Private/VoxelWorld.cpp:112-124 | A new chunk takes the last pooled actor, else a freshly spawned one, else nothing when spawning fails. |
| `VoxelWorld.PlaceChunk` | Source/HearthshireVoxel/Private/VoxelWorld.cpp:126-163 | A placed chunk enters the map, its actor is initialised and filled, and one generation task with its priority joins the back of the queue. |
| `VoxelWorld.GetOrCreateChunk` | Source/HearthshireVoxel/Private/VoxelWorld.cpp:104-168 | A present chunk is returned unchanged; an absent one is created only when an actor is available, other entries are never disturbed, and a returned id is the entry at the position. |
| `VoxelWorld.NewChunkContents` | Source/HearthshireVoxel/Private/VoxelWorld.cpp:104-168 | A chunk built from a pooled actor reads the placeholder terrain below half its height; above it, each cell reads the parked voxel at its flat index when the parked store reaches that far and air otherwise, so an actor parked at the configured size reads back its own voxels. |
| `VoxelWorld.UnloadChunk` | Source/HearthshireVoxel/Private/VoxelWorld.cpp:170-187 | Unloading an absent position does nothing; otherwise the entry leaves the map and its actor is parked in the pool. |
| `VoxelWorld.UnloadThenCreateReuses` | Source/HearthshireVoxel/Private/VoxelWorld.cpp:170-187 | Unloading a chunk and then creating one at an absent position reuses the unloaded chunk's actor. |
| `VoxelWorld.QueueChunkGeneration` | Source/HearthshireVoxel/Private/VoxelWorld.cpp:521-530 | A task is appended at the back of the queue and nothing else changes. |
| `VoxelWorld.RunTask` | Source/HearthshireVoxel/Private/VoxelWorld.cpp:412-426 | A task for an active chunk that is not Ready, or any regeneration task for an active chunk, bumps the counter and requests an asynchronous mesh; any other task changes nothing. |
| `VoxelWorld.Drain` | Source/HearthshireVoxel/Private/VoxelWorld.cpp:398-429 | The drain takes tasks from the front, raises the counter by at most one per task, and stops early, before five tasks and with tasks left, only when the counter has reached the concurrency limit. |
| `VoxelWorld.ProcessChunkTasks` | Source/HearthshireVoxel/Private/VoxelWorld.cpp:391-430 | Without multithreading nothing happens; otherwise at most five front tasks are taken, fewer with tasks left only at the concurrency limit, and the map and pool are unchanged. |
| `VoxelWorld.OnChunkGenerated` | Source/HearthshireVoxel/Private/VoxelWorld.cpp:562-574 | One run of the completion handler decrements the counter by one and changes nothing else. |
| `VoxelWorld.CompleteChunkJob` | Source/HearthshireVoxel/Private/VoxelChunk.cpp:231-236 | A finished job installs its mesh on its actor and decrements the world's counter once, for the single handler binding the model assumes. |
| `VoxelWorld.RegenerateChunk` | Source/HearthshireVoxel/Private/VoxelWorld.cpp:189-201 | Regeneration of an absent chunk does nothing; otherwise it requests a mesh, and a synchronous mesh decrements the counter at once. |
| `VoxelWorld.RegenerationUnderflowsCounter` | Source/HearthshireVoxel/Private/VoxelWorld.cpp:189-201 | A regeneration never increments the counter, yet its completion decrements it, so the counter ends one lower. |
| `VoxelWorld.BusyChunkTaskLeaksCounter` | Source/HearthshireVoxel/Private/VoxelWorld.cpp:412-426 | A task for a chunk whose job is still in flight bumps the counter although the chunk ignores the request. |
| `VoxelWorld.NeighbourTasksExact` | Source/HearthshireVoxel/Private/VoxelWorld.cpp:222-237 | The regeneration tasks after a boundary edit name exactly the active chunks among the 26 neighbours. |
| `VoxelWorld.WriteVoxel` | Source/HearthshireVoxel/Private/VoxelWorld.cpp:208-211 | A world edit writes only the one cell of the one active chunk. |
| `VoxelWorld.PropagateEdit` | Source/HearthshireVoxel/Private/VoxelWorld.cpp:213-238 | An edit off the boundary queues nothing; an edit on the boundary queues the neighbour regeneration tasks; only the queue changes. |
| `VoxelWorld.SetVoxelAt` | Source/HearthshireVoxel/Private/VoxelWorld.cpp:203-240 | Editing a position whose chunk cannot be created changes nothing; otherwise the chunk is created if needed and written. |
| `VoxelWorld.VoxelAt` | Source/HearthshireVoxel/Private/VoxelWorld.cpp:242-259 | A read of an in-bounds cell of an active chunk gives the material stored at that cell's flat index in the chunk's store; a read from an absent chunk or outside the chunk gives air. |
| `VoxelWorld.SetThenGetVoxel` | Source/HearthshireVoxel/Private/VoxelWorld.cpp:203-259 | Writing a voxel and reading it back gives the written material whenever the chunk exists or can be created. |
| `WorldStreaming.WorldToChunk` | Source/HearthshireVoxel/Private/VoxelWorld.cpp:317-324 | The chunk of a world position is the one whose world extent contains it, rounding down for negative coordinates. |
| `WorldStreaming.WindowSound` | Source/HearthshireVoxel/Private/VoxelWorld.cpp:356-370 | Every position the load loop visits lies within the view distance in X and Y and within two chunks in Z. |
| `WorldStreaming.WindowComplete` | Source/HearthshireVoxel/Private/VoxelWorld.cpp:356-370 | Every position of that window is visited by the load loop. |
| `WorldStreaming.LoadOne` | Source/HearthshireVoxel/Private/VoxelWorld.cpp:362-367 | A load step keeps every chunk, adds only a wanted position, and adds it whenever spawning succeeds. |
| `WorldStreaming.LoadAllLoadsWanted` | Source/HearthshireVoxel/Private/VoxelWorld.cpp:356-370 | The load loop keeps existing chunks, adds only wanted positions, and with working spawns loads every wanted visited position. |
| `WorldStreaming.ListPositions` | Source/HearthshireVoxel/Private/VoxelWorld.cpp:373-386 | The positions of a set are listed once each. |
| `WorldStreaming.UnloadSet` | Source/HearthshireVoxel/Private/VoxelWorld.cpp:373-386 | Exactly the chunks outside the doomed set stay active, each with its own actor. |
| `WorldStreaming.UpdateChunks` | Source/HearthshireVoxel/Private/VoxelWorld.cpp:343-389 | Without a player nothing changes; otherwise afterwards every active chunk is wanted, every chunk that was active and wanted keeps its actor, and with working spawns every wanted position of the window is active. |
| `WorldStreaming.InsertKeepsOrder` | Source/HearthshireVoxel/Private/VoxelWorld.cpp:484-487 | Inserting into a farthest-first list keeps it farthest first. |
| `WorldStreaming.SortFarthestFirst` | Source/HearthshireVoxel/Private/VoxelWorld.cpp:484-487 | The sort returns a permutation of its input. |
| `WorldStreaming.SortIsOrdered` | Source/HearthshireVoxel/Private/VoxelWorld.cpp:484-487 | The sort's output is ordered farthest first. |
| `WorldStreaming.UnloadAllKeepsRest` | Source/HearthshireVoxel/Private/VoxelWorld.cpp:489-494 | After unloading a list exactly the unlisted chunks stay active, with their actors. |
| `WorldStreaming.UnloadAllGrowsPool` | Source/HearthshireVoxel/Private/VoxelWorld.cpp:489-494 | Unloading distinct active positions returns one actor to the pool per position. |
| `WorldStreaming.EvictionCount` | Source/HearthshireVoxel/Private/VoxelWorld.cpp:490 | One budget check evicts a tenth of the chunks (rounded down), exactly one when there are between one and nine, and never more than exist. |
| `WorldStreaming.Victims` | Source/HearthshireVoxel/Private/VoxelWorld.cpp:484-494 | The chunks chosen for eviction are that many of the active chunks. |
| `WorldStreaming.EnforceMemoryBudget` | Source/HearthshireVoxel/Private/VoxelWorld.cpp:459-470 | Within the memory estimate of the active chunks' statistics, the world is unchanged. |
| `WorldStreaming.EvictsFarthest` | Source/HearthshireVoxel/Private/VoxelWorld.cpp:432-496 | Over budget, a tenth of the chunks (at least one) go back to the pool, the others keep their actors, and every evicted chunk is at least as far from the player as every kept one. |
| `WorldTemplate.ByteMaterialRoundTrip` | Source/HearthshireVoxel/Private/VoxelWorldTemplate.cpp:196 | A material stored as a byte reads back as the same material, and the other way round. |
| `WorldTemplate.SerializeRoundTrip` | Source/HearthshireVoxel/Private/VoxelWorldTemplate.cpp:190-197 | Serialising voxels to bytes and converting the bytes back are mutually inverse. |
| `WorldTemplate.FindChunk` | Source/HearthshireVoxel/Private/VoxelWorldTemplate.cpp:233-242 | The lookup returns the first stored chunk at the position that has data, or nothing when there is none. |
| `WorldTemplate.FindIffHasData` | Source/HearthshireVoxel/Private/VoxelWorldTemplate.cpp:30-40 | The load lookup finds a chunk exactly when the template reports data at that position. |
| `WorldTemplate.LoadChunkFromTemplate` | Source/HearthshireVoxel/Private/VoxelWorldTemplate.cpp:226-270 | Loading succeeds exactly when the template exists, holds the chunk and decompression succeeds; on failure the output is untouched; on success it has the position, the template's cubic size, the decompressed bytes as voxels and the dirty flag, and, when the decompressor fills the buffer sized beforehand to the recorded size (DecompressVoxelData), exactly that many voxels. |
| `WorldTemplate.BoundsAreExtremes` | Source/HearthshireVoxel/Private/VoxelWorldTemplate.cpp:155-175 | The saved bounds enclose every chunk position and each bound is either attained or the initial sentinel. |
| `WorldTemplate.SaveChunk` | Source/HearthshireVoxel/Private/VoxelWorldTemplate.cpp:188-214 | A chunk is saved only when compression succeeds, with its position, its voxel count as size, and the data flag set. |
| `WorldTemplate.SaveChunksSource` | Source/HearthshireVoxel/Private/VoxelWorldTemplate.cpp:181-215 | The save loop skips missing chunks and failed compressions, keeps order, and saves something exactly when some chunk can be saved. |
| `WorldTemplate.SavedChunkIsFound` | Source/HearthshireVoxel/Private/VoxelWorldTemplate.cpp:181-244 | The first saved chunk at a position is the one the load lookup finds there. |
| `WorldTemplate.SaveWorldAsTemplate` | Source/HearthshireVoxel/Private/VoxelWorldTemplate.cpp:131-223 | A missing world or template fails without change; otherwise the template is renamed and emptied, and with active chunks it gets bounds, chunk size and the saved chunks. |
| `WorldTemplate.SaveSucceedsIffSomeSaved` | Source/HearthshireVoxel/Private/VoxelWorldTemplate.cpp:131-223 | Saving reports success exactly when at least one chunk was saved. |
| `WorldTemplate.SaveThenLoad` | Source/HearthshireVoxel/Private/VoxelWorldTemplate.cpp:131-270 | With a compressor that round-trips, loading a saved chunk gives back its voxels, position and size, marked dirty. |
| `WorldTemplate.SaveWorldThenLoad` | Source/HearthshireVoxel/Private/VoxelWorldTemplate.cpp:131-270 | Saving a world and loading an active chunk's position gives back that chunk's voxel store, marked dirty. |

## Left out

- `GreedyPipeline.GenerateGreedyMeshFromData`: arrays shorter than X·Y·Z
  cells are excluded by the requires (as in `GreedyPipeline.ChunkFromDataReads`).
  The engine sizes the temporary store to the array's length without a check
  (VoxelGreedyMesher.cpp:702), and the mask then reads `Voxels[Index]` past
  its end (VoxelTypes.h:147-148), an out-of-bounds read with no defined result.
- Rendering: uploading mesh sections, materials, visibility, collision and
  hiding pooled actors have no state the core reads back.
- Floating point: world positions, distances and the memory estimate are
  integers in the model. Distances are compared squared, and the memory
  estimate (in megabytes) and the budget are scaled by 10·2^20 so that
  both are exact integers. Float rounding near a
  threshold is not modelled.
- Texture coordinates: greedy quads are given zero texture coordinates and
  the per-axis modulo of the engine is not modelled. Tangent normalisation
  is replaced by the integer direction of the first edge.
- Timing: the generation timestamps, the mesh generation time, the
  performance statistics module and the frame timers are not modelled. The
  per-frame entry point only sequences UpdateChunks, ProcessChunkTasks and
  the memory check behind two timers, and each of those is modelled.
- Concurrency: the worker-pool job is two steps, start and complete, with
  nothing in between. Locks and interleavings are not modelled.
- Spawning: whether the engine manages to spawn an actor is a boolean
  parameter. A failed spawn while pre-filling the pool is not modelled; the
  pool always holds the configured number of actors.
- Map order: the iteration order of the active-chunk map is a parameter.
  The order among chunks at equal distance after the engine's unstable sort
  is not fixed; `WorldStreaming.SortFarthestFirst` is one such order.
- `WorldStreaming.UpdateChunks`: the unload pass removes every loaded chunk
  that is not wanted, but the order in which it visits them is unspecified,
  so the contract speaks about the resulting map and not about the pool
  order.
- `WorldStreaming.EnforceMemoryBudget`: its own contract states only the
  under-budget case; the eviction behaviour over budget is in
  `WorldStreaming.EvictsFarthest`.
- `VoxelTypes.ChunkData.GetVoxel`: the contract does not name which stored
  voxel an in-bounds read returns; `VoxelTypes.ReadsStoredVoxel` states it,
  and `VoxelTypes.ChunkData.SetVoxel` relates reads to writes.
- `VoxelWorld.OnChunkGenerated`: the model assumes the world's completion
  handler is bound once per actor, so each completion decrements the counter
  once. VoxelWorld.cpp:133 binds it again every time an actor is set up,
  including an actor reused from the pool, and nothing unbinds it. A
  repeated binding would run the handler once per binding. The engine's
  delegate semantics are not part of this model.
- Compression: the compressor is a pair of function parameters, and the
  round trip is a hypothesis of the lemmas that need it.
- Template metadata: the creation date and creator name come from the clock
  and the operating system; only the template name is kept. The world size
  in world units and the protected landmark areas are float geometry and
  are not modelled.
- The list of a world's active chunks for saving is taken as a parameter,
  because the world's accessor for it is not part of this model.
- `CalculateReductionPercent` in the greedy mesher is a float percentage
  for logging and is not modelled.
- The sphere and box editing helpers, the Blueprint function library, the
  test actor, the performance test and the module start-up are outside the
  core and are not modelled.
- Integer width: sizes, counts and coordinates are unbounded integers;
  32-bit overflow of very large chunks or far positions is not modelled.
- The lower levels of detail call stubs that leave the mesh as it is; the
  model does the same.

## Findings

| source | as written | input that shows it | evidently intended | confidence | as-written member | corrected member |
|---|---|---|---|---|---|---|
| Source/HearthshireVoxel/Private/VoxelGreedyMesher.cpp:585-617 | Bottom quads get the index order (0,1,2),(0,2,3), which is the order used for the four side faces; with the bottom corners listed as at lines 453-458 their triangles wind the other way from every other face | the unit bottom quad at the origin (position 0,0,0, size 1,1, stone) faces the outward normal while the unit top quad faces against it | bottom quads use the top-face order (0,3,1),(1,3,2) so all six faces wind alike | medium, not executed | `GreedyGeometry.AsWrittenBottomReversed`, `GreedyGeometry.AsWrittenBottomWitness`, `GreedyPipeline.GreedyMeshBottomReversed` | `GreedyGeometry.CorrectedWindingConsistent`, `GreedyPipeline.GreedyWindingConsistent` |
