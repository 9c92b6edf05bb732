# FoxEdit core, modelled in Dafny

FoxEdit is a Unity voxel editor. Each animation frame is a grid of voxels keyed
by integer cell, and each voxel carries a palette colour index. The editor
changes this grid with single-cell edits (add next to, remove, recolour) and
with recursive tools: flood fill, add layer and remove layer. It can also snap
a dragged selection back onto the grid and upscale a selection.

To save, it culls the faces hidden between neighbours. It lists opaque voxels
before transparent ones, and packs every frame into the flat buffers an
instanced renderer draws from:

- a duplicate-free list of (position, colour) entries;
- a face-major index buffer;
- per-frame face offsets;
- instance start indices and instance counts;
- a bounding box.

Around that sit the asset path helpers, the palette list of the settings
asset, and the editor window's frame list with its selection.

The project models these parts:

| file | module | what it models |
|---|---|---|
| `grid.dfy` | `Grid` | cells, the grid as a `map<Cell, Color>`, the in-plane steps of the layer tools, key enumerations |
| `grid_edits.dfy` | `GridEdits` | the guarded single-cell edits and the load of saved voxels, as functions from grid to grid |
| `flood.dfy` | `Flood` | the connectivity argument shared by the three recursive tools |
| `editor_frame.dfy` | `EditorFrame` | `VoxelEditorFrame` as a class whose `grid` field the tools update in place |
| `selection.dfy` | `Selection` | SnapToGrid and Upscale: the functions that specify them and the loops that build them |
| `culling.dfy` | `Culling` | face visibility, the per-voxel face list, and the opaque-first ordering |
| `bounds.dfy` | `Bounds` | GetBounds, and CreateBounds including 32-bit wrap-around and the `Mathf.Abs` overflow |
| `mesh_data.dfy` | `MeshData` | the runtime `VoxelMeshData` face list |
| `packing.dfy` | `Packing` | the frame loop of FillObject and its helpers, over arrays and sequences |
| `voxel_object.dfy` | `VoxelObjects` | the `VoxelObject` asset that FillObject writes field by field |
| `voxel_structure.dfy` | `VoxelStructures` | the runtime `VoxelStructure` |
| `asset_paths.dfy` | `AssetPaths` | GetAssetPath, ExtractDirectoryFromPath and the FBX path |
| `settings.dfy` | `Settings` | the palette list of `FoxEditSettings` |
| `window.dfy` | `Window` | the editor window's frame list, selection and frame labels, and the runtime frame switch |

Operations that throw in C# return a `thrown` or `completed` flag, or a
result datatype. The model leaves the state as the source leaves it at the
throw. Unity calls with effects beyond the grid are handled as follows:

- Show, Hide, Initialize and DestroyImmediate on a frame are recorded as a
  call log.
- Float world positions become an abstract target-cell function.
- The palette's alpha test becomes a transparency table, `seq<bool>`.
- Dictionary enumeration order becomes an explicit `order` sequence holding
  each key once.

## Model

| member | source | states |
|---|---|---|
| Grid.PlaneStepsStayInPlane | Editor/Scripts/Window/VoxelEditorFrame.cs:92-119 | for a unit-axis direction every in-plane step keeps the cell in the same plane along the direction |
| GridEdits.AddNextTo | Editor/Scripts/Window/VoxelEditorFrame.cs:76-90 | the add succeeds exactly when the origin is occupied or is (0,0,0) and origin+direction is empty; on success exactly that key is added, with the given colour; every existing voxel is kept; on failure nothing changes |
| GridEdits.RemoveVoxel | Editor/Scripts/Window/VoxelEditorFrame.cs:121-129 | the remove succeeds exactly when the cell is occupied and the grid holds more than one voxel; on success only that key goes, so the size drops by one and stays at least one |
| GridEdits.RemoveKeepsAVoxel | Editor/Scripts/Window/VoxelEditorFrame.cs:121-129 | a non-empty grid is never emptied by a remove |
| GridEdits.RemoveUndoesAdd | Editor/Scripts/Window/VoxelEditorFrame.cs:76-129 | removing the voxel just added restores the grid, unless that voxel is the only one |
| GridEdits.ColorVoxel | Assets/FoxEdit/Editor/Scripts/Window/VoxelEditorFrame.cs:155-162 | the recolour is refused for an empty cell or the colour the voxel already has; otherwise only that cell's colour changes; the keys never change |
| GridEdits.ColorVoxelTwiceRefused | Assets/FoxEdit/Editor/Scripts/Window/VoxelEditorFrame.cs:155-162 | repeating a recolour with the same colour is refused |
| GridEdits.ColorVoxelUndo | Assets/FoxEdit/Editor/Scripts/Window/VoxelEditorFrame.cs:155-162 | recolouring back to the old colour restores the grid |
| GridEdits.ColorUnlessLone | Editor/Scripts/VoxelEditorFrame.cs:100-107 | the older recolour is refused for an empty cell or a one-voxel grid, and not for a same-colour request; otherwise only that cell changes |
| GridEdits.LoneVoxelKeepsColor | Editor/Scripts/VoxelEditorFrame.cs:100-107 | a lone voxel is never recoloured by the older rule |
| GridEdits.Forget | Runtime/Scripts/VoxelStructure.cs:154-158 | a destroyed placeholder's cell leaves the grid; nothing else changes, and an absent cell changes nothing |
| GridEdits.LoadedContents | Editor/Scripts/Window/VoxelEditorFrame.cs:29-36 | a load adds exactly the listed cells and keeps every other cell; a position listed twice keeps the colour of its last listing |
| Flood.FloodIsComponent | Editor/Scripts/Window/VoxelEditorFrame.cs:164-184 | a recursive call that keeps its processed cells reachable and closed under the steps has processed exactly the cells reachable from its start |
| EditorFrame.FillIsComponent | Editor/Scripts/Window/VoxelEditorFrame.cs:164-184 | a successful fill recolours exactly the cells 6-connected to the start through cells of the base colour; keys never change |
| EditorFrame.FillLeavesUnreachable | Editor/Scripts/Window/VoxelEditorFrame.cs:164-184 | a base-colour cell the fill cannot reach keeps its colour |
| EditorFrame.AddLayerIsComponent | Editor/Scripts/Window/VoxelEditorFrame.cs:92-119 | a layer adds voxels of the new colour exactly in front of the plane cells reachable from the start through base-colour cells with an empty cell in front; existing voxels are never modified or removed |
| EditorFrame.RemoveLayerIsComponent | Editor/Scripts/Window/VoxelEditorFrame.cs:131-153 | unless it stopped at the last voxel, a layer removal removes the clicked cell itself and exactly the in-plane cells reachable from it through base-colour cells; survivors keep their colour |
| EditorFrame.VoxelEditorFrame.TryColorVoxel | Assets/FoxEdit/Editor/Scripts/Window/VoxelEditorFrame.cs:155-162 | result and new grid are those of ColorVoxel |
| EditorFrame.VoxelEditorFrame.TryFillColor | Editor/Scripts/Window/VoxelEditorFrame.cs:164-184 | fails and changes nothing on an empty cell, a cell of the target colour, or a cell not of the base colour; otherwise recolours the start and keeps the fill invariant, and no base-colour cell is left next to a recoloured one |
| EditorFrame.VoxelEditorFrame.TryAddVoxelNextTo | Editor/Scripts/Window/VoxelEditorFrame.cs:76-90 | result and new grid are those of AddNextTo |
| EditorFrame.VoxelEditorFrame.TryRemoveVoxel | Editor/Scripts/Window/VoxelEditorFrame.cs:121-129 | result and new grid are those of RemoveVoxel |
| EditorFrame.VoxelEditorFrame.TryAddLayer | Editor/Scripts/Window/VoxelEditorFrame.cs:92-119 | succeeds exactly on an occupied start of the base colour with an empty cell in front; the extrusion invariant holds; existing voxels are kept |
| EditorFrame.VoxelEditorFrame.TryRemoveLayer | Editor/Scripts/Window/VoxelEditorFrame.cs:131-153 | succeeds exactly on an occupied start of the base colour in a grid of more than one voxel; removes the start; the grid never becomes empty |
| EditorFrame.VoxelEditorFrame.LoadFromSave | Editor/Scripts/Window/VoxelEditorFrame.cs:29-36 | the grid becomes Loaded of the saved positions and colours |
| EditorFrame.VoxelEditorFrame.LoadFromCopy | Editor/Scripts/Window/VoxelEditorFrame.cs:38-41 | the grid becomes the copy |
| EditorFrame.VoxelEditorFrame.GetCopy | Assets/FoxEdit/Editor/Scripts/Window/VoxelEditorFrame.cs:43-60 | a new frame whose grid has the same keys and colour indices |
| EditorFrame.VoxelEditorFrame.SnapToGrid | Editor/Scripts/Window/VoxelEditorFrame.cs:198-235 | the grid becomes Snapped of the old grid |
| EditorFrame.VoxelEditorFrame.Upscale | Editor/Scripts/Window/VoxelEditorFrame.cs:237-291 | as written: the grid keeps exactly its voxels whatever the scale |
| EditorFrame.VoxelEditorFrame.UpscaleAssigned | Editor/Scripts/Window/VoxelEditorFrame.cs:237-291 | as intended: the grid becomes the upscaled map |
| EditorFrame.VoxelEditorFrame.DownScale | Assets/FoxEdit/Editor/Scripts/Window/VoxelEditorFrame.cs:293-309 | no key or colour changes |
| EditorFrame.VoxelEditorFrame.GetVoxelData | Editor/Scripts/Window/VoxelEditorFrame.cs:415-432 | the records of the voxels with a drawn face, opaque ones first |
| EditorFrame.VoxelEditorFrame.GetPackedData | Assets/FoxEdit/Editor/Scripts/Window/VoxelEditorFrame.cs:394-410 | culled records, tight bounds enclosing every key (the starting values for an empty grid), and positions and colours as parallel sequences of the grid's size, holding every key with its colour |
| Selection.Snapped | Editor/Scripts/Window/VoxelEditorFrame.cs:198-235 | unselected voxels keep their cells and colours; every selected voxel's target ends up occupied; the grid never grows; a non-empty grid stays non-empty |
| Selection.SplitSize | Editor/Scripts/Window/VoxelEditorFrame.cs:205-212 | the copied unselected voxels and the listed selected cells together account for every key once |
| Selection.SplitSelection | Editor/Scripts/Window/VoxelEditorFrame.cs:205-212 | the first loop yields the unselected voxels and the selected cells in enumeration order |
| Selection.PlaceMoving | Editor/Scripts/Window/VoxelEditorFrame.cs:214-232 | the second loop places each moving voxel at its target unless the cell is taken |
| Selection.PlaceFrom | Editor/Scripts/Window/VoxelEditorFrame.cs:214-232 | every voxel after the second loop is an unselected one in place or a selected one at its target |
| Selection.SnappedFrom | Editor/Scripts/Window/VoxelEditorFrame.cs:198-235 | every voxel SnapToGrid leaves came from an unselected voxel in place or a selected voxel at its target, with that voxel's colour |
| Selection.SelectedInAppend | Editor/Scripts/Window/VoxelEditorFrame.cs:205-212 | the selected cells of two enumerations joined are those of the first followed by those of the second |
| Selection.PlaceFirstWins | Editor/Scripts/Window/VoxelEditorFrame.cs:214-232 | the first moving voxel whose target holds no placed voxel takes that cell with its own colour, whatever the later voxels with the same target |
| Selection.SnapFirstWins | Editor/Scripts/Window/VoxelEditorFrame.cs:198-235 | when several selected voxels snap to the same cell and no unselected voxel holds it, the first of them in enumeration order takes it with its own colour |
| Selection.Upscaled | Editor/Scripts/Window/VoxelEditorFrame.cs:254-290 | every voxel's own cell stays occupied, and every cell in the n×n×n block of a selected voxel is occupied |
| Selection.UpscaledFrom | Editor/Scripts/Window/VoxelEditorFrame.cs:254-290 | every cell of the upscaled map is a voxel of the grid or in the block of a selected one, and carries the colour of a voxel it came from |
| Selection.UpscaledByOne | Editor/Scripts/Window/VoxelEditorFrame.cs:237-291 | with a scale of one the upscaled map is the grid itself |
| Selection.StampColumn | Editor/Scripts/Window/VoxelEditorFrame.cs:267-285 | the z loop fills one column of the block with the voxel's colour |
| Selection.StampSlice | Editor/Scripts/Window/VoxelEditorFrame.cs:265-286 | the y loop fills one slice of the block |
| Selection.StampBlock | Editor/Scripts/Window/VoxelEditorFrame.cs:263-287 | the three nested loops give every cell of the block the voxel's colour and change nothing else |
| Selection.BuildUpscaled | Editor/Scripts/Window/VoxelEditorFrame.cs:254-290 | the outer loop builds exactly the upscaled map |
| Selection.UpscaleOfLoneVoxel | Editor/Scripts/Window/VoxelEditorFrame.cs:237-291 | for a lone selected voxel scaled by two, the built map holds a cell that the original grid lacks, and Upscale as written keeps that original grid |
| Culling.NoFaceBetweenAlike | Editor/Scripts/Window/VoxelEditorFrame.cs:454-463 | no face is drawn between two occupied cells of the same transparency |
| Culling.SharedWallDrawnOnce | Editor/Scripts/Window/VoxelEditorFrame.cs:454-463 | of the two faces on a wall shared by two voxels at most one is drawn; a voxel's face on that wall is drawn exactly when the voxel is opaque and its neighbour transparent |
| Culling.VisibleFaces | Editor/Scripts/Window/VoxelEditorFrame.cs:434-452 | the drawn faces of a voxel, each once, in increasing face order 0..5, exactly those whose neighbour check passes |
| Culling.VisibleVoxelsAre | Editor/Scripts/Window/VoxelEditorFrame.cs:415-432 | exactly the listed voxels with a drawn face are kept, each with its colour and faces |
| Culling.VisibleVoxelsDistinct | Editor/Scripts/Window/VoxelEditorFrame.cs:415-432 | distinct keys give records with distinct positions |
| Culling.OpaqueFirstPermutes | Editor/Scripts/VoxelEditorFrame.cs:198-215 | the opaque-first order is a permutation of the records |
| Culling.OpaqueFirstOrdered | Editor/Scripts/VoxelEditorFrame.cs:210-212 | no opaque record follows a transparent one |
| Culling.OpaqueOfAppend | Editor/Scripts/VoxelEditorFrame.cs:210 | the opaque filter is stable: the opaque records of a concatenation are those of the first part followed by those of the second |
| Culling.TransparentOfAppend | Editor/Scripts/VoxelEditorFrame.cs:211 | the transparent filter is stable in the same way |
| Culling.SplitOfOne | Editor/Scripts/VoxelEditorFrame.cs:210-211 | a single record is kept by exactly one of the two filters, chosen by its colour's transparency; with the two append lemmas this makes each group the input's records of that kind in their original order |
| Culling.AllOpaqueKeepsOrder | Runtime/Scripts/VoxelStructure.cs:229-249 | with every colour opaque the order is unchanged |
| Culling.AllOpaqueFaceVisible | Runtime/Scripts/VoxelStructure.cs:277-290 | with every colour opaque a face is drawn exactly when the cell behind it is empty |
| Culling.CollectVoxelData | Editor/Scripts/Window/VoxelEditorFrame.cs:415-432 | the loop over the keys returns the visible records, opaque first |
| Bounds.GetBounds | Editor/Scripts/Window/VoxelEditorFrame.cs:398-413 | every key lies between min and max on every axis; each component is attained by a key or is still int.MaxValue / int.MinValue, so an empty grid keeps the starting values |
| Bounds.NonEmptyBoundsOrdered | Editor/Scripts/Window/VoxelEditorFrame.cs:398-413 | a non-empty grid has min <= max on every axis |
| Bounds.BoundsBox | Assets/FoxEdit/Editor/Scripts/VoxelSaveSystem.cs:187-214 | throws exactly when a wrapped 32-bit difference is int.MinValue; otherwise, per axis, the centre is (min+max+1)/2 * 0.1 and the extent (abs(max-min)+1)/2 * 0.1, with the sum, the difference and the +1 of the extent wrapping at 32 bits |
| Bounds.BoxSpansCells | Assets/FoxEdit/Editor/Scripts/VoxelSaveSystem.cs:187-214 | for ordered corners of moderate size the box reaches from the low face of the min cell to the high face of the max cell |
| Bounds.EmptyFrameBox | Assets/Scripts/VoxelStructure.cs:33-53 | the box of an empty frame is centred on the origin with half-size 0.1 |
| Bounds.LowerAll | Runtime/Scripts/VoxelEditor.cs:405-408 | at or below every cell on every axis, never above int.MaxValue, and each component is some cell's or still int.MaxValue |
| Bounds.UpperAll | Runtime/Scripts/VoxelEditor.cs:410-413 | at or above every cell on every axis, never below int.MinValue, and each component is some cell's or still int.MinValue |
| Bounds.UnionEncloses | Runtime/Scripts/VoxelEditor.cs:376-403 | the union of the frames' boxes encloses every frame's cells |
| Bounds.CreateBounds | Assets/FoxEdit/Editor/Scripts/VoxelSaveSystem.cs:187-214 | the box of the per-axis minimum of the lower corners and maximum of the upper corners |
| MeshData.WithFace | Runtime/Scripts/Scripts/VoxelMeshData.cs:17-23 | the old list is kept as a prefix, at most one face is added, and the faces listed afterwards are the old ones plus the index when it is below 6 (a negative index included) |
| MeshData.WithFaceKeepsDistinct | Runtime/Scripts/Scripts/VoxelMeshData.cs:17-23 | adding a face never introduces a duplicate |
| MeshData.WithFaceIdempotent | Runtime/Scripts/Scripts/VoxelMeshData.cs:19-22 | adding the same face twice is adding it once |
| MeshData.AtMostSixFaces | Runtime/Scripts/Scripts/VoxelMeshData.cs:35-38 | a duplicate-free list of faces 0..5 has at most six entries |
| MeshData.VoxelMeshData.constructor | Runtime/Scripts/Scripts/VoxelMeshData.cs:11-15 | a new record has the given position and no faces |
| MeshData.VoxelMeshData.AddFace | Runtime/Scripts/Scripts/VoxelMeshData.cs:17-23 | the face list becomes WithFace of the old one; the position is kept |
| MeshData.VoxelMeshData.GetFaces | Runtime/Scripts/Scripts/VoxelMeshData.cs:35-38 | a new array holding the faces in insertion order |
| Packing.StoredFramesMembers | Assets/FoxEdit/Editor/Scripts/VoxelSaveSystem.cs:135-151 | the entry list holds the entry of every record of every frame, nothing else, without duplicates |
| Packing.EntryBucketMembers | Assets/FoxEdit/Editor/Scripts/VoxelSaveSystem.cs:153-162 | bucket f holds only entries of records that list face f |
| Packing.EntryBucketLength | Assets/FoxEdit/Editor/Scripts/VoxelSaveSystem.cs:153-162 | bucket f holds one entry per listing of face f |
| Packing.FrameEntriesLength | Assets/FoxEdit/Editor/Scripts/VoxelSaveSystem.cs:89-104 | a frame owns exactly as many indices as its records list faces, its instance count |
| Packing.FaceOffsetsOrdered | Assets/FoxEdit/Editor/Scripts/VoxelSaveSystem.cs:164-177 | the per-frame offsets never decrease and the last is the frame's instance count |
| Packing.FaceSegment | Assets/FoxEdit/Editor/Scripts/VoxelSaveSystem.cs:164-177 | the indices between the offsets of faces i-1 and i are exactly bucket i |
| Packing.AllEntriesSegment | Assets/FoxEdit/Editor/Scripts/VoxelSaveSystem.cs:78-108 | frame f's indices follow the earlier frames' and are exactly its own buckets |
| Packing.StartsAreSums | Assets/FoxEdit/Editor/Scripts/VoxelSaveSystem.cs:103-105 | the start of frame f is the sum of the instance counts before it |
| Packing.MaxOf | Assets/FoxEdit/Editor/Scripts/VoxelSaveSystem.cs:120 | the largest element, one of the elements and at least every element |
| Packing.StorePositionAndColorIndex | Assets/FoxEdit/Editor/Scripts/VoxelSaveSystem.cs:135-151 | returns the index of the record's entry, appending it only when it is new |
| Packing.StoreIndicesByFace | Assets/FoxEdit/Editor/Scripts/VoxelSaveSystem.cs:153-162 | the index is appended to the bucket of every listed face and counted; the face count is returned |
| Packing.SortIndices | Assets/FoxEdit/Editor/Scripts/VoxelSaveSystem.cs:164-177 | the frame's six slots receive the running offsets, every slot before and after them is unchanged, the counters are reset, and the buckets are appended in face order |
| Packing.CreateListArray | Assets/FoxEdit/Editor/Scripts/VoxelSaveSystem.cs:125-133 | six empty buckets |
| Packing.ClearVoxelIndicesByFace | Assets/FoxEdit/Editor/Scripts/VoxelSaveSystem.cs:179-185 | every bucket is emptied |
| Packing.BucketFrame | Assets/FoxEdit/Editor/Scripts/VoxelSaveSystem.cs:91-99 | the record loop stores every record, buckets its faces, and counts them |
| Packing.PackFrame | Assets/FoxEdit/Editor/Scripts/VoxelSaveSystem.cs:89-101 | one frame's records are stored, bucketed and sorted into the buffers |
| Packing.FaceDrawResolves | Assets/FoxEdit/Editor/Scripts/VoxelSaveSystem.cs:78-108 | the draw of face i in frame f reads the indices between its start plus the offsets of faces i-1 and i, and they resolve to the entries of the records showing face i |
| Packing.PackNextFrame | Assets/FoxEdit/Editor/Scripts/VoxelSaveSystem.cs:80-107 | one turn of the frame loop keeps the packing invariant |
| Packing.PackFrames | Assets/FoxEdit/Editor/Scripts/VoxelSaveSystem.cs:61-108 | the frame loop produces buffers that satisfy IsPacking against the duplicate-free entry list, plus the frames' bounding cells |
| VoxelObjects.ProjectionsResolve | Assets/FoxEdit/Editor/Scripts/VoxelSaveSystem.cs:113-116 | through VoxelPositions and ColorIndices, every index reads the position and colour of the entry it stands for |
| VoxelObjects.ProjectionsDetermine | Assets/FoxEdit/Editor/Scripts/VoxelSaveSystem.cs:113-116 | the two projections determine the entry list |
| VoxelObjects.BuildUnionBox | Assets/FoxEdit/Editor/Scripts/VoxelSaveSystem.cs:110 | CreateBounds over the collected bounding cells is the union box |
| VoxelObjects.VoxelObject.FillObject | Assets/FoxEdit/Editor/Scripts/VoxelSaveSystem.cs:59-123 | completes exactly when the bounds do not overflow and there is a frame; when it completes the asset describes the frames and MaxInstanceCount is the maximum count; when CreateBounds throws only the placeholder index buffer is written; with no frames Max() throws after the buffers are written; the runtime ConstructVoxelObject copies (Runtime/Scripts/VoxelEditor.cs lines 263-323 and Runtime/Scripts/Scripts/VoxelEditor.cs lines 200-263, the latter without editor cells) are the same method with `keepEditorVoxels` set accordingly |
| VoxelObjects.VoxelObject.WriteBuffers | Assets/FoxEdit/Editor/Scripts/VoxelSaveSystem.cs:110-119 | writes the bounds, the palette, the buffers and the counts, and nothing else |
| VoxelObjects.VoxelObject.WriteTallies | Assets/FoxEdit/Editor/Scripts/VoxelSaveSystem.cs:120-122 | writes the maximum count, the starts and the editor cells, and nothing else |
| VoxelStructures.VoxelStructure.Awake | Runtime/Scripts/VoxelStructure.cs:17-24 | an empty structure gets one voxel at the origin; a non-empty one is unchanged |
| VoxelStructures.VoxelStructure.SetColor | Runtime/Scripts/VoxelStructure.cs:104-118 | recolours an existing voxel only when an editor was found |
| VoxelStructures.VoxelStructure.TryAddCubeNextTo | Runtime/Scripts/VoxelStructure.cs:87-102 | result and grid are those of AddNextTo, with the placeholder colour when there is no editor |
| VoxelStructures.VoxelStructure.TryRemoveCube | Runtime/Scripts/VoxelStructure.cs:129-140 | result and grid are those of RemoveVoxel |
| VoxelStructures.VoxelStructure.TryColorCube | Runtime/Scripts/VoxelStructure.cs:142-152 | result and grid are those of ColorUnlessLone |
| VoxelStructures.VoxelStructure.OnCubeDeletion | Runtime/Scripts/VoxelStructure.cs:154-158 | the grid becomes Forget of the cell |
| VoxelStructures.VoxelStructure.LoadFromMesh | Runtime/Scripts/VoxelStructure.cs:35-48 | without a voxel at the origin the lookup throws and nothing changes; otherwise the grid is the saved voxels loaded into an empty grid, with the placeholder colour when no editor was found |
| VoxelStructures.VoxelStructure.GetFaces | Runtime/Scripts/VoxelStructure.cs:229-249 | with an editor, the visible records with the opaque ones first; without one, the visible records in key order, culled as if every colour were opaque |
| VoxelStructures.VoxelStructure.GetMeshData | Runtime/Scripts/VoxelStructure.cs:50-58 | tight enclosing bounds, the culled records, and the cells with their colours as parallel sequences |
| VoxelStructures.VoxelStructure.GetEditorVoxels | Runtime/Scripts/VoxelStructure.cs:60-74 | positions and colour indices in the same key order, as long as the grid, each key once with its colour |
| VoxelStructures.VoxelStructure.GetMeshDataWithBox | Assets/Scripts/VoxelStructure.cs:33-53 | the culled records and the box of tight enclosing bounds |
| VoxelStructures.RemovalsKeepAVoxel | Runtime/Scripts/VoxelStructure.cs:129-140 | any run of removals leaves a non-empty structure non-empty |
| AssetPaths.GetAssetPath | Assets/FoxEdit/Editor/Scripts/VoxelSaveSystem.cs:29-38 | the path starts with "Assets/" and ends with "." and the extension |
| AssetPaths.IndexOf | Editor/Scripts/FoxEditWindow.cs:355 | the first index holding the character, or -1 exactly when there is none |
| AssetPaths.LastIndexOf | Editor/Scripts/FoxEditWindow.cs:356 | the last index holding the character, or -1 exactly when there is none |
| AssetPaths.ExtractDirectoryFromPath | Editor/Scripts/FoxEditWindow.cs:350-359 | null exactly for a null or empty path; otherwise the text strictly between the first and last '/', or the Substring exception |
| AssetPaths.ExtractNeedsTwoSlashes | Editor/Scripts/FoxEditWindow.cs:355-358 | Substring throws exactly when the path has fewer than two '/' |
| AssetPaths.ExtractInvertsGetAssetPath | Editor/Scripts/FoxEditWindow.cs:350-359 | for a slash-free name and extension and a non-empty directory, the directory of GetAssetPath's result is that directory |
| AssetPaths.ExtractFailsWithoutDirectory | Editor/Scripts/FoxEditWindow.cs:350-359 | the path of an asset saved without a directory makes ExtractDirectoryFromPath throw |
| AssetPaths.ExtractDirectory | Editor/Scripts/FoxEditWindow.cs:350-359 | as intended: null for no path, the directory when there is one, the empty directory otherwise |
| AssetPaths.ExtractDirectoryRoundTrip | Editor/Scripts/FoxEditWindow.cs:350-359 | saving again under the recovered directory gives back the same path, with or without a directory |
| AssetPaths.FbxPathAsWritten | Runtime/Scripts/VoxelEditor.cs:325-329 | the ".fbx" asset path with a directory, the ".asset" path without one |
| AssetPaths.FbxPathWithoutDirectory | Runtime/Scripts/VoxelEditor.cs:325-327 | without a directory the FBX goes to the mesh asset's own path, which does not end in ".fbx" |
| AssetPaths.FbxPath | Runtime/Scripts/VoxelEditor.cs:325-329 | as intended: always ends in ".fbx", never the asset's path, and equal to the as-written path when a directory is given |
| Settings.WithPalette | Assets/FoxEdit/Runtime/Scripts/ScriptableObjects/FoxEditSettings.cs:16-20 | the palette is in the list, the old list is its prefix, at most one element is added and only that palette, nothing changes when it was present, and a duplicate-free list stays duplicate-free |
| Settings.Without | Assets/FoxEdit/Runtime/Scripts/ScriptableObjects/FoxEditSettings.cs:22-25 | one element fewer, the ones before the index kept, the ones after it shifted down in order |
| Settings.Replaced | Assets/FoxEdit/Runtime/Scripts/ScriptableObjects/FoxEditSettings.cs:27-33 | same length, the slot holds the new palette, every other slot kept |
| Settings.AddPaletteIdempotent | Assets/FoxEdit/Runtime/Scripts/ScriptableObjects/FoxEditSettings.cs:16-20 | adding a palette twice is adding it once |
| Settings.RemoveUndoesAdd | Assets/FoxEdit/Runtime/Scripts/ScriptableObjects/FoxEditSettings.cs:16-25 | removing the palette just added restores the list |
| Settings.RemoveKeepsDistinct | Assets/FoxEdit/Runtime/Scripts/ScriptableObjects/FoxEditSettings.cs:22-25 | removing keeps a duplicate-free list duplicate-free |
| Settings.ReplaceBackRestores | Assets/FoxEdit/Runtime/Scripts/ScriptableObjects/FoxEditSettings.cs:27-33 | putting back the replaced palette restores the list |
| Settings.FoxEditSettings.Palettes | Assets/FoxEdit/Runtime/Scripts/ScriptableObjects/FoxEditSettings.cs:14 | a new array, shared with nothing, holding the list; the older copy of the settings asset (Runtime/Scripts/ScriptableObjects/FoxEditSettings.cs) behaves the same |
| Settings.FoxEditSettings.AddPalette | Assets/FoxEdit/Runtime/Scripts/ScriptableObjects/FoxEditSettings.cs:16-20 | the list becomes WithPalette of the old list; the older copy of the settings asset (Runtime/Scripts/ScriptableObjects/FoxEditSettings.cs) behaves the same |
| Settings.FoxEditSettings.RemoveAt | Assets/FoxEdit/Runtime/Scripts/ScriptableObjects/FoxEditSettings.cs:22-25 | throws exactly for an index outside the list and then changes nothing; otherwise the list becomes Without of the old list; the older copy of the settings asset (Runtime/Scripts/ScriptableObjects/FoxEditSettings.cs) behaves the same |
| Settings.FoxEditSettings.SetPalette | Assets/FoxEdit/Runtime/Scripts/ScriptableObjects/FoxEditSettings.cs:27-33 | an index at or past the end changes nothing; a negative one throws; otherwise only that slot is replaced; the older copy of the settings asset (Runtime/Scripts/ScriptableObjects/FoxEditSettings.cs) behaves the same |
| Window.NatToString | Editor/Scripts/FoxEditWindow.cs:366 | non-empty decimal digits with no leading zero |
| Window.ParseNatToString | Editor/Scripts/FoxEditWindow.cs:366 | reading a label back gives the number it was written from |
| Window.LabelsDiffer | Editor/Scripts/FoxEditWindow.cs:366 | different frame numbers get different labels |
| Window.FrameLabelsName | Editor/Scripts/FoxEditWindow.cs:361-368 | label i reads back as i, so the labels are "0".."n-1" and are pairwise distinct |
| Window.DeleteFirstFrameLosesSelection | Editor/Scripts/FoxEditWindow.cs:436 | deleting frame 0 of several leaves selection -1, which indexes no frame |
| Window.SelectionAfterDeleteFixed | Editor/Scripts/FoxEditWindow.cs:432-440 | as intended: never negative, one down from a positive selection |
| Window.DeleteKeepsSelection | Editor/Scripts/FoxEditWindow.cs:432-440 | with the corrected rule a valid selection stays valid whenever a frame remains |
| Window.SelectionOnEnable | Editor/Scripts/FoxEditWindow.cs:287-288 | a selection at or past the end resets to 0; a valid one is kept; a negative one is not repaired |
| Window.FoxEditWindow.CreateFrameIndices | Editor/Scripts/FoxEditWindow.cs:361-368 | the labels become FrameLabels of the count |
| Window.FoxEditWindow.ResetSelection | Editor/Scripts/FoxEditWindow.cs:287-288 | the selection becomes SelectionOnEnable of the old one |
| Window.FoxEditWindow.ChangeFrame | Editor/Scripts/FoxEditWindow.cs:442-447 | throws exactly when the old selection or the new index is out of range; hides the old frame, selects the index, shows the new frame |
| Window.FoxEditWindow.NewFrame | Editor/Scripts/FoxEditWindow.cs:413-421 | appends the frame; throws when the selection does not index the longer list; otherwise initialises the selected frame (the previously selected one, not the new one, whenever the old selection was valid), hides it, shows the new frame, selects the last index and relabels |
| Window.FoxEditWindow.DuplicateFrame | Editor/Scripts/FoxEditWindow.cs:423-430 | throws on an invalid selection; otherwise appends the copy, initialises the selected frame, selects the copy and relabels |
| Window.FoxEditWindow.DeleteFrame | Editor/Scripts/FoxEditWindow.cs:432-440 | as written: removes the selected frame and moves the selection one down; deleting frame 0 throws when showing frame -1 |
| Window.FoxEditWindow.DeleteFrameFixed | Editor/Scripts/FoxEditWindow.cs:432-440 | as intended: removes the selected frame and keeps the selection valid whenever a frame remains |
| Window.RuntimeFrames.ChangeFrame | Runtime/Scripts/VoxelEditor.cs:166-174 | an out-of-range selection is ignored; otherwise the selected frame becomes current and shown, and the previous one is hidden; with `guarded` false it is the older copy (Runtime/Scripts/Scripts/VoxelEditor.cs lines 116-124), which throws when there is no current frame yet |

## Left out

- Floating point: world and grid conversions, rotation snapping and rotation matrices, and the float parts of the Bounds. The centre and extent are exact reals, so float rounding is not modelled.
- Float comparisons: the Vector4 equality of List.Contains in StorePositonAndColorIndex is modelled as exact equality of (cell, colour index), and the palette's alpha test as a given transparency table.
- Cell arithmetic: Vector3Int sums and products are unbounded integers, so int32 wrap-around of cell coordinates is not modelled. CreateBounds' sums and differences do wrap (Wrap32).
- The FBX export, the GPU vertex expansion, the renderer and all UI drawing are calls into the FBX SDK, the GPU and the editor GUI.
- Unity object lifecycle: Instantiate, DestroyImmediate, materials, SetActive, scale and position resets. They appear only as their effect on the grid or in the window's call log.
- The VoxelFrame class behind Show, Hide and Initialize is not part of this model. The window records those calls and does not model their effect.
- EnableEditing is modelled only through its selection reset (ResetSelection). Loading colours, destroying the old scene objects and rebuilding the frames are Unity scene work.
- Asset database I/O (CreateAsset, LoadAssetAtPath, GUIDToAssetPath, Resources.Load, SaveAssets) and GetSettings.
- Mouse, raycast and keyboard input.
- VoxelStructure's RefreshColors, PrintVoxelArray and GetAllVoxel: debug output and material refresh.
- Grid3D is not part of this model; the Grid3D-backed frame is modelled as the same finite map.
- A null array or list is modelled as an empty sequence.
- MeshData.VoxelMeshData: the class holds only the position and the face list. Its public ColorIndex field, which Assets/Scripts/VoxelStructure.cs:215-216 reads to put opaque voxels first, is carried instead by the record type Culling.VoxelData (`colorIndex`) that the culling and packing modules work on. PrintFaces is debug output.
- Editor/Scripts/Window/VoxelEditorFrame.cs's RotationSnap and GetCenter are float and quaternion maths. SnapToGrid takes the rounded target cells as a function.
- Upscale's rounded scale is an integer input. Mathf.RoundToInt's banker's rounding of the float scale is not modelled.
- Culling.CollectVoxelData: callers must give a transparency table covering every colour in the grid. The source would throw IndexOutOfRangeException on a missing entry, and that path is not modelled.
- Window.FoxEditWindow.NewFrame: Instantiate of the prefab is modelled as a new id; whether the new object starts active is not modelled.

## Findings

| source | as written | input that shows it | evidently intended | confidence | as-written member | corrected member |
|---|---|---|---|---|---|---|
| Editor/Scripts/Window/VoxelEditorFrame.cs:237-291 | Upscale builds `gridCopy` but never assigns it to `_grid`, so the frame's grid keeps its old voxels | one selected voxel at (0,0,0), colour 1, scale 2: the built map holds (1,1,1), and the grid does not | store the upscaled map as the frame's grid | not executed | EditorFrame.VoxelEditorFrame.Upscale, Selection.UpscaleOfLoneVoxel | EditorFrame.VoxelEditorFrame.UpscaleAssigned |
| Runtime/Scripts/VoxelEditor.cs:325-329 | without a save directory the FBX path ends in ".asset", the mesh asset's own path | meshName "M", saveDirectory null: fbxPath is "Assets/M.asset" | "Assets/M.fbx" | not executed | AssetPaths.FbxPathAsWritten, AssetPaths.FbxPathWithoutDirectory | AssetPaths.FbxPath |
| Editor/Scripts/FoxEditWindow.cs:350-359 | for a path with a single '/', Substring gets length -1 and throws | "Assets/M.asset", the path of an object saved without a directory | the empty directory, so that saving again gives the same path | not executed | AssetPaths.ExtractDirectoryFromPath, AssetPaths.ExtractFailsWithoutDirectory | AssetPaths.ExtractDirectory, AssetPaths.ExtractDirectoryRoundTrip |
| Editor/Scripts/FoxEditWindow.cs:432-440 | deleting frame 0 sets the selection to -1, and `_frameList[-1].Show()` throws | two frames, selection 0, DeleteFrame | select frame 0 of the remaining frames | not executed | Window.FoxEditWindow.DeleteFrame, Window.DeleteFirstFrameLosesSelection | Window.FoxEditWindow.DeleteFrameFixed, Window.DeleteKeepsSelection |
