/**
 * The runtime VoxelStructure: a grid of placeholder objects edited in the
 * scene, which the runtime packer reads frame by frame.
 *
 * Its colour and transparency lookups go through a VoxelEditor found in the
 * scene. `editorFound` stands for the outcome of that search: without an
 * editor a new placeholder keeps the colour index its prefab carries, a
 * recolour request is acknowledged but changes nothing, every colour counts
 * as opaque for culling, and the records are not reordered.
 */
module VoxelStructures {
  import opened Grid
  import opened GridEdits
  import opened Bounds
  import opened Culling

  /** The colour index a freshly instantiated placeholder carries. */
  const PlaceholderColor: Color := 0

  /** The colour a new voxel ends up with when `color` is asked for. */
  function ColorSet(editorFound: bool, color: Color): Color {
    if editorFound then color else PlaceholderColor
  }

  /** The colours the voxels of a load end up with. */
  function LoadColors(editorFound: bool, positions: seq<Cell>, colors: seq<Color>): (r: seq<Color>)
    requires |positions| <= |colors|
    ensures |r| == |positions|
    ensures forall i :: 0 <= i < |r| ==> r[i] == ColorSet(editorFound, colors[i])
  {
    seq(|positions|, i requires 0 <= i < |positions| => ColorSet(editorFound, colors[i]))
  }

  class VoxelStructure {
    var grid: VoxelGrid
    var editorFound: bool

    /** The grid collected from the structure's child placeholders. */
    constructor (grid: VoxelGrid, editorFound: bool)
      ensures this.grid == grid && this.editorFound == editorFound
    {
      this.grid := grid;
      this.editorFound := editorFound;
    }

    /** An empty structure is given one voxel at the origin. */
    method Awake()
      modifies this
      ensures editorFound == old(editorFound)
      ensures |old(grid)| == 0 ==> grid == map[Zero := PlaceholderColor]
      ensures |old(grid)| != 0 ==> grid == old(grid)
      ensures |grid| > 0
    {
      if |grid| == 0 {
        var added := TryAddCubeNextTo(Zero, Zero, 0);
      }
    }

    /** SetColor: recolour an existing voxel, only when an editor supplies the material. */
    method SetColor(p: Cell, color: Color)
      modifies this
      ensures editorFound == old(editorFound)
      ensures grid == if p in old(grid) && editorFound then old(grid)[p := color] else old(grid)
    {
      if p !in grid || !editorFound {
        return;
      }
      grid := grid[p := color];
    }

    method TryAddCubeNextTo(p: Cell, d: Cell, color: Color) returns (success: bool)
      modifies this
      ensures editorFound == old(editorFound)
      ensures Outcome(success, grid) == AddNextTo(old(grid), p, d, ColorSet(editorFound, color))
    {
      if p !in grid && p != Zero {
        return false;
      }
      var q := Add(p, d);
      if q in grid {
        return false;
      }
      grid := grid[q := PlaceholderColor];
      SetColor(q, color);
      return true;
    }

    method TryRemoveCube(p: Cell) returns (success: bool)
      modifies this
      ensures editorFound == old(editorFound)
      ensures Outcome(success, grid) == RemoveVoxel(old(grid), p)
    {
      if p !in grid || |grid| == 1 {
        return false;
      }
      grid := grid - {p};
      return true;
    }

    method TryColorCube(p: Cell, color: Color) returns (success: bool)
      modifies this
      ensures editorFound == old(editorFound)
      ensures Outcome(success, grid) == ColorUnlessLone(old(grid), p, color, editorFound)
    {
      if p !in grid || |grid| == 1 {
        return false;
      }
      SetColor(p, color);
      return true;
    }

    /** A placeholder at `p` was destroyed in the scene. */
    method OnCubeDeletion(p: Cell)
      modifies this
      ensures editorFound == old(editorFound)
      ensures grid == Forget(old(grid), p)
    {
      grid := grid - {p};
    }

    /**
     * LoadFromMesh: destroy the voxel at the origin, clear the grid and place
     * the saved voxels. Looking the origin up throws when it is empty; then
     * nothing changes and `loaded` is false.
     */
    method LoadFromMesh(positions: seq<Cell>, colors: seq<Color>) returns (loaded: bool)
      requires |positions| <= |colors|
      modifies this
      ensures editorFound == old(editorFound)
      ensures loaded <==> Zero in old(grid)
      ensures !loaded ==> grid == old(grid)
      ensures loaded ==> grid == Loaded(map[], positions, LoadColors(editorFound, positions, colors))
    {
      if Zero !in grid {
        return false;
      }
      grid := map[];
      ghost var stored := LoadColors(editorFound, positions, colors);
      for i := 0 to |positions|
        invariant editorFound == old(editorFound)
        invariant grid == Loaded(map[], positions[..i], stored)
      {
        assert positions[..i + 1][..i] == positions[..i];
        grid := grid[positions[i] := PlaceholderColor];
        SetColor(positions[i], colors[i]);
      }
      assert positions[..|positions|] == positions;
      return true;
    }

    /**
     * GetFaces: the records of the voxels with a drawn face, in key order;
     * with an editor the opaque ones come first, without one every colour is
     * opaque and the order is kept.
     */
    method GetFaces(order: seq<Cell>, table: seq<bool>) returns (r: seq<VoxelData>)
      requires IsKeyOrder(grid, order)
      requires editorFound ==> Covers(grid, table)
      ensures editorFound ==> ColorsCovered(VisibleVoxels(grid, order, table), table)
      ensures editorFound ==> r == OpaqueFirst(VisibleVoxels(grid, order, table), table)
      ensures !editorFound ==> r == VisibleVoxels(grid, order, OpaqueTable(grid, order))
    {
      if editorFound {
        r := CollectVoxelData(grid, order, table);
      } else {
        var allOpaque := OpaqueTable(grid, order);
        r := CollectVoxelData(grid, order, allOpaque);
        AllOpaqueKeepsOrder(VisibleVoxels(grid, order, allOpaque), allOpaque);
      }
    }

    /** GetMeshData: the frame's bounding cells and its culled records. */
    method GetMeshData(order: seq<Cell>, table: seq<bool>) returns (r: PackedFrameData)
      requires IsKeyOrder(grid, order)
      requires editorFound ==> Covers(grid, table)
      ensures Encloses(grid.Keys, r.minBounds, r.maxBounds) && Tight(grid.Keys, r.minBounds, r.maxBounds)
      ensures |grid| == 0 ==> r.minBounds == NoMin && r.maxBounds == NoMax
      ensures editorFound ==> ColorsCovered(VisibleVoxels(grid, order, table), table)
      ensures editorFound ==> r.data == OpaqueFirst(VisibleVoxels(grid, order, table), table)
      ensures !editorFound ==> r.data == VisibleVoxels(grid, order, OpaqueTable(grid, order))
      ensures |r.positions| == |r.colors| == |grid|
      ensures forall c :: c in grid <==> c in r.positions
      ensures forall i :: 0 <= i < |r.positions| ==> r.positions[i] in grid && r.colors[i] == grid[r.positions[i]]
    {
      var minBounds, maxBounds := GetBounds(grid);
      var data := GetFaces(order, table);
      var positions, colors := GetEditorVoxels(order);
      r := PackedFrameData(data, minBounds, maxBounds, positions, colors);
    }

    /**
     * GetEditorVoxelPositions and GetEditorVoxelColorIndices: the keys and
     * the colours of the grid, both in dictionary order, so parallel.
     */
    method GetEditorVoxels(order: seq<Cell>) returns (positions: seq<Cell>, colors: seq<Color>)
      requires IsKeyOrder(grid, order)
      ensures |positions| == |colors| == |grid|
      ensures forall c :: c in grid <==> c in positions
      ensures Distinct(positions)
      ensures forall i :: 0 <= i < |positions| ==> positions[i] in grid && colors[i] == grid[positions[i]]
    {
      KeyOrderLength(grid, order);
      positions := order;
      colors := ColorsOf(grid, order);
    }

    /**
     * The older structure's GetMeshData: the culled records with the Bounds
     * computed from the bounding cells.
     */
    method GetMeshDataWithBox(order: seq<Cell>, table: seq<bool>) returns (data: seq<VoxelData>, box: BoxOutcome)
      requires IsKeyOrder(grid, order)
      requires editorFound ==> Covers(grid, table)
      ensures editorFound ==> ColorsCovered(VisibleVoxels(grid, order, table), table)
      ensures editorFound ==> data == OpaqueFirst(VisibleVoxels(grid, order, table), table)
      ensures !editorFound ==> data == VisibleVoxels(grid, order, OpaqueTable(grid, order))
      ensures exists min, max :: Encloses(grid.Keys, min, max) && Tight(grid.Keys, min, max) && box == BoundsBox(min, max)
      ensures |grid| == 0 ==> box == Built(Box(Vec(0.0, 0.0, 0.0), Vec(0.1, 0.1, 0.1)))
    {
      var min, max := GetBounds(grid);
      box := BoundsBox(min, max);
      if |grid| == 0 {
        EmptyFrameBox();
      }
      data := GetFaces(order, table);
    }
  }

  /**
   * After Awake, removals can never empty the structure again: the last voxel
   * is protected.
   */
  lemma {:induction false} RemovalsKeepAVoxel(g: VoxelGrid, ps: seq<Cell>)
    requires |g| > 0
    ensures |RemoveAll(g, ps)| > 0
  {
    if ps != [] {
      RemovalsKeepAVoxel(g, ps[..|ps| - 1]);
    }
  }

  /** The grid after a run of TryRemoveCube calls. */
  function RemoveAll(g: VoxelGrid, ps: seq<Cell>): VoxelGrid {
    if ps == [] then g else RemoveVoxel(RemoveAll(g, ps[..|ps| - 1]), ps[|ps| - 1]).grid
  }
}
