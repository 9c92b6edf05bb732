/**
 * The single-cell edits every copy of the voxel grid performs, as functions from
 * the grid before to the grid after and the boolean the edit reports. The
 * editor frames and the runtime VoxelStructure are specified by these.
 */
module GridEdits {
  import opened Grid

  /** What an edit reports, and the grid it leaves. */
  datatype Outcome = Outcome(success: bool, grid: VoxelGrid)

  /**
   * TryAddVoxelNextTo / TryAddCubeNextTo: place a voxel of `color` next to
   * `p` in direction `d`. The origin must be occupied or be (0,0,0) (which
   * bootstraps an empty grid), and the target must be empty.
   */
  function AddNextTo(g: VoxelGrid, p: Cell, d: Cell, color: Color): (r: Outcome)
    ensures r.success <==> (p in g || p == Zero) && Add(p, d) !in g
    ensures !r.success ==> r.grid == g
    ensures r.success ==> r.grid.Keys == g.Keys + {Add(p, d)} && |r.grid| == |g| + 1
    ensures r.success ==> r.grid[Add(p, d)] == color
    ensures forall c :: c in g ==> c in r.grid && r.grid[c] == g[c]
  {
    if p !in g && p != Zero then Outcome(false, g)
    else if Add(p, d) in g then Outcome(false, g)
    else Outcome(true, g[Add(p, d) := color])
  }

  /**
   * TryRemoveVoxel / TryRemoveCube: remove the voxel at `p`, refusing an empty
   * cell and the last voxel of the grid.
   */
  function RemoveVoxel(g: VoxelGrid, p: Cell): (r: Outcome)
    ensures r.success <==> p in g && |g| != 1
    ensures !r.success ==> r.grid == g
    ensures r.success ==> r.grid.Keys == g.Keys - {p} && |r.grid| == |g| - 1 >= 1
    ensures forall c :: c in r.grid ==> c in g && r.grid[c] == g[c]
  {
    if p !in g || |g| == 1 then Outcome(false, g)
    else
      var h := g - {p};
      assert h.Keys == g.Keys - {p};
      Outcome(true, h)
  }

  /** An edit that succeeded never leaves a non-empty grid empty. */
  lemma RemoveKeepsAVoxel(g: VoxelGrid, p: Cell)
    requires |g| > 0
    ensures |RemoveVoxel(g, p).grid| > 0
  {
  }

  /**
   * Removing the voxel just added restores the grid, unless that voxel is the
   * only one (the bootstrap voxel of an empty grid is protected as the last).
   */
  lemma {:induction false} RemoveUndoesAdd(g: VoxelGrid, p: Cell, d: Cell, color: Color)
    requires AddNextTo(g, p, d, color).success && |g| > 0
    ensures var added := AddNextTo(g, p, d, color).grid;
            RemoveVoxel(added, Add(p, d)) == Outcome(true, g)
  {
    var added := AddNextTo(g, p, d, color).grid;
    assert |added| == |g| + 1;
    assert added - {Add(p, d)} == g;
  }

  /**
   * TryColorVoxel of the current editor frames: recolour `p`, refusing an
   * empty cell and a voxel that already has `color`.
   */
  function ColorVoxel(g: VoxelGrid, p: Cell, color: Color): (r: Outcome)
    ensures r.success <==> p in g && g[p] != color
    ensures r.grid.Keys == g.Keys
    ensures r.success ==> r.grid[p] == color
    ensures forall c :: c in g && c != p ==> r.grid[c] == g[c]
    ensures !r.success ==> r.grid == g
  {
    if p !in g || g[p] == color then Outcome(false, g)
    else Outcome(true, g[p := color])
  }

  /** Recolouring twice with the same colour: the second request is refused. */
  lemma ColorVoxelTwiceRefused(g: VoxelGrid, p: Cell, color: Color)
    requires ColorVoxel(g, p, color).success
    ensures !ColorVoxel(ColorVoxel(g, p, color).grid, p, color).success
  {
  }

  /** Recolouring back to the old colour restores the grid. */
  lemma {:induction false} ColorVoxelUndo(g: VoxelGrid, p: Cell, color: Color)
    requires ColorVoxel(g, p, color).success
    ensures ColorVoxel(ColorVoxel(g, p, color).grid, p, g[p]) == Outcome(true, g)
  {
    var h := ColorVoxel(g, p, color).grid;
    assert h[p := g[p]] == g;
  }

  /**
   * TryColorVoxel of the older editor frame and TryColorCube: recolour `p`,
   * refusing an empty cell and a grid of a single voxel (so a lone voxel keeps
   * its colour), but not a request for the colour it already has. With
   * `colorSet` false (VoxelStructure found no editor to ask for the material)
   * the edit reports success and changes nothing.
   */
  function ColorUnlessLone(g: VoxelGrid, p: Cell, color: Color, colorSet: bool): (r: Outcome)
    ensures r.success <==> p in g && |g| != 1
    ensures r.grid.Keys == g.Keys
    ensures r.success && colorSet ==> r.grid[p] == color
    ensures forall c :: c in g && (c != p || !colorSet) ==> r.grid[c] == g[c]
    ensures !r.success ==> r.grid == g
  {
    if p !in g || |g| == 1 then Outcome(false, g)
    else if colorSet then Outcome(true, g[p := color])
    else Outcome(true, g)
  }

  /** A lone voxel can never be recoloured by the older rule, whatever colour is asked. */
  lemma LoneVoxelKeepsColor(p: Cell, c: Color, color: Color, colorSet: bool)
    ensures ColorUnlessLone(map[p := c], p, color, colorSet) == Outcome(false, map[p := c])
  {
  }

  /** OnCubeDeletion: forget the cell a destroyed placeholder occupied, if any. */
  function Forget(g: VoxelGrid, p: Cell): (r: VoxelGrid)
    ensures r.Keys == g.Keys - {p}
    ensures forall c :: c in r ==> r[c] == g[c]
    ensures p !in g ==> r == g
  {
    g - {p}
  }

  /** Index `i` is the last occurrence of its position. */
  predicate LastAt(positions: seq<Cell>, i: int)
    requires 0 <= i < |positions|
  {
    forall j :: i < j < |positions| ==> positions[j] != positions[i]
  }

  /**
   * LoadFromSave / LoadFromMesh: write the saved voxels into `g` one by one,
   * `positions[i]` receiving `colors[i]`.
   */
  function Loaded(g: VoxelGrid, positions: seq<Cell>, colors: seq<Color>): VoxelGrid
    requires |positions| <= |colors|
  {
    if positions == [] then g
    else
      var n := |positions| - 1;
      Loaded(g, positions[..n], colors)[positions[n] := colors[n]]
  }

  /**
   * A load adds exactly the listed cells, keeps every other cell of `g`, and a
   * position listed twice keeps its last colour.
   */
  lemma {:induction false} LoadedContents(g: VoxelGrid, positions: seq<Cell>, colors: seq<Color>)
    requires |positions| <= |colors|
    ensures forall c :: c in Loaded(g, positions, colors) <==> c in g || c in positions
    ensures forall c :: c in g && c !in positions ==> Loaded(g, positions, colors)[c] == g[c]
    ensures forall i :: 0 <= i < |positions| && LastAt(positions, i) ==> Loaded(g, positions, colors)[positions[i]] == colors[i]
  {
    if positions != [] {
      var n := |positions| - 1;
      var prefix, p := positions[..n], positions[n];
      var rest := Loaded(g, prefix, colors);
      var r := Loaded(g, positions, colors);
      assert r == rest[p := colors[n]];
      assert positions == prefix + [p];
      forall c ensures c in r <==> c in g || c in positions {
        LoadedContents(g, prefix, colors);
        assert c in positions <==> c in prefix || c == p;
      }
      forall c | c in g && c !in positions ensures r[c] == g[c] {
        LoadedContents(g, prefix, colors);
        assert c !in prefix && c != p;
      }
      forall i | 0 <= i < |positions| && LastAt(positions, i) ensures r[positions[i]] == colors[i] {
        if i < n {
          LoadedContents(g, prefix, colors);
          assert positions[i] != p;
          assert LastAt(prefix, i) by {
            forall j | i < j < n ensures prefix[j] != prefix[i] {
              assert positions[j] != positions[i];
            }
          }
        }
      }
    }
  }
}
