/**
 * VoxelEditorFrame: one animation frame being edited, a grid of voxels keyed by
 * cell, changed in place by the editing tools.
 *
 * The recursive tools (fill, add layer, remove layer) take the base colour as a
 * parameter that is -1 on the outermost call, where it is captured from the
 * clicked voxel, and fixed on every recursive call.
 */
module EditorFrame {
  import opened Grid
  import opened GridEdits
  import opened Flood
  import opened Selection
  import opened Bounds
  import opened Culling

  /** The base colour a recursive tool compares against at `p`. */
  function CapturedBase(g: VoxelGrid, p: Cell, baseColor: int): int {
    if baseColor == -1 && p in g then g[p] else baseColor
  }

  /** No key changes, and the only colour change is from `b` to `color`. */
  ghost predicate RecolouredOnly(g0: VoxelGrid, g1: VoxelGrid, b: int, color: Color) {
    && g1.Keys == g0.Keys
    && (forall c :: c in g0 ==> g1[c] == g0[c] || (g0[c] == b && g1[c] == color))
  }

  /** What a call of TryFillColor at `p` with base colour `b` guarantees. */
  ghost predicate FillPost(g0: VoxelGrid, g1: VoxelGrid, p: Cell, b: int, color: Color) {
    && RecolouredOnly(g0, g1, b, color)
    && FloodPost(ColorCells(g0, b), ColorCells(g1, b), AxisSteps, p, false)
  }

  /** A call of TryFillColor at `p` after recolouring `p` and the neighbours in `done`. */
  ghost predicate FillPartial(g0: VoxelGrid, g: VoxelGrid, p: Cell, done: set<Cell>, b: int, color: Color) {
    && RecolouredOnly(g0, g, b, color)
    && FloodPartial(ColorCells(g0, b), ColorCells(g, b), AxisSteps, p, done, false)
  }

  lemma {:induction false} FillStep(
    g0: VoxelGrid, gi: VoxelGrid, gj: VoxelGrid, p: Cell, s: Cell, done: set<Cell>, b: int, color: Color)
    requires b != color
    requires FillPartial(g0, gi, p, done, b, color)
    requires s in AxisSteps
    requires FillPost(gi, gj, Add(p, s), b, color)
    requires Add(p, s) !in ColorCells(gj, b)
    ensures FillPartial(g0, gj, p, done + {s}, b, color)
  {
    FloodStep(ColorCells(g0, b), ColorCells(gi, b), ColorCells(gj, b), AxisSteps, p, s, done, false, false);
  }

  /**
   * The fill theorem: a fill that succeeded at `p` recoloured exactly the cells
   * 6-connected to `p` through cells of the base colour, and nothing else.
   */
  lemma {:induction false} FillIsComponent(g0: VoxelGrid, g1: VoxelGrid, p: Cell, b: int, color: Color)
    requires FillPost(g0, g1, p, b, color)
    requires b != color && p in g0 && g0[p] == b && g1[p] == color
    ensures g1.Keys == g0.Keys
    ensures forall q :: q in g0 ==>
              g1[q] == (if Reachable(ColorCells(g0, b), AxisSteps, p, q) then color else g0[q])
  {
    var Q0, Q1 := ColorCells(g0, b), ColorCells(g1, b);
    FloodIsComponent(Q0, Q1, AxisSteps, p);
  }

  /** A region of the base colour that the fill cannot reach keeps its colour. */
  lemma {:induction false} FillLeavesUnreachable(g0: VoxelGrid, g1: VoxelGrid, p: Cell, b: int, color: Color, q: Cell)
    requires FillPost(g0, g1, p, b, color)
    requires b != color && p in g0 && g0[p] == b && g1[p] == color
    requires q in g0 && !Reachable(ColorCells(g0, b), AxisSteps, p, q)
    ensures g1[q] == g0[q]
  {
    FillIsComponent(g0, g1, p, b, color);
  }

  /**
   * The cells TryAddLayer may still extrude from: cells of the plane `k` (along
   * `d`) with base colour `b` whose neighbour along `d` is empty.
   */
  function LayerCells(g: VoxelGrid, d: Cell, k: int, b: int): (r: set<Cell>)
    ensures forall c :: c in r <==> c in g && Dot(c, d) == k && g[c] == b && Add(c, d) !in g
  {
    set c | c in g && Dot(c, d) == k && g[c] == b && Add(c, d) !in g
  }

  /** The cells of `R`, each moved one step along `d`. */
  function Shifted(R: set<Cell>, d: Cell): (r: set<Cell>)
    ensures forall c :: c in R ==> Add(c, d) in r
  {
    set c | c in R :: Add(c, d)
  }

  /** `g1` is `g0` plus a voxel of `color` in front of every cell of `R`. */
  ghost predicate GrownBy(g0: VoxelGrid, g1: VoxelGrid, R: set<Cell>, d: Cell, color: Color) {
    && (forall c :: c in g0 ==> c in g1 && g1[c] == g0[c])
    && g1.Keys == g0.Keys + Shifted(R, d)
    && (forall r :: r in R ==> g1[Add(r, d)] == color)
  }

  /** What a call of TryAddLayer at `p` with base colour `b` guarantees. */
  ghost predicate AddLayerPost(g0: VoxelGrid, g1: VoxelGrid, p: Cell, d: Cell, b: int, color: Color) {
    var k := Dot(p, d);
    && GrownBy(g0, g1, LayerCells(g0, d, k, b) - LayerCells(g1, d, k, b), d, color)
    && FloodPost(LayerCells(g0, d, k, b), LayerCells(g1, d, k, b), PlaneSteps(d), p, false)
  }

  /** A call of TryAddLayer at `p` after extruding `p` and recursing along `done`. */
  ghost predicate AddLayerPartial(g0: VoxelGrid, g: VoxelGrid, p: Cell, d: Cell, done: set<Cell>, b: int, color: Color) {
    var k := Dot(p, d);
    && GrownBy(g0, g, LayerCells(g0, d, k, b) - LayerCells(g, d, k, b), d, color)
    && FloodPartial(LayerCells(g0, d, k, b), LayerCells(g, d, k, b), PlaneSteps(d), p, done, false)
  }

  /** Extruding `p` makes exactly `p` stop qualifying. */
  lemma {:induction false} AddLayerStart(g0: VoxelGrid, p: Cell, d: Cell, b: int, color: Color)
    requires IsUnitAxis(d) && p in LayerCells(g0, d, Dot(p, d), b)
    ensures AddLayerPartial(g0, g0[Add(p, d) := color], p, d, {}, b, color)
  {
    var k := Dot(p, d);
    var g := g0[Add(p, d) := color];
    var Q0 := LayerCells(g0, d, k, b);
    DirectionLeavesPlane(d, p);
    forall c | Dot(c, d) == k ensures c != Add(p, d) && (Add(c, d) == Add(p, d) <==> c == p) {
    }
    assert LayerCells(g, d, k, b) == Q0 - {p};
    assert Q0 - (Q0 - {p}) == {p};
    assert Shifted({p}, d) == {Add(p, d)};
    FloodStart(Q0, PlaneSteps(d), p);
  }

  /** Shifting distributes over union. */
  lemma ShiftedUnion(R1: set<Cell>, R2: set<Cell>, d: Cell)
    ensures Shifted(R1, d) + Shifted(R2, d) == Shifted(R1 + R2, d)
  {
  }

  lemma {:induction false} AddLayerStep(
    g0: VoxelGrid, gi: VoxelGrid, gj: VoxelGrid, p: Cell, d: Cell, s: Cell, done: set<Cell>, b: int, color: Color)
    requires IsUnitAxis(d) && s in PlaneSteps(d)
    requires AddLayerPartial(g0, gi, p, d, done, b, color)
    requires AddLayerPost(gi, gj, Add(p, s), d, b, color)
    requires Add(p, s) !in LayerCells(gj, d, Dot(p, d), b)
    ensures AddLayerPartial(g0, gj, p, d, done + {s}, b, color)
  {
    var k := Dot(p, d);
    PlaneStepsStayInPlane(d, p, s);
    assert Dot(Add(p, s), d) == k;
    var Q0, Qi, Qj := LayerCells(g0, d, k, b), LayerCells(gi, d, k, b), LayerCells(gj, d, k, b);
    FloodStep(Q0, Qi, Qj, PlaneSteps(d), p, s, done, false, false);
    GrownByTrans(g0, gi, gj, Q0 - Qi, Qi - Qj, d, color);
    assert (Q0 - Qi) + (Qi - Qj) == Q0 - Qj;
  }

  /** Two extrusions in a row are one extrusion of both sets of cells. */
  lemma GrownByTrans(g0: VoxelGrid, g1: VoxelGrid, g2: VoxelGrid, R1: set<Cell>, R2: set<Cell>, d: Cell, color: Color)
    requires GrownBy(g0, g1, R1, d, color) && GrownBy(g1, g2, R2, d, color)
    ensures GrownBy(g0, g2, R1 + R2, d, color)
  {
    ShiftedUnion(R1, R2, d);
  }

  /**
   * The extrusion theorem: a layer added at `p` puts a voxel of the new colour
   * in front of exactly the plane cells reachable from `p` through cells of
   * the base colour with an empty cell in front, and changes no existing voxel.
   */
  lemma {:induction false} AddLayerIsComponent(g0: VoxelGrid, g1: VoxelGrid, p: Cell, d: Cell, b: int, color: Color)
    requires AddLayerPost(g0, g1, p, d, b, color)
    requires p in LayerCells(g0, d, Dot(p, d), b) && Add(p, d) in g1
    ensures forall c :: c in g0 ==> c in g1 && g1[c] == g0[c]
    ensures forall r :: Reachable(LayerCells(g0, d, Dot(p, d), b), PlaneSteps(d), p, r) ==>
              Add(r, d) !in g0 && Add(r, d) in g1 && g1[Add(r, d)] == color
    ensures forall c :: c in g1 && c !in g0 ==>
              Reachable(LayerCells(g0, d, Dot(p, d), b), PlaneSteps(d), p, Add(c, Neg(d)))
  {
    var k := Dot(p, d);
    var Q0, Q1 := LayerCells(g0, d, k, b), LayerCells(g1, d, k, b);
    assert p in Q0 - Q1;
    FloodIsComponent(Q0, Q1, PlaneSteps(d), p);
    forall c | c in g1 && c !in g0 ensures Reachable(Q0, PlaneSteps(d), p, Add(c, Neg(d))) {
      var r :| r in Q0 - Q1 && Add(r, d) == c;
      assert Add(c, Neg(d)) == r;
    }
  }

  /** The cells TryRemoveLayer removed, of base colour `b`, are gone and nothing else changed. */
  ghost predicate ShrunkBy(g0: VoxelGrid, g1: VoxelGrid, R: set<Cell>) {
    && g1.Keys == g0.Keys - R
    && (forall c :: c in g1 ==> g1[c] == g0[c])
  }

  /** What a call of TryRemoveLayer at `p` with base colour `b` guarantees. */
  ghost predicate RemoveLayerPost(g0: VoxelGrid, g1: VoxelGrid, p: Cell, d: Cell, b: int) {
    && ShrunkBy(g0, g1, ColorCells(g0, b) - ColorCells(g1, b))
    && FloodPost(ColorCells(g0, b), ColorCells(g1, b), PlaneSteps(d), p, |g1| == 1)
  }

  /** A call of TryRemoveLayer at `p` after removing `p` and recursing along `done`. */
  ghost predicate RemoveLayerPartial(g0: VoxelGrid, g: VoxelGrid, p: Cell, d: Cell, done: set<Cell>, b: int) {
    && ShrunkBy(g0, g, ColorCells(g0, b) - ColorCells(g, b))
    && FloodPartial(ColorCells(g0, b), ColorCells(g, b), PlaneSteps(d), p, done, |g| == 1)
  }

  lemma {:induction false} RemoveLayerStep(
    g0: VoxelGrid, gi: VoxelGrid, gj: VoxelGrid, p: Cell, d: Cell, s: Cell, done: set<Cell>, b: int)
    requires s in PlaneSteps(d)
    requires RemoveLayerPartial(g0, gi, p, d, done, b)
    requires RemoveLayerPost(gi, gj, Add(p, s), d, b)
    requires |gj| == 1 || Add(p, s) !in ColorCells(gj, b)
    requires |gi| == 1 ==> |gj| == 1
    ensures RemoveLayerPartial(g0, gj, p, d, done + {s}, b)
  {
    var Q0, Qi, Qj := ColorCells(g0, b), ColorCells(gi, b), ColorCells(gj, b);
    FloodStep(Q0, Qi, Qj, PlaneSteps(d), p, s, done, |gi| == 1, |gj| == 1);
    assert (Q0 - Qi) + (Qi - Qj) == Q0 - Qj;
  }

  /**
   * The erosion theorem: unless it stopped at the last voxel, a layer removal
   * at `p` removed exactly the cells reachable from `p` by in-plane steps
   * through cells of the base colour.
   */
  lemma {:induction false} RemoveLayerIsComponent(g0: VoxelGrid, g1: VoxelGrid, p: Cell, d: Cell, b: int)
    requires RemoveLayerPost(g0, g1, p, d, b)
    requires p in g0 && g0[p] == b && p !in g1 && |g1| != 1
    ensures forall q :: q in g0 ==> (q in g1 <==> !Reachable(ColorCells(g0, b), PlaneSteps(d), p, q))
    ensures forall q :: q in g1 ==> g1[q] == g0[q]
  {
    FloodIsComponent(ColorCells(g0, b), ColorCells(g1, b), PlaneSteps(d), p);
  }

  /** The six neighbours, added one by one in the order TryFillColor visits them. */
  lemma SixSteps()
    ensures {} + {Up} + {Down} + {Right} + {Left} + {Forward} + {Back} == AxisSteps
  {
  }

  class VoxelEditorFrame {
    var grid: VoxelGrid

    /** A new frame holds no voxels. */
    constructor ()
      ensures grid == map[]
    {
      grid := map[];
    }

    /** Recolour `p`; with a refusal when it already has that colour. */
    method TryColorVoxel(p: Cell, color: Color) returns (success: bool)
      modifies this
      ensures Outcome(success, grid) == ColorVoxel(old(grid), p, color)
    {
      if p !in grid || grid[p] == color {
        return false;
      }
      grid := grid[p := color];
      return true;
    }

    /**
     * Flood fill from `p`: recolour it and recurse on its six neighbours while
     * they have the base colour.
     */
    method TryFillColor(p: Cell, color: Color, baseColor: int) returns (success: bool)
      modifies this
      decreases if baseColor == -1 then 1 else 0, ColorCells(grid, baseColor), 0
      ensures success == (p in old(grid) && old(grid)[p] != color &&
                          (baseColor == -1 || old(grid)[p] == baseColor))
      ensures !success ==> grid == old(grid)
      ensures success ==> CapturedBase(old(grid), p, baseColor) != color && p in grid && grid[p] == color
      ensures FillPost(old(grid), grid, p, CapturedBase(old(grid), p, baseColor), color)
      ensures baseColor != color ==> p !in ColorCells(grid, baseColor)
    {
      if p !in grid || grid[p] == color {
        FloodIdle(ColorCells(grid, CapturedBase(grid, p, baseColor)), AxisSteps, p, false);
        return false;
      }
      var b := baseColor;
      if b == -1 {
        b := grid[p];
      } else if grid[p] != b {
        FloodIdle(ColorCells(grid, b), AxisSteps, p, false);
        return false;
      }
      ghost var g0 := grid;
      grid := grid[p := color];
      FloodStart(ColorCells(g0, b), AxisSteps, p);
      assert ColorCells(grid, b) == ColorCells(g0, b) - {p};

      ghost var done: set<Cell> := {};
      FillNeighbour(p, Up, color, b, g0, done);
      done := done + {Up};
      FillNeighbour(p, Down, color, b, g0, done);
      done := done + {Down};
      FillNeighbour(p, Right, color, b, g0, done);
      done := done + {Right};
      FillNeighbour(p, Left, color, b, g0, done);
      done := done + {Left};
      FillNeighbour(p, Forward, color, b, g0, done);
      done := done + {Forward};
      FillNeighbour(p, Back, color, b, g0, done);
      done := done + {Back};

      assert done == AxisSteps by {
        SixSteps();
      }
      FloodFinish(ColorCells(g0, b), ColorCells(grid, b), AxisSteps, p, false);
      return true;
    }

    /** One of TryFillColor's six recursive calls, on the neighbour `Add(p, s)`. */
    method FillNeighbour(p: Cell, s: Cell, color: Color, b: Color, ghost g0: VoxelGrid, ghost done: set<Cell>)
      requires b != color && s in AxisSteps
      requires FillPartial(g0, grid, p, done, b, color)
      modifies this
      decreases 0, ColorCells(grid, b), 1
      ensures p in grid && grid[p] == color
      ensures FillPartial(g0, grid, p, done + {s}, b, color)
    {
      ghost var gi := grid;
      var _ := TryFillColor(Add(p, s), color, b);
      FillStep(g0, gi, grid, p, s, done, b, color);
    }

    /** Place a voxel of `color` next to `p` along `d`. */
    method TryAddVoxelNextTo(p: Cell, d: Cell, color: Color) returns (success: bool)
      modifies this
      ensures Outcome(success, grid) == AddNextTo(old(grid), p, d, color)
    {
      if p !in grid && p != Zero {
        return false;
      }
      var target := Add(p, d);
      if target in grid {
        return false;
      }
      grid := grid[target := color];
      return true;
    }

    /** Remove the voxel at `p`, unless it is absent or the last one. */
    method TryRemoveVoxel(p: Cell) returns (success: bool)
      modifies this
      ensures Outcome(success, grid) == RemoveVoxel(old(grid), p)
    {
      if p !in grid || |grid| == 1 {
        return false;
      }
      grid := grid - {p};
      return true;
    }

    /**
     * Extrude a layer: put a voxel of `color` in front of `p` along `d`, then
     * recurse on the four in-plane neighbours while they have the base colour
     * and an empty cell in front.
     */
    method TryAddLayer(p: Cell, d: Cell, color: Color, baseColor: int) returns (success: bool)
      requires IsUnitAxis(d)
      modifies this
      decreases if baseColor == -1 then 1 else 0, LayerCells(grid, d, Dot(p, d), baseColor), 2
      ensures success == (p in old(grid) && Add(p, d) !in old(grid) &&
                          (baseColor == -1 || old(grid)[p] == baseColor))
      ensures !success ==> grid == old(grid)
      ensures success ==> Add(p, d) in grid
      ensures AddLayerPost(old(grid), grid, p, d, CapturedBase(old(grid), p, baseColor), color)
      ensures p !in LayerCells(grid, d, Dot(p, d), baseColor)
    {
      if p !in grid {
        FloodIdle(LayerCells(grid, d, Dot(p, d), CapturedBase(grid, p, baseColor)), PlaneSteps(d), p, false);
        return false;
      }
      if Add(p, d) in grid {
        FloodIdle(LayerCells(grid, d, Dot(p, d), CapturedBase(grid, p, baseColor)), PlaneSteps(d), p, false);
        return false;
      }
      var b := baseColor;
      if b == -1 {
        b := grid[p];
      } else if grid[p] != b {
        FloodIdle(LayerCells(grid, d, Dot(p, d), b), PlaneSteps(d), p, false);
        return false;
      }
      ExtrudeFrom(p, d, color, b);
      return true;
    }

    /** The work of a TryAddLayer call at a cell that qualifies. */
    method ExtrudeFrom(p: Cell, d: Cell, color: Color, b: Color)
      requires IsUnitAxis(d) && p in LayerCells(grid, d, Dot(p, d), b)
      modifies this
      decreases 0, LayerCells(grid, d, Dot(p, d), b), 1
      ensures Add(p, d) in grid
      ensures AddLayerPost(old(grid), grid, p, d, b, color)
      ensures p !in LayerCells(grid, d, Dot(p, d), b)
    {
      ghost var g0 := grid;
      grid := grid[Add(p, d) := color];
      AddLayerStart(g0, p, d, b, color);

      var tangent, bitangent := Tangent(d), Bitangent(d);
      ghost var done: set<Cell> := {};
      AddLayerNeighbour(p, d, tangent, color, b, g0, done);
      done := done + {tangent};
      AddLayerNeighbour(p, d, Neg(tangent), color, b, g0, done);
      done := done + {Neg(tangent)};
      AddLayerNeighbour(p, d, bitangent, color, b, g0, done);
      done := done + {bitangent};
      AddLayerNeighbour(p, d, Neg(bitangent), color, b, g0, done);
      done := done + {Neg(bitangent)};

      PlaneStepsInOrder(d);
      var k := Dot(p, d);
      FloodFinish(LayerCells(g0, d, k, b), LayerCells(grid, d, k, b), PlaneSteps(d), p, false);
    }

    /** One of TryAddLayer's four recursive calls, on the neighbour `Add(p, s)`. */
    method AddLayerNeighbour(p: Cell, d: Cell, s: Cell, color: Color, b: Color, ghost g0: VoxelGrid, ghost done: set<Cell>)
      requires IsUnitAxis(d) && s in PlaneSteps(d)
      requires AddLayerPartial(g0, grid, p, d, done, b, color)
      modifies this
      decreases 0, LayerCells(grid, d, Dot(p, d), b), 3
      ensures Add(p, d) in grid
      ensures AddLayerPartial(g0, grid, p, d, done + {s}, b, color)
      ensures LayerCells(grid, d, Dot(p, d), b) < LayerCells(g0, d, Dot(p, d), b)
    {
      ghost var gi := grid;
      PlaneStepsStayInPlane(d, p, s);
      var _ := TryAddLayer(Add(p, s), d, color, b);
      AddLayerStep(g0, gi, grid, p, d, s, done, b, color);
    }

    /**
     * Erode a layer: remove the voxel at `p` itself, then recurse on the four
     * in-plane neighbours while they have the base colour, never removing the
     * last voxel.
     */
    method TryRemoveLayer(p: Cell, d: Cell, baseColor: int) returns (success: bool)
      modifies this
      decreases grid.Keys, 2
      ensures success == (p in old(grid) && |old(grid)| != 1 &&
                          (baseColor == -1 || old(grid)[p] == baseColor))
      ensures !success ==> grid == old(grid)
      ensures success ==> p !in grid
      ensures |old(grid)| > 0 ==> |grid| > 0
      ensures RemoveLayerPost(old(grid), grid, p, d, CapturedBase(old(grid), p, baseColor))
      ensures |grid| == 1 || p !in ColorCells(grid, baseColor)
    {
      if p !in grid || |grid| == 1 {
        FloodIdle(ColorCells(grid, CapturedBase(grid, p, baseColor)), PlaneSteps(d), p, |grid| == 1);
        return false;
      }
      var b := baseColor;
      if b == -1 {
        b := grid[p];
      } else if grid[p] != b {
        FloodIdle(ColorCells(grid, b), PlaneSteps(d), p, |grid| == 1);
        return false;
      }
      ErodeFrom(p, d, b);
      return true;
    }

    /** The work of a TryRemoveLayer call at a cell that qualifies. */
    method ErodeFrom(p: Cell, d: Cell, b: Color)
      requires p in ColorCells(grid, b) && |grid| != 1
      modifies this
      decreases grid.Keys, 1
      ensures p !in grid && |grid| > 0
      ensures RemoveLayerPost(old(grid), grid, p, d, b)
    {
      ghost var g0 := grid;
      grid := grid - {p};
      assert grid.Keys == g0.Keys - {p};
      assert ColorCells(grid, b) == ColorCells(g0, b) - {p};
      assert ColorCells(g0, b) - (ColorCells(g0, b) - {p}) == {p};
      FloodStart(ColorCells(g0, b), PlaneSteps(d), p);

      var tangent, bitangent := Tangent(d), Bitangent(d);
      ghost var done: set<Cell> := {};
      RemoveLayerNeighbour(p, d, tangent, b, g0, done);
      done := done + {tangent};
      RemoveLayerNeighbour(p, d, Neg(tangent), b, g0, done);
      done := done + {Neg(tangent)};
      RemoveLayerNeighbour(p, d, bitangent, b, g0, done);
      done := done + {bitangent};
      RemoveLayerNeighbour(p, d, Neg(bitangent), b, g0, done);
      done := done + {Neg(bitangent)};

      PlaneStepsInOrder(d);
      FloodFinish(ColorCells(g0, b), ColorCells(grid, b), PlaneSteps(d), p, |grid| == 1);
    }

    /** One of TryRemoveLayer's four recursive calls, on the neighbour `Add(p, s)`. */
    method RemoveLayerNeighbour(p: Cell, d: Cell, s: Cell, b: Color, ghost g0: VoxelGrid, ghost done: set<Cell>)
      requires s in PlaneSteps(d) && |grid| > 0
      requires RemoveLayerPartial(g0, grid, p, d, done, b)
      modifies this
      decreases grid.Keys, 3
      ensures |grid| > 0 && (|old(grid)| == 1 ==> |grid| == 1)
      ensures RemoveLayerPartial(g0, grid, p, d, done + {s}, b)
      ensures grid.Keys < g0.Keys
    {
      ghost var gi := grid;
      var _ := TryRemoveLayer(Add(p, s), d, b);
      RemoveLayerStep(g0, gi, grid, p, d, s, done, b);
    }

    /** Write saved voxels into the frame, a later duplicate position winning. */
    method LoadFromSave(positions: seq<Cell>, colors: seq<Color>)
      requires |positions| <= |colors|
      modifies this
      ensures grid == Loaded(old(grid), positions, colors)
    {
      for i := 0 to |positions|
        invariant grid == Loaded(old(grid), positions[..i], colors)
      {
        assert positions[..i + 1][..i] == positions[..i];
        grid := grid[positions[i] := colors[i]];
      }
      assert positions[..|positions|] == positions;
    }

    /** Adopt a grid built elsewhere. */
    method LoadFromCopy(copy: VoxelGrid)
      modifies this
      ensures grid == copy
    {
      grid := copy;
    }

    /** A new frame with a voxel of the same colour at every cell of this one. */
    method GetCopy() returns (frame: VoxelEditorFrame)
      ensures fresh(frame) && frame.grid == grid
    {
      frame := new VoxelEditorFrame();
      var other: VoxelGrid := map[];
      var rest := grid.Keys;
      while rest != {}
        invariant rest <= grid.Keys
        invariant other.Keys == grid.Keys - rest
        invariant forall c :: c in other ==> other[c] == grid[c]
        decreases rest
      {
        var c :| c in rest;
        other := other[c := grid[c]];
        rest := rest - {c};
      }
      frame.LoadFromCopy(other);
    }

    /**
     * Let the dragged selection snap back onto the grid: unselected voxels
     * stay, then each selected voxel, in enumeration order, moves to its
     * rounded cell `target(c)` unless a voxel already sits there, in which case
     * it is destroyed.
     */
    method SnapToGrid(selected: set<Cell>, target: Cell -> Cell, order: seq<Cell>)
      requires IsKeyOrder(grid, order)
      modifies this
      ensures grid == Snapped(old(grid), order, selected, target)
    {
      var unselected, moving := SplitSelection(grid, order, selected);
      grid := PlaceMoving(grid, unselected, moving, target);
    }

    /**
     * Upscale as written: with a rounded scale other than one, the upscaled
     * map is built and then dropped, so the grid keeps exactly its voxels.
     */
    method Upscale(selected: set<Cell>, n: int, order: seq<Cell>)
      requires IsKeyOrder(grid, order)
      modifies this
      ensures grid == old(grid)
    {
      if n == 1 {
        return;
      }
      var built := BuildUpscaled(grid, order, selected, n);
    }

    /**
     * Upscale with the built map stored back into the frame: every selected
     * voxel becomes an n x n x n block of its colour.
     */
    method UpscaleAssigned(selected: set<Cell>, n: int, order: seq<Cell>)
      requires IsKeyOrder(grid, order)
      modifies this
      ensures grid == Upscaled(old(grid), order, selected, n)
    {
      if n == 1 {
        UpscaledByOne(grid, order, selected);
        return;
      }
      grid := BuildUpscaled(grid, order, selected, n);
    }

    /** DownScale resets the scene objects only; the grid keeps its voxels. */
    method DownScale(selected: set<Cell>, n: int)
      modifies this
      ensures grid == old(grid)
    {
    }

    /** The records of the voxels with a drawn face, opaque ones first. */
    method GetVoxelData(order: seq<Cell>, table: seq<bool>) returns (r: seq<VoxelData>)
      requires IsKeyOrder(grid, order) && Covers(grid, table)
      ensures ColorsCovered(VisibleVoxels(grid, order, table), table)
      ensures r == OpaqueFirst(VisibleVoxels(grid, order, table), table)
    {
      r := CollectVoxelData(grid, order, table);
    }

    /**
     * The frame as the save system stores it: culled records, bounding box,
     * and every cell with its colour, as parallel sequences of the grid's size.
     */
    method GetPackedData(order: seq<Cell>, table: seq<bool>) returns (r: PackedFrameData)
      requires IsKeyOrder(grid, order) && Covers(grid, table)
      ensures ColorsCovered(VisibleVoxels(grid, order, table), table)
      ensures r.data == OpaqueFirst(VisibleVoxels(grid, order, table), table)
      ensures Encloses(grid.Keys, r.minBounds, r.maxBounds) && Tight(grid.Keys, r.minBounds, r.maxBounds)
      ensures |grid| == 0 ==> r.minBounds == NoMin && r.maxBounds == NoMax
      ensures |r.positions| == |r.colors| == |grid|
      ensures forall c :: c in grid <==> c in r.positions
      ensures forall i :: 0 <= i < |r.positions| ==> r.positions[i] in grid && r.colors[i] == grid[r.positions[i]]
    {
      var minBounds, maxBounds := GetBounds(grid);
      var data := GetVoxelData(order, table);
      KeyOrderLength(grid, order);
      r := PackedFrameData(data, minBounds, maxBounds, order, ColorsOf(grid, order));
    }
  }
}
