/**
 * Integer cells of a voxel grid and the grid itself.
 *
 * A FoxEdit frame keys its voxels by Vector3Int grid position. Each voxel object
 * carries (among Unity state that is not modelled) a colour index into the
 * palette, so a grid is modelled as a finite map from cell to colour index.
 */
module Grid {

  /** A Vector3Int grid position. */
  datatype Cell = Cell(x: int, y: int, z: int)

  /** A palette colour index, as stored by every voxel. */
  type Color = nat

  /** A frame's voxel grid: the occupied cells and their colour indices. */
  type VoxelGrid = map<Cell, Color>

  const Zero := Cell(0, 0, 0)

  // Vector3Int.up, down, right, left, forward and back.
  const Up      := Cell(0, 1, 0)
  const Down    := Cell(0, -1, 0)
  const Right   := Cell(1, 0, 0)
  const Left    := Cell(-1, 0, 0)
  const Forward := Cell(0, 0, 1)
  const Back    := Cell(0, 0, -1)

  function Add(a: Cell, b: Cell): Cell {
    Cell(a.x + b.x, a.y + b.y, a.z + b.z)
  }

  function Neg(a: Cell): Cell {
    Cell(-a.x, -a.y, -a.z)
  }

  /** Componentwise product with an integer, `c * n` on a Vector3Int. */
  function Scale(c: Cell, n: int): Cell {
    Cell(c.x * n, c.y * n, c.z * n)
  }

  function Dot(a: Cell, b: Cell): int {
    a.x * b.x + a.y * b.y + a.z * b.z
  }

  /** One of the six directions a face normal rounds to. */
  predicate IsUnitAxis(d: Cell) {
    d in {Up, Down, Right, Left, Forward, Back}
  }

  /** The layer tools' first in-plane axis: the direction's components rotated to (z, x, y). */
  function Tangent(d: Cell): Cell {
    Cell(d.z, d.x, d.y)
  }

  /** The layer tools' second in-plane axis: the components rotated to (y, z, x). */
  function Bitangent(d: Cell): Cell {
    Cell(d.y, d.z, d.x)
  }

  /** The four steps the layer tools recurse along. */
  function PlaneSteps(d: Cell): set<Cell> {
    {Tangent(d), Neg(Tangent(d)), Bitangent(d), Neg(Bitangent(d))}
  }

  /** The layer tools take the four steps in this order. */
  lemma PlaneStepsInOrder(d: Cell)
    ensures {} + {Tangent(d)} + {Neg(Tangent(d))} + {Bitangent(d)} + {Neg(Bitangent(d))} == PlaneSteps(d)
  {
  }

  /** The six steps the flood fill recurses along. */
  const AxisSteps: set<Cell> := {Up, Down, Right, Left, Forward, Back}

  /**
   * For a unit axis direction both in-plane axes are orthogonal to it, so the
   * four layer steps never leave the plane through the start cell.
   */
  lemma PlaneStepsStayInPlane(d: Cell, c: Cell, s: Cell)
    requires IsUnitAxis(d) && s in PlaneSteps(d)
    ensures Dot(Add(c, s), d) == Dot(c, d)
  {
  }

  /** A step along a unit axis direction moves one plane further. */
  lemma DirectionLeavesPlane(d: Cell, c: Cell)
    requires IsUnitAxis(d)
    ensures Dot(Add(c, d), d) == Dot(c, d) + 1
  {
  }

  /** The direction itself is never one of the four in-plane steps. */
  lemma PlaneStepsAreNotTheDirection(d: Cell)
    requires IsUnitAxis(d)
    ensures d !in PlaneSteps(d) && Zero !in PlaneSteps(d)
  {
  }

  /** The cells of a grid with colour `b`. */
  function ColorCells(g: VoxelGrid, b: int): (r: set<Cell>)
    ensures forall c :: c in r <==> c in g && g[c] == b
  {
    set c | c in g && g[c] == b
  }
  /** Every entry of `order` is a key of `g`. */
  predicate KeysListed(g: VoxelGrid, order: seq<Cell>) {
    forall i :: 0 <= i < |order| ==> order[i] in g
  }

  /** The keys of `g`, each exactly once: one enumeration of the dictionary. */
  predicate IsKeyOrder(g: VoxelGrid, order: seq<Cell>) {
    && KeysListed(g, order)
    && (forall c :: c in g ==> c in order)
    && Distinct(order)
  }

  /** No element occurs twice. */
  predicate Distinct<T(==)>(s: seq<T>) {
    forall i, j :: 0 <= i < j < |s| ==> s[i] != s[j]
  }

  /** The cardinality of the set of a duplicate-free sequence is its length. */
  lemma {:induction false} DistinctCardinality<T>(s: seq<T>)
    requires Distinct(s)
    ensures |set x | x in s| == |s|
  {
    if s != [] {
      var t := s[..|s| - 1];
      DistinctCardinality(t);
      assert (set x | x in s) == (set x | x in t) + {s[|s| - 1]};
      assert forall k :: 0 <= k < |t| ==> t[k] != s[|s| - 1];
      assert s[|s| - 1] !in (set x | x in t);
    }
  }

  /** An enumeration of the keys is as long as the grid is large. */
  lemma {:induction false} KeyOrderLength(g: VoxelGrid, order: seq<Cell>)
    requires IsKeyOrder(g, order)
    ensures |order| == |g|
  {
    DistinctCardinality(order);
    assert (set c | c in order) == g.Keys;
  }

  /** The colours of the listed cells, in the same order. */
  function ColorsOf(g: VoxelGrid, order: seq<Cell>): (r: seq<Color>)
    requires KeysListed(g, order)
    ensures |r| == |order| && forall i :: 0 <= i < |order| ==> r[i] == g[order[i]]
  {
    seq(|order|, i requires 0 <= i < |order| => g[order[i]])
  }
}
