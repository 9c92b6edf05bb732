/**
 * GetBounds: the componentwise minimum and maximum over a frame's keys,
 * starting from the largest and smallest 32-bit integers, which an empty
 * frame leaves in place.
 */
module Bounds {
  import opened Grid

  const IntMax: int := 2147483647
  const IntMin: int := -2147483648

  /** The starting values: `min` at int.MaxValue and `max` at int.MinValue on every axis. */
  const NoMin: Cell := Cell(IntMax, IntMax, IntMax)
  const NoMax: Cell := Cell(IntMin, IntMin, IntMin)

  function Min(a: int, b: int): int {
    if a < b then a else b
  }

  function Max(a: int, b: int): int {
    if a < b then b else a
  }

  /** Every cell of `S` lies between `min` and `max` on every axis. */
  predicate Encloses(S: set<Cell>, min: Cell, max: Cell) {
    forall c :: c in S ==> min.x <= c.x <= max.x && min.y <= c.y <= max.y && min.z <= c.z <= max.z
  }

  /** Each component of `min` and `max` is attained by a cell of `S`, or is still its starting value. */
  ghost predicate Tight(S: set<Cell>, min: Cell, max: Cell) {
    && (min.x == IntMax || exists c :: c in S && c.x == min.x)
    && (min.y == IntMax || exists c :: c in S && c.y == min.y)
    && (min.z == IntMax || exists c :: c in S && c.z == min.z)
    && (max.x == IntMin || exists c :: c in S && c.x == max.x)
    && (max.y == IntMin || exists c :: c in S && c.y == max.y)
    && (max.z == IntMin || exists c :: c in S && c.z == max.z)
  }

  /** The bounding box of the grid's keys, visited in any order. */
  method GetBounds(g: VoxelGrid) returns (min: Cell, max: Cell)
    ensures Encloses(g.Keys, min, max)
    ensures Tight(g.Keys, min, max)
    ensures |g| == 0 ==> min == NoMin && max == NoMax
    ensures min.x <= IntMax && min.y <= IntMax && min.z <= IntMax
    ensures max.x >= IntMin && max.y >= IntMin && max.z >= IntMin
  {
    min, max := NoMin, NoMax;
    var rest := g.Keys;
    while rest != {}
      invariant rest <= g.Keys
      invariant Encloses(g.Keys - rest, min, max)
      invariant Tight(g.Keys - rest, min, max)
      invariant rest == g.Keys ==> min == NoMin && max == NoMax
      invariant min.x <= IntMax && min.y <= IntMax && min.z <= IntMax
      invariant max.x >= IntMin && max.y >= IntMin && max.z >= IntMin
      decreases rest
    {
      var p :| p in rest;
      var seen := g.Keys - rest;
      var min', max' := Cell(Min(p.x, min.x), Min(p.y, min.y), Min(p.z, min.z)), Cell(Max(p.x, max.x), Max(p.y, max.y), Max(p.z, max.z));
      BoundsStep(seen, p, min, max, min', max');
      assert g.Keys - (rest - {p}) == seen + {p};
      min, max := min', max';
      rest := rest - {p};
    }
    assert g.Keys - rest == g.Keys;
  }

  /** Taking one more cell into the running bounds keeps them enclosing and tight. */
  lemma BoundsStep(seen: set<Cell>, p: Cell, min: Cell, max: Cell, min': Cell, max': Cell)
    requires Encloses(seen, min, max) && Tight(seen, min, max)
    requires min' == Cell(Min(p.x, min.x), Min(p.y, min.y), Min(p.z, min.z))
    requires max' == Cell(Max(p.x, max.x), Max(p.y, max.y), Max(p.z, max.z))
    ensures Encloses(seen + {p}, min', max') && Tight(seen + {p}, min', max')
  {
    assert p in seen + {p};
    assert forall c :: c in seen ==> c in seen + {p};
  }

  /** A non-empty grid has its lower corner below its upper corner on every axis. */
  lemma NonEmptyBoundsOrdered(g: VoxelGrid, min: Cell, max: Cell)
    requires Encloses(g.Keys, min, max) && |g| > 0
    ensures min.x <= max.x && min.y <= max.y && min.z <= max.z
  {
    var c :| c in g;
  }

  const TwoTo32: int := 0x1_0000_0000

  /** `v` wrapped into the 32-bit two's-complement range, as unchecked C# `int` arithmetic does. */
  function Wrap32(v: int): (r: int)
    ensures IntMin <= r <= IntMax
    ensures (v - r) % TwoTo32 == 0
    ensures IntMin <= v <= IntMax ==> r == v
  {
    (v - IntMin) % TwoTo32 + IntMin
  }

  function Abs(v: int): int {
    if v < 0 then -v else v
  }

  datatype Vec = Vec(x: real, y: real, z: real)

  /** A Unity Bounds: centre and half-size, in world units (a cell is 0.1 wide). */
  datatype Box = Box(center: Vec, extents: Vec)

  /** The Bounds built from two corners, or the OverflowException Mathf.Abs raises on int.MinValue. */
  datatype BoxOutcome = Built(box: Box) | AbsOverflow

  /** One axis of the centre, (lo + hi + 1) / 2 * 0.1, where `lo + hi` is 32-bit and the rest float. */
  function CenterAxis(lo: int, hi: int): real {
    (Wrap32(lo + hi) as real + 1.0) / 2.0 * 0.1
  }

  /** One axis of the half-size, (|hi - lo| + 1) / 2 * 0.1, with the difference and the +1 in 32 bits. */
  function ExtentAxis(lo: int, hi: int): real
    requires Wrap32(hi - lo) != IntMin
  {
    Wrap32(Abs(Wrap32(hi - lo)) + 1) as real / 2.0 * 0.1
  }

  /**
   * The box CreateBounds and the older GetMeshData derive from the lower and
   * upper cells `min` and `max`.
   */
  function BoundsBox(min: Cell, max: Cell): (r: BoxOutcome)
    ensures r.AbsOverflow? <==>
              Wrap32(max.x - min.x) == IntMin || Wrap32(max.y - min.y) == IntMin || Wrap32(max.z - min.z) == IntMin
  {
    if Wrap32(max.x - min.x) == IntMin || Wrap32(max.y - min.y) == IntMin || Wrap32(max.z - min.z) == IntMin then
      AbsOverflow
    else
      Built(Box(Vec(CenterAxis(min.x, max.x), CenterAxis(min.y, max.y), CenterAxis(min.z, max.z)),
                Vec(ExtentAxis(min.x, max.x), ExtentAxis(min.y, max.y), ExtentAxis(min.z, max.z))))
  }

  /** Coordinates small enough that no sum or difference of two of them leaves 32 bits. */
  predicate HalfRange(c: Cell) {
    && -0x3FFF_FFFF <= c.x < 0x4000_0000
    && -0x3FFF_FFFF <= c.y < 0x4000_0000
    && -0x3FFF_FFFF <= c.z < 0x4000_0000
  }

  /**
   * For ordered corners of moderate size the box reaches exactly from the low
   * face of the `min` cell to the high face of the `max` cell.
   */
  lemma {:induction false} BoxSpansCells(min: Cell, max: Cell)
    requires HalfRange(min) && HalfRange(max)
    requires min.x <= max.x && min.y <= max.y && min.z <= max.z
    ensures BoundsBox(min, max).Built?
    ensures var b := BoundsBox(min, max).box;
            && b.center.x - b.extents.x == min.x as real * 0.1 && b.center.x + b.extents.x == (max.x + 1) as real * 0.1
            && b.center.y - b.extents.y == min.y as real * 0.1 && b.center.y + b.extents.y == (max.y + 1) as real * 0.1
            && b.center.z - b.extents.z == min.z as real * 0.1 && b.center.z + b.extents.z == (max.z + 1) as real * 0.1
  {
    AxisSpansCells(min.x, max.x);
    AxisSpansCells(min.y, max.y);
    AxisSpansCells(min.z, max.z);
  }

  lemma AxisSpansCells(lo: int, hi: int)
    requires -0x3FFF_FFFF <= lo <= hi < 0x4000_0000
    ensures Wrap32(hi - lo) != IntMin
    ensures CenterAxis(lo, hi) - ExtentAxis(lo, hi) == lo as real * 0.1
    ensures CenterAxis(lo, hi) + ExtentAxis(lo, hi) == (hi + 1) as real * 0.1
  {
    assert Wrap32(lo + hi) == lo + hi;
    assert Wrap32(hi - lo) == hi - lo;
    assert Wrap32(hi - lo + 1) == hi - lo + 1;
  }

  /**
   * The box of an empty frame (corners still at their starting values) is
   * centred on the origin with a half-size of one cell: the difference
   * int.MinValue - int.MaxValue wraps round to 1.
   */
  lemma EmptyFrameBox()
    ensures BoundsBox(NoMin, NoMax) == Built(Box(Vec(0.0, 0.0, 0.0), Vec(0.1, 0.1, 0.1)))
  {
    assert Wrap32(IntMin - IntMax) == 1;
    assert Wrap32(IntMax + IntMin) == -1;
  }

  /** The lowest value on every axis over `cells`, starting from int.MaxValue. */
  function LowerAll(cells: seq<Cell>): (r: Cell)
    ensures forall i :: 0 <= i < |cells| ==> r.x <= cells[i].x && r.y <= cells[i].y && r.z <= cells[i].z
    ensures r.x == IntMax || exists i :: 0 <= i < |cells| && cells[i].x == r.x
    ensures r.y == IntMax || exists i :: 0 <= i < |cells| && cells[i].y == r.y
    ensures r.z == IntMax || exists i :: 0 <= i < |cells| && cells[i].z == r.z
    ensures r.x <= IntMax && r.y <= IntMax && r.z <= IntMax
  {
    if cells == [] then NoMin
    else
      var n := |cells| - 1;
      var m := LowerAll(cells[..n]);
      assert forall i :: 0 <= i < n ==> cells[..n][i] == cells[i];
      Cell(Min(m.x, cells[n].x), Min(m.y, cells[n].y), Min(m.z, cells[n].z))
  }

  /** The highest value on every axis over `cells`, starting from int.MinValue. */
  function UpperAll(cells: seq<Cell>): (r: Cell)
    ensures forall i :: 0 <= i < |cells| ==> cells[i].x <= r.x && cells[i].y <= r.y && cells[i].z <= r.z
    ensures r.x == IntMin || exists i :: 0 <= i < |cells| && cells[i].x == r.x
    ensures r.y == IntMin || exists i :: 0 <= i < |cells| && cells[i].y == r.y
    ensures r.z == IntMin || exists i :: 0 <= i < |cells| && cells[i].z == r.z
    ensures r.x >= IntMin && r.y >= IntMin && r.z >= IntMin
  {
    if cells == [] then NoMax
    else
      var n := |cells| - 1;
      var m := UpperAll(cells[..n]);
      assert forall i :: 0 <= i < n ==> cells[..n][i] == cells[i];
      Cell(Max(m.x, cells[n].x), Max(m.y, cells[n].y), Max(m.z, cells[n].z))
  }

  /** The union of the frames' boxes encloses every frame's cells. */
  lemma {:induction false} UnionEncloses(frames: seq<set<Cell>>, mins: seq<Cell>, maxs: seq<Cell>)
    requires |frames| == |mins| == |maxs|
    requires forall f :: 0 <= f < |frames| ==> Encloses(frames[f], mins[f], maxs[f])
    ensures forall f :: 0 <= f < |frames| ==> Encloses(frames[f], LowerAll(mins), UpperAll(maxs))
  {
    var lo, hi := LowerAll(mins), UpperAll(maxs);
    forall f | 0 <= f < |frames| ensures Encloses(frames[f], lo, hi) {
      assert lo.x <= mins[f].x && lo.y <= mins[f].y && lo.z <= mins[f].z;
      assert maxs[f].x <= hi.x && maxs[f].y <= hi.y && maxs[f].z <= hi.z;
    }
  }

  /**
   * CreateBounds: the per-axis minimum of the frames' lower corners and
   * maximum of their upper corners, turned into a Bounds.
   */
  method CreateBounds(minBounds: seq<Cell>, maxBounds: seq<Cell>) returns (r: BoxOutcome)
    requires |minBounds| <= |maxBounds|
    ensures r == BoundsBox(LowerAll(minBounds), UpperAll(maxBounds[..|minBounds|]))
  {
    var min, max := NoMin, NoMax;
    for i := 0 to |minBounds|
      invariant min == LowerAll(minBounds[..i])
      invariant max == UpperAll(maxBounds[..i])
    {
      assert minBounds[..i + 1][..i] == minBounds[..i];
      assert maxBounds[..i + 1][..i] == maxBounds[..i];
      min := Cell(Min(min.x, minBounds[i].x), Min(min.y, minBounds[i].y), Min(min.z, minBounds[i].z));
      max := Cell(Max(max.x, maxBounds[i].x), Max(max.y, maxBounds[i].y), Max(max.z, maxBounds[i].z));
    }
    assert minBounds[..|minBounds|] == minBounds;
    r := BoundsBox(min, max);
  }
}
