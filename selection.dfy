/**
 * The two selection transforms of the editor frame, as functions of the grid
 * before: SnapToGrid (the selected voxels were dragged; each lands on its
 * rounded cell unless that cell is taken) and Upscale (each selected voxel
 * becomes an n x n x n block). `order` is the enumeration of the dictionary's
 * keys the source iterates over; `selected` is the set of cells whose scene
 * objects are in the editor selection.
 */
module Selection {
  import opened Grid

  /** The first loop of SnapToGrid: the unselected voxels, kept at their own cells. */
  function Unselected(g: VoxelGrid, order: seq<Cell>, selected: set<Cell>): (r: VoxelGrid)
    requires KeysListed(g, order)
    ensures forall c :: c in r <==> c in order && c !in selected
    ensures forall c :: c in r ==> r[c] == g[c]
  {
    if order == [] then map[]
    else
      var c := order[|order| - 1];
      assert order == order[..|order| - 1] + [c];
      var rest := Unselected(g, order[..|order| - 1], selected);
      if c in selected then rest else rest[c := g[c]]
  }

  /** The first loop's other output: the selected cells, in enumeration order. */
  function SelectedIn(order: seq<Cell>, selected: set<Cell>): (r: seq<Cell>)
    ensures forall c :: c in r <==> c in order && c in selected
    ensures |r| <= |order|
  {
    if order == [] then []
    else
      var c := order[|order| - 1];
      assert order == order[..|order| - 1] + [c];
      var rest := SelectedIn(order[..|order| - 1], selected);
      if c in selected then rest + [c] else rest
  }

  /**
   * The second loop of SnapToGrid: each moving voxel in turn is placed on its
   * target cell, unless a voxel is already there, in which case it is dropped.
   */
  function Place(g: VoxelGrid, placed: VoxelGrid, moving: seq<Cell>, target: Cell -> Cell): (r: VoxelGrid)
    requires forall c :: c in moving ==> c in g
    ensures forall c :: c in placed ==> c in r && r[c] == placed[c]
    ensures forall c :: c in moving ==> target(c) in r
    ensures |r| <= |placed| + |moving|
  {
    if moving == [] then placed
    else
      var c := moving[|moving| - 1];
      assert moving == moving[..|moving| - 1] + [c];
      var rest := Place(g, placed, moving[..|moving| - 1], target);
      if target(c) in rest then rest else rest[target(c) := g[c]]
  }

  /** The two halves of the first loop together hold every enumerated key once. */
  lemma {:induction false} SplitSize(g: VoxelGrid, order: seq<Cell>, selected: set<Cell>)
    requires KeysListed(g, order) && Distinct(order)
    ensures |Unselected(g, order, selected)| + |SelectedIn(order, selected)| == |order|
  {
    if order != [] {
      var c := order[|order| - 1];
      var prefix := order[..|order| - 1];
      SplitSize(g, prefix, selected);
      assert forall k :: 0 <= k < |prefix| ==> prefix[k] != c;
      assert c !in Unselected(g, prefix, selected);
    }
  }

  /**
   * SnapToGrid: unselected voxels keep their cells and colours, every selected
   * voxel's target cell ends up occupied, the grid never grows, and a
   * non-empty grid stays non-empty.
   */
  function Snapped(g: VoxelGrid, order: seq<Cell>, selected: set<Cell>, target: Cell -> Cell): (r: VoxelGrid)
    requires IsKeyOrder(g, order)
    ensures forall c :: c in g && c !in selected ==> c in r && r[c] == g[c]
    ensures forall c :: c in g && c in selected ==> target(c) in r
    ensures |r| <= |g|
    ensures |g| > 0 ==> |r| > 0
  {
    var r := Place(g, Unselected(g, order, selected), SelectedIn(order, selected), target);
    SplitSize(g, order, selected);
    KeyOrderLength(g, order);
    assert |g| > 0 ==> |r| > 0 by {
      if |g| > 0 {
        var c :| c in g;
        assert c in r || target(c) in r;
      }
    }
    r
  }

  /** Every voxel after SnapToGrid is an unselected voxel in place or a selected one moved to its target. */
  lemma {:induction false} PlaceFrom(g: VoxelGrid, placed: VoxelGrid, moving: seq<Cell>, target: Cell -> Cell)
    requires forall c :: c in moving ==> c in g
    ensures forall q :: q in Place(g, placed, moving, target) ==>
              (q in placed && Place(g, placed, moving, target)[q] == placed[q]) ||
              (exists c :: c in moving && target(c) == q && Place(g, placed, moving, target)[q] == g[c])
  {
    if moving != [] {
      var c := moving[|moving| - 1];
      var prefix := moving[..|moving| - 1];
      assert moving == prefix + [c];
      PlaceFrom(g, placed, prefix, target);
    }
  }

  /** SnapToGrid's first loop: copy the unselected voxels and list the selected cells. */
  method SplitSelection(g: VoxelGrid, order: seq<Cell>, selected: set<Cell>) returns (copy: VoxelGrid, moving: seq<Cell>)
    requires KeysListed(g, order)
    ensures copy == Unselected(g, order, selected)
    ensures moving == SelectedIn(order, selected)
  {
    copy, moving := map[], [];
    for i := 0 to |order|
      invariant copy == Unselected(g, order[..i], selected)
      invariant moving == SelectedIn(order[..i], selected)
    {
      assert order[..i + 1][..i] == order[..i];
      var c := order[i];
      if c !in selected {
        copy := copy[c := g[c]];
      } else {
        moving := moving + [c];
      }
    }
    assert order[..|order|] == order;
  }

  /** SnapToGrid's second loop: move each listed voxel to its target cell unless that cell is taken. */
  method PlaceMoving(g: VoxelGrid, placed: VoxelGrid, moving: seq<Cell>, target: Cell -> Cell) returns (r: VoxelGrid)
    requires forall c :: c in moving ==> c in g
    ensures r == Place(g, placed, moving, target)
  {
    r := placed;
    for i := 0 to |moving|
      invariant r == Place(g, placed, moving[..i], target)
    {
      assert moving[..i + 1][..i] == moving[..i];
      var c := moving[i];
      if target(c) !in r {
        r := r[target(c) := g[c]];
      }
    }
    assert moving[..|moving|] == moving;
  }

  /** Every voxel of `r` is an unselected voxel in place or a selected one at its target. */
  ghost predicate SnapSource(g: VoxelGrid, selected: set<Cell>, target: Cell -> Cell, r: VoxelGrid) {
    forall q :: q in r ==>
      (q in g && q !in selected && r[q] == g[q]) ||
      (exists c :: c in g && c in selected && target(c) == q && r[q] == g[c])
  }

  /** The voxels SnapToGrid leaves, by where they came from. */
  lemma {:induction false} SnappedFrom(g: VoxelGrid, order: seq<Cell>, selected: set<Cell>, target: Cell -> Cell)
    requires IsKeyOrder(g, order)
    ensures SnapSource(g, selected, target, Snapped(g, order, selected, target))
  {
    PlaceFrom(g, Unselected(g, order, selected), SelectedIn(order, selected), target);
  }

  /** Listing the selected cells of two enumerations one after the other. */
  lemma {:induction false} SelectedInAppend(a: seq<Cell>, b: seq<Cell>, selected: set<Cell>)
    ensures SelectedIn(a + b, selected) == SelectedIn(a, selected) + SelectedIn(b, selected)
  {
    if b == [] {
      assert a + b == a;
    } else {
      var prefix := b[..|b| - 1];
      SelectedInAppend(a, prefix, selected);
      assert (a + b)[..|a + b| - 1] == a + prefix;
      assert (a + b)[|a + b| - 1] == b[|b| - 1];
    }
  }

  /**
   * The first moving voxel whose target is free of placed voxels wins that
   * cell, keeping its own colour; later voxels with the same target are
   * dropped.
   */
  lemma {:induction false} PlaceFirstWins(g: VoxelGrid, placed: VoxelGrid, pre: seq<Cell>, c: Cell, post: seq<Cell>,
                                          target: Cell -> Cell)
    requires forall d :: d in pre + [c] + post ==> d in g
    requires target(c) !in placed
    requires forall d :: d in pre ==> target(d) != target(c)
    ensures target(c) in Place(g, placed, pre + [c] + post, target)
    ensures Place(g, placed, pre + [c] + post, target)[target(c)] == g[c]
  {
    var moving := pre + [c] + post;
    if post == [] {
      assert moving[..|moving| - 1] == pre && moving[|moving| - 1] == c;
      assert forall d :: d in pre ==> d in moving;
      PlaceFrom(g, placed, pre, target);
      assert target(c) !in Place(g, placed, pre, target);
    } else {
      var rest, x := post[..|post| - 1], post[|post| - 1];
      var shorter := pre + [c] + rest;
      assert moving == shorter + [x];
      assert forall d :: d in shorter ==> d in moving;
      PlaceFirstWins(g, placed, pre, c, rest, target);
      assert moving[..|moving| - 1] == shorter && moving[|moving| - 1] == x;
      var r := Place(g, placed, shorter, target);
      assert Place(g, placed, moving, target) == if target(x) in r then r else r[target(x) := g[x]];
    }
  }

  /**
   * When several selected voxels snap to the same free cell, the first of
   * them in enumeration order takes it, with its own colour. A cell held by
   * an unselected voxel is never taken (Snapped keeps that voxel).
   */
  lemma {:induction false} SnapFirstWins(g: VoxelGrid, pre: seq<Cell>, c: Cell, post: seq<Cell>,
                                         selected: set<Cell>, target: Cell -> Cell)
    requires IsKeyOrder(g, pre + [c] + post)
    requires c in selected
    requires target(c) !in g || target(c) in selected
    requires forall d :: d in pre && d in selected ==> target(d) != target(c)
    ensures target(c) in Snapped(g, pre + [c] + post, selected, target)
    ensures Snapped(g, pre + [c] + post, selected, target)[target(c)] == g[c]
  {
    var order := pre + [c] + post;
    SelectedInAppend(pre + [c], post, selected);
    SelectedInAppend(pre, [c], selected);
    assert SelectedIn([c], selected) == [c] by {
      assert [c][..0] == [];
    }
    var moving := SelectedIn(order, selected);
    assert moving == SelectedIn(pre, selected) + [c] + SelectedIn(post, selected);
    PlaceFirstWins(g, Unselected(g, order, selected), SelectedIn(pre, selected), c, SelectedIn(post, selected), target);
  }

  /** The offset of `q` from the corner `b` of a block. */
  function Offset(q: Cell, b: Cell): Cell {
    Cell(q.x - b.x, q.y - b.y, q.z - b.z)
  }

  /** `q` lies in the n x n x n block with corner `b`. */
  predicate InBox(q: Cell, b: Cell, n: int) {
    var o := Offset(q, b);
    0 <= o.x < n && 0 <= o.y < n && 0 <= o.z < n
  }

  /** `q` lies in the block that voxel `c` becomes when scaled by `n`: its corner is `c` times `n`. */
  predicate InBlock(q: Cell, c: Cell, n: int) {
    InBox(q, Scale(c, n), n)
  }

  /** The cells of the block with corner `b`. */
  function BoxCells(b: Cell, n: int): (r: set<Cell>)
    ensures forall q :: q in r <==> InBox(q, b, n)
  {
    var cells := set i, j, k | 0 <= i < n && 0 <= j < n && 0 <= k < n :: Add(b, Cell(i, j, k));
    assert forall q :: InBox(q, b, n) ==> q in cells by {
      forall q | InBox(q, b, n) ensures q in cells {
        var o := Offset(q, b);
        assert q == Add(b, Cell(o.x, o.y, o.z));
      }
    }
    cells
  }

  /** `m` with every cell of the block with corner `b` holding `color`. */
  function Stamped(m: VoxelGrid, b: Cell, n: int, color: Color): (r: VoxelGrid)
    ensures forall q :: q in r <==> q in m || InBox(q, b, n)
    ensures forall q :: q in r ==> r[q] == if InBox(q, b, n) then color else m[q]
  {
    map q | q in m.Keys + BoxCells(b, n) :: if InBox(q, b, n) then color else m[q]
  }

  /**
   * The map Upscale builds: unselected voxels are copied, and each selected
   * voxel fills its block with its colour and is then put back at its own
   * cell. Later writes win.
   */
  function Upscaled(g: VoxelGrid, order: seq<Cell>, selected: set<Cell>, n: int): (r: VoxelGrid)
    requires KeysListed(g, order)
    ensures forall c :: c in order ==> c in r
    ensures forall c, q :: c in order && c in selected && InBlock(q, c, n) ==> q in r
  {
    if order == [] then map[]
    else
      var c := order[|order| - 1];
      assert order == order[..|order| - 1] + [c];
      var rest := Upscaled(g, order[..|order| - 1], selected, n);
      if c !in selected then rest[c := g[c]]
      else Stamped(rest, Scale(c, n), n, g[c])[c := g[c]]
  }

  /**
   * Every cell of `r` is an enumerated voxel or lies in the block of a
   * selected one, and holds the colour of a voxel it came from.
   */
  ghost predicate BuiltFrom(g: VoxelGrid, order: seq<Cell>, selected: set<Cell>, n: int, r: VoxelGrid)
    requires KeysListed(g, order)
  {
    forall q :: q in r ==>
      exists c :: c in order && r[q] == g[c] && (q == c || (c in selected && InBlock(q, c, n)))
  }

  /** The upscaled map is built only from the grid's own voxels and their blocks. */
  lemma {:induction false} UpscaledFrom(g: VoxelGrid, order: seq<Cell>, selected: set<Cell>, n: int)
    requires KeysListed(g, order)
    ensures BuiltFrom(g, order, selected, n, Upscaled(g, order, selected, n))
  {
    if order != [] {
      var c := order[|order| - 1];
      var prefix := order[..|order| - 1];
      assert order == prefix + [c];
      UpscaledFrom(g, prefix, selected, n);
      var rest := Upscaled(g, prefix, selected, n);
      var r := Upscaled(g, order, selected, n);
      forall q | q in r
        ensures exists c' :: c' in order && r[q] == g[c'] && (q == c' || (c' in selected && InBlock(q, c', n)))
      {
        if q == c || (c in selected && InBlock(q, c, n)) {
          assert c in order && r[q] == g[c];
        } else {
          assert q in rest && r[q] == rest[q];
          var c' :| c' in prefix && rest[q] == g[c'] && (q == c' || (c' in selected && InBlock(q, c', n)));
          assert c' in order;
        }
      }
    }
  }

  /** With a scale of one a block is its own voxel, so Upscale's map is the grid itself. */
  lemma {:induction false} UpscaledByOne(g: VoxelGrid, order: seq<Cell>, selected: set<Cell>)
    requires IsKeyOrder(g, order)
    ensures Upscaled(g, order, selected, 1) == g
  {
    var r := Upscaled(g, order, selected, 1);
    UpscaledFrom(g, order, selected, 1);
    forall q | q in r ensures q in g && r[q] == g[q] {
      var c :| c in order && r[q] == g[c] && (q == c || (c in selected && InBlock(q, c, 1)));
      assert Scale(c, 1) == c;
    }
  }

  /** Offset `o` comes before (x, y, z) in the order the three nested loops visit a block. */
  predicate Before(o: Cell, x: int, y: int, z: int) {
    o.x < x || (o.x == x && (o.y < y || (o.y == y && o.z < z)))
  }

  /** `r` is `m` with the cells of the block with corner `b` visited before (x, y, z) holding `color`. */
  ghost predicate StampedUpTo(m: VoxelGrid, r: VoxelGrid, b: Cell, n: int, color: Color, x: int, y: int, z: int) {
    && (forall q :: q in r <==> q in m || (InBox(q, b, n) && Before(Offset(q, b), x, y, z)))
    && (forall q :: q in r ==> r[q] == if InBox(q, b, n) && Before(Offset(q, b), x, y, z) then color else m[q])
  }

  /** Within a block, finishing the z run of (x, y) is starting the run of (x, y + 1). */
  lemma NextColumn(m: VoxelGrid, r: VoxelGrid, b: Cell, n: int, color: Color, x: int, y: int)
    requires StampedUpTo(m, r, b, n, color, x, y, n)
    ensures StampedUpTo(m, r, b, n, color, x, y + 1, 0)
  {
    forall q | InBox(q, b, n) ensures Before(Offset(q, b), x, y, n) == Before(Offset(q, b), x, y + 1, 0) {
    }
  }

  /** Within a block, finishing the y runs of x is starting the runs of x + 1. */
  lemma NextSlice(m: VoxelGrid, r: VoxelGrid, b: Cell, n: int, color: Color, x: int)
    requires StampedUpTo(m, r, b, n, color, x, n, 0)
    ensures StampedUpTo(m, r, b, n, color, x + 1, 0, 0)
  {
    forall q | InBox(q, b, n) ensures Before(Offset(q, b), x, n, 0) == Before(Offset(q, b), x + 1, 0, 0) {
    }
  }

  /** The innermost loop of Upscale: the z run of column (x, y) of the block. */
  method StampColumn(m: VoxelGrid, r: VoxelGrid, b: Cell, n: int, color: Color, x: int, y: int) returns (r': VoxelGrid)
    requires 0 <= x < n && 0 <= y < n
    requires StampedUpTo(m, r, b, n, color, x, y, 0)
    ensures StampedUpTo(m, r', b, n, color, x, y + 1, 0)
  {
    r' := r;
    var z := 0;
    while z < n
      invariant 0 <= z <= n
      invariant StampedUpTo(m, r', b, n, color, x, y, z)
    {
      r' := r'[Add(b, Cell(x, y, z)) := color];
      assert Offset(Add(b, Cell(x, y, z)), b) == Cell(x, y, z);
      z := z + 1;
    }
    NextColumn(m, r', b, n, color, x, y);
  }

  /** The middle loop of Upscale: the columns of slice x of the block. */
  method StampSlice(m: VoxelGrid, r: VoxelGrid, b: Cell, n: int, color: Color, x: int) returns (r': VoxelGrid)
    requires 0 <= x < n
    requires StampedUpTo(m, r, b, n, color, x, 0, 0)
    ensures StampedUpTo(m, r', b, n, color, x + 1, 0, 0)
  {
    r' := r;
    var y := 0;
    while y < n
      invariant 0 <= y <= n
      invariant StampedUpTo(m, r', b, n, color, x, y, 0)
    {
      r' := StampColumn(m, r', b, n, color, x, y);
      y := y + 1;
    }
    NextSlice(m, r', b, n, color, x);
  }

  /**
   * The three nested loops of Upscale for one selected voxel: every cell of
   * the block with corner `b` receives the voxel's colour (the corner keeps
   * the voxel itself, the others get new voxels of the same colour).
   */
  method StampBlock(m: VoxelGrid, b: Cell, n: int, color: Color) returns (r: VoxelGrid)
    ensures r == Stamped(m, b, n, color)
  {
    r := m;
    var x := 0;
    while x < n
      invariant 0 <= x && (x <= n || n <= 0)
      invariant StampedUpTo(m, r, b, n, color, x, 0, 0)
    {
      r := StampSlice(m, r, b, n, color, x);
      x := x + 1;
    }
    var s := Stamped(m, b, n, color);
    forall q | q in r ensures q in s && r[q] == s[q] {
    }
  }

  /** The map Upscale builds, one enumerated voxel at a time. */
  method BuildUpscaled(g: VoxelGrid, order: seq<Cell>, selected: set<Cell>, n: int) returns (r: VoxelGrid)
    requires KeysListed(g, order)
    ensures r == Upscaled(g, order, selected, n)
  {
    r := map[];
    for i := 0 to |order|
      invariant r == Upscaled(g, order[..i], selected, n)
    {
      var c := order[i];
      assert order[..i + 1][..i] == order[..i];
      if c !in selected {
        r := r[c := g[c]];
      } else {
        r := StampBlock(r, Scale(c, n), n, g[c]);
        r := r[c := g[c]];
      }
    }
    assert order[..|order|] == order;
  }

  /**
   * The upscaled map is not the grid: for a lone selected voxel (with x >= 0) scaled by two,
   * the far corner of its block is filled in the map but not in the grid,
   * which Upscale leaves as it was.
   */
  lemma UpscaleOfLoneVoxel(c: Cell, color: Color)
    requires c.x >= 0
    ensures Add(Scale(c, 2), Cell(1, 1, 1)) in Upscaled(map[c := color], [c], {c}, 2)
    ensures Add(Scale(c, 2), Cell(1, 1, 1)) !in map[c := color]
  {
    assert InBlock(Add(Scale(c, 2), Cell(1, 1, 1)), c, 2);
  }
}
