/**
 * Face culling: which faces of each voxel are drawn, and the order in which the
 * voxels are handed to the renderer.
 *
 * `table[i]` tells whether palette colour i is transparent (alpha below one). A
 * face is drawn when the neighbouring cell behind it is empty, or when that
 * neighbour is transparent and the voxel itself is opaque. Faces are numbered
 * in the order they are tested: 0 +Y, 1 -Z, 2 -Y, 3 +Z, 4 -X, 5 +X.
 */
module Culling {
  import opened Grid
  import opened MeshData

  /** A voxel as handed to the packer: position, colour index and visible faces. */
  datatype VoxelData = VoxelData(position: Cell, colorIndex: int, faces: seq<int>)

  /** The outward normal of face `f`. */
  function FaceNormal(f: int): Cell
    requires 0 <= f < 6
  {
    if f == 0 then Up
    else if f == 1 then Back
    else if f == 2 then Down
    else if f == 3 then Forward
    else if f == 4 then Left
    else Right
  }

  /** Every colour used in the grid has an entry in the transparency table. */
  predicate Covers(g: VoxelGrid, table: seq<bool>) {
    forall c :: c in g ==> g[c] < |table|
  }

  /**
   * Whether a face is drawn, given the cell behind it and whether the voxel
   * owning the face is transparent.
   */
  predicate IsFaceVisible(g: VoxelGrid, neighbour: Cell, isTransparent: bool, table: seq<bool>)
    requires Covers(g, table)
  {
    if neighbour !in g then true
    else if table[g[neighbour]] then !isTransparent
    else false
  }

  /** Face `f` of the voxel at `key` is drawn. */
  predicate FaceVisible(g: VoxelGrid, key: Cell, f: int, table: seq<bool>)
    requires Covers(g, table) && key in g && 0 <= f < 6
  {
    IsFaceVisible(g, Add(key, FaceNormal(f)), table[g[key]], table)
  }

  /** Between two occupied cells of the same transparency no face is ever drawn. */
  lemma {:induction false} NoFaceBetweenAlike(g: VoxelGrid, key: Cell, f: int, table: seq<bool>)
    requires Covers(g, table) && key in g && 0 <= f < 6
    requires Add(key, FaceNormal(f)) in g
    requires table[g[key]] == table[g[Add(key, FaceNormal(f))]]
    ensures !FaceVisible(g, key, f, table)
  {
  }

  /**
   * Of the two faces on a wall shared by two voxels at most one is drawn: the
   * opaque voxel's face, when the other voxel is transparent.
   */
  lemma {:induction false} SharedWallDrawnOnce(g: VoxelGrid, key: Cell, f: int, f': int, table: seq<bool>)
    requires Covers(g, table) && key in g && 0 <= f < 6 && 0 <= f' < 6
    requires Add(key, FaceNormal(f)) in g
    requires FaceNormal(f') == Neg(FaceNormal(f))
    ensures var other := Add(key, FaceNormal(f));
            !(FaceVisible(g, key, f, table) && FaceVisible(g, other, f', table))
    ensures var other := Add(key, FaceNormal(f));
            FaceVisible(g, key, f, table) <==> !table[g[key]] && table[g[other]]
    ensures var other := Add(key, FaceNormal(f));
            FaceVisible(g, other, f', table) <==> !table[g[other]] && table[g[key]]
  {
    var other := Add(key, FaceNormal(f));
    assert Add(other, FaceNormal(f')) == key;
  }

  /** Face `f` is appended when it is drawn (VoxelData.AddFace). */
  function AddIfVisible(faces: seq<int>, g: VoxelGrid, key: Cell, f: int, table: seq<bool>): seq<int>
    requires Covers(g, table) && key in g && 0 <= f < 6
  {
    if FaceVisible(g, key, f, table) then WithFace(faces, f) else faces
  }

  /** The faces found after testing faces 0 .. n-1 in order. */
  function FacesUpTo(g: VoxelGrid, key: Cell, table: seq<bool>, n: nat): (r: seq<int>)
    requires Covers(g, table) && key in g && n <= 6
    ensures forall f :: f in r <==> 0 <= f < n && FaceVisible(g, key, f, table)
    ensures forall i, j :: 0 <= i < j < |r| ==> r[i] < r[j]
  {
    if n == 0 then []
    else
      var rest := FacesUpTo(g, key, table, n - 1);
      assert forall i :: 0 <= i < |rest| ==> rest[i] < n - 1 by {
        forall i | 0 <= i < |rest| ensures rest[i] < n - 1 {
          assert rest[i] in rest;
        }
      }
      AddIfVisible(rest, g, key, n - 1, table)
  }

  /**
   * GetVisibleFaces: the drawn faces of one voxel, in increasing face order,
   * each listed once.
   */
  function VisibleFaces(g: VoxelGrid, key: Cell, table: seq<bool>): (r: seq<int>)
    requires Covers(g, table) && key in g
    ensures forall f :: f in r <==> 0 <= f < 6 && FaceVisible(g, key, f, table)
    ensures forall i, j :: 0 <= i < j < |r| ==> r[i] < r[j]
    ensures |r| <= 6
  {
    var r := FacesUpTo(g, key, table, 6);
    assert Distinct(r);
    AtMostSixFaces(r);
    r
  }

  /** The record GetVisibleFaces fills for the voxel at `key`. */
  function VoxelOf(g: VoxelGrid, key: Cell, table: seq<bool>): VoxelData
    requires Covers(g, table) && key in g
  {
    VoxelData(key, g[key], VisibleFaces(g, key, table))
  }

  /** The records of the voxels in `order` that have at least one drawn face. */
  function VisibleVoxels(g: VoxelGrid, order: seq<Cell>, table: seq<bool>): (r: seq<VoxelData>)
    requires Covers(g, table) && KeysListed(g, order)
  {
    if order == [] then []
    else
      var rest := VisibleVoxels(g, order[..|order| - 1], table);
      var v := VoxelOf(g, order[|order| - 1], table);
      if |v.faces| != 0 then rest + [v] else rest
  }

  /** The records kept are exactly those of listed voxels with a drawn face. */
  lemma {:induction false} VisibleVoxelsAre(g: VoxelGrid, order: seq<Cell>, table: seq<bool>)
    requires Covers(g, table) && KeysListed(g, order)
    ensures forall v :: v in VisibleVoxels(g, order, table) <==>
              v.position in order && v.position in g && v == VoxelOf(g, v.position, table) && |v.faces| > 0
  {
    if order != [] {
      var prefix := order[..|order| - 1];
      VisibleVoxelsAre(g, prefix, table);
      assert forall c :: c in order <==> c in prefix || c == order[|order| - 1];
    }
  }

  /** No two records share a position. */
  predicate DistinctPositions(l: seq<VoxelData>) {
    forall i, j :: 0 <= i < j < |l| ==> l[i].position != l[j].position
  }

  /** Distinct keys give records with distinct positions. */
  lemma {:induction false} VisibleVoxelsDistinct(g: VoxelGrid, order: seq<Cell>, table: seq<bool>)
    requires Covers(g, table) && KeysListed(g, order)
    requires Distinct(order)
    ensures DistinctPositions(VisibleVoxels(g, order, table))
  {
    if order != [] {
      var prefix := order[..|order| - 1];
      VisibleVoxelsDistinct(g, prefix, table);
      VisibleVoxelsAre(g, prefix, table);
      var rest := VisibleVoxels(g, prefix, table);
      assert forall i :: 0 <= i < |rest| ==> rest[i] in rest && rest[i].position in prefix;
      var last := order[|order| - 1];
      assert last !in prefix by {
        assert forall k :: 0 <= k < |prefix| ==> prefix[k] == order[k] != last;
      }
      var v := VoxelOf(g, last, table);
      if |v.faces| != 0 {
        var r := rest + [v];
        assert r == VisibleVoxels(g, order, table);
        forall i, j | 0 <= i < j < |r| ensures r[i].position != r[j].position {
          if j == |rest| {
            assert r[i] == rest[i] && r[j] == v;
            assert rest[i].position in prefix;
            assert v.position == last;
          } else {
            assert r[i] == rest[i] && r[j] == rest[j];
            assert rest[i].position != rest[j].position;
          }
        }
      }
    }
  }

  /** Every record has a colour inside the table. */
  predicate ColorsCovered(l: seq<VoxelData>, table: seq<bool>) {
    forall i :: 0 <= i < |l| ==> 0 <= l[i].colorIndex < |table|
  }

  /** The opaque records of `l`, in their original order. */
  function OpaqueOf(l: seq<VoxelData>, table: seq<bool>): (r: seq<VoxelData>)
    requires ColorsCovered(l, table)
    ensures ColorsCovered(r, table)
    ensures forall i :: 0 <= i < |r| ==> !table[r[i].colorIndex]
  {
    if l == [] then []
    else
      var rest := OpaqueOf(l[..|l| - 1], table);
      if !table[l[|l| - 1].colorIndex] then rest + [l[|l| - 1]] else rest
  }

  /** The transparent records of `l`, in their original order. */
  function TransparentOf(l: seq<VoxelData>, table: seq<bool>): (r: seq<VoxelData>)
    requires ColorsCovered(l, table)
    ensures ColorsCovered(r, table)
    ensures forall i :: 0 <= i < |r| ==> table[r[i].colorIndex]
  {
    if l == [] then []
    else
      var rest := TransparentOf(l[..|l| - 1], table);
      if table[l[|l| - 1].colorIndex] then rest + [l[|l| - 1]] else rest
  }

  /** The opaque records followed by the transparent ones. */
  function OpaqueFirst(l: seq<VoxelData>, table: seq<bool>): seq<VoxelData>
    requires ColorsCovered(l, table)
  {
    OpaqueOf(l, table) + TransparentOf(l, table)
  }

  /** Reordering neither loses nor duplicates a record. */
  lemma {:induction false} OpaqueFirstPermutes(l: seq<VoxelData>, table: seq<bool>)
    requires ColorsCovered(l, table)
    ensures multiset(OpaqueFirst(l, table)) == multiset(l)
  {
    if l != [] {
      var prefix, last := l[..|l| - 1], l[|l| - 1];
      OpaqueFirstPermutes(prefix, table);
      assert l == prefix + [last];
      var o, t := OpaqueOf(prefix, table), TransparentOf(prefix, table);
      if table[last.colorIndex] {
        assert OpaqueFirst(l, table) == o + (t + [last]);
      } else {
        assert OpaqueFirst(l, table) == (o + [last]) + t;
      }
    }
  }

  /** Once a transparent record has been emitted, every later record is transparent. */
  lemma {:induction false} OpaqueFirstOrdered(l: seq<VoxelData>, table: seq<bool>)
    requires ColorsCovered(l, table)
    ensures var r := OpaqueFirst(l, table);
            forall i, j :: 0 <= i < j < |r| && table[r[i].colorIndex] ==> table[r[j].colorIndex]
  {
    var o, t := OpaqueOf(l, table), TransparentOf(l, table);
    var r := o + t;
    forall i, j | 0 <= i < j < |r| && table[r[i].colorIndex] ensures table[r[j].colorIndex] {
      assert i >= |o|;
      assert r[j] == t[j - |o|];
    }
  }

  /** Records with covered colours stay covered when two lists are joined. */
  lemma CoveredAppend(a: seq<VoxelData>, b: seq<VoxelData>, table: seq<bool>)
    requires ColorsCovered(a, table) && ColorsCovered(b, table)
    ensures ColorsCovered(a + b, table)
  {
    forall i | 0 <= i < |a + b| ensures 0 <= (a + b)[i].colorIndex < |table| {
      if i >= |a| {
        assert (a + b)[i] == b[i - |a|];
      }
    }
  }

  /**
   * OpaqueOf is stable: the opaque records of a concatenation are those of
   * the first part followed by those of the second.
   */
  lemma {:induction false} OpaqueOfAppend(a: seq<VoxelData>, b: seq<VoxelData>, table: seq<bool>)
    requires ColorsCovered(a, table) && ColorsCovered(b, table)
    ensures ColorsCovered(a + b, table)
    ensures OpaqueOf(a + b, table) == OpaqueOf(a, table) + OpaqueOf(b, table)
  {
    CoveredAppend(a, b, table);
    if b == [] {
      assert a + b == a;
    } else {
      var prefix, last := b[..|b| - 1], b[|b| - 1];
      OpaqueOfAppend(a, prefix, table);
      assert (a + b)[..|a + b| - 1] == a + prefix;
      assert (a + b)[|a + b| - 1] == last;
    }
  }

  /**
   * TransparentOf is stable: the transparent records of a concatenation are
   * those of the first part followed by those of the second.
   */
  lemma {:induction false} TransparentOfAppend(a: seq<VoxelData>, b: seq<VoxelData>, table: seq<bool>)
    requires ColorsCovered(a, table) && ColorsCovered(b, table)
    ensures ColorsCovered(a + b, table)
    ensures TransparentOf(a + b, table) == TransparentOf(a, table) + TransparentOf(b, table)
  {
    CoveredAppend(a, b, table);
    if b == [] {
      assert a + b == a;
    } else {
      var prefix, last := b[..|b| - 1], b[|b| - 1];
      TransparentOfAppend(a, prefix, table);
      assert (a + b)[..|a + b| - 1] == a + prefix;
      assert (a + b)[|a + b| - 1] == last;
    }
  }

  /** A single record goes to exactly one side of the split. */
  lemma SplitOfOne(v: VoxelData, table: seq<bool>)
    requires 0 <= v.colorIndex < |table|
    ensures OpaqueOf([v], table) == (if table[v.colorIndex] then [] else [v])
    ensures TransparentOf([v], table) == (if table[v.colorIndex] then [v] else [])
  {
    assert [v][..0] == [];
  }

  /** With every colour opaque (no editor to ask) the order is left as it was. */
  lemma {:induction false} AllOpaqueKeepsOrder(l: seq<VoxelData>, table: seq<bool>)
    requires ColorsCovered(l, table)
    requires forall i :: 0 <= i < |table| ==> !table[i]
    ensures OpaqueFirst(l, table) == l
  {
    if l != [] {
      AllOpaqueKeepsOrder(l[..|l| - 1], table);
      assert l == l[..|l| - 1] + [l[|l| - 1]];
    }
  }

  /** The records GetVoxelData produces carry colours of the grid, all inside the table. */
  lemma VisibleVoxelsCovered(g: VoxelGrid, order: seq<Cell>, table: seq<bool>)
    requires Covers(g, table) && KeysListed(g, order)
    ensures ColorsCovered(VisibleVoxels(g, order, table), table)
  {
    VisibleVoxelsAre(g, order, table);
    var r := VisibleVoxels(g, order, table);
    forall i | 0 <= i < |r| ensures 0 <= r[i].colorIndex < |table| {
      assert r[i] in r;
    }
  }

  /**
   * GetVoxelData / GetFaces: walk the keys in dictionary order, keep each
   * voxel with at least one drawn face, then put the opaque ones first.
   */
  method CollectVoxelData(g: VoxelGrid, order: seq<Cell>, table: seq<bool>) returns (r: seq<VoxelData>)
    requires Covers(g, table) && KeysListed(g, order)
    ensures ColorsCovered(VisibleVoxels(g, order, table), table)
    ensures r == OpaqueFirst(VisibleVoxels(g, order, table), table)
  {
    var meshData: seq<VoxelData> := [];
    var i := 0;
    while i < |order|
      invariant 0 <= i <= |order|
      invariant meshData == VisibleVoxels(g, order[..i], table)
    {
      var key := order[i];
      var data := VoxelData(key, g[key], VisibleFaces(g, key, table));
      if |data.faces| != 0 {
        meshData := meshData + [data];
      }
      assert order[..i + 1][..i] == order[..i];
      i := i + 1;
    }
    assert order[..i] == order;
    VisibleVoxelsCovered(g, order, table);
    var opaqueMeshData := OpaqueOf(meshData, table);
    var transparentMeshData := TransparentOf(meshData, table);
    r := opaqueMeshData + transparentMeshData;
  }

  /**
   * What a frame hands to the save system: its culled voxel records, its
   * bounding box, and its cells with their colour indices as two parallel
   * sequences.
   */
  datatype PackedFrameData = PackedFrameData(
    data: seq<VoxelData>, minBounds: Cell, maxBounds: Cell, positions: seq<Cell>, colors: seq<Color>)

  /** One more than the largest colour index among the listed cells (0 for none). */
  function ColorBound(g: VoxelGrid, order: seq<Cell>): (r: nat)
    requires KeysListed(g, order)
    ensures forall i :: 0 <= i < |order| ==> g[order[i]] < r
  {
    if order == [] then 0
    else
      var rest := ColorBound(g, order[1..]);
      assert forall i :: 1 <= i < |order| ==> order[i] == order[1..][i - 1];
      if g[order[0]] < rest then rest else g[order[0]] + 1
  }

  /**
   * The table a runtime structure behaves as if it had when no editor is in
   * the scene to look colours up: every colour of the grid counts as opaque.
   */
  function OpaqueTable(g: VoxelGrid, order: seq<Cell>): (t: seq<bool>)
    requires IsKeyOrder(g, order)
    ensures Covers(g, t)
    ensures forall i :: 0 <= i < |t| ==> !t[i]
  {
    var n := ColorBound(g, order);
    assert forall c :: c in g ==> g[c] < n by {
      forall c | c in g ensures g[c] < n {
        var i :| 0 <= i < |order| && order[i] == c;
      }
    }
    seq(n, _ => false)
  }

  /** With every colour opaque, a face is drawn exactly when the cell behind it is empty. */
  lemma AllOpaqueFaceVisible(g: VoxelGrid, key: Cell, f: int, table: seq<bool>)
    requires Covers(g, table) && key in g && 0 <= f < 6
    requires forall i :: 0 <= i < |table| ==> !table[i]
    ensures FaceVisible(g, key, f, table) <==> Add(key, FaceNormal(f)) !in g
  {
  }
}
