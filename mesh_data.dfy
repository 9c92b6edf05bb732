/**
 * VoxelMeshData: one voxel's position and the list of its visible faces.
 *
 * A face is named by its index 0..5 (+Y, -Z, -Y, +Z, -X, +X). AddFace ignores an
 * index of 6 or more and an index already listed; it does not reject a negative
 * index.
 */
module MeshData {
  import opened Grid

  /** The face list after AddFace(index). */
  function WithFace(faces: seq<int>, index: int): (r: seq<int>)
    ensures faces <= r && |r| <= |faces| + 1
    ensures forall f :: f in r <==> f in faces || (f == index && index < 6)
  {
    if index >= 6 || index in faces then faces else faces + [index]
  }

  /** Adding a face never introduces a duplicate. */
  lemma WithFaceKeepsDistinct(faces: seq<int>, index: int)
    requires Distinct(faces)
    ensures Distinct(WithFace(faces, index))
  {
  }

  /** Adding the same face twice is the same as adding it once. */
  lemma WithFaceIdempotent(faces: seq<int>, index: int)
    ensures WithFace(WithFace(faces, index), index) == WithFace(faces, index)
  {
  }

  /** A duplicate-free list of face indices 0..5 holds at most six faces. */
  lemma {:induction false} AtMostSixFaces(faces: seq<int>)
    requires Distinct(faces)
    requires forall f :: f in faces ==> 0 <= f < 6
    ensures |faces| <= 6
  {
    DistinctCardinality(faces);
    var all := {0, 1, 2, 3, 4, 5};
    var listed := set f | f in faces;
    assert listed <= all;
    assert all == listed + (all - listed) && listed * (all - listed) == {};
  }

  class VoxelMeshData {
    var position: Cell
    var faces: seq<int>

    /** A fresh record has the given position and no faces. */
    constructor (position: Cell)
      ensures this.position == position && faces == []
    {
      this.position := position;
      faces := [];
    }

    method AddFace(index: int)
      modifies this
      ensures position == old(position)
      ensures faces == WithFace(old(faces), index)
    {
      if index >= 6 || index in faces {
        return;
      }
      faces := faces + [index];
    }

    /** A copy of the face list in insertion order. */
    method GetFaces() returns (r: array<int>)
      ensures fresh(r) && r[..] == faces
    {
      r := new int[|faces|](i requires 0 <= i < |faces| reads this => faces[i]);
    }
  }
}
