/**
 * Frame packing: FillObject (and ConstructVoxelObject, its runtime copies)
 * compile the culled records of every animation frame into the flat buffers
 * the instanced renderer reads.
 *
 *  - `entries`: every distinct (position, colour) pair, in first-seen order
 *    (VoxelPositions and ColorIndices are its two projections);
 *  - `voxelIndices`: for each frame, for each face 0..5, one index into
 *    `entries` per voxel drawing that face;
 *  - `faceIndices[f * 6 + i]`: the number of indices frame `f` stores for
 *    faces 0..i, counted from the frame's own start;
 *  - `startIndices[f]` and `instanceCounts[f]`: where frame `f` begins in
 *    `voxelIndices` and how many indices it owns.
 *
 * The buffers are specified through what an index resolves to: the
 * functions below give, per frame and face, the sequence of entries the
 * renderer must find, independent of where the entries landed in the list.
 */
module Packing {
  import opened Grid
  import opened Culling
  import opened Bounds

  /** A position with its colour index: the Vector4 (x, y, z, colour) of the source. */
  datatype Entry = Entry(position: Cell, colorIndex: int)

  function EntryOf(v: VoxelData): Entry {
    Entry(v.position, v.colorIndex)
  }

  /** Every face index of every record names one of the six buckets. */
  predicate FacesInRange(vs: seq<VoxelData>) {
    forall k, j :: 0 <= k < |vs| && 0 <= j < |vs[k].faces| ==> 0 <= vs[k].faces[j] < 6
  }

  predicate AllFacesInRange(frames: seq<PackedFrameData>) {
    forall f :: 0 <= f < |frames| ==> FacesInRange(frames[f].data)
  }

  // ---------------------------------------------------------------------------
  // Deduplication

  /** The entry list after StorePositonAndColorIndex(e): `e` is appended unless already listed. */
  function Store(entries: seq<Entry>, e: Entry): seq<Entry> {
    if e in entries then entries else entries + [e]
  }

  /** The entry list after storing the records `vs` in turn. */
  function Stored(entries: seq<Entry>, vs: seq<VoxelData>): (r: seq<Entry>)
    ensures entries <= r
    ensures Distinct(entries) ==> Distinct(r)
    ensures forall k :: 0 <= k < |vs| ==> EntryOf(vs[k]) in r
    ensures forall e :: e in r ==> e in entries || exists k :: 0 <= k < |vs| && EntryOf(vs[k]) == e
  {
    if vs == [] then entries
    else
      var n := |vs| - 1;
      var rest := Stored(entries, vs[..n]);
      assert forall k :: 0 <= k < n ==> vs[..n][k] == vs[k];
      Store(rest, EntryOf(vs[n]))
  }

  /** The entry list after storing every frame's records, frame by frame. */
  function StoredFrames(frames: seq<PackedFrameData>): (r: seq<Entry>)
    ensures Distinct(r)
  {
    if frames == [] then [] else Stored(StoredFrames(frames[..|frames| - 1]), frames[|frames| - 1].data)
  }

  /** The entry list holds the entry of every record of every frame, and nothing else. */
  lemma {:induction false} StoredFramesMembers(frames: seq<PackedFrameData>)
    ensures forall f, k :: 0 <= f < |frames| && 0 <= k < |frames[f].data| ==> EntryOf(frames[f].data[k]) in StoredFrames(frames)
    ensures forall e :: e in StoredFrames(frames) ==>
              exists f, k :: 0 <= f < |frames| && 0 <= k < |frames[f].data| && EntryOf(frames[f].data[k]) == e
  {
    if frames != [] {
      var n := |frames| - 1;
      var rest := StoredFrames(frames[..n]);
      StoredFramesMembers(frames[..n]);
      assert forall f :: 0 <= f < n ==> frames[..n][f] == frames[f];
      forall e | e in StoredFrames(frames)
        ensures exists f, k :: 0 <= f < |frames| && 0 <= k < |frames[f].data| && EntryOf(frames[f].data[k]) == e
      {
        if e in rest {
          var f, k :| 0 <= f < n && 0 <= k < |frames[..n][f].data| && EntryOf(frames[..n][f].data[k]) == e;
          assert EntryOf(frames[f].data[k]) == e;
        } else {
          var k :| 0 <= k < |frames[n].data| && EntryOf(frames[n].data[k]) == e;
          assert EntryOf(frames[n].data[k]) == e;
        }
      }
    }
  }

  // ---------------------------------------------------------------------------
  // What the index buffer must resolve to

  /** How often `f` occurs in `faces`. */
  function Count(faces: seq<int>, f: int): (r: nat)
    ensures r <= |faces|
  {
    if faces == [] then 0
    else Count(faces[..|faces| - 1], f) + (if faces[|faces| - 1] == f then 1 else 0)
  }

  function Repeat<T>(x: T, n: nat): (r: seq<T>)
    ensures |r| == n && forall i :: 0 <= i < n ==> r[i] == x
  {
    seq(n, _ => x)
  }

  /** The entries bucket `f` of one frame collects: each record's entry, once per listing of face `f`. */
  function EntryBucket(vs: seq<VoxelData>, f: int): seq<Entry> {
    if vs == [] then []
    else EntryBucket(vs[..|vs| - 1], f) + Repeat(EntryOf(vs[|vs| - 1]), Count(vs[|vs| - 1].faces, f))
  }

  /** Bucket `f` holds only entries of records that list face `f`. */
  lemma {:induction false} EntryBucketMembers(vs: seq<VoxelData>, f: int)
    ensures forall i :: 0 <= i < |EntryBucket(vs, f)| ==>
              exists k :: 0 <= k < |vs| && EntryBucket(vs, f)[i] == EntryOf(vs[k]) && f in vs[k].faces
  {
    if vs != [] {
      var n := |vs| - 1;
      EntryBucketMembers(vs[..n], f);
      var rest := EntryBucket(vs[..n], f);
      var added := Repeat(EntryOf(vs[n]), Count(vs[n].faces, f));
      assert |added| > 0 ==> f in vs[n].faces by {
        if f !in vs[n].faces {
          CountAbsent(vs[n].faces, f);
        }
      }
      assert EntryBucket(vs, f) == rest + added;
      forall i | 0 <= i < |EntryBucket(vs, f)|
        ensures exists k :: 0 <= k < |vs| && EntryBucket(vs, f)[i] == EntryOf(vs[k]) && f in vs[k].faces
      {
        if i < |rest| {
          var k :| 0 <= k < |vs[..n]| && rest[i] == EntryOf(vs[..n][k]) && f in vs[..n][k].faces;
          assert vs[..n][k] == vs[k];
          assert EntryBucket(vs, f)[i] == EntryOf(vs[k]) && f in vs[k].faces;
        } else {
          assert EntryBucket(vs, f)[i] == EntryOf(vs[n]) && f in vs[n].faces;
        }
      }
    } else {
      assert EntryBucket(vs, f) == [];
    }
  }

  /** Bucket `f` holds one entry per listing of face `f`. */
  lemma {:induction false} EntryBucketLength(vs: seq<VoxelData>, f: int)
    ensures |EntryBucket(vs, f)| == SumCountsOf(vs, f)
  {
    if vs != [] {
      EntryBucketLength(vs[..|vs| - 1], f);
    }
  }

  /** How often face `f` is listed over all the records. */
  function SumCountsOf(vs: seq<VoxelData>, f: int): nat {
    if vs == [] then 0 else SumCountsOf(vs[..|vs| - 1], f) + Count(vs[|vs| - 1].faces, f)
  }

  /** A face that is not listed is counted zero times. */
  lemma {:induction false} CountAbsent(faces: seq<int>, f: int)
    requires f !in faces
    ensures Count(faces, f) == 0
  {
    if faces != [] {
      CountAbsent(faces[..|faces| - 1], f);
    }
  }

  /** Buckets 0..k-1 of one frame, in order. */
  function FaceEntriesUpTo(vs: seq<VoxelData>, k: nat): seq<Entry> {
    if k == 0 then [] else FaceEntriesUpTo(vs, k - 1) + EntryBucket(vs, k - 1)
  }

  /** What one frame appends to the index buffer: its six buckets, face-major. */
  function FrameEntries(vs: seq<VoxelData>): seq<Entry> {
    FaceEntriesUpTo(vs, 6)
  }

  /** What the whole index buffer must resolve to: every frame's buckets, frame after frame. */
  function AllEntries(frames: seq<PackedFrameData>): seq<Entry> {
    if frames == [] then []
    else AllEntries(frames[..|frames| - 1]) + FrameEntries(frames[|frames| - 1].data)
  }

  /** The number of faces the records list: the frame's instance count. */
  function FaceTotal(vs: seq<VoxelData>): nat {
    if vs == [] then 0 else FaceTotal(vs[..|vs| - 1]) + |vs[|vs| - 1].faces|
  }

  /** The per-frame offsets SortIndices writes: how many indices faces 0..i hold together. */
  function FaceOffsets(vs: seq<VoxelData>): (r: seq<int>)
    ensures |r| == 6
  {
    seq(6, i requires 0 <= i < 6 => |FaceEntriesUpTo(vs, i + 1)|)
  }

  /** s[0] + ... + s[k-1]. */
  function SumUpTo(s: seq<int>, k: nat): int
    requires k <= |s|
  {
    if k == 0 then 0 else SumUpTo(s, k - 1) + s[k - 1]
  }

  /** Every index points into `entries` at the entry `expected` names for that slot. */
  predicate Resolves(entries: seq<Entry>, indices: seq<int>, expected: seq<Entry>) {
    && |indices| == |expected|
    && forall k :: 0 <= k < |indices| ==> 0 <= indices[k] < |entries| && entries[indices[k]] == expected[k]
  }

  /** The buffers concatenated in order. */
  function Concat(buckets: seq<seq<int>>): seq<int> {
    if buckets == [] then [] else Concat(buckets[..|buckets| - 1]) + buckets[|buckets| - 1]
  }

  // ---------------------------------------------------------------------------
  // Lemmas about the specification

  lemma ResolvesConcat(entries: seq<Entry>, a: seq<int>, x: seq<Entry>, b: seq<int>, y: seq<Entry>)
    requires Resolves(entries, a, x) && Resolves(entries, b, y)
    ensures Resolves(entries, a + b, x + y)
  {
  }

  /** Appending to the entry list never changes what an index resolves to. */
  lemma ResolvesGrow(entries: seq<Entry>, entries': seq<Entry>, indices: seq<int>, expected: seq<Entry>)
    requires entries <= entries' && Resolves(entries, indices, expected)
    ensures Resolves(entries', indices, expected)
  {
  }

  /** Σ_{f < k} Count(faces, f). */
  function SumCounts(faces: seq<int>, k: nat): nat {
    if k == 0 then 0 else SumCounts(faces, k - 1) + Count(faces, k - 1)
  }

  lemma {:induction false} SumCountsSnoc(faces: seq<int>, x: int, k: nat)
    ensures SumCounts(faces + [x], k) == SumCounts(faces, k) + (if 0 <= x < k then 1 else 0)
  {
    if k > 0 {
      SumCountsSnoc(faces, x, k - 1);
      assert (faces + [x])[..|faces|] == faces;
    }
  }

  lemma {:induction false} NothingCounted(faces: seq<int>, k: nat)
    requires faces == []
    ensures SumCounts(faces, k) == 0
  {
    if k > 0 {
      NothingCounted(faces, k - 1);
    }
  }

  lemma {:induction false} NoRecordsNoEntries(vs: seq<VoxelData>, k: nat)
    requires vs == []
    ensures FaceEntriesUpTo(vs, k) == []
  {
    if k > 0 {
      NoRecordsNoEntries(vs, k - 1);
    }
  }

  /** Faces that all name a bucket are counted once each over the six buckets. */
  lemma {:induction false} SumCountsAll(faces: seq<int>)
    requires forall j :: 0 <= j < |faces| ==> 0 <= faces[j] < 6
    ensures SumCounts(faces, 6) == |faces|
  {
    if faces == [] {
      NothingCounted(faces, 6);
    } else {
      var n := |faces| - 1;
      assert faces == faces[..n] + [faces[n]];
      SumCountsAll(faces[..n]);
      SumCountsSnoc(faces[..n], faces[n], 6);
    }
  }

  lemma EntryBucketSnoc(vs: seq<VoxelData>, v: VoxelData, f: int)
    ensures EntryBucket(vs + [v], f) == EntryBucket(vs, f) + Repeat(EntryOf(v), Count(v.faces, f))
  {
    assert (vs + [v])[..|vs|] == vs;
  }

  lemma {:induction false} UpToSnoc(vs: seq<VoxelData>, v: VoxelData, k: nat)
    ensures |FaceEntriesUpTo(vs + [v], k)| == |FaceEntriesUpTo(vs, k)| + SumCounts(v.faces, k)
  {
    if k > 0 {
      UpToSnoc(vs, v, k - 1);
      EntryBucketSnoc(vs, v, k - 1);
      assert |EntryBucket(vs + [v], k - 1)| == |EntryBucket(vs, k - 1)| + Count(v.faces, k - 1);
      assert |FaceEntriesUpTo(vs + [v], k)| == |FaceEntriesUpTo(vs + [v], k - 1)| + |EntryBucket(vs + [v], k - 1)|;
      assert |FaceEntriesUpTo(vs, k)| == |FaceEntriesUpTo(vs, k - 1)| + |EntryBucket(vs, k - 1)|;
    }
  }

  /** A frame owns exactly as many indices as its records list faces. */
  lemma {:induction false} FrameEntriesLength(vs: seq<VoxelData>)
    requires FacesInRange(vs)
    ensures |FrameEntries(vs)| == FaceTotal(vs)
  {
    if vs == [] {
      NoRecordsNoEntries(vs, 6);
    } else {
      var n := |vs| - 1;
      assert vs == vs[..n] + [vs[n]];
      assert FacesInRange(vs[..n]);
      FrameEntriesLength(vs[..n]);
      UpToSnoc(vs[..n], vs[n], 6);
      assert forall j :: 0 <= j < |vs[n].faces| ==> 0 <= vs[n].faces[j] < 6;
      SumCountsAll(vs[n].faces);
      assert FaceTotal(vs) == FaceTotal(vs[..n]) + |vs[n].faces|;
    }
  }

  /** The offsets never decrease, and the last one is the frame's instance count. */
  lemma {:induction false} FaceOffsetsOrdered(vs: seq<VoxelData>)
    requires FacesInRange(vs)
    ensures forall i, j :: 0 <= i <= j < 6 ==> FaceOffsets(vs)[i] <= FaceOffsets(vs)[j]
    ensures FaceOffsets(vs)[5] == FaceTotal(vs)
  {
    FrameEntriesLength(vs);
    forall i, j | 0 <= i <= j < 6 ensures FaceOffsets(vs)[i] <= FaceOffsets(vs)[j] {
      UpToPrefix(vs, i + 1, j + 1);
    }
  }

  /**
   * Segment ownership inside a frame: the indices between the offsets of
   * faces i-1 and i are exactly bucket i.
   */
  lemma FaceSegment(vs: seq<VoxelData>, i: nat)
    requires i < 6
    ensures var lo := |FaceEntriesUpTo(vs, i)|;
            var hi := |FaceEntriesUpTo(vs, i + 1)|;
            lo <= hi <= |FrameEntries(vs)| && FrameEntries(vs)[lo..hi] == EntryBucket(vs, i)
  {
    UpToPrefix(vs, i + 1, 6);
  }

  lemma {:induction false} UpToPrefix(vs: seq<VoxelData>, k: nat, m: nat)
    requires k <= m
    ensures FaceEntriesUpTo(vs, k) <= FaceEntriesUpTo(vs, m)
  {
    if k < m {
      UpToPrefix(vs, k, m - 1);
    }
  }

  lemma {:induction false} AllEntriesPrefix(frames: seq<PackedFrameData>, f: nat)
    requires f <= |frames|
    ensures AllEntries(frames[..f]) <= AllEntries(frames)
  {
    if f < |frames| {
      var n := |frames| - 1;
      assert frames[..n][..f] == frames[..f];
      AllEntriesPrefix(frames[..n], f);
      assert AllEntries(frames[..n]) <= AllEntries(frames);
    } else {
      assert frames[..f] == frames;
    }
  }

  /**
   * Segment ownership across frames: frame f's indices follow those of the
   * frames before it and are exactly its own buckets.
   */
  lemma {:induction false} AllEntriesSegment(frames: seq<PackedFrameData>, f: nat)
    requires f < |frames|
    ensures var lo := |AllEntries(frames[..f])|;
            var hi := lo + |FrameEntries(frames[f].data)|;
            hi <= |AllEntries(frames)| && AllEntries(frames)[lo..hi] == FrameEntries(frames[f].data)
  {
    assert frames[..f + 1][..f] == frames[..f];
    AllEntriesPrefix(frames, f + 1);
  }

  /** With the counters holding the bucket sizes, their running sum is the size of the first buckets. */
  lemma {:induction false} SumUpToCounts(counts: seq<int>, vs: seq<VoxelData>, k: nat)
    requires |counts| == 6 && k <= 6
    requires forall f :: 0 <= f < 6 ==> counts[f] == |EntryBucket(vs, f)|
    ensures SumUpTo(counts, k) == |FaceEntriesUpTo(vs, k)|
  {
    if k > 0 {
      SumUpToCounts(counts, vs, k - 1);
    }
  }

  /** The first k buckets, concatenated, resolve to the first k bucket specifications. */
  lemma {:induction false} ConcatResolves(entries: seq<Entry>, buckets: seq<seq<int>>, vs: seq<VoxelData>, k: nat)
    requires |buckets| == 6 && k <= 6
    requires forall f :: 0 <= f < 6 ==> Resolves(entries, buckets[f], EntryBucket(vs, f))
    ensures Resolves(entries, Concat(buckets[..k]), FaceEntriesUpTo(vs, k))
  {
    if k > 0 {
      ConcatResolves(entries, buckets, vs, k - 1);
      assert buckets[..k][..k - 1] == buckets[..k - 1];
      ResolvesConcat(entries, Concat(buckets[..k - 1]), FaceEntriesUpTo(vs, k - 1), buckets[k - 1], EntryBucket(vs, k - 1));
    }
  }

  /** The start of frame f is the sum of the instance counts before it. */
  lemma {:induction false} StartsAreSums(frames: seq<PackedFrameData>, counts: seq<int>, f: nat)
    requires AllFacesInRange(frames) && |counts| == |frames| && f <= |frames|
    requires forall g :: 0 <= g < |frames| ==> counts[g] == FaceTotal(frames[g].data)
    ensures SumUpTo(counts, f) == |AllEntries(frames[..f])|
  {
    if f > 0 {
      StartsAreSums(frames, counts, f - 1);
      assert frames[..f][..f - 1] == frames[..f - 1];
      FrameEntriesLength(frames[f - 1].data);
    }
  }

  /** The largest element, which Max() computes and which does not exist for no elements. */
  function MaxOf(s: seq<int>): (r: int)
    requires |s| > 0
    ensures r in s
    ensures forall i :: 0 <= i < |s| ==> s[i] <= r
  {
    if |s| == 1 then s[0]
    else
      var m := MaxOf(s[..|s| - 1]);
      assert forall i :: 0 <= i < |s| - 1 ==> s[..|s| - 1][i] == s[i];
      if m < s[|s| - 1] then s[|s| - 1] else m
  }

  // ---------------------------------------------------------------------------
  // The packer

  /**
   * StorePositonAndColorIndex: the index of the record's (position, colour)
   * entry, appending it first if it is new.
   */
  method StorePositionAndColorIndex(entries: seq<Entry>, data: VoxelData) returns (entries': seq<Entry>, index: int)
    ensures entries' == Store(entries, EntryOf(data))
    ensures 0 <= index < |entries'| && entries'[index] == EntryOf(data)
    ensures forall j :: 0 <= j < index ==> entries'[j] != EntryOf(data)
    ensures EntryOf(data) !in entries ==> index == |entries|
    ensures Distinct(entries) ==> Distinct(entries')
  {
    var e := EntryOf(data);
    var i := 0;
    while i < |entries| && entries[i] != e
      invariant 0 <= i <= |entries|
      invariant forall j :: 0 <= j < i ==> entries[j] != e
    {
      i := i + 1;
    }
    if i == |entries| {
      entries' := entries + [e];
    } else {
      entries' := entries;
    }
    index := i;
  }

  /**
   * StoreIndicesByFace: add `voxelIndex` to the bucket of every listed face
   * and count it; the number of faces is returned.
   */
  method StoreIndicesByFace(buckets: array<seq<int>>, counts: array<int>, faces: seq<int>, voxelIndex: int)
    returns (n: int)
    requires buckets.Length == 6 && counts.Length == 6
    requires forall j :: 0 <= j < |faces| ==> 0 <= faces[j] < 6
    modifies buckets, counts
    ensures n == |faces|
    ensures forall f :: 0 <= f < 6 ==> buckets[f] == old(buckets[f]) + Repeat(voxelIndex, Count(faces, f))
    ensures forall f :: 0 <= f < 6 ==> counts[f] == old(counts[f]) + Count(faces, f)
  {
    for index := 0 to |faces|
      invariant forall f :: 0 <= f < 6 ==> buckets[f] == old(buckets[f]) + Repeat(voxelIndex, Count(faces[..index], f))
      invariant forall f :: 0 <= f < 6 ==> counts[f] == old(counts[f]) + Count(faces[..index], f)
    {
      assert faces[..index + 1][..index] == faces[..index];
      var face := faces[index];
      buckets[face] := buckets[face] + [voxelIndex];
      counts[face] := counts[face] + 1;
    }
    assert faces[..|faces|] == faces;
    n := |faces|;
  }

  /**
   * SortIndices: turn the six counters into running offsets stored at the
   * frame's slots of `faceIndices`, reset the counters, and append the six
   * buckets to the index buffer.
   */
  method SortIndices(faceIndices: array<int>, counts: array<int>, voxelIndices: seq<int>, buckets: array<seq<int>>, frame: nat)
    returns (voxelIndices': seq<int>)
    requires counts.Length == 6 && buckets.Length == 6 && frame * 6 + 6 <= faceIndices.Length
    requires faceIndices != counts
    modifies faceIndices, counts
    ensures forall j :: frame * 6 <= j < frame * 6 + 6 ==> faceIndices[j] == SumUpTo(old(counts[..]), j - frame * 6 + 1)
    ensures forall k :: 0 <= k < frame * 6 ==> faceIndices[k] == old(faceIndices[k])
    ensures forall k :: frame * 6 + 6 <= k < faceIndices.Length ==> faceIndices[k] == old(faceIndices[k])
    ensures forall i :: 0 <= i < 6 ==> counts[i] == 0
    ensures voxelIndices' == voxelIndices + Concat(buckets[..])
  {
    var frameOffset := frame * 6;
    ghost var counts0 := counts[..];
    voxelIndices' := voxelIndices;
    for i := 0 to 6
      invariant forall j :: frameOffset <= j < frameOffset + i ==> faceIndices[j] == SumUpTo(counts0, j - frameOffset + 1)
      invariant forall j :: 0 <= j < i ==> counts[j] == 0
      invariant forall j :: i <= j < 6 ==> counts[j] == counts0[j]
      invariant forall k :: 0 <= k < frameOffset ==> faceIndices[k] == old(faceIndices[k])
      invariant forall k :: frameOffset + 6 <= k < faceIndices.Length ==> faceIndices[k] == old(faceIndices[k])
      invariant voxelIndices' == voxelIndices + Concat(buckets[..i])
    {
      if i != 0 {
        counts[i] := counts[i] + faceIndices[i - 1 + frameOffset];
      }
      faceIndices[i + frameOffset] := counts[i];
      counts[i] := 0;
      assert buckets[..i + 1][..i] == buckets[..i];
      voxelIndices' := voxelIndices' + buckets[i];
    }
    assert buckets[..6] == buckets[..];
  }

  /** CreateListArray(6): six empty buckets. */
  method CreateListArray() returns (buckets: array<seq<int>>)
    ensures fresh(buckets) && buckets.Length == 6
    ensures forall f :: 0 <= f < 6 ==> buckets[f] == []
  {
    buckets := new seq<int>[6](_ => []);
  }

  method ClearVoxelIndicesByFace(buckets: array<seq<int>>)
    requires buckets.Length == 6
    modifies buckets
    ensures forall f :: 0 <= f < 6 ==> buckets[f] == []
  {
    for i := 0 to 6
      invariant forall f :: 0 <= f < i ==> buckets[f] == []
    {
      buckets[i] := [];
    }
  }

  /**
   * The inner loop of one frame: store every record and bucket its faces,
   * counting the faces listed.
   */
  method BucketFrame(entries: seq<Entry>, counts: array<int>, buckets: array<seq<int>>, data: seq<VoxelData>)
    returns (entries': seq<Entry>, instanceCount: int)
    requires counts.Length == 6 && buckets.Length == 6
    requires forall f :: 0 <= f < 6 ==> counts[f] == 0 && buckets[f] == []
    requires FacesInRange(data)
    modifies counts, buckets
    ensures entries' == Stored(entries, data)
    ensures instanceCount == FaceTotal(data)
    ensures forall f :: 0 <= f < 6 ==> counts[f] == |buckets[f]|
    ensures forall f :: 0 <= f < 6 ==> Resolves(entries', buckets[f], EntryBucket(data, f))
  {
    entries' := entries;
    instanceCount := 0;
    for k := 0 to |data|
      invariant entries' == Stored(entries, data[..k])
      invariant instanceCount == FaceTotal(data[..k])
      invariant forall f :: 0 <= f < 6 ==> counts[f] == |buckets[f]|
      invariant forall f :: 0 <= f < 6 ==> Resolves(entries', buckets[f], EntryBucket(data[..k], f))
    {
      assert data[..k + 1] == data[..k] + [data[k]];
      ghost var before := entries';
      var voxelIndex;
      entries', voxelIndex := StorePositionAndColorIndex(entries', data[k]);
      ghost var bucketsBefore := buckets[..];
      var faceCount := StoreIndicesByFace(buckets, counts, data[k].faces, voxelIndex);
      BucketStep(before, entries', bucketsBefore, buckets[..], data[..k], data[k], voxelIndex);
      instanceCount := instanceCount + faceCount;
    }
    assert data[..|data|] == data;
  }

  /** Storing one more record keeps every bucket resolving to its specification. */
  lemma BucketStep(entries: seq<Entry>, entries': seq<Entry>, before: seq<seq<int>>, after: seq<seq<int>>,
                   vs: seq<VoxelData>, v: VoxelData, voxelIndex: int)
    requires entries <= entries' && 0 <= voxelIndex < |entries'| && entries'[voxelIndex] == EntryOf(v)
    requires |before| == |after| == 6
    requires forall f :: 0 <= f < 6 ==> Resolves(entries, before[f], EntryBucket(vs, f))
    requires forall f :: 0 <= f < 6 ==> after[f] == before[f] + Repeat(voxelIndex, Count(v.faces, f))
    ensures forall f :: 0 <= f < 6 ==> Resolves(entries', after[f], EntryBucket(vs + [v], f))
  {
    forall f | 0 <= f < 6
      ensures Resolves(entries', after[f], EntryBucket(vs + [v], f))
    {
      EntryBucketSnoc(vs, v, f);
      ResolvesGrow(entries, entries', before[f], EntryBucket(vs, f));
      ResolvesConcat(entries', before[f], EntryBucket(vs, f),
                     Repeat(voxelIndex, Count(v.faces, f)), Repeat(EntryOf(v), Count(v.faces, f)));
    }
  }

  /**
   * The body of the frame loop for one frame's records, up to clearing the
   * buckets: store every record, bucket its faces, then sort.
   */
  method PackFrame(entries: seq<Entry>, voxelIndices: seq<int>, faceIndices: array<int>, counts: array<int>,
                   buckets: array<seq<int>>, data: seq<VoxelData>, frame: nat, ghost expected: seq<Entry>)
    returns (entries': seq<Entry>, voxelIndices': seq<int>, instanceCount: int)
    requires counts.Length == 6 && buckets.Length == 6 && frame * 6 + 6 <= faceIndices.Length
    requires faceIndices != counts
    requires forall f :: 0 <= f < 6 ==> counts[f] == 0 && buckets[f] == []
    requires FacesInRange(data)
    requires Resolves(entries, voxelIndices, expected)
    modifies faceIndices, counts, buckets
    ensures entries' == Stored(entries, data)
    ensures Resolves(entries', voxelIndices', expected + FrameEntries(data))
    ensures instanceCount == FaceTotal(data)
    ensures faceIndices[frame * 6 .. frame * 6 + 6] == FaceOffsets(data)
    ensures forall k :: 0 <= k < frame * 6 ==> faceIndices[k] == old(faceIndices[k])
    ensures forall f :: 0 <= f < 6 ==> counts[f] == 0
  {
    entries', instanceCount := BucketFrame(entries, counts, buckets, data);
    ghost var counts0 := counts[..];
    SumUpToCountsAll(counts0, data);
    ConcatResolves(entries', buckets[..], data, 6);
    assert buckets[..][..6] == buckets[..];
    ResolvesGrow(entries, entries', voxelIndices, expected);
    voxelIndices' := SortIndices(faceIndices, counts, voxelIndices, buckets, frame);
    ResolvesConcat(entries', voxelIndices, expected, Concat(buckets[..]), FrameEntries(data));
    ghost var offset := frame * 6;
    forall i | 0 <= i < 6 ensures faceIndices[offset..offset + 6][i] == FaceOffsets(data)[i] {
      assert faceIndices[offset..offset + 6][i] == faceIndices[offset + i];
    }
  }

  /** Counters equal to the bucket sizes give the frame's offsets as running sums. */
  lemma SumUpToCountsAll(counts: seq<int>, vs: seq<VoxelData>)
    requires |counts| == 6
    requires forall f :: 0 <= f < 6 ==> counts[f] == |EntryBucket(vs, f)|
    ensures forall i :: 0 <= i < 6 ==> SumUpTo(counts, i + 1) == FaceOffsets(vs)[i]
  {
    forall i | 0 <= i < 6 ensures SumUpTo(counts, i + 1) == FaceOffsets(vs)[i] {
      SumUpToCounts(counts, vs, i + 1);
    }
  }

  // ---------------------------------------------------------------------------
  // The frame loop

  /** The lower and upper bounding cells of every frame, in frame order. */
  function MinsOf(frames: seq<PackedFrameData>): (r: seq<Cell>)
    ensures |r| == |frames| && forall f :: 0 <= f < |frames| ==> r[f] == frames[f].minBounds
  {
    seq(|frames|, f requires 0 <= f < |frames| => frames[f].minBounds)
  }

  function MaxsOf(frames: seq<PackedFrameData>): (r: seq<Cell>)
    ensures |r| == |frames| && forall f :: 0 <= f < |frames| ==> r[f] == frames[f].maxBounds
  {
    seq(|frames|, f requires 0 <= f < |frames| => frames[f].maxBounds)
  }

  /** The per-frame offsets of every frame, frame after frame: the whole FaceIndices buffer. */
  function OffsetsOf(frames: seq<PackedFrameData>): (r: seq<int>)
    ensures |r| == 6 * |frames|
  {
    if frames == [] then [] else OffsetsOf(frames[..|frames| - 1]) + FaceOffsets(frames[|frames| - 1].data)
  }

  /** Frame f owns the six slots from f * 6 on. */
  lemma {:induction false} OffsetsSlot(frames: seq<PackedFrameData>, f: nat)
    requires f < |frames|
    ensures f * 6 + 6 <= |OffsetsOf(frames)| && OffsetsOf(frames)[f * 6 .. f * 6 + 6] == FaceOffsets(frames[f].data)
  {
    var n := |frames| - 1;
    if f < n {
      assert frames[..n][f] == frames[f];
      OffsetsSlot(frames[..n], f);
      assert OffsetsOf(frames)[..6 * n] == OffsetsOf(frames[..n]);
    }
  }

  /**
   * The layout of the buffers the frame loop leaves behind, against the
   * entry list. With `entries` free of duplicates, `Resolves` fixes every
   * index, so the buffers are determined by `frames`.
   */
  predicate IsPacking(frames: seq<PackedFrameData>, entries: seq<Entry>, voxelIndices: seq<int>,
                      faceIndices: seq<int>, startIndices: seq<int>, instanceCounts: seq<int>)
  {
    && Resolves(entries, voxelIndices, AllEntries(frames))
    && |instanceCounts| == |frames|
    && (forall f :: 0 <= f < |frames| ==> instanceCounts[f] == FaceTotal(frames[f].data))
    && |startIndices| == |frames|
    && (forall f :: 0 <= f < |frames| ==> startIndices[f] == SumUpTo(instanceCounts, f))
    && faceIndices == OffsetsOf(frames)
  }

  /** A slice of resolving indices resolves to the same slice of the expected entries. */
  lemma ResolvesSlice(entries: seq<Entry>, indices: seq<int>, expected: seq<Entry>, lo: nat, hi: nat, part: seq<Entry>)
    requires Resolves(entries, indices, expected) && lo <= hi <= |indices| && expected[lo..hi] == part
    ensures Resolves(entries, indices[lo..hi], part)
  {
    forall k | 0 <= k < hi - lo
      ensures 0 <= indices[lo..hi][k] < |entries| && entries[indices[lo..hi][k]] == part[k]
    {
      assert indices[lo..hi][k] == indices[lo + k];
      assert part[k] == expected[lo + k];
    }
  }

  /** A piece of a piece of `s` is a piece of `s`. */
  lemma SliceWithin<T>(s: seq<T>, a: nat, b: nat, part: seq<T>, c: nat, d: nat, piece: seq<T>)
    requires a <= b <= |s| && s[a..b] == part && c <= d <= |part| && part[c..d] == piece
    ensures a + d <= |s| && s[a + c .. a + d] == piece
  {
    forall k | 0 <= k < d - c ensures s[a + c .. a + d][k] == piece[k] {
      assert piece[k] == part[c + k] == s[a + c + k];
    }
  }

  /** The offsets a draw of face i in frame f reads, in terms of the frame's buckets. */
  lemma FaceBoundaries(frames: seq<PackedFrameData>, faceIndices: seq<int>, f: nat, i: nat)
    requires faceIndices == OffsetsOf(frames) && f < |frames| && i < 6
    ensures f * 6 + i < |faceIndices|
    ensures faceIndices[f * 6 + i] == |FaceEntriesUpTo(frames[f].data, i + 1)|
    ensures i > 0 ==> faceIndices[f * 6 + i - 1] == |FaceEntriesUpTo(frames[f].data, i)|
  {
    OffsetsSlot(frames, f);
    assert faceIndices[f * 6 + i] == faceIndices[f * 6 .. f * 6 + 6][i];
    if i > 0 {
      assert faceIndices[f * 6 + i - 1] == faceIndices[f * 6 .. f * 6 + 6][i - 1];
    }
  }

  /** The entries of face i in frame f sit after the earlier frames and the frame's earlier faces. */
  lemma BucketInAll(frames: seq<PackedFrameData>, f: nat, i: nat, lo: int, hi: int)
    requires f < |frames| && i < 6
    requires lo == |AllEntries(frames[..f])| + |FaceEntriesUpTo(frames[f].data, i)|
    requires hi == |AllEntries(frames[..f])| + |FaceEntriesUpTo(frames[f].data, i + 1)|
    ensures 0 <= lo <= hi <= |AllEntries(frames)| && AllEntries(frames)[lo..hi] == EntryBucket(frames[f].data, i)
  {
    var vs := frames[f].data;
    var start := |AllEntries(frames[..f])|;
    var frameEntries := FrameEntries(vs);
    FaceSegment(vs, i);
    AllEntriesSegment(frames, f);
    SliceWithin(AllEntries(frames), start, start + |frameEntries|, frameEntries,
                |FaceEntriesUpTo(vs, i)|, |FaceEntriesUpTo(vs, i + 1)|, EntryBucket(vs, i));
  }

  /**
   * The draw of face `i` in frame `f` reads exactly the indices between the
   * frame's start plus the offsets of faces i-1 and i, and they resolve to
   * the entries of the records showing face `i`, one per listing.
   */
  lemma {:induction false} FaceDrawResolves(frames: seq<PackedFrameData>, entries: seq<Entry>, voxelIndices: seq<int>,
                                            faceIndices: seq<int>, startIndices: seq<int>, instanceCounts: seq<int>,
                                            f: nat, i: nat)
    requires AllFacesInRange(frames)
    requires IsPacking(frames, entries, voxelIndices, faceIndices, startIndices, instanceCounts)
    requires f < |frames| && i < 6
    ensures var lo := startIndices[f] + (if i == 0 then 0 else faceIndices[f * 6 + i - 1]);
            var hi := startIndices[f] + faceIndices[f * 6 + i];
            0 <= lo <= hi <= |voxelIndices| && Resolves(entries, voxelIndices[lo..hi], EntryBucket(frames[f].data, i))
  {
    var vs := frames[f].data;
    var lo := startIndices[f] + (if i == 0 then 0 else faceIndices[f * 6 + i - 1]);
    var hi := startIndices[f] + faceIndices[f * 6 + i];
    var start := |AllEntries(frames[..f])|;
    assert lo == start + |FaceEntriesUpTo(vs, i)| && hi == start + |FaceEntriesUpTo(vs, i + 1)| by {
      StartsAreSums(frames, instanceCounts, f);
      FaceBoundaries(frames, faceIndices, f, i);
    }
    var bucket := EntryBucket(vs, i);
    assert AllEntries(frames)[lo..hi] == bucket by {
      BucketInAll(frames, f, i, lo, hi);
    }
    ResolvesSlice(entries, voxelIndices, AllEntries(frames), lo, hi, bucket);
  }

  /** Packing one more frame extends every accumulated specification by that frame. */
  lemma {:induction false} NextFrame(frames: seq<PackedFrameData>, frame: nat)
    requires frame < |frames|
    ensures StoredFrames(frames[..frame + 1]) == Stored(StoredFrames(frames[..frame]), frames[frame].data)
    ensures AllEntries(frames[..frame + 1]) == AllEntries(frames[..frame]) + FrameEntries(frames[frame].data)
    ensures OffsetsOf(frames[..frame + 1]) == OffsetsOf(frames[..frame]) + FaceOffsets(frames[frame].data)
    ensures MinsOf(frames[..frame + 1]) == MinsOf(frames[..frame]) + [frames[frame].minBounds]
    ensures MaxsOf(frames[..frame + 1]) == MaxsOf(frames[..frame]) + [frames[frame].maxBounds]
  {
    assert frames[..frame + 1][..frame] == frames[..frame];
  }

  /** The values the frame loop accumulates in its locals. */
  datatype Packed = Packed(entries: seq<Entry>, voxelIndices: seq<int>, startIndices: seq<int>,
                           instanceCounts: seq<int>, minBounds: seq<Cell>, maxBounds: seq<Cell>, startIndex: int)

  /** The loop's locals after the first `frame` frames: the invariant of the frame loop. */
  predicate PackedUpTo(frames: seq<PackedFrameData>, frame: nat, p: Packed)
    requires frame <= |frames|
  {
    && BuffersUpTo(frames, frame, p.entries, p.voxelIndices)
    && TalliesUpTo(frames, frame, p.startIndices, p.instanceCounts, p.startIndex)
    && p.minBounds == MinsOf(frames[..frame]) && p.maxBounds == MaxsOf(frames[..frame])
  }

  /** The entry list and the index buffer hold the first `frame` frames. */
  predicate BuffersUpTo(frames: seq<PackedFrameData>, frame: nat, entries: seq<Entry>, voxelIndices: seq<int>)
    requires frame <= |frames|
  {
    entries == StoredFrames(frames[..frame]) && Resolves(entries, voxelIndices, AllEntries(frames[..frame]))
  }

  /** Start and count of each of the first `frame` frames, and the running start. */
  predicate TalliesUpTo(frames: seq<PackedFrameData>, frame: nat, startIndices: seq<int>, instanceCounts: seq<int>,
                        startIndex: int)
    requires frame <= |frames|
  {
    && |startIndices| == |instanceCounts| == frame
    && startIndex == SumUpTo(instanceCounts, frame)
    && (forall g :: 0 <= g < frame ==> startIndices[g] == SumUpTo(instanceCounts, g))
    && (forall g :: 0 <= g < frame ==> instanceCounts[g] == FaceTotal(frames[g].data))
  }

  lemma {:induction false} BuffersStep(frames: seq<PackedFrameData>, frame: nat, entries: seq<Entry>,
                                       entries': seq<Entry>, voxelIndices': seq<int>)
    requires frame < |frames| && entries == StoredFrames(frames[..frame])
    requires entries' == Stored(entries, frames[frame].data)
    requires Resolves(entries', voxelIndices', AllEntries(frames[..frame]) + FrameEntries(frames[frame].data))
    ensures BuffersUpTo(frames, frame + 1, entries', voxelIndices')
  {
    NextFrame(frames, frame);
  }

  lemma {:induction false} TalliesStep(frames: seq<PackedFrameData>, frame: nat, startIndices: seq<int>,
                                       instanceCounts: seq<int>, startIndex: int, instanceCount: int)
    requires frame < |frames| && TalliesUpTo(frames, frame, startIndices, instanceCounts, startIndex)
    requires instanceCount == FaceTotal(frames[frame].data)
    ensures TalliesUpTo(frames, frame + 1, startIndices + [startIndex], instanceCounts + [instanceCount],
                        startIndex + instanceCount)
  {
    forall g | 0 <= g <= frame ensures SumUpTo(instanceCounts + [instanceCount], g) == SumUpTo(instanceCounts, g) {
      SumUpToAppend(instanceCounts, instanceCount, g);
    }
  }

  /** The bookkeeping of one turn of the frame loop keeps its invariant. */
  lemma {:induction false} PackedStep(frames: seq<PackedFrameData>, frame: nat, p: Packed,
                                      entries': seq<Entry>, voxelIndices': seq<int>, instanceCount: int)
    requires frame < |frames| && PackedUpTo(frames, frame, p)
    requires entries' == Stored(p.entries, frames[frame].data)
    requires Resolves(entries', voxelIndices', AllEntries(frames[..frame]) + FrameEntries(frames[frame].data))
    requires instanceCount == FaceTotal(frames[frame].data)
    ensures PackedUpTo(frames, frame + 1,
                       Packed(entries', voxelIndices', p.startIndices + [p.startIndex], p.instanceCounts + [instanceCount],
                              p.minBounds + [frames[frame].minBounds], p.maxBounds + [frames[frame].maxBounds],
                              p.startIndex + instanceCount))
  {
    BuffersStep(frames, frame, p.entries, entries', voxelIndices');
    TalliesStep(frames, frame, p.startIndices, p.instanceCounts, p.startIndex, instanceCount);
    NextFrame(frames, frame);
  }

  /**
   * One turn of the frame loop: pack frame `frame` into the buffers, record
   * its start, count and bounding cells, and clear the buckets.
   */
  method PackNextFrame(frames: seq<PackedFrameData>, frame: nat, p: Packed,
                       faceIndices: array<int>, counts: array<int>, buckets: array<seq<int>>)
    returns (p': Packed)
    requires AllFacesInRange(frames) && frame < |frames|
    requires counts.Length == 6 && buckets.Length == 6 && |frames| * 6 == faceIndices.Length
    requires faceIndices != counts
    requires forall f :: 0 <= f < 6 ==> counts[f] == 0 && buckets[f] == []
    requires PackedUpTo(frames, frame, p)
    requires faceIndices[..frame * 6] == OffsetsOf(frames[..frame])
    modifies faceIndices, counts, buckets
    ensures PackedUpTo(frames, frame + 1, p')
    ensures faceIndices[..frame * 6 + 6] == OffsetsOf(frames[..frame + 1])
    ensures forall f :: 0 <= f < 6 ==> counts[f] == 0 && buckets[f] == []
  {
    NextFrame(frames, frame);
    var data := frames[frame].data;
    ghost var packedBefore := faceIndices[..frame * 6];
    var entries, voxelIndices, instanceCount :=
      PackFrame(p.entries, p.voxelIndices, faceIndices, counts, buckets, data, frame, AllEntries(frames[..frame]));
    assert faceIndices[..frame * 6] == packedBefore;
    assert faceIndices[..frame * 6 + 6] == faceIndices[..frame * 6] + faceIndices[frame * 6 .. frame * 6 + 6];
    PackedStep(frames, frame, p, entries, voxelIndices, instanceCount);
    p' := Packed(entries, voxelIndices, p.startIndices + [p.startIndex], p.instanceCounts + [instanceCount],
                 p.minBounds + [frames[frame].minBounds], p.maxBounds + [frames[frame].maxBounds],
                 p.startIndex + instanceCount);
    ClearVoxelIndicesByFace(buckets);
  }

  /**
   * The frame loop of FillObject: pack every frame's records into the shared
   * buffers, frame after frame, and collect the frames' bounding cells.
   */
  method PackFrames(frames: seq<PackedFrameData>)
    returns (entries: seq<Entry>, voxelIndices: seq<int>, faceIndices: seq<int>, startIndices: seq<int>,
             instanceCounts: seq<int>, minBounds: seq<Cell>, maxBounds: seq<Cell>)
    requires AllFacesInRange(frames)
    ensures entries == StoredFrames(frames)
    ensures IsPacking(frames, entries, voxelIndices, faceIndices, startIndices, instanceCounts)
    ensures minBounds == MinsOf(frames) && maxBounds == MaxsOf(frames)
  {
    var n := |frames|;
    var faceIdx := new int[n * 6](_ => 0);
    var counts := new int[6](_ => 0);
    var buckets := CreateListArray();
    var p := Packed([], [], [], [], [], [], 0);
    assert frames[..0] == [];
    for frame := 0 to n
      invariant PackedUpTo(frames, frame, p)
      invariant faceIdx[..frame * 6] == OffsetsOf(frames[..frame])
      invariant forall f :: 0 <= f < 6 ==> counts[f] == 0 && buckets[f] == []
    {
      p := PackNextFrame(frames, frame, p, faceIdx, counts, buckets);
    }
    assert frames[..n] == frames;
    assert faceIdx[..n * 6] == faceIdx[..];
    entries, voxelIndices, faceIndices := p.entries, p.voxelIndices, faceIdx[..];
    startIndices, instanceCounts, minBounds, maxBounds := p.startIndices, p.instanceCounts, p.minBounds, p.maxBounds;
  }

  /** Appending to a sequence leaves the sums of its prefixes as they were. */
  lemma {:induction false} SumUpToAppend(s: seq<int>, x: int, k: nat)
    requires k <= |s|
    ensures SumUpTo(s + [x], k) == SumUpTo(s, k)
  {
    if k > 0 {
      SumUpToAppend(s, x, k - 1);
    }
  }
}
