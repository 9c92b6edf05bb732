/**
 * The VoxelObject asset the save system fills: the packed buffers of every
 * frame, the union bounds, and (in the editor copy) each frame's cells with
 * their colour indices so the editor can reload them.
 *
 * FillObject runs the frame loop of Packing over the frames' GetMeshData
 * results, then writes the fields in the order the source does. Two steps
 * can throw part way through: CreateBounds (Mathf.Abs of int.MinValue) and
 * Max() over no frames. The fields written before the throw keep their new
 * values and the rest keep their old ones; `completed` reports whether the
 * whole method ran.
 */
module VoxelObjects {
  import opened Grid
  import opened Culling
  import opened Bounds
  import opened Packing

  /** One frame's editor cells and their colour indices, as parallel sequences. */
  datatype EditorFrameVoxels = EditorFrameVoxels(positions: seq<Cell>, colors: seq<Color>)

  /** The Vector3 projection of the entry list: VoxelPositions. */
  function PositionsOf(entries: seq<Entry>): (r: seq<Cell>)
    ensures |r| == |entries| && forall i :: 0 <= i < |entries| ==> r[i] == entries[i].position
  {
    seq(|entries|, i requires 0 <= i < |entries| => entries[i].position)
  }

  /** The colour projection of the entry list: ColorIndices. */
  function ColorIndicesOf(entries: seq<Entry>): (r: seq<int>)
    ensures |r| == |entries| && forall i :: 0 <= i < |entries| ==> r[i] == entries[i].colorIndex
  {
    seq(|entries|, i requires 0 <= i < |entries| => entries[i].colorIndex)
  }

  /** The editor cells of every frame, in frame order. */
  function EditorVoxelsOf(frames: seq<PackedFrameData>): (r: seq<EditorFrameVoxels>)
    ensures |r| == |frames|
    ensures forall f :: 0 <= f < |frames| ==> r[f].positions == frames[f].positions && r[f].colors == frames[f].colors
  {
    seq(|frames|, f requires 0 <= f < |frames| => EditorFrameVoxels(frames[f].positions, frames[f].colors))
  }

  /** The box FillObject stores: CreateBounds over every frame's bounding cells. */
  function UnionBox(frames: seq<PackedFrameData>): BoxOutcome {
    BoundsBox(LowerAll(MinsOf(frames)), UpperAll(MaxsOf(frames)))
  }

  /** CreateBounds over the bounding cells PackFrames collected. */
  method BuildUnionBox(frames: seq<PackedFrameData>, mins: seq<Cell>, maxs: seq<Cell>) returns (box: BoxOutcome)
    requires mins == MinsOf(frames) && maxs == MaxsOf(frames)
    ensures box == UnionBox(frames)
  {
    box := CreateBounds(mins, maxs);
    assert maxs[..|mins|] == maxs;
  }

  /**
   * An index buffer that resolves against an entry list reads, through the
   * two projections, the position and the colour of the entry it stands for:
   * what the renderer looks up for each instance.
   */
  lemma ProjectionsResolve(entries: seq<Entry>, indices: seq<int>, expected: seq<Entry>)
    requires Resolves(entries, indices, expected)
    ensures forall k :: 0 <= k < |indices| ==>
              && 0 <= indices[k] < |PositionsOf(entries)| == |ColorIndicesOf(entries)|
              && PositionsOf(entries)[indices[k]] == expected[k].position
              && ColorIndicesOf(entries)[indices[k]] == expected[k].colorIndex
  {
  }

  /** The projections lose nothing: the entry list can be rebuilt from them. */
  lemma ProjectionsDetermine(entries: seq<Entry>, other: seq<Entry>)
    requires PositionsOf(entries) == PositionsOf(other) && ColorIndicesOf(entries) == ColorIndicesOf(other)
    ensures entries == other
  {
    assert |entries| == |PositionsOf(entries)| == |PositionsOf(other)| == |other|;
    forall i | 0 <= i < |entries| ensures entries[i] == other[i] {
      assert PositionsOf(entries)[i] == PositionsOf(other)[i];
      assert ColorIndicesOf(entries)[i] == ColorIndicesOf(other)[i];
    }
  }

  class VoxelObject {
    var bounds: Box
    var paletteIndex: int
    var voxelPositions: seq<Cell>
    var voxelIndices: seq<int>
    var faceIndices: seq<int>
    var colorIndices: seq<int>
    var frameCount: int
    var instanceStartIndices: seq<int>
    var instanceCount: seq<int>
    var maxInstanceCount: int
    var editorVoxelPositions: seq<EditorFrameVoxels>

    /** A fresh asset: zero bounds, no buffers, no frames. */
    constructor ()
      ensures bounds == Box(Vec(0.0, 0.0, 0.0), Vec(0.0, 0.0, 0.0)) && paletteIndex == 0
      ensures voxelPositions == [] && voxelIndices == [] && faceIndices == [] && colorIndices == []
      ensures frameCount == 0 && instanceStartIndices == [] && instanceCount == [] && maxInstanceCount == 0
      ensures editorVoxelPositions == []
    {
      bounds := Box(Vec(0.0, 0.0, 0.0), Vec(0.0, 0.0, 0.0));
      paletteIndex := 0;
      voxelPositions, voxelIndices, faceIndices, colorIndices := [], [], [], [];
      frameCount := 0;
      instanceStartIndices, instanceCount, maxInstanceCount := [], [], 0;
      editorVoxelPositions := [];
    }

    /**
     * The buffers the renderer draws from describe `frames`: the positions and
     * colours are the projections of the duplicate-free entry list, and the
     * index, offset, start and count buffers lay the frames out as IsPacking
     * says.
     */
    ghost predicate Describes(frames: seq<PackedFrameData>)
      reads this
    {
      && voxelPositions == PositionsOf(StoredFrames(frames))
      && colorIndices == ColorIndicesOf(StoredFrames(frames))
      && IsPacking(frames, StoredFrames(frames), voxelIndices, faceIndices, instanceStartIndices, instanceCount)
      && frameCount == |frames|
    }

    /**
     * FillObject (and the two ConstructVoxelObject copies): pack `frames` into
     * this asset. `keepEditorVoxels` is false for the copy that does not
     * store the editor cells.
     */
    method FillObject(frames: seq<PackedFrameData>, paletteIndex: int, keepEditorVoxels: bool) returns (completed: bool)
      requires AllFacesInRange(frames)
      modifies this
      ensures completed <==> UnionBox(frames).Built? && |frames| > 0
      // CreateBounds threw: only the placeholder index buffer was written.
      ensures UnionBox(frames).AbsOverflow? ==>
                && voxelIndices == Repeat(0, 6)
                && bounds == old(bounds) && this.paletteIndex == old(this.paletteIndex)
                && voxelPositions == old(voxelPositions) && faceIndices == old(faceIndices)
                && colorIndices == old(colorIndices) && frameCount == old(frameCount)
                && instanceCount == old(instanceCount)
                && instanceStartIndices == old(instanceStartIndices) && maxInstanceCount == old(maxInstanceCount)
                && editorVoxelPositions == old(editorVoxelPositions)
      // Bounds built: the buffers, the bounds and the palette are written.
      ensures UnionBox(frames).Built? ==>
                && bounds == UnionBox(frames).box && this.paletteIndex == paletteIndex
                && voxelPositions == PositionsOf(StoredFrames(frames))
                && colorIndices == ColorIndicesOf(StoredFrames(frames))
                && Resolves(StoredFrames(frames), voxelIndices, AllEntries(frames))
                && faceIndices == OffsetsOf(frames) && frameCount == |frames|
                && |instanceCount| == |frames|
                && (forall f :: 0 <= f < |frames| ==> instanceCount[f] == FaceTotal(frames[f].data))
      // Max() over no frames threw: the rest is left as it was.
      ensures UnionBox(frames).Built? && |frames| == 0 ==>
                && instanceStartIndices == old(instanceStartIndices) && maxInstanceCount == old(maxInstanceCount)
                && editorVoxelPositions == old(editorVoxelPositions)
      ensures completed ==>
                && Describes(frames)
                && maxInstanceCount == MaxOf(instanceCount)
                && editorVoxelPositions == if keepEditorVoxels then EditorVoxelsOf(frames) else old(editorVoxelPositions)
    {
      voxelIndices := Repeat(0, 6);
      var entries, indices, offsets, starts, counts, mins, maxs := PackFrames(frames);
      var box := BuildUnionBox(frames, mins, maxs);
      if box.AbsOverflow? {
        return false;
      }
      WriteBuffers(box.box, paletteIndex, entries, indices, offsets, counts, |frames|);
      if |counts| == 0 {
        return false;
      }
      WriteTallies(MaxOf(counts), starts, if keepEditorVoxels then EditorVoxelsOf(frames) else editorVoxelPositions);
      return true;
    }

    /** The fields FillObject writes before it takes the maximum instance count. */
    method WriteBuffers(box: Box, paletteIndex: int, entries: seq<Entry>, indices: seq<int>, offsets: seq<int>,
                        counts: seq<int>, frameCount: int)
      modifies this
      ensures bounds == box && this.paletteIndex == paletteIndex
      ensures voxelPositions == PositionsOf(entries) && colorIndices == ColorIndicesOf(entries)
      ensures voxelIndices == indices && faceIndices == offsets && this.frameCount == frameCount && instanceCount == counts
      ensures instanceStartIndices == old(instanceStartIndices) && maxInstanceCount == old(maxInstanceCount)
      ensures editorVoxelPositions == old(editorVoxelPositions)
    {
      bounds := box;
      this.paletteIndex := paletteIndex;
      voxelPositions := PositionsOf(entries);
      voxelIndices := indices;
      faceIndices := offsets;
      colorIndices := ColorIndicesOf(entries);
      this.frameCount := frameCount;
      instanceCount := counts;
    }

    /** The fields FillObject writes last. */
    method WriteTallies(maxCount: int, starts: seq<int>, editorVoxels: seq<EditorFrameVoxels>)
      modifies this
      ensures maxInstanceCount == maxCount && instanceStartIndices == starts && editorVoxelPositions == editorVoxels
      ensures bounds == old(bounds) && paletteIndex == old(paletteIndex)
      ensures voxelPositions == old(voxelPositions) && colorIndices == old(colorIndices)
      ensures voxelIndices == old(voxelIndices) && faceIndices == old(faceIndices)
      ensures frameCount == old(frameCount) && instanceCount == old(instanceCount)
    {
      maxInstanceCount := maxCount;
      instanceStartIndices := starts;
      editorVoxelPositions := editorVoxels;
    }
  }
}
