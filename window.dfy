/**
 * The editor window's frame bookkeeping: the list of scene frames, the
 * selected index, and the "0".."n-1" labels of the frame popup.
 *
 * A frame is a scene object; the model names it by an id. The window only
 * calls Show, Hide, Initialize and DestroyImmediate on frames, so those
 * calls are recorded, in order, in `calls`. Indexing the frame list outside
 * its bounds throws; the methods report that with `thrown`, and the state is
 * then as far as the method got.
 */
module Window {
  import opened Grid

  type FrameId = nat

  /** A call the window makes on one of its frames. */
  datatype FrameCall = Show(frame: FrameId) | Hide(frame: FrameId) | Initialize(frame: FrameId, palette: int) | Destroy(frame: FrameId)

  // ---------------------------------------------------------------------------
  // Frame labels

  function Digit(d: nat): (r: char)
    requires d < 10
    ensures '0' <= r <= '9' && r as int - '0' as int == d
  {
    ('0' as int + d) as char
  }

  /** The decimal text of `n`, as string interpolation writes a non-negative int. */
  function NatToString(n: nat): (r: string)
    ensures |r| > 0 && (r[0] == '0' ==> r == "0")
    ensures forall k :: 0 <= k < |r| ==> '0' <= r[k] <= '9'
  {
    if n < 10 then [Digit(n)] else NatToString(n / 10) + [Digit(n % 10)]
  }

  /** The number a string of decimal digits stands for. */
  function ParseNat(s: string): nat {
    if s == [] then 0
    else
      var d := s[|s| - 1] as int - '0' as int;
      ParseNat(s[..|s| - 1]) * 10 + (if 0 <= d < 10 then d else 0)
  }

  /** Reading a label back gives the number it was written from. */
  lemma {:induction false} ParseNatToString(n: nat)
    ensures ParseNat(NatToString(n)) == n
  {
    var s := NatToString(n);
    if n >= 10 {
      assert s[..|s| - 1] == NatToString(n / 10);
      ParseNatToString(n / 10);
    }
  }

  /** Different numbers get different labels. */
  lemma LabelsDiffer(i: nat, j: nat)
    requires i != j
    ensures NatToString(i) != NatToString(j)
  {
    ParseNatToString(i);
    ParseNatToString(j);
  }

  /** The labels CreateFrameIndices(n) writes, one per frame. */
  function FrameLabels(n: nat): (r: seq<string>)
    ensures |r| == n
  {
    seq(n, i requires 0 <= i < n => NatToString(i))
  }

  /** Each label names its own frame, so no two labels are the same. */
  lemma FrameLabelsName(n: nat)
    ensures forall i :: 0 <= i < n ==> ParseNat(FrameLabels(n)[i]) == i
    ensures Distinct(FrameLabels(n))
  {
    var r := FrameLabels(n);
    forall i | 0 <= i < n ensures ParseNat(r[i]) == i {
      ParseNatToString(i);
    }
    forall i, j | 0 <= i < j < n ensures r[i] != r[j] {
      LabelsDiffer(i, j);
    }
  }

  // ---------------------------------------------------------------------------
  // Selection after a deletion

  predicate ValidSelection(count: int, selected: int) {
    0 <= selected < count
  }

  /** DeleteFrame as written: the selection moves one down. */
  function SelectionAfterDelete(selected: int): int {
    selected - 1
  }

  /** Deleting the first of several frames leaves a selection that indexes nothing. */
  lemma DeleteFirstFrameLosesSelection(count: int)
    requires count >= 2
    ensures ValidSelection(count, 0)
    ensures SelectionAfterDelete(0) == -1 && !ValidSelection(count - 1, SelectionAfterDelete(0))
  {
  }

  /** The selection after a deletion as intended: one down, but never below the first frame. */
  function SelectionAfterDeleteFixed(selected: int): (r: int)
    ensures r >= 0
    ensures selected > 0 ==> r == selected - 1
  {
    if selected > 0 then selected - 1 else 0
  }

  /** Whenever a frame remains, the corrected selection indexes one. */
  lemma DeleteKeepsSelection(count: int, selected: int)
    requires ValidSelection(count, selected) && count >= 2
    ensures ValidSelection(count - 1, SelectionAfterDeleteFixed(selected))
  {
  }

  /** EnableEditing's reset: a selection past the end goes back to the first frame. */
  function SelectionOnEnable(count: nat, selected: int): (r: int)
    ensures selected >= 0 && count > 0 ==> ValidSelection(count, r)
    ensures ValidSelection(count, selected) ==> r == selected
    ensures selected < 0 ==> r == selected
  {
    if selected >= count then 0 else selected
  }

  class FoxEditWindow {
    var frames: seq<FrameId>
    var selected: int
    var frameIndices: seq<string>
    var calls: seq<FrameCall>
    var needToSave: bool

    constructor (frames: seq<FrameId>)
      ensures this.frames == frames && selected == 0 && frameIndices == [] && calls == [] && !needToSave
    {
      this.frames := frames;
      selected := 0;
      frameIndices := [];
      calls := [];
      needToSave := false;
    }

    /** CreateFrameIndices: one label per frame, in a new array. */
    method CreateFrameIndices(frameCount: nat)
      modifies this
      ensures frameIndices == FrameLabels(frameCount)
      ensures frames == old(frames) && selected == old(selected) && calls == old(calls) && needToSave == old(needToSave)
    {
      var labels := new string[frameCount];
      for i := 0 to labels.Length
        modifies labels
        invariant forall k :: 0 <= k < i ==> labels[k] == NatToString(k)
      {
        labels[i] := NatToString(i);
      }
      frameIndices := labels[..];
      assert frameIndices == FrameLabels(frameCount);
    }

    /** EnableEditing's selection reset. */
    method ResetSelection()
      modifies this
      ensures selected == SelectionOnEnable(|frames|, old(selected))
      ensures frames == old(frames) && frameIndices == old(frameIndices) && calls == old(calls) && needToSave == old(needToSave)
    {
      if selected >= |frames| {
        selected := 0;
      }
    }

    /**
     * ChangeFrame: hide the selected frame, select `index`, show it. Either
     * lookup throws when its index is outside the list.
     */
    method ChangeFrame(index: int) returns (thrown: bool)
      modifies this
      ensures thrown <==> !ValidSelection(|frames|, old(selected)) || !ValidSelection(|frames|, index)
      ensures !ValidSelection(|frames|, old(selected)) ==> selected == old(selected) && calls == old(calls)
      ensures ValidSelection(|frames|, old(selected)) ==> selected == index
      ensures ValidSelection(|frames|, old(selected)) && !ValidSelection(|frames|, index) ==>
                calls == old(calls) + [Hide(frames[old(selected)])]
      ensures !thrown ==> calls == old(calls) + [Hide(frames[old(selected)]), Show(frames[index])]
      ensures frames == old(frames) && frameIndices == old(frameIndices) && needToSave == old(needToSave)
    {
      if !ValidSelection(|frames|, selected) {
        return true;
      }
      calls := calls + [Hide(frames[selected])];
      selected := index;
      if !ValidSelection(|frames|, selected) {
        return true;
      }
      calls := calls + [Show(frames[selected])];
      return false;
    }

    /**
     * NewFrame: add a new frame `id`, Initialize the frame at the selection
     * (looked up after the add, so the previously selected one when the
     * selection was valid), select the new frame and relabel.
     */
    method NewFrame(id: FrameId, palette: int) returns (thrown: bool)
      modifies this
      ensures frames == old(frames) + [id]
      ensures thrown <==> !ValidSelection(|frames|, old(selected))
      ensures thrown ==> selected == old(selected) && calls == old(calls) && frameIndices == old(frameIndices) && needToSave == old(needToSave)
      ensures !thrown ==>
                && selected == |frames| - 1
                && calls == old(calls) + [Initialize(frames[old(selected)], palette), Hide(frames[old(selected)]), Show(id)]
                && frameIndices == FrameLabels(|frames|) && needToSave
      ensures ValidSelection(|old(frames)|, old(selected)) ==> !thrown && calls[|old(calls)|] == Initialize(old(frames)[old(selected)], palette)
    {
      frames := frames + [id];
      if !ValidSelection(|frames|, selected) {
        return true;
      }
      calls := calls + [Initialize(frames[selected], palette)];
      thrown := ChangeFrame(|frames| - 1);
      CreateFrameIndices(|frames|);
      needToSave := true;
    }

    /**
     * DuplicateFrame: copy the selected frame into `id` (the lookup throws
     * first), Initialize the selected frame, select the copy and relabel.
     */
    method DuplicateFrame(id: FrameId, palette: int) returns (thrown: bool)
      modifies this
      ensures thrown <==> !ValidSelection(|old(frames)|, old(selected))
      ensures thrown ==> frames == old(frames) && selected == old(selected) && calls == old(calls) && frameIndices == old(frameIndices) && needToSave == old(needToSave)
      ensures !thrown ==>
                && frames == old(frames) + [id]
                && selected == |old(frames)|
                && calls == old(calls) + [Initialize(frames[old(selected)], palette), Hide(frames[old(selected)]), Show(id)]
                && frameIndices == FrameLabels(|frames|) && needToSave
    {
      if !ValidSelection(|frames|, selected) {
        return true;
      }
      frames := frames + [id];
      calls := calls + [Initialize(frames[selected], palette)];
      thrown := ChangeFrame(|frames| - 1);
      CreateFrameIndices(|frames|);
      needToSave := true;
    }

    /**
     * DeleteFrame as written: destroy and remove the selected frame, move
     * the selection one down and show the frame there. Deleting the first
     * frame leaves the selection at -1, and showing it throws.
     */
    method DeleteFrame() returns (thrown: bool)
      modifies this
      ensures thrown <==> !ValidSelection(|old(frames)|, old(selected)) || old(selected) == 0
      ensures !ValidSelection(|old(frames)|, old(selected)) ==> frames == old(frames) && selected == old(selected) && calls == old(calls)
      ensures ValidSelection(|old(frames)|, old(selected)) ==>
                && frames == old(frames)[..old(selected)] + old(frames)[old(selected) + 1..]
                && selected == SelectionAfterDelete(old(selected))
      ensures ValidSelection(|old(frames)|, old(selected)) && old(selected) == 0 ==>
                calls == old(calls) + [Destroy(old(frames)[0])]
      ensures !thrown ==>
                && calls == old(calls) + [Destroy(old(frames)[old(selected)]), Show(frames[selected])]
                && frameIndices == FrameLabels(|frames|) && needToSave
    {
      if !ValidSelection(|frames|, selected) {
        return true;
      }
      calls := calls + [Destroy(frames[selected])];
      frames := frames[..selected] + frames[selected + 1..];
      selected := SelectionAfterDelete(selected);
      if !ValidSelection(|frames|, selected) {
        return true;
      }
      calls := calls + [Show(frames[selected])];
      CreateFrameIndices(|frames|);
      needToSave := true;
      return false;
    }

    /**
     * DeleteFrame as intended: the selection moves one down but not below
     * the first frame, and a frame is shown only when one is left. The
     * selection stays valid whenever a frame remains.
     */
    method DeleteFrameFixed() returns (thrown: bool)
      modifies this
      ensures thrown <==> !ValidSelection(|old(frames)|, old(selected))
      ensures thrown ==> frames == old(frames) && selected == old(selected) && calls == old(calls)
      ensures !thrown ==>
                && frames == old(frames)[..old(selected)] + old(frames)[old(selected) + 1..]
                && selected == SelectionAfterDeleteFixed(old(selected))
                && (|frames| > 0 ==> ValidSelection(|frames|, selected))
                && calls == old(calls) + [Destroy(old(frames)[old(selected)])] + (if |frames| > 0 then [Show(frames[selected])] else [])
                && frameIndices == FrameLabels(|frames|) && needToSave
    {
      if !ValidSelection(|frames|, selected) {
        return true;
      }
      calls := calls + [Destroy(frames[selected])];
      frames := frames[..selected] + frames[selected + 1..];
      selected := SelectionAfterDeleteFixed(selected);
      if |frames| > 0 {
        calls := calls + [Show(frames[selected])];
      }
      CreateFrameIndices(|frames|);
      needToSave := true;
      return false;
    }
  }

  /**
   * The runtime VoxelEditor's frame switch. `guarded` is the copy that
   * hides the current frame with a null-conditional call; the older copy
   * dereferences it and throws when there is no current frame yet.
   */
  class RuntimeFrames {
    var frames: seq<FrameId>
    var selected: int
    var current: FrameId
    var hasCurrent: bool
    var calls: seq<FrameCall>

    constructor (frames: seq<FrameId>)
      ensures this.frames == frames && selected == 0 && !hasCurrent && calls == []
    {
      this.frames := frames;
      selected := 0;
      current := 0;
      hasCurrent := false;
      calls := [];
    }

    /** ChangeFrame: an out-of-range selection is ignored; otherwise the selected frame becomes the shown one. */
    method ChangeFrame(guarded: bool) returns (thrown: bool)
      modifies this
      ensures thrown <==> ValidSelection(|frames|, selected) && !old(hasCurrent) && !guarded
      ensures frames == old(frames) && selected == old(selected)
      ensures !ValidSelection(|frames|, selected) || thrown ==>
                current == old(current) && hasCurrent == old(hasCurrent) && calls == old(calls)
      ensures ValidSelection(|frames|, selected) && !thrown ==>
                && hasCurrent && current == frames[selected]
                && calls == old(calls) + (if old(hasCurrent) then [Hide(old(current))] else []) + [Show(current)]
    {
      if !ValidSelection(|frames|, selected) {
        return false;
      }
      if !hasCurrent && !guarded {
        return true;
      }
      if hasCurrent {
        calls := calls + [Hide(current)];
      }
      current, hasCurrent := frames[selected], true;
      calls := calls + [Show(current)];
      return false;
    }
  }
}
