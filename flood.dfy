/**
 * The connectivity argument shared by the three recursive grid tools.
 *
 * TryFillColor, TryAddLayer and TryRemoveLayer all have the same shape: a call
 * at cell p tests whether p still "qualifies" (has the base colour, and for the
 * layer tools whatever else the tool demands); if so it processes p, which makes
 * p stop qualifying, and recurses on p + s for every step s of a fixed set.
 * Writing Q0 for the qualifying cells before a call and Q1 for those after it,
 * the processed cells are exactly Q0 - Q1. This module proves, once, that a
 * call which keeps the two facts
 *   - every processed cell is reachable from p through qualifying cells, and
 *   - no step from a processed cell lands on a cell that still qualifies,
 * has processed exactly the cells reachable from p.
 */
module Flood {
  import opened Grid

  function Diff(a: Cell, b: Cell): Cell {
    Cell(b.x - a.x, b.y - a.y, b.z - a.z)
  }

  /** `w` is a non-empty walk through cells of `Q` whose every move is one of `steps`. */
  ghost predicate IsWalk(Q: set<Cell>, steps: set<Cell>, w: seq<Cell>) {
    && |w| > 0
    && (forall i :: 0 <= i < |w| ==> w[i] in Q)
    && (forall i :: 0 <= i < |w| - 1 ==> Diff(w[i], w[i + 1]) in steps)
  }

  /** `q` can be reached from `p` by moves in `steps` without leaving `Q`. */
  ghost predicate Reachable(Q: set<Cell>, steps: set<Cell>, p: Cell, q: Cell) {
    exists w :: IsWalk(Q, steps, w) && w[0] == p && w[|w| - 1] == q
  }

  /** No step from a processed cell lands on a cell that still qualifies. */
  ghost predicate Closed(R: set<Cell>, Q: set<Cell>, steps: set<Cell>) {
    forall r, s :: r in R && s in steps ==> Add(r, s) !in Q
  }

  /**
   * What one complete recursive call at `p` guarantees: it only processes
   * qualifying cells, each reachable from `p`, and (unless the tool halted
   * early) leaves no qualifying cell next to a processed one.
   */
  ghost predicate FloodPost(Q0: set<Cell>, Q1: set<Cell>, steps: set<Cell>, p: Cell, halted: bool) {
    && Q1 <= Q0
    && (forall q :: q in Q0 - Q1 ==> Reachable(Q0, steps, p, q))
    && (halted || Closed(Q0 - Q1, Q1, steps))
  }

  /**
   * The state of a call at `p` after processing `p` itself and recursing on the
   * steps in `done`: every processed cell other than `p` is already closed, and
   * so is `p` along the steps taken so far.
   */
  ghost predicate FloodPartial(Q0: set<Cell>, Q: set<Cell>, steps: set<Cell>, p: Cell, done: set<Cell>, halted: bool) {
    && Q <= Q0
    && p in Q0 - Q
    && (forall q :: q in Q0 - Q ==> Reachable(Q0, steps, p, q))
    && (halted ||
        ((forall r, s :: r in Q0 - Q && r != p && s in steps ==> Add(r, s) !in Q)
         && (forall s :: s in done ==> Add(p, s) !in Q)))
  }

  /** A walk through a set is a walk through any superset. */
  lemma WalkWidens(Q: set<Cell>, Q': set<Cell>, steps: set<Cell>, w: seq<Cell>)
    requires IsWalk(Q, steps, w) && Q <= Q'
    ensures IsWalk(Q', steps, w)
  {
  }

  /** One step back from a walk's start, inside a wider set, gives a longer walk. */
  lemma ReachableExtend(Q0: set<Cell>, Q: set<Cell>, steps: set<Cell>, p: Cell, n: Cell, q: Cell)
    requires Q <= Q0 && p in Q0 && Diff(p, n) in steps
    requires Reachable(Q, steps, n, q)
    ensures Reachable(Q0, steps, p, q)
  {
    var w :| IsWalk(Q, steps, w) && w[0] == n && w[|w| - 1] == q;
    var w' := [p] + w;
    assert forall i :: 1 <= i < |w'| ==> w'[i] == w[i - 1];
    assert IsWalk(Q0, steps, w');
  }

  /** Processing the start cell opens a call. */
  lemma {:induction false} FloodStart(Q0: set<Cell>, steps: set<Cell>, p: Cell)
    requires p in Q0
    ensures FloodPartial(Q0, Q0 - {p}, steps, p, {}, false)
  {
    assert IsWalk(Q0, steps, [p]);
    forall q | q in Q0 - (Q0 - {p}) ensures Reachable(Q0, steps, p, q) {
      assert q == p;
    }
  }

  /**
   * A finished recursive call on the neighbour `Add(p, s)` keeps a call at `p`
   * in shape and marks step `s` as done; once halted, a call stays halted.
   */
  lemma {:induction false} FloodStep(
    Q0: set<Cell>, Qi: set<Cell>, Qj: set<Cell>, steps: set<Cell>, p: Cell, s: Cell,
    done: set<Cell>, hi: bool, hj: bool)
    requires FloodPartial(Q0, Qi, steps, p, done, hi)
    requires s in steps
    requires FloodPost(Qi, Qj, steps, Add(p, s), hj)
    requires hj || Add(p, s) !in Qj
    requires hi ==> hj
    ensures FloodPartial(Q0, Qj, steps, p, done + {s}, hj)
  {
    var n := Add(p, s);
    assert Diff(p, n) == s;
    forall q | q in Q0 - Qj ensures Reachable(Q0, steps, p, q) {
      if q !in Q0 - Qi {
        ReachableExtend(Q0, Qi, steps, p, n, q);
      }
    }
  }

  /** A call whose every step is done satisfies the full post. */
  lemma {:induction false} FloodFinish(Q0: set<Cell>, Q: set<Cell>, steps: set<Cell>, p: Cell, halted: bool)
    requires FloodPartial(Q0, Q, steps, p, steps, halted)
    ensures FloodPost(Q0, Q, steps, p, halted)
  {
  }

  /** Nothing processed: the post holds for any start cell. */
  lemma FloodIdle(Q: set<Cell>, steps: set<Cell>, p: Cell, halted: bool)
    ensures FloodPost(Q, Q, steps, p, halted)
  {
  }

  /**
   * A closed set of processed cells that contains the start contains every
   * cell along a walk from it.
   */
  lemma {:induction false} ClosedWalk(Q0: set<Cell>, R: set<Cell>, steps: set<Cell>, w: seq<Cell>)
    requires IsWalk(Q0, steps, w) && w[0] in R && R <= Q0
    requires Closed(R, Q0 - R, steps)
    ensures w[|w| - 1] in R
  {
    if |w| > 1 {
      var w' := w[..|w| - 1];
      assert IsWalk(Q0, steps, w');
      ClosedWalk(Q0, R, steps, w');
      var a, b := w[|w| - 2], w[|w| - 1];
      var s := Diff(a, b);
      assert s in steps;
      assert Add(a, s) == b;
    }
  }

  /**
   * The flood theorem: a call at a qualifying `p` that ran to completion has
   * processed exactly the cells reachable from `p` through qualifying cells.
   */
  lemma {:induction false} FloodIsComponent(Q0: set<Cell>, Q1: set<Cell>, steps: set<Cell>, p: Cell)
    requires FloodPost(Q0, Q1, steps, p, false)
    requires p in Q0 - Q1
    ensures forall q :: q in Q0 - Q1 <==> Reachable(Q0, steps, p, q)
  {
    forall q | Reachable(Q0, steps, p, q) ensures q in Q0 - Q1 {
      var w :| IsWalk(Q0, steps, w) && w[0] == p && w[|w| - 1] == q;
      assert Q0 - (Q0 - Q1) == Q1;
      ClosedWalk(Q0, Q0 - Q1, steps, w);
    }
  }
}
