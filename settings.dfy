/**
 * FoxEditSettings: the project-wide list of palettes. Palettes are compared
 * the way List<T>.Contains compares them, so the model only needs equality
 * on them.
 */
module Settings {
  import opened Grid

  /** The list after AddPalette: `p` appended unless it is already there. */
  function WithPalette<Palette(==)>(ps: seq<Palette>, p: Palette): (r: seq<Palette>)
    ensures p in r
    ensures |ps| <= |r| <= |ps| + 1 && r[..|ps|] == ps
    ensures forall j :: 0 <= j < |r| ==> r[j] in ps || r[j] == p
    ensures p in ps ==> r == ps
    ensures Distinct(ps) ==> Distinct(r)
  {
    if p in ps then ps else ps + [p]
  }

  /** The list after RemoveAt(i): one element fewer, the rest in their order. */
  function Without<Palette>(ps: seq<Palette>, i: int): (r: seq<Palette>)
    requires 0 <= i < |ps|
    ensures |r| == |ps| - 1
    ensures forall j :: 0 <= j < i ==> r[j] == ps[j]
    ensures forall j :: i <= j < |r| ==> r[j] == ps[j + 1]
  {
    ps[..i] + ps[i + 1..]
  }

  /** The list after a SetPalette(p, i) inside the list: slot `i` holds `p`, the others are kept. */
  function Replaced<Palette>(ps: seq<Palette>, i: int, p: Palette): (r: seq<Palette>)
    requires 0 <= i < |ps|
    ensures |r| == |ps| && r[i] == p
    ensures forall j :: 0 <= j < |ps| && j != i ==> r[j] == ps[j]
  {
    ps[i := p]
  }

  /** Adding a palette twice is adding it once. */
  lemma AddPaletteIdempotent<Palette>(ps: seq<Palette>, p: Palette)
    ensures WithPalette(WithPalette(ps, p), p) == WithPalette(ps, p)
  {
    assert p in WithPalette(ps, p);
  }

  /** Removing the palette just added gives back the list it was added to. */
  lemma RemoveUndoesAdd<Palette>(ps: seq<Palette>, p: Palette)
    requires p !in ps
    ensures Without(WithPalette(ps, p), |ps|) == ps
  {
    var r := Without(WithPalette(ps, p), |ps|);
    assert forall j :: 0 <= j < |ps| ==> r[j] == ps[j];
  }

  /** Removing keeps a duplicate-free list duplicate-free. */
  lemma RemoveKeepsDistinct<Palette>(ps: seq<Palette>, i: int)
    requires 0 <= i < |ps| && Distinct(ps)
    ensures Distinct(Without(ps, i))
  {
    var r := Without(ps, i);
    forall a, b | 0 <= a < b < |r| ensures r[a] != r[b] {
      var a', b' := if a < i then a else a + 1, if b < i then b else b + 1;
      assert r[a] == ps[a'] && r[b] == ps[b'] && a' < b';
    }
  }

  /** Putting back the palette a SetPalette replaced restores the list. */
  lemma ReplaceBackRestores<Palette>(ps: seq<Palette>, i: int, p: Palette)
    requires 0 <= i < |ps|
    ensures Replaced(Replaced(ps, i, p), i, ps[i]) == ps
  {
    var r := Replaced(Replaced(ps, i, p), i, ps[i]);
    assert forall j :: 0 <= j < |ps| ==> r[j] == ps[j];
  }

  class FoxEditSettings<Palette(==)> {
    var palettes: seq<Palette>

    constructor (palettes: seq<Palette>)
      ensures this.palettes == palettes
    {
      this.palettes := palettes;
    }

    /** Palettes: a new array holding the list, shared with nothing else. */
    method Palettes() returns (a: array<Palette>)
      ensures fresh(a) && a[..] == palettes
    {
      a := new Palette[|palettes|](i requires 0 <= i < |palettes| reads this => palettes[i]);
    }

    method AddPalette(p: Palette)
      modifies this
      ensures palettes == WithPalette(old(palettes), p)
    {
      if p !in palettes {
        palettes := palettes + [p];
      }
    }

    /** RemoveAt: List.RemoveAt throws ArgumentOutOfRangeException outside the list. */
    method RemoveAt(index: int) returns (thrown: bool)
      modifies this
      ensures thrown <==> !(0 <= index < |old(palettes)|)
      ensures thrown ==> palettes == old(palettes)
      ensures !thrown ==> palettes == Without(old(palettes), index)
    {
      if !(0 <= index < |palettes|) {
        return true;
      }
      palettes := palettes[..index] + palettes[index + 1..];
      return false;
    }

    /**
     * SetPalette: an index at or past the end is ignored; a negative one
     * reaches the list indexer, which throws.
     */
    method SetPalette(p: Palette, index: int) returns (thrown: bool)
      modifies this
      ensures thrown <==> index < 0
      ensures index < 0 || index >= |old(palettes)| ==> palettes == old(palettes)
      ensures 0 <= index < |old(palettes)| ==> palettes == Replaced(old(palettes), index, p)
    {
      if index >= |palettes| {
        return false;
      }
      if index < 0 {
        return true;
      }
      palettes := palettes[index := p];
      return false;
    }
  }
}
