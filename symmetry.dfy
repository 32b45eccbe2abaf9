/**
 * The board symmetries used to multiply training samples: index maps on the
 * 64 cells built from a horizontal flip, a vertical flip and a diagonal flip
 * and their compositions, and the permutation of a 128-entry input vector
 * that moves each cell's two channels together.
 *
 * A cell index is row * 8 + col. Every map is identified with an element of
 * the symmetry group of the square, `Sym`, which makes equalities between maps
 * and the coverage of the group decidable by comparing three booleans.
 */
module Symmetries {

  const Side: int := 8
  const CellCount: int := 64
  const InputSize: int := 128

  function RowOf(i: int): int { i / Side }
  function ColOf(i: int): int { i % Side }
  function IndexOf(row: int, col: int): int { row * Side + col }

  predicate IsCell(i: int) { 0 <= i < CellCount }

  lemma IndexCoords(row: int, col: int)
    requires 0 <= row < Side && 0 <= col < Side
    ensures IsCell(IndexOf(row, col))
    ensures RowOf(IndexOf(row, col)) == row && ColOf(IndexOf(row, col)) == col
  {
  }

  lemma CoordsIndex(i: int)
    requires IsCell(i)
    ensures 0 <= RowOf(i) < Side && 0 <= ColOf(i) < Side
    ensures IndexOf(RowOf(i), ColOf(i)) == i
  {
  }

  // ---------------------------------------------------------------------
  // The maps as written

  /** A symmetry map: one of the three flips, or `f` applied after `g`. */
  datatype Mapping = HFlip | VFlip | DFlip | Compose(f: Mapping, g: Mapping)

  /** Mirror the columns: (row, col) to (row, 7 - col). */
  function HFlipIndex(i: int): int { IndexOf(RowOf(i), Side - ColOf(i) - 1) }

  /** Mirror the rows: (row, col) to (7 - row, col). */
  function VFlipIndex(i: int): int { IndexOf(Side - RowOf(i) - 1, ColOf(i)) }

  /** Mirror along the main diagonal: (row, col) to (col, row). */
  function DFlipIndex(i: int): int { IndexOf(ColOf(i), RowOf(i)) }

  function Apply(m: Mapping, i: int): int {
    match m
    case HFlip => HFlipIndex(i)
    case VFlip => VFlipIndex(i)
    case DFlip => DFlipIndex(i)
    case Compose(f, g) => Apply(f, Apply(g, i))
  }

  /**
   * The seven maps as the player builds them; the identity is left out
   * because the input itself is always the first symmetry.
   */
  const SymmetryMappings: seq<Mapping> := [
    HFlip, VFlip, DFlip, Compose(HFlip, VFlip),
    Compose(DFlip, VFlip), Compose(HFlip, DFlip), Compose(Compose(HFlip, VFlip), DFlip)
  ]

  /** The seven maps with the fifth made the diagonal flip followed by the vertical one. */
  const CorrectedMappings: seq<Mapping> := [
    HFlip, VFlip, DFlip, Compose(HFlip, VFlip),
    Compose(VFlip, DFlip), Compose(HFlip, DFlip), Compose(Compose(HFlip, VFlip), DFlip)
  ]

  // ---------------------------------------------------------------------
  // The symmetry group of the square

  /** Optionally transpose, then optionally mirror the rows and the columns. */
  datatype Sym = Sym(transpose: bool, flipRows: bool, flipCols: bool)

  const Identity: Sym := Sym(false, false, false)

  /** The quarter turn (row, col) to (7 - col, row). */
  const Rotation: Sym := Sym(true, true, false)

  function Mirror(b: bool, x: int): int {
    if b then Side - 1 - x else x
  }

  function SymIndex(s: Sym, i: int): int {
    var r, c := if s.transpose then ColOf(i) else RowOf(i), if s.transpose then RowOf(i) else ColOf(i);
    IndexOf(Mirror(s.flipRows, r), Mirror(s.flipCols, c))
  }

  /** The element doing `b` first and then `a`. */
  function ComposeSym(a: Sym, b: Sym): Sym {
    if a.transpose then Sym(!b.transpose, a.flipRows != b.flipCols, a.flipCols != b.flipRows)
    else Sym(b.transpose, a.flipRows != b.flipRows, a.flipCols != b.flipCols)
  }

  function SymOf(m: Mapping): Sym {
    match m
    case HFlip => Sym(false, false, true)
    case VFlip => Sym(false, true, false)
    case DFlip => Sym(true, false, false)
    case Compose(f, g) => ComposeSym(SymOf(f), SymOf(g))
  }

  lemma SymInRange(s: Sym, i: int)
    requires IsCell(i)
    ensures IsCell(SymIndex(s, i))
    ensures RowOf(SymIndex(s, i)) == Mirror(s.flipRows, if s.transpose then ColOf(i) else RowOf(i))
    ensures ColOf(SymIndex(s, i)) == Mirror(s.flipCols, if s.transpose then RowOf(i) else ColOf(i))
  {
    CoordsIndex(i);
    var r, c := if s.transpose then ColOf(i) else RowOf(i), if s.transpose then RowOf(i) else ColOf(i);
    IndexCoords(Mirror(s.flipRows, r), Mirror(s.flipCols, c));
  }

  lemma SymCompose(a: Sym, b: Sym, i: int)
    requires IsCell(i)
    ensures SymIndex(a, SymIndex(b, i)) == SymIndex(ComposeSym(a, b), i)
  {
    SymInRange(b, i);
    SymInRange(a, SymIndex(b, i));
  }

  /** Every map sends a cell to a cell, and acts as the group element `SymOf(m)`. */
  lemma {:induction false} ApplyIsSym(m: Mapping, i: int)
    requires IsCell(i)
    ensures Apply(m, i) == SymIndex(SymOf(m), i)
    ensures IsCell(Apply(m, i))
  {
    match m
    case HFlip => SymInRange(SymOf(m), i);
    case VFlip => SymInRange(SymOf(m), i);
    case DFlip => SymInRange(SymOf(m), i);
    case Compose(f, g) =>
      ApplyIsSym(g, i);
      ApplyIsSym(f, Apply(g, i));
      SymCompose(SymOf(f), SymOf(g), i);
      SymInRange(SymOf(m), i);
  }

  /** Distinct group elements move cell 1 = (0, 1) to distinct cells. */
  lemma SymsDifferAtOne(s: Sym, s': Sym)
    requires s != s'
    ensures SymIndex(s, 1) != SymIndex(s', 1)
  {
  }

  /** Distinct group elements also move cell 15 = (1, 7) to distinct cells. */
  lemma SymsDifferAtFifteen(s: Sym, s': Sym)
    requires s != s'
    ensures SymIndex(s, 15) != SymIndex(s', 15)
  {
  }

  /** A group element moves distinct cells to distinct cells: it is a permutation of the 64 cells. */
  lemma SymInjective(s: Sym, i: int, j: int)
    requires IsCell(i) && IsCell(j) && SymIndex(s, i) == SymIndex(s, j)
    ensures i == j
  {
    SymInRange(s, i);
    SymInRange(s, j);
    CoordsIndex(i);
    CoordsIndex(j);
  }

  /** Every map built from the flips is a permutation of the cells. */
  lemma ApplyInjective(m: Mapping, i: int, j: int)
    requires IsCell(i) && IsCell(j) && Apply(m, i) == Apply(m, j)
    ensures i == j
  {
    ApplyIsSym(m, i);
    ApplyIsSym(m, j);
    SymInjective(SymOf(m), i, j);
  }

  /** Each of the three flips maps cells to cells and undoes itself. */
  lemma FlipsAreInvolutions(i: int)
    requires IsCell(i)
    ensures IsCell(HFlipIndex(i)) && HFlipIndex(HFlipIndex(i)) == i
    ensures IsCell(VFlipIndex(i)) && VFlipIndex(VFlipIndex(i)) == i
    ensures IsCell(DFlipIndex(i)) && DFlipIndex(DFlipIndex(i)) == i
  {
    ApplyIsSym(HFlip, i);
    ApplyIsSym(HFlip, HFlipIndex(i));
    ApplyIsSym(VFlip, i);
    ApplyIsSym(VFlip, VFlipIndex(i));
    ApplyIsSym(DFlip, i);
    ApplyIsSym(DFlip, DFlipIndex(i));
    SymCompose(SymOf(HFlip), SymOf(HFlip), i);
    SymCompose(SymOf(VFlip), SymOf(VFlip), i);
    SymCompose(SymOf(DFlip), SymOf(DFlip), i);
    CoordsIndex(i);
  }

  // ---------------------------------------------------------------------
  // What the list covers

  /**
   * As written, the fifth and sixth maps are the same permutation of the
   * cells, (row, col) to (col, 7 - row).
   */
  lemma WrittenEntriesCoincide(i: int)
    requires IsCell(i)
    ensures Apply(SymmetryMappings[4], i) == Apply(SymmetryMappings[5], i)
    ensures Apply(SymmetryMappings[4], i) == IndexOf(ColOf(i), Side - 1 - RowOf(i))
  {
    ApplyIsSym(SymmetryMappings[4], i);
    ApplyIsSym(SymmetryMappings[5], i);
  }

  /**
   * As written, the quarter turn (row, col) to (7 - col, row) is missing:
   * on cell 1 it gives 48, and neither the input itself nor any of the seven
   * maps does.
   */
  lemma WrittenMissesRotation()
    ensures SymIndex(Rotation, 1) == 48 && SymIndex(Identity, 1) != 48
    ensures forall k :: 0 <= k < |SymmetryMappings| ==> Apply(SymmetryMappings[k], 1) != 48
  {
    forall k | 0 <= k < |SymmetryMappings|
      ensures Apply(SymmetryMappings[k], 1) != 48
    {
      ApplyIsSym(SymmetryMappings[k], 1);
      SymsDifferAtOne(SymOf(SymmetryMappings[k]), Rotation);
    }
  }

  /** `s` is the identity or the element of one of the corrected maps. */
  predicate CoveredByCorrected(s: Sym) {
    s == Identity || exists k :: 0 <= k < |CorrectedMappings| && SymOf(CorrectedMappings[k]) == s
  }

  /**
   * The corrected list together with the input itself gives all eight
   * symmetries of the square, each exactly once.
   */
  lemma CorrectedIsComplete()
    ensures |CorrectedMappings| == 7
    ensures forall k :: 0 <= k < 7 ==> SymOf(CorrectedMappings[k]) != Identity
    ensures forall k, l :: 0 <= k < l < 7 ==> SymOf(CorrectedMappings[k]) != SymOf(CorrectedMappings[l])
    ensures forall s: Sym :: CoveredByCorrected(s)
  {
    forall s: Sym
      ensures CoveredByCorrected(s)
    {
      if s == Sym(false, false, true) { assert SymOf(CorrectedMappings[0]) == s; }
      else if s == Sym(false, true, false) { assert SymOf(CorrectedMappings[1]) == s; }
      else if s == Sym(true, false, false) { assert SymOf(CorrectedMappings[2]) == s; }
      else if s == Sym(false, true, true) { assert SymOf(CorrectedMappings[3]) == s; }
      else if s == Rotation { assert SymOf(CorrectedMappings[4]) == s; }
      else if s == Sym(true, false, true) { assert SymOf(CorrectedMappings[5]) == s; }
      else if s == Sym(true, true, true) { assert SymOf(CorrectedMappings[6]) == s; }
    }
  }

  /** Since the eight group elements are told apart by cell 1, the corrected maps are eight distinct permutations. */
  lemma CorrectedMapsDistinct()
    ensures forall k :: 0 <= k < 7 ==> Apply(CorrectedMappings[k], 1) != 1
    ensures forall k, l :: 0 <= k < l < 7 ==> Apply(CorrectedMappings[k], 1) != Apply(CorrectedMappings[l], 1)
  {
    CorrectedIsComplete();
    forall k | 0 <= k < 7
      ensures Apply(CorrectedMappings[k], 1) == SymIndex(SymOf(CorrectedMappings[k]), 1)
    {
      ApplyIsSym(CorrectedMappings[k], 1);
    }
    forall s: Sym | s != Identity
      ensures SymIndex(s, 1) != 1
    {
      SymsDifferAtOne(s, Identity);
    }
    forall k, l | 0 <= k < l < 7
      ensures Apply(CorrectedMappings[k], 1) != Apply(CorrectedMappings[l], 1)
    {
      SymsDifferAtOne(SymOf(CorrectedMappings[k]), SymOf(CorrectedMappings[l]));
    }
  }

  // ---------------------------------------------------------------------
  // Moving the input vector

  /** Every map sends a cell to a cell. */
  lemma ApplyInRange(m: Mapping, i: int)
    requires IsCell(i)
    ensures IsCell(Apply(m, i))
  {
    ApplyIsSym(m, i);
  }

  /**
   * The input vector seen through `m`: the two channels of cell i are taken
   * together from cell Apply(m, i).
   */
  function Permute(input: seq<int>, m: Mapping): (out: seq<int>)
    requires |input| == InputSize
    ensures |out| == InputSize
  {
    seq(InputSize, x requires 0 <= x < InputSize =>
      ApplyInRange(m, x / 2);
      input[2 * Apply(m, x / 2) + x % 2])
  }

  /** Entry x of the permuted vector is channel x % 2 of the cell that cell x / 2 maps to. */
  lemma PermuteAt(input: seq<int>, m: Mapping, x: int)
    requires |input| == InputSize && 0 <= x < InputSize
    ensures IsCell(Apply(m, x / 2))
    ensures Permute(input, m)[x] == input[2 * Apply(m, x / 2) + x % 2]
  {
    ApplyInRange(m, x / 2);
  }

  /** Each cell's channel pair of the permuted vector is the channel pair of the mapped cell. */
  lemma PermuteKeepsChannels(input: seq<int>, m: Mapping, i: int)
    requires |input| == InputSize && IsCell(i)
    ensures IsCell(Apply(m, i))
    ensures Permute(input, m)[2 * i] == input[2 * Apply(m, i)]
    ensures Permute(input, m)[2 * i + 1] == input[2 * Apply(m, i) + 1]
  {
    var x0, x1 := 2 * i, 2 * i + 1;
    assert x0 / 2 == i && x0 % 2 == 0 && x1 / 2 == i && x1 % 2 == 1;
    PermuteAt(input, m, x0);
    PermuteAt(input, m, x1);
  }

  /** A flip applied twice to a cell gives the cell back. */
  lemma FlipTwice(m: Mapping, i: int)
    requires IsCell(i) && (m == HFlip || m == VFlip || m == DFlip)
    ensures Apply(m, Apply(m, i)) == i
  {
    FlipsAreInvolutions(i);
  }

  /** Two maps that agree on every cell permute every input vector alike. */
  lemma PermuteAgree(input: seq<int>, m: Mapping, m': Mapping)
    requires |input| == InputSize
    requires forall i :: IsCell(i) ==> Apply(m, i) == Apply(m', i)
    ensures Permute(input, m) == Permute(input, m')
  {
    forall x | 0 <= x < InputSize
      ensures Permute(input, m)[x] == Permute(input, m')[x]
    {
      PermuteAt(input, m, x);
      PermuteAt(input, m', x);
    }
  }

  /** Mirroring the input twice with the same flip gives it back. */
  lemma PermuteTwice(input: seq<int>, m: Mapping)
    requires |input| == InputSize && (m == HFlip || m == VFlip || m == DFlip)
    ensures Permute(Permute(input, m), m) == input
  {
    var once := Permute(input, m);
    forall x | 0 <= x < InputSize
      ensures Permute(once, m)[x] == input[x]
    {
      var i, c := x / 2, x % 2;
      PermuteAt(once, m, x);
      var j := Apply(m, i);
      var y := 2 * j + c;
      assert y / 2 == j && y % 2 == c;
      PermuteAt(input, m, y);
      FlipTwice(m, i);
      assert x == 2 * i + c;
    }
  }
}
