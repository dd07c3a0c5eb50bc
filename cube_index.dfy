/** Classification of one lattice cell by the signs of its eight corner samples:
    the 8-bit case index that selects a row of the Marching Cubes case table. */
module CubeIndex {

  /** The fixed corner-to-offset convention: corner `i` of the cell whose
      lowest corner is (l, w, h) sits at (l, w, h) + Corner(i). Bit `i` of the
      case index belongs to this corner. */
  function Corner(i: int): (d: (int, int, int))
    requires 0 <= i < 8
    ensures 0 <= d.0 <= 1 && 0 <= d.1 <= 1 && 0 <= d.2 <= 1
  {
    match i
    case 0 => (0, 0, 0)
    case 1 => (0, 1, 0)
    case 2 => (1, 1, 0)
    case 3 => (1, 0, 0)
    case 4 => (0, 0, 1)
    case 5 => (0, 1, 1)
    case 6 => (1, 1, 1)
    case _ => (1, 0, 1)
  }

  /** Bit `i` of an 8-bit case index. */
  predicate BitSet(m: bv8, i: int)
    requires 0 <= i < 8
  {
    (m >> i) & 1 == 1
  }

  /** The one-bit mask `bit` when the sample is strictly positive, else 0:
      a sample of exactly 0 counts as inside. */
  function Flag(sample: real, bit: bv8): bv8 {
    if sample > 0.0 then bit else 0
  }

  /** The case index of a cell from its eight corner samples, listed in bit
      order: the bitwise OR of one flag per corner. */
  function CaseIndex(samples: seq<real>): (m: bv8)
    requires |samples| == 8
    ensures forall i :: 0 <= i < 8 ==> (BitSet(m, i) <==> samples[i] > 0.0)
  {
    Flag(samples[0], 0x01) | Flag(samples[1], 0x02) | Flag(samples[2], 0x04) | Flag(samples[3], 0x08) |
    Flag(samples[4], 0x10) | Flag(samples[5], 0x20) | Flag(samples[6], 0x40) | Flag(samples[7], 0x80)
  }

  /** An 8-bit case index is determined by its eight bits. */
  lemma BitsDetermineIndex(a: bv8, b: bv8)
    requires forall i :: 0 <= i < 8 ==> (BitSet(a, i) <==> BitSet(b, i))
    ensures a == b
  {
    assert BitSet(a, 0) == BitSet(b, 0) && BitSet(a, 1) == BitSet(b, 1);
    assert BitSet(a, 2) == BitSet(b, 2) && BitSet(a, 3) == BitSet(b, 3);
    assert BitSet(a, 4) == BitSet(b, 4) && BitSet(a, 5) == BitSet(b, 5);
    assert BitSet(a, 6) == BitSet(b, 6) && BitSet(a, 7) == BitSet(b, 7);
  }

  /** Two cells get the same case index exactly when their corners agree in sign. */
  lemma SameIndexIffSameSigns(s: seq<real>, t: seq<real>)
    requires |s| == 8 && |t| == 8
    ensures CaseIndex(s) == CaseIndex(t) <==> forall i :: 0 <= i < 8 ==> (s[i] > 0.0 <==> t[i] > 0.0)
  {
    if forall i :: 0 <= i < 8 ==> (s[i] > 0.0 <==> t[i] > 0.0) {
      BitsDetermineIndex(CaseIndex(s), CaseIndex(t));
    }
  }

  /** A cell with no strictly positive corner is case 0. */
  lemma AllInsideIsCaseZero(s: seq<real>)
    requires |s| == 8
    requires forall i :: 0 <= i < 8 ==> s[i] <= 0.0
    ensures CaseIndex(s) == 0
  {
    BitsDetermineIndex(CaseIndex(s), 0);
  }

  /** A cell whose corners are all strictly positive is case 255. */
  lemma AllOutsideIsCase255(s: seq<real>)
    requires |s| == 8
    requires forall i :: 0 <= i < 8 ==> s[i] > 0.0
    ensures CaseIndex(s) == 0xFF
  {
    BitsDetermineIndex(CaseIndex(s), 0xFF);
  }

  /** Negating eight nonzero samples gives the bitwise complement of the index. */
  lemma NegationComplementsIndex(s: seq<real>, t: seq<real>)
    requires |s| == 8 && |t| == 8
    requires forall i :: 0 <= i < 8 ==> s[i] != 0.0 && t[i] == -s[i]
    ensures CaseIndex(t) == !CaseIndex(s)
    ensures CaseIndex(t) as int == 255 - CaseIndex(s) as int
  {
    BitsDetermineIndex(CaseIndex(t), !CaseIndex(s));
  }
}
