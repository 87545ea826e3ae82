/**
 * The score normaliser: converts an engine's external centipawn score into
 * the internal evaluation scale of the training data, using a
 * material-dependent coefficient, and counts material.
 */
module Wdl {
  import opened Numbers

  /** Piece counts of a position, both colours together. */
  datatype PieceCounts = PieceCounts(pawns: nat, knights: nat, bishops: nat, rooks: nat, queens: nat, kings: nat)
  {
    function Plus(o: PieceCounts): PieceCounts {
      PieceCounts(pawns + o.pawns, knights + o.knights, bishops + o.bishops,
                  rooks + o.rooks, queens + o.queens, kings + o.kings)
    }
  }

  /** Classical material: pawn 1, knight 3, bishop 3, rook 5, queen 9, kings not counted. */
  function MaterialCount(pc: PieceCounts): (m: nat)
    ensures var n := pc.pawns + pc.knights + pc.bishops + pc.rooks + pc.queens;
            n <= m <= 9 * n
  {
    pc.pawns + 3 * pc.knights + 3 * pc.bishops + 5 * pc.rooks + 9 * pc.queens
  }

  /** Scores at or beyond this magnitude are already on the internal scale. */
  const SATURATION: int := 29000
  const MATERIAL_LO: int := 17
  const MATERIAL_HI: int := 78

  /** `material.clamp(17, 78)`. */
  function ClampMaterial(material: int): (m: int)
    ensures MATERIAL_LO <= m <= MATERIAL_HI
    ensures MATERIAL_LO <= material <= MATERIAL_HI ==> m == material
  {
    if material < MATERIAL_LO then MATERIAL_LO
    else if material > MATERIAL_HI then MATERIAL_HI
    else material
  }

  const A0: real := -13.50030198
  const A1: real := 40.92780883
  const A2: real := -36.82753545
  const A3: real := 386.83004070

  /** The cubic in the normalised material, over exact reals. */
  function WinRatePoly(m: real): real {
    ((A0 * m + A1) * m + A2) * m + A3
  }

  /** The scaling coefficient `a` for a material count. */
  function WinRateA(material: int): (a: real)
    ensures a > 0.0
  {
    var m := ClampMaterial(material) as real / 58.0;
    WinRatePolyPositive(m);
    WinRatePoly(m)
  }

  /** The cubic stays well above zero on the clamped material range [17/58, 78/58]. */
  lemma WinRatePolyPositive(m: real)
    requires 0.0 <= m <= 1.35
    ensures WinRatePoly(m) > 0.0
  {
    var q := m * m;
    assert q <= 1.35 * m <= 1.8225 by {
      assert m * m <= 1.35 * m;
    }
    var c := q * m;
    assert c <= 1.8225 * m <= 2.460375 by {
      assert q * m <= 1.8225 * m;
    }
    assert q >= 0.0;
    assert WinRatePoly(m) == A0 * c + A1 * q + A2 * m + A3;
  }

  /** Rounding half away from zero, as `(x + 0.5).floor()` for non-negative
      `x` and `(x - 0.5).ceil()` otherwise. */
  function RoundHalfAwayFromZero(x: real): (r: int)
    ensures x >= 0.0 ==> r as real - 0.5 <= x < r as real + 0.5
    ensures x < 0.0 ==> r as real - 0.5 < x <= r as real + 0.5
  {
    if x >= 0.0 then (x + 0.5).Floor else -((0.5 - x).Floor)
  }

  /** Rounding commutes with negation. */
  lemma RoundHalfAwayFromZeroOdd(x: real)
    ensures RoundHalfAwayFromZero(-x) == -RoundHalfAwayFromZero(x)
  {
  }

  lemma RoundHalfAwayFromZeroMonotone(x: real, y: real)
    requires x <= y
    ensures RoundHalfAwayFromZero(x) <= RoundHalfAwayFromZero(y)
  {
  }

  /** The rounded, unclamped internal value `round(cp * a / 100)`. */
  function Scaled(cp: int, a: real): int {
    RoundHalfAwayFromZero(cp as real * a / 100.0)
  }

  /**
   * The normaliser with the coefficient `a` given: saturated scores are
   * clamped straight to i16, others scaled by `a / 100`, rounded half away
   * from zero and then clamped.
   */
  function NormalizeWith(cp: int, a: real): (r: int)
    ensures InI16(r)
    ensures cp <= -SATURATION || SATURATION <= cp ==> r == ClampI16(cp)
    ensures -SATURATION < cp < SATURATION && InI16(Scaled(cp, a)) ==>
              r as real - 0.5 <= cp as real * a / 100.0 <= r as real + 0.5
  {
    if cp <= -SATURATION || SATURATION <= cp then ClampI16(cp)
    else ClampI16(Scaled(cp, a))
  }

  /** `external_cp_to_internal_mat`. */
  function Normalize(cp: int, material: int): (r: int)
    ensures InI16(r)
    ensures cp <= -SATURATION || SATURATION <= cp ==> r == ClampI16(cp)
  {
    NormalizeWith(cp, WinRateA(material))
  }

  /** `external_cp_to_internal`: the normaliser at a position's material. */
  function NormalizeAt(cp: int, pc: PieceCounts): (r: int)
    ensures InI16(r)
    ensures cp <= -SATURATION || SATURATION <= cp ==> r == ClampI16(cp)
  {
    Normalize(cp, MaterialCount(pc))
  }

  // ---------------------------------------------------------------------
  // Properties
  // ---------------------------------------------------------------------

  /** Material is additive over piece sets, ignores kings, and is zero
      exactly for bare kings. */
  lemma MaterialCountProperties(a: PieceCounts, b: PieceCounts, k: nat)
    ensures MaterialCount(a.Plus(b)) == MaterialCount(a) + MaterialCount(b)
    ensures MaterialCount(a.(kings := k)) == MaterialCount(a)
    ensures MaterialCount(a) == 0 <==> a.pawns == a.knights == a.bishops == a.rooks == a.queens == 0
  {
  }

  /** A saturated score does not depend on material. */
  lemma SaturatedIgnoresMaterial(cp: int, m1: int, m2: int)
    requires cp <= -SATURATION || SATURATION <= cp
    ensures Normalize(cp, m1) == Normalize(cp, m2) == ClampI16(cp)
  {
  }

  /** Material below 17 or above 78 acts as 17 or 78. */
  lemma MaterialOutsideRangeIsClamped(cp: int, m: int)
    ensures m <= MATERIAL_LO ==> Normalize(cp, m) == Normalize(cp, MATERIAL_LO)
    ensures m >= MATERIAL_HI ==> Normalize(cp, m) == Normalize(cp, MATERIAL_HI)
  {
  }

  /** Only the material count of a position matters. */
  lemma NormalizeAtDependsOnMaterialOnly(cp: int, p1: PieceCounts, p2: PieceCounts)
    requires MaterialCount(p1) == MaterialCount(p2)
    ensures NormalizeAt(cp, p1) == NormalizeAt(cp, p2)
  {
  }

  lemma ScaledOdd(cp: int, a: real)
    ensures Scaled(-cp, a) == -Scaled(cp, a)
  {
    var c := cp as real;
    var ca := c * a;
    assert (-cp) as real == -c;
    assert (-c) * a == -ca;
    assert (-ca) / 100.0 == -(ca / 100.0);
    assert (-cp) as real * a / 100.0 == -(ca / 100.0);
    RoundHalfAwayFromZeroOdd(ca / 100.0);
    assert Scaled(-cp, a) == RoundHalfAwayFromZero(-(ca / 100.0));
  }

  /**
   * Negating the score negates the result, except at the asymmetric ends of
   * the i16 range: a result of 32767 may mirror to -32768, and -32768 always
   * mirrors to 32767. Holds for every coefficient.
   */
  lemma NormalizeSignSymmetry(cp: int, a: real)
    ensures -I16_MAX <= NormalizeWith(cp, a) < I16_MAX ==> NormalizeWith(-cp, a) == -NormalizeWith(cp, a)
    ensures NormalizeWith(cp, a) == I16_MAX ==> NormalizeWith(-cp, a) in {-I16_MAX, I16_MIN}
    ensures NormalizeWith(cp, a) == I16_MIN ==> NormalizeWith(-cp, a) == I16_MAX
    ensures NormalizeWith(0, a) == 0
  {
    if -SATURATION < cp < SATURATION {
      ScaledOdd(cp, a);
      ClampI16Negate(Scaled(cp, a));
    } else {
      ClampI16Negate(cp);
    }
  }

  /** With a non-negative coefficient the normaliser is non-decreasing below
      the saturation threshold, and non-decreasing among saturated scores of
      one sign. */
  lemma NormalizeMonotoneWithinRegion(x: int, y: int, a: real)
    requires a >= 0.0
    requires x <= y
    requires (-SATURATION < x && y < SATURATION) || SATURATION <= x || y <= -SATURATION
    ensures NormalizeWith(x, a) <= NormalizeWith(y, a)
  {
    if -SATURATION < x && y < SATURATION {
      assert x as real * a <= y as real * a;
      RoundHalfAwayFromZeroMonotone(x as real * a / 100.0, y as real * a / 100.0);
      ClampI16Monotone(Scaled(x, a), Scaled(y, a));
    }
  }

  /** The normaliser is monotone for a fixed material inside each region. */
  lemma NormalizeMonotone(x: int, y: int, material: int)
    requires x <= y
    requires (-SATURATION < x && y < SATURATION) || SATURATION <= x || y <= -SATURATION
    ensures Normalize(x, material) <= Normalize(y, material)
  {
    NormalizeMonotoneWithinRegion(x, y, WinRateA(material));
  }

  /** Across the saturation threshold it is not: at material 58, a score of
      28999 scales past the i16 range and clamps to 32767, while 29000 is
      kept as 29000. */
  lemma NotMonotoneAcrossSaturation()
    ensures Normalize(28999, 58) == I16_MAX
    ensures Normalize(29000, 58) == 29000
    ensures Normalize(28999, 58) > Normalize(29000, 58)
  {
    var a := WinRateA(58);
    assert 58 as real / 58.0 == 1.0;
    assert a == A0 + A1 + A2 + A3;
    assert 28999 as real * a / 100.0 > 100000.0;
  }
}
