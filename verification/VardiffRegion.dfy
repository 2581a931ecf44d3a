// The plane of (measured ratio x, average y) and the region that the steady
// branch of the controller cannot leave.
//
// When the average pushes the difficulty up by the full factor 1.25, (x, y)
// goes to (0.8 x, 0.15 x + 0.85 y), which shrinks y + 3x by 0.85 exactly.
// Pushing the half-plane y <= 4 through that map j times gives
//    y + 3x <= 4 * 0.85^j + 3 * 1.0625^j * x,
// and eight such half-planes are enough to keep x from falling below 0.25.

module VardiffRegion {
  import opened Common
  import opened Vardiff

  const SIDES: nat := 8

  function Side(j: nat, x: real): real {
    4.0 * Pow(0.85, j) + 3.0 * (Pow(1.0625, j) * x)
  }

  ghost predicate Region(x: real, y: real) {
    && 0.25 <= x <= 4.0 && 0.25 <= y <= 4.0
    && forall j: nat | j <= SIDES :: y + 3.0 * x <= Side(j, x)
  }

  lemma {:induction false} PowBounds(j: nat)
    ensures 0.0 < Pow(0.85, j) <= 1.0 <= Pow(1.0625, j)
    ensures Pow(0.85, j) + 3.0 * Pow(1.0625, j) >= 4.0
  {
    if j > 0 { PowBounds(j - 1); }
  }

  lemma PowAtEight()
    ensures 0.2724 <= Pow(0.85, 8) <= 0.2725
    ensures Pow(1.0625, 8) <= 1.6243
  {
    assert Pow(0.85, 2) == 0.7225 && Pow(1.0625, 2) == 1.12890625;
    assert Pow(0.85, 4) == 0.85 * (0.85 * Pow(0.85, 2));
    assert Pow(0.85, 6) == 0.85 * (0.85 * Pow(0.85, 4));
    assert Pow(0.85, 8) == 0.85 * (0.85 * Pow(0.85, 6));
    assert Pow(1.0625, 4) == 1.0625 * (1.0625 * Pow(1.0625, 2));
    assert Pow(1.0625, 6) == 1.0625 * (1.0625 * Pow(1.0625, 4));
    assert Pow(1.0625, 8) == 1.0625 * (1.0625 * Pow(1.0625, 6));
  }

  lemma {:induction false} PowShrinks(j: nat)
    requires j <= SIDES
    ensures Pow(0.85, j) >= Pow(0.85, 8)
    decreases SIDES - j
  {
    if j < SIDES {
      PowShrinks(j + 1);
      PowBounds(j);
    }
  }

  // Every side lies above the line y = x, and above y = 1.
  lemma SideAboveDiagonal(j: nat, x: real)
    requires j <= SIDES && 0.0 <= x <= 4.0
    ensures Side(j, x) >= 4.0 * x
    ensures Side(j, x) >= 3.0 * x + 1.0
  {
    PowBounds(j);
    PowShrinks(j);
    PowAtEight();
    var a, b := Pow(0.85, j), Pow(1.0625, j);
    assert (b - 1.0) * x >= 0.0;
    assert 4.0 * a + 3.0 * (b * x) - 4.0 * x == (4.0 * (a + 3.0 * b - 4.0)) + (4.0 - x) * (4.0 - 3.0 * b);
    if 4.0 - 3.0 * b >= 0.0 {
      assert (4.0 - x) * (4.0 - 3.0 * b) >= 0.0;
    } else {
      assert (3.0 * b - 4.0) * x >= 0.0;
    }
  }

  // A reset average of one is inside, whatever the ratio.
  lemma ResetIsInside(x: real)
    requires 0.25 <= x <= 4.0
    ensures Region(x, 1.0)
  {
    forall j: nat | j <= SIDES ensures 1.0 + 3.0 * x <= Side(j, x) {
      SideAboveDiagonal(j, x);
    }
  }

  // The average moves, the difficulty does not.
  lemma HoldStaysInside(x: real, y: real)
    requires Region(x, y)
    ensures Region(x, Smoothed(x, y))
  {
    forall j: nat | j <= SIDES ensures Smoothed(x, y) + 3.0 * x <= Side(j, x) {
      SideAboveDiagonal(j, x);
    }
  }

  // The difficulty moves up by a factor of at most 1.25.
  lemma UpStaysInside(x: real, y: real, x': real)
    requires Region(x, y) && Smoothed(x, y) >= 1.5 && 0.8 * x <= x' <= x
    ensures Region(x', Smoothed(x, y))
  {
    RatioIsNotLow(x, y);
    forall j: nat | j <= SIDES ensures Smoothed(x, y) + 3.0 * x' <= Side(j, x') {
      if j > 0 {
        SideMoves(j - 1, x, x');
        assert Smoothed(x, y) + 3.0 * x' == 0.85 * (y + 3.0 * x) + 3.0 * (x' - 0.8 * x);
      }
    }
  }

  lemma SideMoves(j: nat, x: real, x': real)
    requires x' >= 0.8 * x
    ensures Side(j + 1, x') >= 0.85 * Side(j, x) + 3.0 * (x' - 0.8 * x)
  {
    PowBounds(j + 1);
    var a, b := Pow(0.85, j), Pow(1.0625, j);
    assert Pow(0.85, j + 1) == 0.85 * a && Pow(1.0625, j + 1) == 1.0625 * b;
    assert (1.0625 * b - 1.0) * (x' - 0.8 * x) >= 0.0;
    assert 1.0625 * b * x' == 1.0625 * b * (x' - 0.8 * x) + 0.85 * (b * x);
  }

  // Inside the region the average cannot push the difficulty up when the ratio is low.
  lemma RatioIsNotLow(x: real, y: real)
    requires Region(x, y) && Smoothed(x, y) >= 1.5
    ensures x >= 0.3125
  {
    PowAtEight();
    assert y + 3.0 * x <= Side(SIDES, x);
    assert (1.6243 - Pow(1.0625, 8)) * x >= 0.0;
  }

  // The difficulty moves down by a factor of at least 0.8.
  lemma DownStaysInside(x: real, y: real, x': real)
    requires Region(x, y) && Smoothed(x, y) <= 0.6 && x <= x' <= 1.25 * x
    ensures Region(x', Smoothed(x, y))
  {
    forall j: nat | j <= SIDES ensures Smoothed(x, y) + 3.0 * x' <= Side(j, x') {
      SideAboveDiagonal(j, x');
    }
  }
}
