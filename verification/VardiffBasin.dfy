// The part of the plane of (measured ratio x, average y) from which the steady
// branch of the controller only ever moves the difficulty down.
//
// When the average pushes the difficulty down by the full factor 0.8, (x, y)
// goes to (1.25 x, 0.15 x + 0.85 y).  Pushing the half-plane y >= 0.25 through
// that map j times gives y >= Level(j) + Slope(j) * x, and five such half-planes
// are enough to keep x from rising above 1.5.

module VardiffBasin {
  import opened Vardiff

  const FLOORS: nat := 5

  function Level(j: nat): real {
    if j == 0 then 0.25 else 0.85 * Level(j - 1)
  }

  function Slope(j: nat): real {
    if j == 0 then 0.0 else 0.12 + 0.68 * Slope(j - 1)
  }

  ghost predicate Basin(x: real, y: real) {
    && 0.25 <= x < 1.5 && 0.25 <= y < 1.5
    && forall j: nat | j <= FLOORS :: y >= Level(j) + Slope(j) * x
  }

  lemma FloorValues()
    ensures Level(1) == 0.2125 && Slope(1) == 0.12
    ensures Level(2) == 0.180625 && Slope(2) == 0.2016
    ensures Level(3) == 0.15353125 && Slope(3) == 0.257088
    ensures Level(4) == 0.1305015625 && Slope(4) == 0.29481984
    ensures Level(5) == 0.110926328125 && Slope(5) == 0.3204774912
  {
    assert Level(2) == 0.85 * Level(1) && Slope(2) == 0.12 + 0.68 * Slope(1);
    assert Level(3) == 0.85 * Level(2) && Slope(3) == 0.12 + 0.68 * Slope(2);
    assert Level(4) == 0.85 * Level(3) && Slope(4) == 0.12 + 0.68 * Slope(3);
    assert Level(5) == 0.85 * Level(4) && Slope(5) == 0.12 + 0.68 * Slope(4);
  }

  // Every average in the dead zone over a ratio below 1.5 is inside.
  lemma EntersBasin(x: real, y: real)
    requires 0.25 <= x < 1.5 && 0.6 <= y < 1.5
    ensures Basin(x, y)
  {
    FloorValues();
    forall j: nat | j <= FLOORS ensures y >= Level(j) + Slope(j) * x {
      if j == 0 {}
      else if j == 1 {}
      else if j == 2 {}
      else if j == 3 {}
      else if j == 4 {}
      else {}
    }
  }

  // Inside, the average never pushes up, and pushes down below ratio 1.2 only.
  lemma BasinPushesDown(x: real, y: real)
    requires Basin(x, y)
    ensures 0.25 <= Smoothed(x, y) < 1.5
    ensures Smoothed(x, y) <= 0.6 ==> x < 1.2
  {
    FloorValues();
    assert y >= Level(5) + Slope(5) * x;
  }

  // The difficulty moves down by a factor of at least 0.8.
  lemma DownStaysInBasin(x: real, y: real, x': real)
    requires Basin(x, y) && Smoothed(x, y) <= 0.6 && x <= x' <= 1.25 * x
    ensures Basin(x', Smoothed(x, y))
  {
    BasinPushesDown(x, y);
    forall j: nat | j <= FLOORS ensures Smoothed(x, y) >= Level(j) + Slope(j) * x' {
      if j > 0 {
        assert y >= Level(j - 1) + Slope(j - 1) * x;
        FloorMoves(j - 1, x, y, x');
      }
    }
  }

  lemma FloorMoves(j: nat, x: real, y: real, x': real)
    requires x' <= 1.25 * x && y >= Level(j) + Slope(j) * x
    ensures Smoothed(x, y) >= Level(j + 1) + Slope(j + 1) * x'
  {
    SlopePositive(j + 1);
    assert Slope(j + 1) * (1.25 * x - x') >= 0.0;
    assert Slope(j + 1) * (1.25 * x) == 0.15 * x + 0.85 * (Slope(j) * x);
  }

  lemma {:induction false} SlopePositive(j: nat)
    ensures Slope(j) >= 0.0
  {
    if j > 0 { SlopePositive(j - 1); }
  }

  // An average of at least 0.6 is pushed down from inside only.
  lemma PushedDownFromBasin(x: real, y: real)
    requires 0.25 <= x && 0.6 <= y && Smoothed(x, y) <= 0.6
    ensures Basin(x, y)
  {
    EntersBasin(x, y);
  }
}
