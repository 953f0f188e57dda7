/** The integer square root of `SimpleDEX`. */
module NewtonSqrt {
  import opened Machine
  import opened Evm

  predicate IsRoot(x: nat, y: nat) {
    y * y <= x < (y + 1) * (y + 1)
  }

  /** Reference definition: count upwards. */
  function FloorSqrt(x: nat): (y: nat)
    ensures IsRoot(x, y)
  {
    if x == 0 then 0
    else
      var r := FloorSqrt(x - 1);
      if (r + 1) * (r + 1) <= x then r + 1 else r
  }

  lemma SquareMonotone(a: nat, b: nat)
    requires a <= b
    ensures a * a <= b * b
  {
    assert a * a <= a * b <= b * b;
  }

  lemma RootUnique(x: nat, y: nat, y': nat)
    requires IsRoot(x, y) && IsRoot(x, y')
    ensures y == y'
  {
    if y < y' { SquareMonotone(y + 1, y'); }
    if y' < y { SquareMonotone(y' + 1, y); }
  }

  /** A Newton step never falls below the root. */
  lemma StepStaysAbove(x: nat, y: nat)
    requires y >= 1
    ensures var z := (x / y + y) / 2; x < (z + 1) * (z + 1)
  {
    var q := x / y;
    var z := (q + y) / 2;
    var t := q + y + 1;
    assert x < (q + 1) * y by {
      assert x == q * y + x % y;
      assert (q + 1) * y == q * y + y;
    }
    SquareOfSum(q + 1, y);
    assert 2 * (z + 1) >= t;
    SquareMonotone(t, 2 * (z + 1));
  }

  lemma SquareOfSum(a: int, b: int)
    ensures (a + b) * (a + b) >= 4 * (a * b)
  {
    assert (a + b) * (a + b) == (a - b) * (a - b) + 4 * (a * b);
    assert (a - b) * (a - b) >= 0;
  }

  lemma ProductAtLeastSum(a: nat, b: nat)
    requires a >= 1 && b >= 1
    ensures a + b <= a * b + 1
  {
    assert (a - 1) * (b - 1) == a * b - a - b + 1;
  }

  /** The sums inside the loop do not overflow. */
  lemma StepFits(x: nat, z: nat)
    requires 1 <= z <= x
    ensures x / z + z <= x + 1
  {
    var q := x / z;
    assert q * z <= x && q >= 1;
    ProductAtLeastSum(q, z);
  }

  lemma StepPositive(x: nat, y: nat)
    requires x >= 1 && y >= 1
    ensures (x / y + y) / 2 >= 1
  {
    if y == 1 {
      assert x / y == x;
    }
  }

  /** A step that does not go down has found the root. */
  lemma StepDone(x: nat, y: nat)
    requires y >= 1 && (x / y + y) / 2 >= y && x < (y + 1) * (y + 1)
    ensures IsRoot(x, y)
  {
    var q := x / y;
    assert q >= y;
    assert y * y <= q * y <= x;
  }

  /** The loop's state: `z` is the Newton step from `y`, and `y` is at or above the root. */
  predicate Descending(x: nat, y: nat, z: nat) {
    1 <= y <= x && z == (x / y + y) / 2 && z >= 1 && x < (y + 1) * (y + 1)
  }

  lemma DescentStarts(x: nat)
    requires x >= 1
    ensures Descending(x, x, (x + 1) / 2)
  {
    assert x / x == 1;
    assert (x + 1) * (x + 1) == x * x + 2 * x + 1;
  }

  lemma DescentGoesOn(x: nat, y: nat, z: nat)
    requires Descending(x, y, z) && z < y
    ensures Descending(x, z, (x / z + z) / 2)
    ensures x / z + z <= x + 1
  {
    StepStaysAbove(x, y);
    StepFits(x, z);
    StepPositive(x, z);
  }

  lemma DescentEnds(x: nat, y: nat, z: nat)
    requires Descending(x, y, z) && z >= y
    ensures y == FloorSqrt(x)
  {
    StepDone(x, y);
    RootUnique(x, y, FloorSqrt(x));
  }

  /** Newton's method from above meets the reference. It reverts for the largest word only,
      where `x + 1` overflows; inside the loop nothing overflows and nothing divides by zero. */
  method Sqrt(x: nat) returns (r: Option<nat>)
    requires Fits(x)
    ensures r.None? <==> x == U256_MAX
    ensures r.Some? ==> r.value == FloorSqrt(x) && IsRoot(x, r.value)
  {
    if x == 0 {
      return Some(0);
    }
    if !Fits(x + 1) {
      return None;
    }
    var y: nat, z: nat := x, (x + 1) / 2;
    DescentStarts(x);
    while z < y
      invariant Descending(x, y, z)
      decreases y
    {
      DescentGoesOn(x, y, z);
      y := z;
      assert Fits(x / z + z);
      z := (x / z + z) / 2;
    }
    DescentEnds(x, y, z);
    r := Some(y);
  }
}
