/** The 64-bit arithmetic of the depth walk (src/market_price.cpp): prices and sizes are counts of millionths. */
module DepthArithmetic {
  import opened Wrappers
  import opened Arithmetic

  const DEPTH_SCALE: nat := 1_000_000

  function CeilDiv(n: nat, d: nat): nat
    requires d > 0
  {
    (n + d - 1) / d
  }

  /** size * price, split as the source splits it. */
  lemma SplitProduct(size: nat, price: nat)
    ensures size * price == DEPTH_SCALE * ((size / DEPTH_SCALE) * price) + (size % DEPTH_SCALE) * price
  {
    var whole, rest := size / DEPTH_SCALE, size % DEPTH_SCALE;
    assert size == DEPTH_SCALE * whole + rest;
    assert (DEPTH_SCALE * whole + rest) * price == DEPTH_SCALE * whole * price + rest * price;
  }

  lemma SmallProduct(a: nat, b: nat)
    requires a < DEPTH_SCALE && b < DEPTH_SCALE
    ensures a * b <= 999_998_000_001
  {
    MulMonotone(a, 999_999, b);
  }

  lemma QuotientTest(whole: nat, room: nat, price: nat)
    requires price > 0
    ensures whole > room / price <==> whole * price > room
  {
    var q := room / price;
    assert room == price * q + room % price;
    if whole > q {
      MulMonotone(q + 1, whole, price);
    } else {
      MulMonotone(whole, q, price);
    }
  }

  /** The cumulative collateral of a BUY: a whole part and millionths, or saturated. */
  class AccumulatedNotional {
    var units: nat
    var fractionalUnits: nat
    var saturated: bool
    ghost var total: nat

    constructor ()
      ensures Valid() && total == 0
    {
      units, fractionalUnits, saturated := 0, 0, false;
      total := 0;
    }

    /** total is the true sum of size * price; the fields hold it exactly as long as its whole part has 64 bits. */
    ghost predicate Valid()
      reads this
    {
      && units <= UINT64_MAX && fractionalUnits < 2 * DEPTH_SCALE
      && (saturated <==> total / DEPTH_SCALE > UINT64_MAX)
      && (!saturated ==> units == total / DEPTH_SCALE && fractionalUnits == total % DEPTH_SCALE)
    }

    method Covers(target: nat) returns (covered: bool)
      requires Valid() && target <= UINT64_MAX
      ensures covered <==> total / DEPTH_SCALE >= target
    {
      return saturated || units >= target;
    }

    /** add_notional. Every intermediate value stays within 64 bits. */
    method Add(size: nat, price: nat)
      requires Valid() && size <= UINT64_MAX && price < DEPTH_SCALE
      modifies this
      ensures Valid() && total == old(total) + size * price
    {
      total := total + size * price;
      if saturated {
        return;
      }
      var sizeWhole := size / DEPTH_SCALE;
      var sizeFraction := size % DEPTH_SCALE;
      var fractionalProduct := sizeFraction * price;
      SmallProduct(sizeFraction, price);
      SplitProduct(size, price);
      assert fractionalProduct <= UINT64_MAX;
      var fractionalWhole := fractionalProduct / DEPTH_SCALE;
      var contributionFraction := fractionalProduct % DEPTH_SCALE;
      if price != 0 {
        QuotientTest(sizeWhole, UINT64_MAX - fractionalWhole, price);
      }
      if price != 0 && sizeWhole > (UINT64_MAX - fractionalWhole) / price {
        saturated := true;
        return;
      }
      var contributionUnits := sizeWhole * price + fractionalWhole;
      assert contributionUnits <= UINT64_MAX;
      if contributionUnits > UINT64_MAX - units {
        saturated := true;
        return;
      }
      units := units + contributionUnits;
      fractionalUnits := fractionalUnits + contributionFraction;
      if fractionalUnits < DEPTH_SCALE {
        return;
      }
      fractionalUnits := fractionalUnits - DEPTH_SCALE;
      if units == UINT64_MAX {
        saturated := true;
        return;
      }
      units := units + 1;
    }
  }

  /** The cumulative shares of a SELL. */
  class AccumulatedSize {
    var units: nat
    var saturated: bool
    ghost var total: nat

    constructor ()
      ensures Valid() && total == 0
    {
      units, saturated := 0, false;
      total := 0;
    }

    ghost predicate Valid()
      reads this
    {
      units <= UINT64_MAX && (saturated <==> total > UINT64_MAX) && (!saturated ==> units == total)
    }

    method Covers(target: nat) returns (covered: bool)
      requires Valid() && target <= UINT64_MAX
      ensures covered <==> total >= target
    {
      return saturated || units >= target;
    }

    method Add(size: nat)
      requires Valid() && size <= UINT64_MAX
      modifies this
      ensures Valid() && total == old(total) + size
    {
      total := total + size;
      if saturated {
        return;
      }
      if size > UINT64_MAX - units {
        saturated := true;
        return;
      }
      units := units + size;
    }
  }

  // ----- one level's fill -----

  /** collateral_for; None where the source throws out_of_range. */
  function CollateralFor(shares: nat, price: nat, roundUp: bool): Option<nat>
    requires price > 0
  {
    var whole := shares / DEPTH_SCALE;
    var fractionalProduct := (shares % DEPTH_SCALE) * price;
    if whole > (UINT64_MAX - DEPTH_SCALE) / price then None
    else
      var units := whole * price + fractionalProduct / DEPTH_SCALE;
      Some(if roundUp && fractionalProduct % DEPTH_SCALE != 0 then units + 1 else units)
  }

  /** At a price below 1 the collateral of any 64-bit share count is exact, rounded the way asked, and never thrown. */
  lemma CollateralIsExact(shares: nat, price: nat, roundUp: bool)
    requires shares <= UINT64_MAX && 0 < price < DEPTH_SCALE
    ensures CollateralFor(shares, price, roundUp)
         == Some(if roundUp then CeilDiv(shares * price, DEPTH_SCALE) else shares * price / DEPTH_SCALE)
    ensures CollateralFor(shares, price, roundUp).value <= shares
  {
    var whole := shares / DEPTH_SCALE;
    SplitProduct(shares, price);
    QuotientTest(whole, UINT64_MAX - DEPTH_SCALE, price);
    MulMonotone(price, DEPTH_SCALE - 1, whole);
    assert price * whole == whole * price;
    MulMonotone(price, DEPTH_SCALE - 1, shares % DEPTH_SCALE);
    assert price * (shares % DEPTH_SCALE) == (shares % DEPTH_SCALE) * price;
  }

  /** A quotient rounded down. */
  function FloorDiv(n: nat, d: nat): nat
    requires d > 0
  {
    n / d
  }

  function Remainder(n: nat, d: nat): (r: nat)
    requires d > 0
    ensures r < d
  {
    n % d
  }

  /** shares_for; None where the source throws out_of_range. */
  function SharesFor(collateral: nat, price: nat): Option<nat>
    requires price > 0
  {
    var whole := FloorDiv(collateral, price);
    var remainder := Remainder(collateral, price);
    if whole > (UINT64_MAX - DEPTH_SCALE) / DEPTH_SCALE then None
    else Some(whole * DEPTH_SCALE + FloorDiv(remainder * DEPTH_SCALE, price))
  }

  lemma SharesAreFloor(collateral: nat, price: nat)
    requires price > 0
    ensures FloorDiv(collateral, price) * DEPTH_SCALE + FloorDiv(Remainder(collateral, price) * DEPTH_SCALE, price)
         == FloorDiv(collateral * DEPTH_SCALE, price)
  {
    var whole, remainder := collateral / price, collateral % price;
    var scaled := remainder * DEPTH_SCALE;
    assert collateral * DEPTH_SCALE == price * (whole * DEPTH_SCALE) + scaled by {
      assert collateral == price * whole + remainder;
      assert (price * whole) * DEPTH_SCALE == price * (whole * DEPTH_SCALE);
    }
    WholePlusRest(price, whole * DEPTH_SCALE, scaled);
  }

  lemma WholePlusRest(d: nat, q: nat, n: nat)
    requires d > 0
    ensures (d * q + n) / d == q + n / d
  {
    assert n == d * (n / d) + n % d;
    assert d * (q + n / d) == d * q + d * (n / d);
    QuotientIs(d * q + n, d, q + n / d, n % d);
  }

  lemma QuotientIs(n: nat, d: nat, q: nat, rest: nat)
    requires 0 <= rest < d && n == d * q + rest
    ensures n / d == q
  {
    var q', rest' := n / d, n % d;
    assert d * (q - q') == rest' - rest;
    assert d * (q' - q) == rest - rest';
    if q > q' {
      MulGrows(d, q - q');
    } else if q' > q {
      MulGrows(d, q' - q);
    }
  }

  /** The shares a collateral buys are the most whose cost, rounded up, it can pay; and they use all of it. */
  lemma SharesForIsMost(collateral: nat, price: nat)
    requires collateral <= UINT64_MAX && 0 < price < DEPTH_SCALE && SharesFor(collateral, price).Some?
    ensures var shares := SharesFor(collateral, price).value;
      && shares <= UINT64_MAX
      && CeilDiv(shares * price, DEPTH_SCALE) == collateral
      && CeilDiv((shares + 1) * price, DEPTH_SCALE) > collateral
  {
    SharesAreFloor(collateral, price);
    var shares := SharesFor(collateral, price).value;
    var n := collateral * DEPTH_SCALE;
    assert shares == n / price;
    assert n == price * shares + n % price;
    assert (shares + 1) * price == shares * price + price;
    assert shares * price == price * shares;
    FractionOfScale(collateral % price, price);
  }

  lemma FractionOfScale(remainder: nat, price: nat)
    requires remainder < price
    ensures FloorDiv(remainder * DEPTH_SCALE, price) < DEPTH_SCALE
  {
    QuotientTest(DEPTH_SCALE, remainder * DEPTH_SCALE, price);
    MulMonotone(remainder + 1, price, DEPTH_SCALE);
    assert price * DEPTH_SCALE == DEPTH_SCALE * price;
  }

  /** Collateral below the cost of a level buys fewer shares than the level has. */
  lemma PartialIsSmaller(size: nat, price: nat, remaining: nat)
    requires 0 < price < DEPTH_SCALE && remaining < CeilDiv(size * price, DEPTH_SCALE)
    ensures FloorDiv(remaining * DEPTH_SCALE, price) < size
    ensures SharesFor(remaining, price).Some? ==> SharesFor(remaining, price).value < size
    ensures size <= UINT64_MAX - DEPTH_SCALE ==> SharesFor(remaining, price).Some?
  {
    hide FloorDiv, CeilDiv;
    SharesAreFloor(remaining, price);
    BelowCost(remaining, size * price);
    BelowProduct(remaining * DEPTH_SCALE, size, price);
    WholePart(remaining, price, size);
  }

  lemma BelowProduct(n: nat, size: nat, price: nat)
    requires price > 0 && n < size * price
    ensures FloorDiv(n, price) < size
  {
    QuotientTest(size, n, price);
  }

  /** The overflow test of shares_for passes when the result is below 2^64 by a whole share. */
  lemma WholePart(remaining: nat, price: nat, size: nat)
    requires price > 0
    requires FloorDiv(remaining, price) * DEPTH_SCALE
             + FloorDiv(Remainder(remaining, price) * DEPTH_SCALE, price) < size
    ensures size <= UINT64_MAX - DEPTH_SCALE ==> SharesFor(remaining, price).Some?
  {
    hide FloorDiv;
  }

  lemma BelowCost(remaining: nat, value: nat)
    requires remaining < CeilDiv(value, DEPTH_SCALE)
    ensures remaining * DEPTH_SCALE < value
  {
  }
}
