/** The amounts an order signs (src/order_amounts.cpp), after the conversion of a decimal to integer units:
    an amount is a count of units of 10^-sizeDecimals, a price a count of millionths. */
module OrderAmounts {
  import opened Wrappers
  import opened Arithmetic
  import opened Digits
  import opened HexText

  const TOKEN_DECIMALS := 6

  datatype Side = Buy | Sell

  datatype Rounding = Rounding(priceDecimals: nat, sizeDecimals: nat, amountDecimals: nat, tickUnits: nat)

  datatype Price = Price(units: nat, scale: nat, rounding: Rounding)

  datatype Amounts = Amounts(maker: nat, taker: nat)

  datatype AmountError =
    | ScaleOutOfRange
    | TooManyDecimals
    | RoundsToZero
    | Overflow
    | Inexact
    | BelowPriceUnit
    | UnsupportedTick
    | ExcessPrecision
    | OutsideTickRange
    | NotATickMultiple
    | OutsideMarketRange

  method PowerOfTen(decimals: int) returns (r: Result<nat, AmountError>)
    ensures r == if 0 <= decimals <= 18 then Ok(Pow10(decimals)) else Err(ScaleOutOfRange)
    ensures r.Ok? ==> r.value <= UINT64_MAX
  {
    if decimals < 0 || decimals > 18 {
      return Err(ScaleOutOfRange);
    }
    var scale := 1;
    for index := 0 to decimals
      invariant scale == Pow10(index)
    {
      PowAdds(10, 1, index);
      scale := scale * 10;
    }
    PowGrows(10, decimals, 18);
    Pow10Fits();
    return Ok(scale);
  }

  lemma Pow10Fits()
    ensures Pow10(6) == 1_000_000 && Pow10(18) <= UINT64_MAX
  {
    assert Pow10(3) == 1_000;
    PowAdds(10, 3, 3);
    PowAdds(10, 6, 6);
    PowAdds(10, 12, 6);
  }

  function CheckedMultiply(left: nat, right: nat): (r: Result<nat, AmountError>)
    requires left <= UINT64_MAX && right <= UINT64_MAX
    ensures r == if left * right <= UINT64_MAX then Ok(left * right) else Err(Overflow)
  {
    if right != 0 && left > UINT64_MAX / right then
      ProductTooLarge(left, right);
      Err(Overflow)
    else
      ProductFits(left, right);
      Ok(left * right)
  }

  lemma ProductTooLarge(left: nat, right: nat)
    requires right != 0 && left > UINT64_MAX / right
    ensures left * right > UINT64_MAX
  {
    MulMonotone(UINT64_MAX / right + 1, left, right);
  }

  lemma ProductFits(left: nat, right: nat)
    requires right == 0 || left <= UINT64_MAX / right
    ensures left * right <= UINT64_MAX
  {
    if right != 0 {
      MulMonotone(left, UINT64_MAX / right, right);
    }
  }

  // ----- exact division -----

  /** The quotient, when it is a whole number of 64 bits. */
  function ExactQuotient(value: nat, numerator: nat, denominator: nat): Result<nat, AmountError>
    requires denominator > 0
  {
    var product := value * numerator;
    if product % denominator != 0 then Err(Inexact)
    else if product / denominator > UINT64_MAX then Err(Overflow)
    else Ok(product / denominator)
  }

  lemma Regroup(g: nat, h: nat, v: nat, n: nat, d: nat)
    ensures (g * v) * (h * n) == (g * h) * (v * n) && g * (h * d) == (g * h) * d
  {
    assert (g * v) * (h * n) == g * (v * (h * n));
    assert v * (h * n) == h * (v * n);
    assert g * (h * (v * n)) == (g * h) * (v * n);
    assert g * (h * d) == (g * h) * d;
  }

  lemma CommonFactor(c: nat, p: nat, d: nat)
    requires c > 0 && d > 0
    ensures c * d > 0
    ensures (c * p) % (c * d) == 0 ==> p % d == 0
  {
    MulGrows(c, d);
    if (c * p) % (c * d) == 0 {
      var k := (c * p) / (c * d);
      assert c * p == (c * d) * k;
      assert (c * d) * k == c * (d * k);
      FactorOut(c, p, d * k);
      DivideBy(d, k);
    }
  }

  /** What cancelling g from value and denominator, then h from numerator and denominator, does to the product. */
  lemma Cancelled(g: nat, h: nat, v: nat, n: nat, d: nat)
    requires g > 0 && h > 0 && d > 0
    ensures g * (h * d) > 0
    ensures ((g * v) * (h * n)) % (g * (h * d)) == 0 ==> (v * n) % d == 0
    ensures d == 1 ==> ((g * v) * (h * n)) % (g * (h * d)) == 0 && ((g * v) * (h * n)) / (g * (h * d)) == v * n
  {
    Regroup(g, h, v, n, d);
    MulGrows(g, h);
    CommonFactor(g * h, v * n, d);
    DivideBy(g * h, v * n);
  }

  /** A denominator that has nothing in common with either factor divides the product only if it is 1. */
  lemma NothingInCommon(v: nat, n: nat, d: nat, x: int, y: int, h: nat, x2: int, y2: int)
    requires d > 0 && v * x + (h * d) * y == 1 && n * x2 + d * y2 == 1
    ensures (v * n) % d == 0 ==> d == 1
  {
    if (v * n) % d == 0 {
      assert (h * d) * y == d * (h * y);
      EuclidsLemma(d, v, x, h * y, n);
      EuclidsLemma(d, n, x2, y2, 1) by {
        assert n * 1 == n;
      }
      assert 1 % d == 0;
    }
  }

  /** Cancelling common factors first neither refuses an exact quotient nor reports an overflow that is none. */
  method ExactMultiplyDivide(value: nat, numerator: nat, denominator: nat) returns (r: Result<nat, AmountError>)
    requires value <= UINT64_MAX && numerator <= UINT64_MAX && 0 < denominator <= UINT64_MAX
    ensures r == ExactQuotient(value, numerator, denominator)
  {
    var v, n, d := value, numerator, denominator;
    ghost var x, y := Reduced(v, d);
    var g := Gcd(v, d);
    v, d := v / g, d / g;
    PositiveFactor(g, d);
    ghost var x2, y2 := Reduced(n, d);
    var h := Gcd(n, d);
    ghost var between := d;
    n, d := n / h, d / h;
    PositiveFactor(h, d);
    assert between == h * d;
    NothingInCommon(v, n, d, x, y, h, x2, y2);
    Cancelled(g, h, v, n, d);
    assert value * numerator == (g * v) * (h * n) && denominator == g * (h * d);
    if d != 1 {
      return Err(Inexact);
    }
    SmallerFactor(g, v);
    SmallerFactor(h, n);
    r := CheckedMultiply(v, n);
  }

  lemma PositiveFactor(g: nat, d: nat)
    requires g * d > 0
    ensures d > 0
  {
  }

  lemma SmallerFactor(g: nat, v: nat)
    requires g > 0
    ensures v <= g * v
  {
    MulMonotone(1, g, v);
  }

  // ----- amounts -----

  /** The price of an order: a proper fraction of its scale. */
  predicate ValidPrice(price: Price) {
    && 0 < price.units < price.scale == Pow10(price.rounding.priceDecimals)
    && price.rounding.priceDecimals <= 18
  }

  /** Sizes and prices together have no more decimals than a token amount. */
  predicate Fits(price: Price) {
    ValidPrice(price) && price.rounding.priceDecimals + price.rounding.sizeDecimals <= TOKEN_DECIMALS
  }

  function AmountToMicroUnits(units: nat, decimals: nat): Result<nat, AmountError> {
    if decimals > TOKEN_DECIMALS then Err(TooManyDecimals)
    else
      var micro := units * Pow10(TOKEN_DECIMALS - decimals);
      if micro > UINT64_MAX then Err(Overflow)
      else if micro == 0 then Err(RoundsToZero)
      else Ok(micro)
  }

  function AmountsForShares(side: Side, size: nat, price: Price): Result<Amounts, AmountError>
    requires ValidPrice(price)
  {
    match AmountToMicroUnits(size, price.rounding.sizeDecimals)
    case Err(e) => Err(e)
    case Ok(shares) =>
      match ExactQuotient(shares, price.units, price.scale)
      case Err(e) => Err(e)
      case Ok(cost) => Ok(if side.Buy? then Amounts(cost, shares) else Amounts(shares, cost))
  }

  /** An amount of a size becomes the same amount in millionths, when that is a positive number of 64 bits. */
  lemma MicroUnitsIff(units: nat, decimals: nat)
    ensures AmountToMicroUnits(units, decimals).Ok? <==>
      decimals <= 6 && 0 < units && units * Pow10(6 - decimals) <= UINT64_MAX
    ensures AmountToMicroUnits(units, decimals).Ok? ==>
      AmountToMicroUnits(units, decimals).value * Pow10(decimals) == units * 1_000_000
  {
    if decimals <= 6 {
      PowAdds(10, 6 - decimals, decimals);
      Pow10Fits();
      PowPositive(10, 6 - decimals);
      SameMicroUnits(units, Pow10(6 - decimals), Pow10(decimals));
    }
  }

  lemma SameMicroUnits(units: nat, a: nat, b: nat)
    requires a > 0
    ensures (units * a) * b == units * (a * b)
    ensures units * a == 0 <==> units == 0
  {
  }

  /** A market SELL gives the whole amount in shares. */
  lemma SellGivesShares(amount: nat, price: Price)
    requires ValidPrice(price) && MarketAmounts(Sell, amount, price).Ok?
    ensures AmountToMicroUnits(amount, price.rounding.sizeDecimals)
         == Ok(MarketAmounts(Sell, amount, price).value.maker)
  {
  }

  /** The smallest collateral that buys a whole number of units at a price. */
  function MakerStep(price: Price): (step: nat)
    requires ValidPrice(price)
    ensures step > 0
  {
    StepIsPositive(price);
    price.units / Gcd(price.units, price.scale)
  }

  lemma StepOf(price: Price) returns (step: nat, ratio: nat)
    requires ValidPrice(price)
    ensures var g := Gcd(price.units, price.scale);
      g > 0 && step > 0 && step == price.units / g && price.units == g * step && price.scale == g * ratio
  {
    step, ratio := GcdDivides(price.units, price.scale);
    DivideBy(Gcd(price.units, price.scale), step);
  }

  lemma StepIsPositive(price: Price)
    requires ValidPrice(price)
    ensures Gcd(price.units, price.scale) > 0 && price.units / Gcd(price.units, price.scale) > 0
  {
    var step, ratio := StepOf(price);
  }

  function RoundDown(n: nat, step: nat): (r: nat)
    requires step > 0
    ensures r <= n
  {
    n - n % step
  }

  /** calculate_market_order_amounts: a BUY spends a budget, a SELL gives shares. */
  function MarketAmounts(side: Side, amount: nat, price: Price): Result<Amounts, AmountError>
    requires ValidPrice(price)
  {
    if side.Sell? then AmountsForShares(side, amount, price)
    else
      match AmountToMicroUnits(amount, price.rounding.sizeDecimals)
      case Err(e) => Err(e)
      case Ok(budget) =>
        var maker := RoundDown(budget, MakerStep(price));
        if maker == 0 then Err(BelowPriceUnit)
        else
          match ExactQuotient(maker, price.scale, price.units)
          case Err(e) => Err(e)
          case Ok(taker) => Ok(Amounts(maker, taker))
  }

  /** Whole lots of the scale, at a price below 1. */
  lemma LotsAreExact(lots: nat, scale: nat, units: nat)
    requires lots > 0 && 0 < units < scale
    ensures ((scale * lots) * units) % scale == 0
    ensures var cost := ((scale * lots) * units) / scale;
      cost * scale == (scale * lots) * units && cost < scale * lots
  {
    assert (scale * lots) * units == scale * (lots * units);
    DivideBy(scale, lots * units);
    assert lots * units < lots * scale by {
      MulGrows(lots, scale - units);
      assert lots * (scale - units) == lots * scale - lots * units;
    }
    assert (lots * units) * scale == scale * (lots * units);
  }

  lemma Reorder(a: nat, b: nat, c: nat)
    ensures a * (b * c) == b * (a * c)
  {
  }

  lemma SharesAreLots(size: nat, price: Price) returns (lots: nat)
    requires Fits(price)
    ensures size * Pow10(TOKEN_DECIMALS - price.rounding.sizeDecimals) == price.scale * lots
  {
    hide Pow;
    var unit := Pow10(TOKEN_DECIMALS - price.rounding.sizeDecimals);
    PowGrows(10, price.rounding.priceDecimals, TOKEN_DECIMALS - price.rounding.sizeDecimals);
    var k := unit / price.scale;
    lots := size * k;
    assert unit == price.scale * k;
    Reorder(size, price.scale, k);
  }

  /** A share count of a fitting price costs a whole number of units, less than the count: no error is possible. */
  lemma SharesAreExact(side: Side, size: nat, price: Price, shares: nat)
    requires Fits(price) && AmountToMicroUnits(size, price.rounding.sizeDecimals) == Ok(shares)
    ensures AmountsForShares(side, size, price).Ok?
    ensures var signed := AmountsForShares(side, size, price).value;
      var cost := if side.Buy? then signed.maker else signed.taker;
      && cost * price.scale == shares * price.units && cost < shares
      && (if side.Buy? then signed.taker else signed.maker) == shares
  {
    var lots := SharesAreLots(size, price);
    PositiveFactor(price.scale, lots);
    LotsAreExact(lots, price.scale, price.units);
  }

  /** Rounding the budget down to the step makes the taker amount whole at every price. */
  lemma StepIsExact(price: Price, k: nat)
    requires ValidPrice(price)
    ensures ((MakerStep(price) * k) * price.scale) % price.units == 0
    ensures var taker := ((MakerStep(price) * k) * price.scale) / price.units;
      taker * price.units == (MakerStep(price) * k) * price.scale
  {
    var step, ratio := StepOf(price);
    var g := Gcd(price.units, price.scale);
    Regroup(step, g, k, ratio, 0);
    assert step * g == g * step;
    DivideBy(price.units, k * ratio);
    assert (k * ratio) * price.units == price.units * (k * ratio);
  }

  /** Only multiples of the step have a whole taker amount. */
  lemma ExactOnlyAtSteps(price: Price, m: nat)
    requires ValidPrice(price) && (m * price.scale) % price.units == 0
    ensures m % MakerStep(price) == 0
  {
    hide Pow, Pow10, Gcd;
    var step, ratio := StepOf(price);
    var x, y := Reduced(price.units, price.scale);
    var g := Gcd(price.units, price.scale);
    DivideBy(g, ratio);
    Reorder(m, g, ratio);
    assert m * ratio == ratio * m;
    CommonFactor(g, ratio * m, step);
    assert ratio * y + step * x == 1;
    EuclidsLemma(step, ratio, y, x, m);
  }

  lemma RoundedDownIsLargest(budget: nat, step: nat, m: nat)
    requires step > 0 && m <= budget && m % step == 0
    ensures m <= RoundDown(budget, step)
  {
    if m > RoundDown(budget, step) {
      var q := budget / step;
      assert RoundDown(budget, step) == step * q;
      assert m == step * (m / step);
      assert step * (m / step - q) == m - step * q;
      NoMultipleBelow(step, m / step - q);
      assert false;
    }
  }

  /** A market BUY signs an exact ratio, and spends the most that any exact order within the budget can. */
  lemma BuyIsExactAndMaximal(amount: nat, price: Price, budget: nat)
    requires ValidPrice(price) && AmountToMicroUnits(amount, price.rounding.sizeDecimals) == Ok(budget)
    ensures MarketAmounts(Buy, amount, price).Ok? ==>
      var signed := MarketAmounts(Buy, amount, price).value;
      && signed.maker * price.scale == signed.taker * price.units
      && 0 < signed.maker <= budget && signed.taker <= UINT64_MAX
      && forall m :: signed.maker < m <= budget ==> (m * price.scale) % price.units != 0
    ensures MarketAmounts(Buy, amount, price).Err? ==>
      var error := MarketAmounts(Buy, amount, price).error;
      || (error == BelowPriceUnit && forall m :: 0 < m <= budget ==> (m * price.scale) % price.units != 0)
      || (error == Overflow && exists m :: 0 < m <= budget && (m * price.scale) / price.units > UINT64_MAX)
  {
    var step := MakerStep(price);
    var maker := RoundDown(budget, step);
    RoundedIsExact(price, budget);
    forall m | maker < m <= budget ensures (m * price.scale) % price.units != 0 {
      if (m * price.scale) % price.units == 0 {
        ExactOnlyAtSteps(price, m);
        RoundedDownIsLargest(budget, step, m);
      }
    }
  }

  /** At a fitting price a BUY is refused only for its amount or because the shares overflow 64 bits. */
  lemma BuyFailsOnlyOnOverflow(amount: nat, price: Price, budget: nat)
    requires Fits(price) && AmountToMicroUnits(amount, price.rounding.sizeDecimals) == Ok(budget)
    ensures MarketAmounts(Buy, amount, price).Ok?
            <==> ((RoundDown(budget, MakerStep(price))) * price.scale) / price.units <= UINT64_MAX
    ensures MarketAmounts(Buy, amount, price).Err? ==> MarketAmounts(Buy, amount, price).error == Overflow
  {
    var step := MakerStep(price);
    StepIsSmall(price);
    PowGrows(10, price.rounding.priceDecimals, TOKEN_DECIMALS - price.rounding.sizeDecimals);
    MulMonotone(1, amount, Pow10(TOKEN_DECIMALS - price.rounding.sizeDecimals));
    RoundedDownIsLargest(budget, step, step);
    RoundedIsExact(price, budget);
  }

  lemma RoundedIsExact(price: Price, budget: nat)
    requires ValidPrice(price)
    ensures var maker := RoundDown(budget, MakerStep(price));
      && (maker * price.scale) % price.units == 0
      && ((maker * price.scale) / price.units) * price.units == maker * price.scale
  {
    var step := MakerStep(price);
    assert RoundDown(budget, step) == step * (budget / step);
    StepIsExact(price, budget / step);
  }

  lemma StepIsSmall(price: Price)
    requires ValidPrice(price)
    ensures MakerStep(price) <= price.units
  {
    var step, ratio := StepOf(price);
    SmallerFactor(Gcd(price.units, price.scale), step);
  }

  // ----- prices -----

  function RoundingFor(tick: string): Result<Rounding, AmountError> {
    if tick == "0.1" then Ok(Rounding(1, 2, 3, 1))
    else if tick == "0.01" then Ok(Rounding(2, 2, 4, 1))
    else if tick == "0.005" then Ok(Rounding(3, 2, 5, 5))
    else if tick == "0.0025" then Ok(Rounding(4, 2, 6, 25))
    else if tick == "0.001" then Ok(Rounding(3, 2, 5, 1))
    else if tick == "0.0001" then Ok(Rounding(4, 2, 6, 1))
    else Err(UnsupportedTick)
  }

  /** quantized_price, from the units the rounding mode produced. */
  function QuantizedPrice(units: nat, rounding: Rounding): Result<Price, AmountError> {
    if rounding.priceDecimals > 18 then Err(ScaleOutOfRange)
    else
      var scale := Pow10(rounding.priceDecimals);
      if units == 0 || units >= scale then Err(OutsideMarketRange) else Ok(Price(units, scale, rounding))
  }

  /** validate_order_price, from a price in millionths. */
  function ValidatePrice(micro: nat, tick: string): Result<Price, AmountError> {
    match RoundingFor(tick)
    case Err(e) => Err(e)
    case Ok(rounding) =>
      var scale := Pow10(rounding.priceDecimals);
      var unit := Pow10(TOKEN_DECIMALS - rounding.priceDecimals);
      if micro % unit != 0 then Err(ExcessPrecision)
      else
        var units := micro / unit;
        if units < rounding.tickUnits || units > scale - rounding.tickUnits then Err(OutsideTickRange)
        else if units % rounding.tickUnits != 0 then Err(NotATickMultiple)
        else Ok(Price(units, scale, rounding))
  }

  /** The tick in millionths. */
  function TickOf(rounding: Rounding): nat
    requires rounding.priceDecimals <= TOKEN_DECIMALS
  {
    rounding.tickUnits * Pow10(TOKEN_DECIMALS - rounding.priceDecimals)
  }

  predicate TickMultiple(micro: nat, t: nat)
    requires t > 0
  {
    micro % t == 0 && t <= micro <= 1_000_000 - t
  }

  lemma TickTable(tick: string)
    ensures RoundingFor(tick).Ok? ==>
      var r := RoundingFor(tick).value;
      && r.priceDecimals <= TOKEN_DECIMALS
      && (r.priceDecimals, r.tickUnits, Pow10(r.priceDecimals), Pow10(TOKEN_DECIMALS - r.priceDecimals))
         in {(1, 1, 10, 100_000), (2, 1, 100, 10_000), (3, 5, 1_000, 1_000), (4, 25, 10_000, 100), (3, 1, 1_000, 1_000),
             (4, 1, 10_000, 100)}
      && r.priceDecimals + r.sizeDecimals <= TOKEN_DECIMALS
  {
    assert Pow10(2) == 100 && Pow10(3) == 1_000;
    PowAdds(10, 2, 2);
    PowAdds(10, 2, 3);
  }

  /** A supported tick reads as its own rounding: as many price decimals as it has digits behind the point, and a tick
      of the value of these digits; sizes have two decimals, and amounts those of price and size together. */
  lemma TickTextMeans(tick: string)
    ensures RoundingFor(tick).Ok? <==> tick in {"0.1", "0.01", "0.005", "0.0025", "0.001", "0.0001"}
    ensures RoundingFor(tick).Ok? ==>
      var r, decimals := RoundingFor(tick).value, tick[2..];
      && tick[..2] == "0." && AllDecimal(decimals)
      && r.priceDecimals == |decimals| && r.tickUnits == DecimalValue(decimals)
      && r.sizeDecimals == 2 && r.amountDecimals == r.priceDecimals + r.sizeDecimals
  {
    if RoundingFor(tick).Ok? {
      ReadDecimals(tick[2..]);
    }
  }

  /** Up to four digits. */
  lemma ReadDecimals(text: string)
    requires AllDecimal(text) && 1 <= |text| <= 4
    ensures DecimalValue(text)
         == if |text| == 1 then HexDigit(text[0])
            else if |text| == 2 then 10 * HexDigit(text[0]) + HexDigit(text[1])
            else if |text| == 3 then 100 * HexDigit(text[0]) + 10 * HexDigit(text[1]) + HexDigit(text[2])
            else 1000 * HexDigit(text[0]) + 100 * HexDigit(text[1]) + 10 * HexDigit(text[2]) + HexDigit(text[3])
  {
    LastDigit(text);
    if |text| > 1 {
      ReadDecimals(text[..|text| - 1]);
    }
  }

  lemma LastDigit(text: string)
    requires AllDecimal(text) && text != ""
    ensures AllDecimal(text[..|text| - 1])
    ensures DecimalValue(text) == DecimalValue(text[..|text| - 1]) * 10 + HexDigit(text[|text| - 1])
    ensures DecimalValue("") == 0
  {
    assert TextDigits(text)[..|text| - 1] == TextDigits(text[..|text| - 1]);
  }

  /** The accepted prices are exactly the multiples of the tick from one tick to one tick below 1, and the price
      that results has the same value. */
  lemma ValidPricesAreTickMultiples(micro: nat, tick: string)
    requires RoundingFor(tick).Ok?
    ensures RoundingFor(tick).value.priceDecimals <= TOKEN_DECIMALS && TickOf(RoundingFor(tick).value) > 0
    ensures var t := TickOf(RoundingFor(tick).value);
      ValidatePrice(micro, tick).Ok? <==> TickMultiple(micro, t)
    ensures ValidatePrice(micro, tick).Ok? ==>
      var price := ValidatePrice(micro, tick).value;
      Fits(price) && price.units * 1_000_000 == micro * price.scale
  {
    TickTable(tick);
    var r := RoundingFor(tick).value;
    var scale, unit, t := Pow10(r.priceDecimals), Pow10(TOKEN_DECIMALS - r.priceDecimals), TickOf(r);
    if WholeTicks(micro, r.tickUnits, scale, unit) {
      TicksAreMultiples(micro, r.tickUnits, scale, unit, t);
      SameValue(micro, scale, unit);
    }
    if TickMultiple(micro, t) {
      MultiplesAreTicks(micro, r.tickUnits, scale, unit, t);
    }
  }

  /** Price units make a price exactly when they are a proper fraction of a scale of at most 18 decimals. */
  lemma QuantizedIff(units: nat, rounding: Rounding)
    ensures QuantizedPrice(units, rounding).Ok? <==>
      rounding.priceDecimals <= 18 && 0 < units < Pow10(rounding.priceDecimals)
    ensures QuantizedPrice(units, rounding).Ok? ==>
      ValidPrice(QuantizedPrice(units, rounding).value) && QuantizedPrice(units, rounding).value.units == units
  {
  }

  /** Why a price is refused: for decimals the tick has not, for lying within one tick of 0 or 1 or beyond, or for
      lying between two ticks. */
  lemma RefusedPrices(micro: nat, tick: string)
    requires RoundingFor(tick).Ok?
    ensures RoundingFor(tick).value.priceDecimals <= TOKEN_DECIMALS && TickOf(RoundingFor(tick).value) > 0
    ensures var r, t := ValidatePrice(micro, tick), TickOf(RoundingFor(tick).value);
      var excess := micro % Pow10(TOKEN_DECIMALS - RoundingFor(tick).value.priceDecimals) != 0;
      && (r == Err(ExcessPrecision) <==> excess)
      && (r == Err(OutsideTickRange) <==> !excess && !(t <= micro <= 1_000_000 - t))
      && (r == Err(NotATickMultiple) <==> !excess && t <= micro <= 1_000_000 - t && micro % t != 0)
  {
    TickTable(tick);
    ValidPricesAreTickMultiples(micro, tick);
    var r := RoundingFor(tick).value;
    var unit := Pow10(TOKEN_DECIMALS - r.priceDecimals);
    if micro % unit == 0 {
      assert micro == unit * (micro / unit);
      InRange(micro / unit, r.tickUnits, Pow10(r.priceDecimals), unit);
    }
  }

  /** The price that a supported rounding quantizes: in range exactly when a price results, and then orders for shares
      are exact and market BUYs never fall below one price unit. */
  lemma QuantizedOrdersAreExact(units: nat, tick: string, side: Side, size: nat)
    requires RoundingFor(tick).Ok?
    ensures var quantized := QuantizedPrice(units, RoundingFor(tick).value);
      && (quantized.Ok? <==> 0 < units < Pow10(RoundingFor(tick).value.priceDecimals))
      && (quantized.Ok? ==>
            && Fits(quantized.value) && quantized.value.units == units
            && var amount := AmountToMicroUnits(size, quantized.value.rounding.sizeDecimals);
               amount.Ok? ==>
                 && AmountsForShares(side, size, quantized.value).Ok?
                 && (MarketAmounts(side, size, quantized.value).Err? ==>
                       MarketAmounts(side, size, quantized.value).error == Overflow))
  {
    TickTable(tick);
    var quantized := QuantizedPrice(units, RoundingFor(tick).value);
    if quantized.Ok? {
      var amount := AmountToMicroUnits(size, quantized.value.rounding.sizeDecimals);
      if amount.Ok? {
        SharesAreExact(side, size, quantized.value, amount.value);
        BuyFailsOnlyOnOverflow(size, quantized.value, amount.value);
      }
    }
  }

  predicate WholeTicks(micro: nat, tickUnits: nat, scale: nat, unit: nat)
    requires tickUnits > 0 && unit > 0
  {
    micro % unit == 0 && tickUnits <= micro / unit <= scale - tickUnits && (micro / unit) % tickUnits == 0
  }

  lemma InRange(u: nat, tickUnits: nat, scale: nat, unit: nat)
    requires unit > 0
    ensures tickUnits <= u <= scale - tickUnits
            <==> tickUnits * unit <= unit * u && unit * u <= unit * scale - tickUnits * unit
  {
    var low, high := u - tickUnits, scale - tickUnits - u;
    assert unit * low == unit * u - tickUnits * unit;
    assert unit * high == unit * scale - tickUnits * unit - unit * u;
    assert low >= 0 <==> unit * low >= 0;
    assert high >= 0 <==> unit * high >= 0;
  }

  lemma TicksAreMultiples(micro: nat, tickUnits: nat, scale: nat, unit: nat, t: nat)
    requires tickUnits > 0 && unit > 0 && unit * scale == 1_000_000 && t == tickUnits * unit && t > 0
    requires WholeTicks(micro, tickUnits, scale, unit)
    ensures TickMultiple(micro, t)
  {
    var u := micro / unit;
    var w := u / tickUnits;
    assert micro == unit * u && u == tickUnits * w;
    assert unit * (tickUnits * w) == t * w;
    DivideBy(t, w);
    InRange(u, tickUnits, scale, unit);
  }

  lemma MultiplesAreTicks(micro: nat, tickUnits: nat, scale: nat, unit: nat, t: nat)
    requires tickUnits > 0 && unit > 0 && unit * scale == 1_000_000 && t == tickUnits * unit && t > 0
    requires TickMultiple(micro, t)
    ensures WholeTicks(micro, tickUnits, scale, unit)
  {
    var w := micro / t;
    var u := tickUnits * w;
    assert micro == t * w;
    assert unit * (tickUnits * w) == t * w;
    DivideBy(unit, u);
    DivideBy(tickUnits, w);
    InRange(u, tickUnits, scale, unit);
  }

  lemma SameValue(micro: nat, scale: nat, unit: nat)
    requires unit > 0 && unit * scale == 1_000_000 && micro % unit == 0
    ensures (micro / unit) * 1_000_000 == micro * scale
  {
    var u := micro / unit;
    assert micro == unit * u;
    assert u * (unit * scale) == (unit * u) * scale;
  }
}
