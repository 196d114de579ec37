/** The simulated fill of a market order over the levels up to its limit price (src/market_price.cpp). */
module DepthEstimate {
  import opened Wrappers
  import opened Arithmetic
  import opened DepthArithmetic
  import opened OrderAmounts
  import opened MarketDepth

  datatype Estimate = Estimate(price: nat, fullyFillable: bool, levels: nat, shares: nat, collateral: nat)

  datatype Fill = Fill(shares: nat, collateral: nat, partial: bool)

  datatype Walk = Walk(levels: nat, shares: nat, collateral: nat, remaining: nat)

  /** What one level gives: a BUY pays each level's cost rounded up, a SELL receives its proceeds rounded down. */
  function FillOf(side: Side, level: Level, remaining: nat): Fill
    requires level.price > 0
  {
    if side.Buy? then
      var cost := CeilDiv(level.size * level.price, DEPTH_SCALE);
      if remaining < cost then Fill(FloorDiv(remaining * DEPTH_SCALE, level.price), remaining, true)
      else Fill(level.size, cost, false)
    else
      var shares := Min(remaining, level.size);
      Fill(shares, shares * level.price / DEPTH_SCALE, false)
  }

  function AfterFill(side: Side, level: Level, w: Walk): Walk
    requires level.price > 0
  {
    var fill := FillOf(side, level, w.remaining);
    var used := if side.Buy? then fill.collateral else fill.shares;
    Walk(if fill.shares != 0 then w.levels + 1 else w.levels, w.shares + fill.shares, w.collateral + fill.collateral,
         if used <= w.remaining then w.remaining - used else 0)
  }

  predicate Priced(levels: seq<Level>, side: Side, limit: nat) {
    forall level :: level in levels && !Better(side, limit, level.price) ==> 0 < level.price < DEPTH_SCALE
  }

  /** The fill of the levels from the best on, until the limit price, a partial level or nothing remaining ends it. */
  function Filled(ordered: seq<Level>, side: Side, limit: nat, w: Walk): Walk
    requires Priced(ordered, side, limit)
  {
    if ordered == [] || Better(side, limit, ordered[0].price) then w
    else
      var next := AfterFill(side, ordered[0], w);
      if FillOf(side, ordered[0], w.remaining).partial || next.remaining == 0 then next
      else Filled(ordered[1..], side, limit, next)
  }

  /** What filling every level at the limit or better takes: collateral for a BUY, shares for a SELL. */
  function Need(levels: seq<Level>, side: Side, limit: nat): nat {
    Depth(levels, side, if side.Buy? then Cost else Shares, limit)
  }

  /** Rounded up level by level, the cost is at least the true one. */
  lemma {:induction false} NeedCoversDepth(levels: seq<Level>, side: Side, limit: nat)
    ensures Depth(levels, side, Cost, limit) * DEPTH_SCALE >= Depth(levels, side, Value, limit)
  {
    if levels != [] {
      NeedCoversDepth(levels[1..], side, limit);
    }
  }

  // ----- conservation -----

  /** The part of the maker amount that is used. */
  function Used(side: Side, w: Walk): nat {
    if side.Buy? then w.collateral else w.shares
  }

  /** Used plus remaining never changes, and the walk uses all that the levels up to the limit can take. */
  lemma {:induction false} FillConserves(ordered: seq<Level>, side: Side, limit: nat, w: Walk)
    requires BestFirst(ordered, side) && Priced(ordered, side, limit) && w.remaining > 0
    ensures var end := Filled(ordered, side, limit, w);
      && Used(side, end) + end.remaining == Used(side, w) + w.remaining
      && Used(side, end) - Used(side, w) == Min(w.remaining, Need(ordered, side, limit))
  {
    if ordered == [] {
    } else if Better(side, limit, ordered[0].price) {
      AllWorse(ordered, side, if side.Buy? then Cost else Shares, limit);
    } else {
      assert ordered[0] in ordered;
      var next := AfterFill(side, ordered[0], w);
      if !FillOf(side, ordered[0], w.remaining).partial && next.remaining != 0 {
        FillConserves(ordered[1..], side, limit, next);
      }
    }
  }

  // ----- rounding -----

  lemma BuyFillRounds(level: Level, remaining: nat, limit: nat)
    requires 0 < level.price < DEPTH_SCALE && level.price <= limit && remaining > 0
    ensures var fill := FillOf(Buy, level, remaining);
      && (fill.shares == 0 ==> fill.collateral == 0)
      && (fill.shares > 0 ==> fill.collateral * DEPTH_SCALE < limit * fill.shares + DEPTH_SCALE)
      && fill.shares <= level.size
  {
    var price := level.price;
    var fill := FillOf(Buy, level, remaining);
    MulMonotone(price, limit, fill.shares);
    if fill.partial {
      PartialIsSmaller(level.size, price, remaining);
      var n := remaining * DEPTH_SCALE;
      assert n == price * (n / price) + n % price;
      QuotientTest(1, n, price);
    } else {
      assert level.size * price == price * level.size;
    }
  }

  lemma SellFillRounds(level: Level, remaining: nat, limit: nat)
    requires 0 < level.price < DEPTH_SCALE && limit <= level.price
    ensures var fill := FillOf(Sell, level, remaining);
      && (fill.shares == 0 ==> fill.collateral == 0)
      && fill.collateral * DEPTH_SCALE + DEPTH_SCALE > limit * fill.shares
      && fill.shares <= level.size && fill.collateral <= fill.shares
  {
    var fill := FillOf(Sell, level, remaining);
    MulMonotone(limit, level.price, fill.shares);
    assert fill.shares * level.price == level.price * fill.shares;
    MulMonotone(level.price, DEPTH_SCALE, fill.shares);
  }

  /** Between the whole fill and its exact value at the limit price lies less than one unit per level: a BUY pays
      less than that above the limit price times the shares, a SELL receives less than that below it. */
  ghost predicate RoundsPerLevel(side: Side, limit: nat, before: Walk, after: Walk) {
    && before.levels <= after.levels && before.shares <= after.shares && before.collateral <= after.collateral
    && (before.levels == after.levels ==> before.shares == after.shares && before.collateral == after.collateral)
    && var levels, shares, collateral := after.levels - before.levels, after.shares - before.shares,
                                         after.collateral - before.collateral;
       levels > 0 ==>
         if side.Buy? then collateral * DEPTH_SCALE < limit * shares + levels * DEPTH_SCALE
         else collateral * DEPTH_SCALE + levels * DEPTH_SCALE > limit * shares
  }

  lemma RoundsOnce(side: Side, level: Level, limit: nat, w: Walk)
    requires 0 < level.price < DEPTH_SCALE && !Better(side, limit, level.price) && w.remaining > 0
    ensures RoundsPerLevel(side, limit, w, AfterFill(side, level, w))
    ensures AfterFill(side, level, w).shares - w.shares <= level.size
  {
    if side.Buy? {
      BuyFillRounds(level, w.remaining, limit);
    } else {
      SellFillRounds(level, w.remaining, limit);
    }
  }

  lemma RoundsJoin(side: Side, limit: nat, a: Walk, b: Walk, c: Walk)
    requires RoundsPerLevel(side, limit, a, b) && RoundsPerLevel(side, limit, b, c)
    ensures RoundsPerLevel(side, limit, a, c)
  {
    assert limit * (c.shares - a.shares) == limit * (b.shares - a.shares) + limit * (c.shares - b.shares);
  }

  lemma {:induction false} FillRoundsPerLevel(ordered: seq<Level>, side: Side, limit: nat, w: Walk)
    requires Priced(ordered, side, limit) && w.remaining > 0
    ensures RoundsPerLevel(side, limit, w, Filled(ordered, side, limit, w))
  {
    if ordered == [] || Better(side, limit, ordered[0].price) {
      assert limit * 0 == 0;
    } else {
      assert ordered[0] in ordered;
      RoundsOnce(side, ordered[0], limit, w);
      var next := AfterFill(side, ordered[0], w);
      if !FillOf(side, ordered[0], w.remaining).partial && next.remaining != 0 {
        FillRoundsPerLevel(ordered[1..], side, limit, next);
        RoundsJoin(side, limit, w, next, Filled(ordered[1..], side, limit, next));
      }
    }
  }

  // ----- what the levels give, in numbers -----

  /** What was taken from one level. */
  datatype Bill = Bill(shares: nat, collateral: nat)

  /** A SELL gives what remains, up to the size of the level, for its value rounded down. A BUY that can pay the whole
      level takes it for its value rounded up; one that cannot spends all that remains, on the most shares whose value
      it covers. */
  predicate Gives(side: Side, level: Level, remaining: nat, bill: Bill) {
    var value := bill.shares * level.price;
    if side.Sell? then
      && bill.shares == Min(remaining, level.size)
      && bill.collateral * 1_000_000 <= value < (bill.collateral + 1) * 1_000_000
    else if level.size * level.price <= remaining * 1_000_000 then
      && bill.shares == level.size
      && value <= bill.collateral * 1_000_000 < value + 1_000_000
    else
      && bill.collateral == remaining
      && value <= remaining * 1_000_000 < value + level.price
  }

  function BillOf(side: Side, level: Level, remaining: nat): Bill
    requires level.price > 0
  {
    Bill(FillOf(side, level, remaining).shares, FillOf(side, level, remaining).collateral)
  }

  lemma FillGives(side: Side, level: Level, remaining: nat)
    requires 0 < level.price < DEPTH_SCALE
    ensures Gives(side, level, remaining, BillOf(side, level, remaining))
  {
    var value := level.size * level.price;
    if side.Buy? && remaining < CeilDiv(value, DEPTH_SCALE) {
      BelowCost(remaining, value);
      var n := remaining * DEPTH_SCALE;
      assert n == level.price * (n / level.price) + n % level.price;
    }
  }

  /** The part of the maker amount that the bills use up. */
  function Paid(side: Side, bills: seq<Bill>): nat {
    if bills == [] then 0
    else (if side.Buy? then bills[0].collateral else bills[0].shares) + Paid(side, bills[1..])
  }

  function BilledShares(bills: seq<Bill>): nat {
    if bills == [] then 0 else bills[0].shares + BilledShares(bills[1..])
  }

  function BilledCollateral(bills: seq<Bill>): nat {
    if bills == [] then 0 else bills[0].collateral + BilledCollateral(bills[1..])
  }

  function Filling(bills: seq<Bill>): nat {
    if bills == [] then 0 else (if bills[0].shares > 0 then 1 else 0) + Filling(bills[1..])
  }

  /** One bill for each visited level, each for what the earlier ones left of the maker amount, until nothing is left
      or the levels up to the limit are used up. */
  ghost predicate Receipt(visited: seq<Level>, side: Side, limit: nat, maker: nat, bills: seq<Bill>) {
    && |bills| <= |visited|
    && (forall i :: 0 <= i < |bills| ==> BilledAt(visited, side, limit, maker, bills, i))
    && (Paid(side, bills) == maker || |bills| == |visited| || Beyond(side, limit, visited[|bills|].price))
  }

  ghost predicate BilledAt(visited: seq<Level>, side: Side, limit: nat, maker: nat, bills: seq<Bill>, i: nat)
    requires i < |bills| <= |visited|
  {
    && !Beyond(side, limit, visited[i].price)
    && Paid(side, bills[..i]) < maker
    && Gives(side, visited[i], maker - Paid(side, bills[..i]), bills[i])
  }

  lemma FirstBill(visited: seq<Level>, side: Side, limit: nat, maker: nat, first: Bill, rest: seq<Bill>)
    requires visited != [] && !Beyond(side, limit, visited[0].price) && maker > 0
    requires Gives(side, visited[0], maker, first)
    requires var used := if side.Buy? then first.collateral else first.shares;
      used <= maker && Receipt(visited[1..], side, limit, maker - used, rest)
    ensures Receipt(visited, side, limit, maker, [first] + rest)
  {
    var bills, used := [first] + rest, if side.Buy? then first.collateral else first.shares;
    hide Gives;
    assert bills[1..] == rest;
    forall i | 0 <= i < |bills| ensures BilledAt(visited, side, limit, maker, bills, i) {
      if i > 0 {
        assert bills[..i][1..] == rest[..i - 1];
        assert BilledAt(visited[1..], side, limit, maker - used, rest, i - 1);
      }
    }
  }

  /** The bills of the walk. */
  ghost function Bills(ordered: seq<Level>, side: Side, limit: nat, w: Walk): seq<Bill>
    requires Priced(ordered, side, limit)
  {
    if ordered == [] || Better(side, limit, ordered[0].price) then []
    else
      var next, first := AfterFill(side, ordered[0], w), BillOf(side, ordered[0], w.remaining);
      if FillOf(side, ordered[0], w.remaining).partial || next.remaining == 0 then [first]
      else [first] + Bills(ordered[1..], side, limit, next)
  }

  lemma AfterBill(side: Side, level: Level, w: Walk)
    requires 0 < level.price < DEPTH_SCALE && w.remaining > 0
    ensures var next, bill := AfterFill(side, level, w), BillOf(side, level, w.remaining);
      && Gives(side, level, w.remaining, bill)
      && next == Walk(w.levels + (if bill.shares > 0 then 1 else 0), w.shares + bill.shares,
                      w.collateral + bill.collateral, next.remaining)
      && (if side.Buy? then bill.collateral else bill.shares) + next.remaining == w.remaining
      && (FillOf(side, level, w.remaining).partial ==> next.remaining == 0)
  {
    FillGives(side, level, w.remaining);
  }

  lemma {:induction false} FillIsBilled(ordered: seq<Level>, side: Side, limit: nat, w: Walk)
    requires Priced(ordered, side, limit) && w.remaining > 0
    ensures var end, bills := Filled(ordered, side, limit, w), Bills(ordered, side, limit, w);
      && Receipt(ordered, side, limit, w.remaining, bills)
      && end.levels == w.levels + Filling(bills) && end.shares == w.shares + BilledShares(bills)
      && end.collateral == w.collateral + BilledCollateral(bills)
  {
    hide FillOf, AfterFill, BillOf, Gives;
    if ordered == [] || Better(side, limit, ordered[0].price) {
      assert Receipt(ordered, side, limit, w.remaining, []);
    } else {
      assert ordered[0] in ordered;
      var next, first := AfterFill(side, ordered[0], w), BillOf(side, ordered[0], w.remaining);
      AfterBill(side, ordered[0], w);
      var rest := [];
      if FillOf(side, ordered[0], w.remaining).partial || next.remaining == 0 {
        assert Receipt(ordered[1..], side, limit, 0, []);
      } else {
        FillIsBilled(ordered[1..], side, limit, next);
        rest := Bills(ordered[1..], side, limit, next);
      }
      FirstBill(ordered, side, limit, w.remaining, first, rest);
      assert ([first] + rest)[1..] == rest;
      assert rest == [] ==> [first] + rest == [first];
    }
  }

  /** The value of the shares billed at each level's own price. */
  function BilledValue(visited: seq<Level>, bills: seq<Bill>): nat
    requires |bills| <= |visited|
  {
    if bills == [] then 0
    else bills[0].shares * visited[0].price + BilledValue(visited[1..], bills[1..])
  }

  predicate RoundedBill(side: Side, level: Level, bill: Bill) {
    var value, collateral := bill.shares * level.price, bill.collateral * 1_000_000;
    if side.Sell? then collateral <= value < collateral + 1_000_000 else value <= collateral < value + 1_000_000
  }

  lemma {:induction false} BillsRound(visited: seq<Level>, side: Side, bills: seq<Bill>)
    requires |bills| <= |visited|
    requires forall i :: 0 <= i < |bills| ==> RoundedBill(side, visited[i], bills[i])
    ensures var value, collateral := BilledValue(visited, bills), BilledCollateral(bills) * 1_000_000;
      if side.Sell? then collateral <= value <= collateral + |bills| * 1_000_000
      else value <= collateral <= value + |bills| * 1_000_000
  {
    if bills != [] {
      assert forall i :: 0 <= i < |bills[1..]| ==> bills[1..][i] == bills[i + 1] && visited[1..][i] == visited[i + 1];
      BillsRound(visited[1..], side, bills[1..]);
      assert RoundedBill(side, visited[0], bills[0]);
    }
  }

  /** A SELL never receives more than its shares are worth at the prices of their levels, and a BUY never pays less;
      the difference is at most one unit for each level. */
  lemma ReceiptRounds(visited: seq<Level>, side: Side, limit: nat, maker: nat, bills: seq<Bill>)
    requires Receipt(visited, side, limit, maker, bills)
    requires forall i :: 0 <= i < |bills| ==> visited[i].price <= 1_000_000
    ensures var value, collateral := BilledValue(visited, bills), BilledCollateral(bills) * 1_000_000;
      if side.Sell? then collateral <= value <= collateral + |bills| * 1_000_000
      else value <= collateral <= value + |bills| * 1_000_000
  {
    forall i | 0 <= i < |bills| ensures RoundedBill(side, visited[i], bills[i]) {
      assert BilledAt(visited, side, limit, maker, bills, i);
    }
    BillsRound(visited, side, bills);
  }

  // ----- the estimate -----

  lemma LimitIsPriced(levels: seq<Level>, ordered: seq<Level>, side: Side, amount: nat, tick: string, limit: Limit)
    requires levels != [] && multiset(levels) == multiset(ordered)
    requires IsDepthLimit(levels, side, amount, tick, Ok(limit))
    ensures Priced(ordered, side, limit.price)
    ensures MakerAt(side, amount, tick, limit.price).Ok?
  {
    forall level | level in ordered && !Better(side, limit.price, level.price)
      ensures 0 < level.price < DEPTH_SCALE
    {
      assert level in multiset(levels);
      assert HasPrice(levels, level.price);
      assert MakerAt(side, amount, tick, level.price).Ok? by {
        if Better(side, level.price, limit.price) {
          assert VerdictAt(levels, side, amount, tick, level.price) == Short;
        } else {
          assert level.price == limit.price;
        }
      }
    }
  }

  /** A covered limit can take the whole order. */
  lemma CoveredMeetsNeed(levels: seq<Level>, side: Side, amount: nat, tick: string, limit: Limit)
    requires levels != [] && IsDepthLimit(levels, side, amount, tick, Ok(limit))
    requires limit.fullyFillable && MakerAt(side, amount, tick, limit.price).Ok?
    ensures Need(levels, side, limit.price) >= MakerAt(side, amount, tick, limit.price).value
  {
    NeedCoversDepth(levels, side, limit.price);
  }

  /** What the estimate promises for a maker amount, without reference to the order of the book. */
  ghost predicate EstimateOf(levels: seq<Level>, side: Side, maker: nat, limit: Limit, e: Estimate) {
    && e.price == limit.price && e.fullyFillable == limit.fullyFillable
    && Used(side, Walk(e.levels, e.shares, e.collateral, 0)) == Min(maker, Need(levels, side, limit.price))
    && (e.fullyFillable ==> Used(side, Walk(e.levels, e.shares, e.collateral, 0)) == maker)
    && RoundsPerLevel(side, limit.price, Walk(0, 0, 0, maker), Walk(e.levels, e.shares, e.collateral, 0))
  }

  lemma WalkIsEstimate(levels: seq<Level>, ordered: seq<Level>, side: Side, amount: nat, tick: string, limit: Limit,
                       maker: nat, end: Walk)
    requires levels != [] && multiset(levels) == multiset(ordered) && BestFirst(ordered, side)
    requires IsDepthLimit(levels, side, amount, tick, Ok(limit)) && maker > 0
    requires MakerAt(side, amount, tick, limit.price) == Ok(maker)
    requires Priced(ordered, side, limit.price) && end == Filled(ordered, side, limit.price, Walk(0, 0, 0, maker))
    ensures EstimateOf(levels, side, maker, limit,
                       Estimate(limit.price, limit.fullyFillable, end.levels, end.shares, end.collateral))
    ensures Used(side, end) + end.remaining == maker
  {
    FillConserves(ordered, side, limit.price, Walk(0, 0, 0, maker));
    FillRoundsPerLevel(ordered, side, limit.price, Walk(0, 0, 0, maker));
    DepthPermuted(levels, ordered, side, if side.Buy? then Cost else Shares, limit.price);
    if limit.fullyFillable {
      CoveredMeetsNeed(levels, side, amount, tick, limit);
    }
  }

  lemma MakerIsPositive(side: Side, amount: nat, tick: string, p: nat)
    requires MakerAt(side, amount, tick, p).Ok?
    ensures MakerAt(side, amount, tick, p).value > 0
  {
    ValidPricesAreTickMultiples(p, tick);
  }

  /** One level of the fill with the source's 64-bit arithmetic; None where it throws out_of_range. */
  method FillLevel(side: Side, level: Level, w: Walk) returns (r: Option<Walk>, partial: bool)
    requires 0 < level.price < DEPTH_SCALE && level.size <= UINT64_MAX
    requires 0 < w.remaining && Used(side, w) + w.remaining <= UINT64_MAX && w.shares <= UINT64_MAX
    requires side.Sell? ==> w.collateral <= w.shares
    ensures r.Some? ==>
      && r.value == AfterFill(side, level, w) && partial == FillOf(side, level, w.remaining).partial
      && r.value.shares <= UINT64_MAX && r.value.shares <= w.shares + level.size
      && Used(side, r.value) + r.value.remaining == Used(side, w) + w.remaining
      && w.shares <= r.value.shares && w.collateral <= r.value.collateral
      && Gives(side, level, w.remaining, Bill(r.value.shares - w.shares, r.value.collateral - w.collateral))
      && (side.Sell? ==> r.value.collateral <= r.value.shares)
    ensures r.None? ==> level.size > UINT64_MAX - DEPTH_SCALE || w.shares + level.size > UINT64_MAX
  {
    hide Gives;
    var shares, collateral, remaining := 0, 0, w.remaining;
    AfterBill(side, level, w);
    RoundsOnce(side, level, level.price, w);
    partial := false;
    if side.Buy? {
      CollateralIsExact(level.size, level.price, true);
      var cost := CollateralFor(level.size, level.price, true).value;
      partial := remaining < cost;
      if partial {
        PartialIsSmaller(level.size, level.price, remaining);
        var bought := SharesFor(remaining, level.price);
        if bought.None? {
          return None, true;
        }
        SharesForIsMost(remaining, level.price);
        SharesAreFloor(remaining, level.price);
        CollateralIsExact(bought.value, level.price, true);
        shares, collateral := bought.value, CollateralFor(bought.value, level.price, true).value;
      } else {
        shares, collateral := level.size, cost;
      }
      remaining := remaining - collateral;
    } else {
      shares := Min(remaining, level.size);
      CollateralIsExact(shares, level.price, false);
      collateral := CollateralFor(shares, level.price, false).value;
      remaining := remaining - shares;
    }
    assert FillOf(side, level, w.remaining) == Fill(shares, collateral, partial);
    if shares == 0 {
      return Some(w.(remaining := remaining)), partial;
    }
    if shares > UINT64_MAX - w.shares || collateral > UINT64_MAX - w.collateral {
      return None, partial;
    }
    return Some(Walk(w.levels + 1, w.shares + shares, w.collateral + collateral, remaining)), partial;
  }

  /** The walk of estimate_market_depth. */
  method FillWalk(ordered: seq<Level>, side: Side, limit: nat, maker: nat) returns (r: Option<Walk>)
    requires Priced(ordered, side, limit) && Sizes64(ordered) && 0 < maker <= UINT64_MAX
    ensures r.Some? ==> r.value == Filled(ordered, side, limit, Walk(0, 0, 0, maker))
    ensures r.None? ==> TotalWeight(ordered, Shares) > UINT64_MAX - DEPTH_SCALE
  {
    var w := Walk(0, 0, 0, maker);
    for i := 0 to |ordered|
      invariant Filled(ordered, side, limit, Walk(0, 0, 0, maker)) == Filled(ordered[i..], side, limit, w)
      invariant w.remaining > 0 && Used(side, w) + w.remaining == maker
      invariant w.shares <= UINT64_MAX && w.shares <= TotalWeight(ordered[..i], Shares)
      invariant side.Sell? ==> w.collateral <= w.shares
    {
      if Better(side, limit, ordered[i].price) {
        return Some(w);
      }
      assert ordered[i] in ordered && ordered[i..][0] == ordered[i] && ordered[i..][1..] == ordered[i + 1..];
      assert ordered[..i + 1][..i] == ordered[..i];
      var next, partial := FillLevel(side, ordered[i], w);
      if next.None? {
        SharesGrow(ordered, i + 1);
        return None;
      }
      w := next.value;
      if partial || w.remaining == 0 {
        return Some(w);
      }
    }
    return Some(w);
  }

  lemma {:induction false} SharesGrow(levels: seq<Level>, n: nat)
    requires n <= |levels|
    ensures TotalWeight(levels[..n], Shares) <= TotalWeight(levels, Shares)
  {
    if n == |levels| {
      assert levels[..n] == levels;
    } else {
      var front := levels[..|levels| - 1];
      assert front[..n] == levels[..n];
      SharesGrow(front, n);
    }
  }

  /** The estimate adds up the bills of the levels, visited in this order, best price first. */
  ghost predicate RecordsFill(levels: seq<Level>, visited: seq<Level>, bills: seq<Bill>, side: Side, maker: nat,
                              limit: Limit, e: Estimate)
  {
    && multiset(visited) == multiset(levels)
    && (forall i, j :: 0 <= i < j < |visited| ==> !Beyond(side, visited[j].price, visited[i].price))
    && Receipt(visited, side, limit.price, maker, bills)
    && e == Estimate(limit.price, limit.fullyFillable, Filling(bills), BilledShares(bills), BilledCollateral(bills))
  }

  lemma EstimateRecordsFill(levels: seq<Level>, visited: seq<Level>, side: Side, maker: nat, limit: Limit, w: Walk)
    requires multiset(visited) == multiset(levels) && BestFirst(visited, side) && maker > 0
    requires Priced(visited, side, limit.price) && w == Filled(visited, side, limit.price, Walk(0, 0, 0, maker))
    ensures RecordsFill(levels, visited, Bills(visited, side, limit.price, Walk(0, 0, 0, maker)), side, maker, limit,
                        Estimate(limit.price, limit.fullyFillable, w.levels, w.shares, w.collateral))
  {
    hide Receipt, Filled, Bills;
    FillIsBilled(visited, side, limit.price, Walk(0, 0, 0, maker));
  }

  /** What the estimate is for a depth limit: the limit's error, a fill of the order signed at its price, or an
      overflow, which needs a book of nearly 2^64 share units. */
  ghost predicate EstimatedAt(levels: seq<Level>, side: Side, amount: nat, tick: string,
                              limit: Result<Limit, DepthError>, r: Result<Estimate, DepthError>)
  {
    match limit
    case Err(e) => r == Err(e)
    case Ok(found) =>
      && MakerAt(side, amount, tick, found.price).Ok?
      && var maker := MakerAt(side, amount, tick, found.price).value;
         match r
         case Ok(e) =>
           && EstimateOf(levels, side, maker, found, e)
           && exists visited, bills :: RecordsFill(levels, visited, bills, side, maker, found, e)
         case Err(error) => error == FillOverflow && Depth(levels, Sell, Shares, 0) > UINT64_MAX - DEPTH_SCALE
  }

  ghost predicate IsDepthEstimate(levels: seq<Level>, side: Side, amount: nat, tick: string,
                                  r: Result<Estimate, DepthError>)
  {
    exists limit :: IsDepthLimit(levels, side, amount, tick, limit) && EstimatedAt(levels, side, amount, tick, limit, r)
  }

  /** estimate_market_depth, without the average price. Spent and remaining always make up the signed maker amount;
      an overflow is reported only when the book holds nearly 2^64 share units. */
  method EstimateMarketDepth(levels: seq<Level>, side: Side, amount: nat, tick: string)
    returns (r: Result<Estimate, DepthError>)
    requires Sizes64(levels)
    ensures IsDepthEstimate(levels, side, amount, tick, r)
  {
    hide IsDepthLimit, MakerAt, EstimateOf, Filled, Depth, BestFirst, RecordsFill;
    var limit := FindDepthLimit(levels, side, amount, tick);
    if limit.Err? {
      r := Err(limit.error);
      assert EstimatedAt(levels, side, amount, tick, limit, r);
      return;
    }
    var found := limit.value;
    var ordered := VisitOrder(levels, side);
    SameSizes(ordered, levels);
    LimitNeedsLevels(levels, side, amount, tick, found);
    LimitIsPriced(levels, ordered, side, amount, tick, found);
    var order := MakerAt(side, amount, tick, found.price);
    MakerIsPositive(side, amount, tick, found.price);
    var w := FillWalk(ordered, side, found.price, order.value);
    if w.None? {
      NoneWorse(ordered, Sell, Shares, 0) by {
        NeverWorseThanFree(ordered);
      }
      DepthPermuted(levels, ordered, Sell, Shares, 0);
      r := Err(FillOverflow);
    } else {
      WalkIsEstimate(levels, ordered, side, amount, tick, found, order.value, w.value);
      r := Ok(Estimate(found.price, found.fullyFillable, w.value.levels, w.value.shares, w.value.collateral));
      EstimateRecordsFill(levels, ordered, side, order.value, found, w.value);
    }
    assert EstimatedAt(levels, side, amount, tick, limit, r);
  }

  lemma NeverWorseThanFree(levels: seq<Level>)
    ensures forall i :: 0 <= i < |levels| ==> !Better(Sell, 0, levels[i].price)
  {
  }

  /** Price, fully_fillable and what is spent of the order are the same for every order of the book. */
  lemma SpendingIgnoresOrder(a: seq<Level>, b: seq<Level>, side: Side, amount: nat, tick: string, ea: Estimate,
                             eb: Estimate)
    requires multiset(a) == multiset(b)
    requires IsDepthEstimate(a, side, amount, tick, Ok(ea)) && IsDepthEstimate(b, side, amount, tick, Ok(eb))
    ensures ea.price == eb.price && ea.fullyFillable == eb.fullyFillable
    ensures if side.Buy? then ea.collateral == eb.collateral else ea.shares == eb.shares
  {
    hide IsDepthLimit, MakerAt, RoundsPerLevel, RecordsFill;
    var la :| IsDepthLimit(a, side, amount, tick, la) && EstimatedAt(a, side, amount, tick, la, Ok(ea));
    var lb :| IsDepthLimit(b, side, amount, tick, lb) && EstimatedAt(b, side, amount, tick, lb, Ok(eb));
    LimitIgnoresOrder(a, b, side, amount, tick, la, lb);
    DepthPermuted(a, b, side, if side.Buy? then Cost else Shares, la.value.price);
  }

  lemma LimitNeedsLevels(levels: seq<Level>, side: Side, amount: nat, tick: string, limit: Limit)
    requires IsDepthLimit(levels, side, amount, tick, Ok(limit))
    ensures levels != []
  {
  }

  /** Spending the whole order and being fully fillable are the same for every estimate, except where the exact depth
      at the limit falls short of the order although its cost, rounded up level by level, reaches it; and a SELL has
      no such exception. */
  lemma SpentMeansFillableIff(levels: seq<Level>, side: Side, amount: nat, tick: string, e: Estimate)
    requires IsDepthEstimate(levels, side, amount, tick, Ok(e))
    ensures MakerAt(side, amount, tick, e.price).Ok?
    ensures var maker := MakerAt(side, amount, tick, e.price).value;
      var spent := Used(side, Walk(e.levels, e.shares, e.collateral, 0)) == maker;
      var short := !Reaches(side, Depth(levels, side, MeasureOf(side), e.price), maker);
      && (e.fullyFillable ==> spent)
      && ((spent <==> e.fullyFillable) <==> !(short && maker <= Need(levels, side, e.price)))
      && (side.Sell? ==> (spent <==> e.fullyFillable))
  {
    hide MakerAt, RoundsPerLevel, RecordsFill, Depth;
    var limit :| IsDepthLimit(levels, side, amount, tick, limit)
                 && EstimatedAt(levels, side, amount, tick, limit, Ok(e));
    assert VerdictAt(levels, side, amount, tick, e.price) == if e.fullyFillable then Covered else Short;
  }

  lemma OneCentAtHalf()
    ensures MakerAt(Buy, 1, "0.01", 500_000) == Ok(10_000)
  {
    assert Pow10(2) == 100;
    PowAdds(10, 2, 2);
    assert ValidatePrice(500_000, "0.01") == Ok(Price(50, 100, Rounding(2, 2, 4, 1)));
    assert Gcd(50, 100) == 50 by {
      assert Gcd(50, 100) == Gcd(100, 50) == Gcd(50, 0);
    }
  }

  /** A BUY can spend its whole budget although it is not fully fillable: one cent at a price of one half, a level
      of one share unit and one of 19998. They cost 1 and 9999 units, their exact value is 9999 and a half. */
  lemma SpendingAllIsNotFullyFillable()
    ensures var levels := [Level(500_000, 1), Level(500_000, 19_998)];
      && MakerAt(Buy, 1, "0.01", 500_000) == Ok(10_000)
      && IsDepthLimit(levels, Buy, 1, "0.01", Ok(Limit(500_000, false)))
      && Need(levels, Buy, 500_000) == 10_000
  {
    OneCentAtHalf();
    hide MakerAt;
    var levels := [Level(500_000, 1), Level(500_000, 19_998)];
    assert levels[1..] == [levels[1]] && levels[1..][1..] == [];
    assert Depth(levels, Buy, Value, 500_000) == 9_999_500_000;
    assert levels[0] in levels;
    assert Need(levels, Buy, 500_000) == 10_000;
  }
}
