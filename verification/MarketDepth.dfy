/** The best-first walk over one side of a book, and the limit price it finds (src/market_price.cpp). */
module MarketDepth {
  import opened Wrappers
  import opened Arithmetic
  import opened DepthArithmetic
  import opened OrderAmounts

  datatype Level = Level(price: nat, size: nat)

  datatype DepthError = NoOrders | InvalidLevel | Refused(error: AmountError) | FillOverflow | InsufficientDepth

  datatype Limit = Limit(price: nat, fullyFillable: bool)

  predicate Better(side: Side, left: nat, right: nat) {
    if side.Buy? then left < right else left > right
  }

  predicate BestFirst(levels: seq<Level>, side: Side) {
    forall i, j :: 0 <= i < j < |levels| ==> !Better(side, levels[j].price, levels[i].price)
  }

  predicate Sizes64(levels: seq<Level>) {
    forall level :: level in levels ==> level.size <= UINT64_MAX
  }

  /** The price lies beyond the limit. */
  predicate Beyond(side: Side, limit: nat, price: nat) {
    if side.Buy? then price > limit else price < limit
  }

  // ----- the order of the walk -----

  method IsSorted(levels: seq<Level>, side: Side) returns (sorted: bool)
    ensures sorted <==> BestFirst(levels, side)
  {
    if levels == [] {
      return true;
    }
    for i := 1 to |levels|
      invariant BestFirst(levels[..i], side)
    {
      if Better(side, levels[i].price, levels[i - 1].price) {
        return false;
      }
    }
    assert levels[..|levels|] == levels;
    return true;
  }

  method Reversed(levels: seq<Level>) returns (reversed: seq<Level>)
    ensures multiset(reversed) == multiset(levels)
  {
    reversed := [];
    for i := 0 to |levels|
      invariant multiset(reversed) == multiset(levels[..i])
    {
      assert levels[..i + 1] == levels[..i] + [levels[i]];
      reversed := [levels[i]] + reversed;
    }
    assert levels[..|levels|] == levels;
  }

  lemma InsertKeepsOrder(sorted: seq<Level>, level: Level, side: Side, k: nat)
    requires BestFirst(sorted, side) && k <= |sorted|
    requires forall j :: 0 <= j < k ==> !Better(side, level.price, sorted[j].price)
    requires k < |sorted| ==> !Better(side, sorted[k].price, level.price)
    ensures BestFirst(sorted[..k] + [level] + sorted[k..], side)
  {
    var longer := sorted[..k] + [level] + sorted[k..];
    forall i, j | 0 <= i < j < |longer| ensures !Better(side, longer[j].price, longer[i].price) {
      var i', j' := if i < k then i else i - 1, if j < k then j else j - 1;
      assert i != k ==> longer[i] == sorted[i'];
      assert j != k ==> longer[j] == sorted[j'];
      assert i == k ==> !Better(side, sorted[j'].price, sorted[k].price) || j' == k;
    }
  }

  /** std::sort: which of two equal prices comes first is left open. */
  method Sort(levels: seq<Level>, side: Side) returns (sorted: seq<Level>)
    ensures BestFirst(sorted, side) && multiset(sorted) == multiset(levels)
  {
    hide Better, BestFirst;
    sorted := [];
    OneOrder([], side);
    for i := 0 to |levels|
      invariant BestFirst(sorted, side) && multiset(sorted) == multiset(levels[..i])
    {
      var k := PlaceFor(sorted, levels[i], side);
      InsertKeepsOrder(sorted, levels[i], side, k);
      InsertedElements(sorted, levels[i], k);
      assert levels[..i + 1] == levels[..i] + [levels[i]];
      sorted := sorted[..k] + [levels[i]] + sorted[k..];
    }
    assert levels[..|levels|] == levels;
  }

  lemma OneOrder(levels: seq<Level>, side: Side)
    requires |levels| <= 1
    ensures BestFirst(levels, side)
  {
  }

  lemma InsertedElements(sorted: seq<Level>, level: Level, k: nat)
    requires k <= |sorted|
    ensures multiset(sorted[..k] + [level] + sorted[k..]) == multiset(sorted) + multiset{level}
  {
    assert sorted == sorted[..k] + sorted[k..];
  }

  /** A place for a level among sorted ones: before or after those of its own price. */
  method PlaceFor(sorted: seq<Level>, level: Level, side: Side) returns (k: nat)
    ensures k <= |sorted|
    ensures forall j :: 0 <= j < k ==> !Better(side, level.price, sorted[j].price)
    ensures k < |sorted| ==> !Better(side, sorted[k].price, level.price)
  {
    var behind: bool := *;
    k := 0;
    while k < |sorted| && (Better(side, sorted[k].price, level.price) || (behind && sorted[k].price == level.price))
      invariant 0 <= k <= |sorted|
      invariant forall j :: 0 <= j < k ==> !Better(side, level.price, sorted[j].price)
    {
      k := k + 1;
    }
  }

  /** The order in which visit_best_first visits the levels. */
  method VisitOrder(levels: seq<Level>, side: Side) returns (ordered: seq<Level>)
    ensures BestFirst(ordered, side) && multiset(ordered) == multiset(levels)
    ensures forall i, j :: 0 <= i < j < |ordered| ==> !Beyond(side, ordered[j].price, ordered[i].price)
  {
    var sorted := IsSorted(levels, side);
    if sorted {
      return levels;
    }
    ordered := Reversed(levels);
    sorted := IsSorted(ordered, side);
    if !sorted {
      ordered := Sort(levels, side);
    }
  }

  // ----- cumulative depth -----

  /** What is summed over levels: their shares, their exact value in millionths, or their cost rounded up. */
  datatype Measure = Shares | Value | Cost

  function Weight(m: Measure, level: Level): nat {
    match m
    case Shares => level.size
    case Value => level.size * level.price
    case Cost => CeilDiv(level.size * level.price, DEPTH_SCALE)
  }

  /** What the depth limit counts: collateral for a BUY, shares for a SELL. */
  function MeasureOf(side: Side): Measure {
    if side.Buy? then Value else Shares
  }

  /** The depth of the levels at price p or better. */
  function Depth(levels: seq<Level>, side: Side, m: Measure, p: nat): nat {
    if levels == [] then 0
    else (if Better(side, p, levels[0].price) then 0 else Weight(m, levels[0])) + Depth(levels[1..], side, m, p)
  }

  function TotalWeight(levels: seq<Level>, m: Measure): nat {
    if levels == [] then 0 else TotalWeight(levels[..|levels| - 1], m) + Weight(m, levels[|levels| - 1])
  }

  lemma {:induction false} DepthJoin(a: seq<Level>, b: seq<Level>, side: Side, m: Measure, p: nat)
    ensures Depth(a + b, side, m, p) == Depth(a, side, m, p) + Depth(b, side, m, p)
  {
    if a == [] {
      assert a + b == b;
    } else {
      assert (a + b)[1..] == a[1..] + b;
      DepthJoin(a[1..], b, side, m, p);
    }
  }

  lemma TakeOut(levels: seq<Level>, level: Level, side: Side, m: Measure, p: nat) returns (rest: seq<Level>)
    requires level in levels
    ensures multiset(rest) == multiset(levels) - multiset{level}
    ensures Depth(levels, side, m, p) == Depth([level], side, m, p) + Depth(rest, side, m, p)
  {
    var k :| 0 <= k < |levels| && levels[k] == level;
    rest := levels[..k] + levels[k + 1..];
    assert levels == levels[..k] + ([level] + levels[k + 1..]);
    DepthJoin(levels[..k], [level] + levels[k + 1..], side, m, p);
    DepthJoin([level], levels[k + 1..], side, m, p);
    DepthJoin(levels[..k], levels[k + 1..], side, m, p);
  }

  /** The depth at a price does not depend on the order of the book. */
  lemma {:induction false} DepthPermuted(a: seq<Level>, b: seq<Level>, side: Side, m: Measure, p: nat)
    requires multiset(a) == multiset(b)
    ensures Depth(a, side, m, p) == Depth(b, side, m, p)
  {
    if a == [] {
      assert |multiset(b)| == 0;
    } else {
      assert a[0] in multiset(b);
      var rest := TakeOut(b, a[0], side, m, p);
      assert a == [a[0]] + a[1..];
      assert multiset(a[1..]) == multiset(a) - multiset{a[0]};
      DepthPermuted(a[1..], rest, side, m, p);
      DepthJoin([a[0]], a[1..], side, m, p);
    }
  }

  lemma {:induction false} AllWorse(levels: seq<Level>, side: Side, m: Measure, p: nat)
    requires forall i :: 0 <= i < |levels| ==> Better(side, p, levels[i].price)
    ensures Depth(levels, side, m, p) == 0
  {
    if levels != [] {
      AllWorse(levels[1..], side, m, p);
    }
  }

  lemma {:induction false} NoneWorse(levels: seq<Level>, side: Side, m: Measure, p: nat)
    requires forall i :: 0 <= i < |levels| ==> !Better(side, p, levels[i].price)
    ensures Depth(levels, side, m, p) == TotalWeight(levels, m)
  {
    if levels != [] {
      var front, last := levels[..|levels| - 1], levels[|levels| - 1];
      NoneWorse(front, side, m, p);
      assert levels == front + [last];
      DepthJoin(front, [last], side, m, p);
    }
  }

  /** After the visit of level k the walk has seen no more than the depth at its price, and all of it at the last
      level of that price. */
  lemma SeenAt(ordered: seq<Level>, side: Side, m: Measure, k: nat)
    requires BestFirst(ordered, side) && k < |ordered|
    ensures TotalWeight(ordered[..k + 1], m) <= Depth(ordered, side, m, ordered[k].price)
    ensures k + 1 == |ordered| || ordered[k + 1].price != ordered[k].price ==>
      TotalWeight(ordered[..k + 1], m) == Depth(ordered, side, m, ordered[k].price)
  {
    var p := ordered[k].price;
    assert ordered == ordered[..k + 1] + ordered[k + 1..];
    DepthJoin(ordered[..k + 1], ordered[k + 1..], side, m, p);
    NoneWorse(ordered[..k + 1], side, m, p);
    if k + 1 == |ordered| || ordered[k + 1].price != p {
      AllWorse(ordered[k + 1..], side, m, p);
    }
  }

  // ----- what the walk decides at one price -----

  /** The maker amount of the order signed at a price, or why there is none. */
  function MakerAt(side: Side, amount: nat, tick: string, p: nat): (r: Result<nat, DepthError>)
    ensures r.Ok? ==> 0 < p < DEPTH_SCALE && r.value <= UINT64_MAX
  {
    if p == 0 || p >= DEPTH_SCALE then Err(InvalidLevel)
    else
      match ValidatePrice(p, tick)
      case Err(e) => Err(Refused(e))
      case Ok(price) =>
        ValidPricesAreTickMultiples(p, tick);
        match MarketAmounts(side, amount, price)
        case Err(e) => Err(Refused(e))
        case Ok(signed) => Ok(signed.maker)
  }

  /** Why no order can be signed at a price: it is no price below 1, or the tick or the amount is refused there. */
  lemma UnsignedBecause(side: Side, amount: nat, tick: string, p: nat)
    ensures MakerAt(side, amount, tick, p) == Err(InvalidLevel) <==> p == 0 || p >= 1_000_000
    ensures forall e :: MakerAt(side, amount, tick, p) == Err(Refused(e)) <==>
      && 0 < p < 1_000_000
      && (ValidatePrice(p, tick) == Err(e)
          || (ValidatePrice(p, tick).Ok? && ValidPrice(ValidatePrice(p, tick).value)
              && MarketAmounts(side, amount, ValidatePrice(p, tick).value) == Err(e)))
  {
    if RoundingFor(tick).Ok? {
      ValidPricesAreTickMultiples(p, tick);
    }
  }

  datatype Verdict = Failed(error: DepthError) | Short | Covered

  predicate Reaches(side: Side, total: nat, maker: nat) {
    if side.Buy? then total / DEPTH_SCALE >= maker else total >= maker
  }

  /** Whether the depth at a price covers the order signed at that price. */
  function VerdictAt(levels: seq<Level>, side: Side, amount: nat, tick: string, p: nat): Verdict {
    match MakerAt(side, amount, tick, p)
    case Err(e) => Failed(e)
    case Ok(maker) => if Reaches(side, Depth(levels, side, MeasureOf(side), p), maker) then Covered else Short
  }

  predicate HasPrice(levels: seq<Level>, p: nat) {
    exists level :: level in levels && level.price == p
  }

  ghost predicate ShortBefore(levels: seq<Level>, side: Side, amount: nat, tick: string, p: nat) {
    forall q :: HasPrice(levels, q) && Better(side, q, p) ==> VerdictAt(levels, side, amount, tick, q) == Short
  }

  /** The depth limit, without reference to any order of the book: the best price whose depth covers the order
      signed there, else the worst price; or the error of the best price that has one before that. */
  ghost predicate IsDepthLimit(levels: seq<Level>, side: Side, amount: nat, tick: string,
                               r: Result<Limit, DepthError>)
  {
    if levels == [] then r == Err(NoOrders)
    else
      match r
      case Ok(limit) =>
        && HasPrice(levels, limit.price)
        && ShortBefore(levels, side, amount, tick, limit.price)
        && VerdictAt(levels, side, amount, tick, limit.price) == (if limit.fullyFillable then Covered else Short)
        && (!limit.fullyFillable ==> forall q :: HasPrice(levels, q) ==> !Better(side, limit.price, q))
      case Err(e) =>
        exists p :: HasPrice(levels, p) && VerdictAt(levels, side, amount, tick, p) == Failed(e)
                    && ShortBefore(levels, side, amount, tick, p)
  }

  /** The walk has visited the first n levels and stopped at none of them. */
  ghost predicate PassedOver(ordered: seq<Level>, side: Side, amount: nat, tick: string, n: nat)
    requires n <= |ordered|
  {
    forall k :: 0 <= k < n ==>
      && MakerAt(side, amount, tick, ordered[k].price).Ok?
      && !Reaches(side, TotalWeight(ordered[..k + 1], MeasureOf(side)),
                  MakerAt(side, amount, tick, ordered[k].price).value)
  }

  lemma {:induction false} LastOfPrice(ordered: seq<Level>, k: nat) returns (last: nat)
    requires k < |ordered|
    ensures k <= last < |ordered| && ordered[last].price == ordered[k].price
    ensures last + 1 == |ordered| || ordered[last + 1].price != ordered[k].price
    decreases |ordered| - k
  {
    if k + 1 == |ordered| || ordered[k + 1].price != ordered[k].price {
      last := k;
    } else {
      last := LastOfPrice(ordered, k + 1);
    }
  }

  /** Every price the walk has left behind is short. */
  lemma PassedPricesAreShort(ordered: seq<Level>, side: Side, amount: nat, tick: string, n: nat, q: nat)
    requires BestFirst(ordered, side) && n <= |ordered| && PassedOver(ordered, side, amount, tick, n)
    requires HasPrice(ordered, q) && (n < |ordered| ==> Better(side, q, ordered[n].price))
    ensures VerdictAt(ordered, side, amount, tick, q) == Short
  {
    hide Depth, TotalWeight, MakerAt, Reaches;
    var level :| level in ordered && level.price == q;
    var k :| 0 <= k < |ordered| && ordered[k] == level;
    var last := LastOfPrice(ordered, k);
    SeenAt(ordered, side, MeasureOf(side), last);
    assert last < n;
  }

  lemma StoppedAt(ordered: seq<Level>, side: Side, amount: nat, tick: string, n: nat)
    requires BestFirst(ordered, side) && n < |ordered| && PassedOver(ordered, side, amount, tick, n)
    ensures HasPrice(ordered, ordered[n].price)
    ensures ShortBefore(ordered, side, amount, tick, ordered[n].price)
  {
    assert ordered[n] in ordered;
    var p := ordered[n].price;
    forall q | HasPrice(ordered, q) && Better(side, q, p) ensures VerdictAt(ordered, side, amount, tick, q) == Short {
      PassedPricesAreShort(ordered, side, amount, tick, n, q);
    }
  }

  lemma RanOut(ordered: seq<Level>, side: Side, amount: nat, tick: string)
    requires BestFirst(ordered, side) && ordered != [] && PassedOver(ordered, side, amount, tick, |ordered|)
    ensures IsDepthLimit(ordered, side, amount, tick, Ok(Limit(ordered[|ordered| - 1].price, false)))
  {
    hide Depth, TotalWeight, MakerAt, Reaches;
    assert ordered[|ordered| - 1] in ordered;
    forall q | HasPrice(ordered, q)
      ensures VerdictAt(ordered, side, amount, tick, q) == Short
      ensures !Better(side, ordered[|ordered| - 1].price, q)
    {
      PassedPricesAreShort(ordered, side, amount, tick, |ordered|, q);
      var level :| level in ordered && level.price == q;
    }
  }

  lemma FailsAt(ordered: seq<Level>, side: Side, amount: nat, tick: string, n: nat)
    requires BestFirst(ordered, side) && n < |ordered| && PassedOver(ordered, side, amount, tick, n)
    requires MakerAt(side, amount, tick, ordered[n].price).Err?
    ensures IsDepthLimit(ordered, side, amount, tick, Err(MakerAt(side, amount, tick, ordered[n].price).error))
  {
    StoppedAt(ordered, side, amount, tick, n);
  }

  lemma CoversAt(ordered: seq<Level>, side: Side, amount: nat, tick: string, n: nat)
    requires BestFirst(ordered, side) && n < |ordered| && PassedOver(ordered, side, amount, tick, n)
    requires MakerAt(side, amount, tick, ordered[n].price).Ok?
    requires Reaches(side, TotalWeight(ordered[..n + 1], MeasureOf(side)),
                     MakerAt(side, amount, tick, ordered[n].price).value)
    ensures IsDepthLimit(ordered, side, amount, tick, Ok(Limit(ordered[n].price, true)))
  {
    StoppedAt(ordered, side, amount, tick, n);
    SeenAt(ordered, side, MeasureOf(side), n);
  }

  lemma SamePrices(a: seq<Level>, b: seq<Level>, p: nat)
    requires multiset(a) == multiset(b)
    ensures HasPrice(a, p) ==> HasPrice(b, p)
  {
    if HasPrice(a, p) {
      var level :| level in a && level.price == p;
      assert level in multiset(b);
    }
  }

  lemma SameSizes(a: seq<Level>, b: seq<Level>)
    requires multiset(a) == multiset(b) && Sizes64(b)
    ensures Sizes64(a) && (a == [] <==> b == [])
  {
    assert |multiset(a)| == |a| && |multiset(b)| == |b|;
    forall level | level in a ensures level.size <= UINT64_MAX {
      assert level in multiset(b);
    }
  }

  lemma SameVerdicts(a: seq<Level>, b: seq<Level>, side: Side, amount: nat, tick: string)
    requires multiset(a) == multiset(b)
    ensures a == [] <==> b == []
    ensures forall p :: HasPrice(a, p) <==> HasPrice(b, p)
    ensures forall p :: VerdictAt(a, side, amount, tick, p) == VerdictAt(b, side, amount, tick, p)
  {
    assert |multiset(a)| == |a| && |multiset(b)| == |b|;
    forall p
      ensures HasPrice(a, p) <==> HasPrice(b, p)
      ensures VerdictAt(a, side, amount, tick, p) == VerdictAt(b, side, amount, tick, p)
    {
      SamePrices(a, b, p);
      SamePrices(b, a, p);
      DepthPermuted(a, b, side, MeasureOf(side), p);
    }
  }

  lemma LimitOfPermutation(a: seq<Level>, b: seq<Level>, side: Side, amount: nat, tick: string,
                           r: Result<Limit, DepthError>)
    requires multiset(a) == multiset(b) && IsDepthLimit(a, side, amount, tick, r)
    ensures IsDepthLimit(b, side, amount, tick, r)
  {
    SameVerdicts(a, b, side, amount, tick);
    if a != [] && r.Err? {
      var p :| HasPrice(a, p) && VerdictAt(a, side, amount, tick, p) == Failed(r.error)
               && ShortBefore(a, side, amount, tick, p);
      assert HasPrice(b, p) && ShortBefore(b, side, amount, tick, p);
    }
  }

  /** find_depth_limit. */
  method FindDepthLimit(levels: seq<Level>, side: Side, amount: nat, tick: string)
    returns (r: Result<Limit, DepthError>)
    requires Sizes64(levels)
    ensures IsDepthLimit(levels, side, amount, tick, r)
  {
    if levels == [] {
      return Err(NoOrders);
    }
    var ordered := VisitOrder(levels, side);
    SameSizes(ordered, levels);
    r := WalkToLimit(ordered, side, amount, tick);
    LimitOfPermutation(ordered, levels, side, amount, tick, r);
  }

  lemma NothingPassed(ordered: seq<Level>, side: Side, amount: nat, tick: string)
    ensures PassedOver(ordered, side, amount, tick, 0) && TotalWeight(ordered[..0], MeasureOf(side)) == 0
  {
  }

  lemma PassOne(ordered: seq<Level>, side: Side, amount: nat, tick: string, n: nat)
    requires n < |ordered| && PassedOver(ordered, side, amount, tick, n)
    requires MakerAt(side, amount, tick, ordered[n].price).Ok?
    requires !Reaches(side, TotalWeight(ordered[..n + 1], MeasureOf(side)),
                      MakerAt(side, amount, tick, ordered[n].price).value)
    ensures PassedOver(ordered, side, amount, tick, n + 1)
  {
    hide TotalWeight, MakerAt, Reaches;
  }

  lemma OneMoreLevel(ordered: seq<Level>, side: Side, n: nat)
    requires n < |ordered|
    ensures TotalWeight(ordered[..n + 1], MeasureOf(side))
         == TotalWeight(ordered[..n], MeasureOf(side))
            + (if side.Buy? then ordered[n].size * ordered[n].price else ordered[n].size)
  {
    assert ordered[..n + 1][..n] == ordered[..n];
  }

  lemma ReachesIs(side: Side, total: nat, maker: nat)
    ensures Reaches(side, total, maker) <==> if side.Buy? then total / DEPTH_SCALE >= maker else total >= maker
  {
  }

  method WalkToLimit(ordered: seq<Level>, side: Side, amount: nat, tick: string)
    returns (r: Result<Limit, DepthError>)
    requires BestFirst(ordered, side) && ordered != [] && Sizes64(ordered)
    ensures IsDepthLimit(ordered, side, amount, tick, r)
  {
    hide IsDepthLimit, MakerAt, BestFirst, TotalWeight, Weight, PassedOver, Reaches;
    NothingPassed(ordered, side, amount, tick);
    var notional := new AccumulatedNotional();
    var size := new AccumulatedSize();
    var limit := Limit(0, false);
    for i := 0 to |ordered|
      invariant notional.Valid() && size.Valid() && fresh(notional) && fresh(size)
      invariant (if side.Buy? then notional.total else size.total) == TotalWeight(ordered[..i], MeasureOf(side))
      invariant PassedOver(ordered, side, amount, tick, i)
      invariant i > 0 ==> limit == Limit(ordered[i - 1].price, false)
    {
      var level := ordered[i];
      var candidate := MakerAt(side, amount, tick, level.price);
      if candidate.Err? {
        FailsAt(ordered, side, amount, tick, i);
        return Err(candidate.error);
      }
      var covered;
      if side.Buy? {
        notional.Add(level.size, level.price);
        covered := notional.Covers(candidate.value);
      } else {
        size.Add(level.size);
        covered := size.Covers(candidate.value);
      }
      OneMoreLevel(ordered, side, i);
      ReachesIs(side, TotalWeight(ordered[..i + 1], MeasureOf(side)), candidate.value);
      limit := Limit(level.price, covered);
      if covered {
        CoversAt(ordered, side, amount, tick, i);
        return Ok(limit);
      }
      PassOne(ordered, side, amount, tick, i);
    }
    RanOut(ordered, side, amount, tick);
    assert ordered[..|ordered|] == ordered;
    return Ok(limit);
  }

  /** Price and fully_fillable, or the error, are the same for every order of the book, ties included. */
  lemma LimitIgnoresOrder(a: seq<Level>, b: seq<Level>, side: Side, amount: nat, tick: string,
                          ra: Result<Limit, DepthError>, rb: Result<Limit, DepthError>)
    requires multiset(a) == multiset(b)
    requires IsDepthLimit(a, side, amount, tick, ra) && IsDepthLimit(b, side, amount, tick, rb)
    ensures ra == rb
  {
    LimitOfPermutation(b, a, side, amount, tick, rb);
  }

  // ----- a larger amount -----

  lemma MakerGrows(side: Side, less: nat, more: nat, tick: string, p: nat)
    requires less <= more && MakerAt(side, less, tick, p).Ok? && MakerAt(side, more, tick, p).Ok?
    ensures MakerAt(side, less, tick, p).value <= MakerAt(side, more, tick, p).value
  {
    ValidPricesAreTickMultiples(p, tick);
    var price := ValidatePrice(p, tick).value;
    MulMonotone(less, more, Pow10(TOKEN_DECIMALS - price.rounding.sizeDecimals));
    if side.Buy? {
      var small := AmountToMicroUnits(less, price.rounding.sizeDecimals).value;
      var large := AmountToMicroUnits(more, price.rounding.sizeDecimals).value;
      RoundDownGrows(small, large, MakerStep(price));
    }
  }

  lemma RoundDownGrows(less: nat, more: nat, step: nat)
    requires step > 0 && less <= more
    ensures RoundDown(less, step) <= RoundDown(more, step)
  {
    assert RoundDown(less, step) == step * (less / step);
    DivideBy(step, less / step);
    RoundedDownIsLargest(more, step, RoundDown(less, step));
  }

  /** A larger amount never gets a better price, and is never fully fillable when a smaller one is not. */
  lemma LargerIsNoBetter(levels: seq<Level>, side: Side, tick: string, less: nat, more: nat, small: Limit, large: Limit)
    requires levels != [] && less <= more
    requires IsDepthLimit(levels, side, less, tick, Ok(small)) && IsDepthLimit(levels, side, more, tick, Ok(large))
    ensures !Better(side, large.price, small.price)
    ensures large.fullyFillable ==> small.fullyFillable
  {
    var p := large.price;
    if Better(side, p, small.price) || (large.fullyFillable && !small.fullyFillable) {
      if large.fullyFillable {
        assert VerdictAt(levels, side, less, tick, p) == Short;
        MakerGrows(side, less, more, tick, p);
        assert false;
      }
    }
  }

  // ----- the limit in numbers -----

  /** The exact value of the asks up to a price, in millionths of a unit. */
  function AskValue(levels: seq<Level>, price: nat): nat {
    if levels == [] then 0
    else (if levels[0].price <= price then levels[0].size * levels[0].price else 0) + AskValue(levels[1..], price)
  }

  /** The shares of the bids down to a price. */
  function BidShares(levels: seq<Level>, price: nat): nat {
    if levels == [] then 0
    else (if levels[0].price >= price then levels[0].size else 0) + BidShares(levels[1..], price)
  }

  lemma {:induction false} DepthIs(levels: seq<Level>, p: nat)
    ensures Depth(levels, Buy, Value, p) == AskValue(levels, p)
    ensures Depth(levels, Sell, Shares, p) == BidShares(levels, p)
  {
    if levels != [] {
      DepthIs(levels[1..], p);
    }
  }

  /** The book fills an order of this maker amount up to the price. */
  predicate Fills(levels: seq<Level>, side: Side, price: nat, maker: nat) {
    if side.Buy? then AskValue(levels, price) >= maker * 1_000_000 else BidShares(levels, price) >= maker
  }

  /** The limit of a BUY is the lowest ask price up to which the book is worth the budget signed there, and the limit
      of a SELL the highest bid price down to which it takes the shares signed there; the highest ask and the lowest
      bid stand in for a book too small. */
  lemma LimitMeans(levels: seq<Level>, side: Side, amount: nat, tick: string, limit: Limit)
    requires levels != [] && IsDepthLimit(levels, side, amount, tick, Ok(limit))
    ensures Signed(levels, side, amount, tick, limit.price, limit.fullyFillable)
    ensures forall q :: HasPrice(levels, q) && Beyond(side, q, limit.price) ==>
      Signed(levels, side, amount, tick, q, false)
    ensures !limit.fullyFillable ==> forall q :: HasPrice(levels, q) ==> !Beyond(side, limit.price, q)
  {
    hide Signed;
    SignedIs(levels, side, amount, tick, limit.price);
    forall q: nat | HasPrice(levels, q) && Beyond(side, q, limit.price)
      ensures Signed(levels, side, amount, tick, q, false)
    {
      assert VerdictAt(levels, side, amount, tick, q) == Short;
      SignedIs(levels, side, amount, tick, q);
    }
  }

  /** An order can be signed at the price, and the book fills it or not. */
  predicate Signed(levels: seq<Level>, side: Side, amount: nat, tick: string, price: nat, filled: bool) {
    && MakerAt(side, amount, tick, price).Ok?
    && (filled <==> Fills(levels, side, price, MakerAt(side, amount, tick, price).value))
  }

  lemma SignedIs(levels: seq<Level>, side: Side, amount: nat, tick: string, p: nat)
    requires !VerdictAt(levels, side, amount, tick, p).Failed?
    ensures Signed(levels, side, amount, tick, p, VerdictAt(levels, side, amount, tick, p).Covered?)
  {
    hide MakerAt;
    DepthIs(levels, p);
  }

  /** A market order is signed at the depth limit; a fill-or-kill order is refused exactly when the book falls
      short there. */
  ghost predicate IsMarketPrice(levels: seq<Level>, side: Side, amount: nat, fillOrKill: bool, tick: string,
                                r: Result<nat, DepthError>)
  {
    match r
    case Ok(p) =>
      exists covered :: IsDepthLimit(levels, side, amount, tick, Ok(Limit(p, covered))) && (fillOrKill ==> covered)
    case Err(e) =>
      || IsDepthLimit(levels, side, amount, tick, Err(e))
      || (e == InsufficientDepth && fillOrKill
          && exists p :: IsDepthLimit(levels, side, amount, tick, Ok(Limit(p, false))))
  }

  /** calculate_market_price. */
  method CalculateMarketPrice(levels: seq<Level>, side: Side, amount: nat, fillOrKill: bool, tick: string)
    returns (r: Result<nat, DepthError>)
    requires Sizes64(levels)
    ensures IsMarketPrice(levels, side, amount, fillOrKill, tick, r)
  {
    hide IsDepthLimit;
    var found := FindDepthLimit(levels, side, amount, tick);
    if found.Err? {
      return Err(found.error);
    }
    if !found.value.fullyFillable && fillOrKill {
      return Err(InsufficientDepth);
    }
    return Ok(found.value.price);
  }

  /** The market price is the same for every order of the book. */
  lemma PriceIgnoresOrder(a: seq<Level>, b: seq<Level>, side: Side, amount: nat, fillOrKill: bool, tick: string,
                          ra: Result<nat, DepthError>, rb: Result<nat, DepthError>)
    requires multiset(a) == multiset(b)
    requires IsMarketPrice(a, side, amount, fillOrKill, tick, ra)
    requires IsMarketPrice(b, side, amount, fillOrKill, tick, rb)
    ensures ra == rb
  {
    hide IsDepthLimit, IsMarketPrice;
    var la := LimitOf(a, side, amount, fillOrKill, tick, ra);
    var lb := LimitOf(b, side, amount, fillOrKill, tick, rb);
    LimitIgnoresOrder(a, b, side, amount, tick, la, lb);
  }

  /** The depth limit behind a market price. */
  lemma LimitOf(levels: seq<Level>, side: Side, amount: nat, fillOrKill: bool, tick: string,
                r: Result<nat, DepthError>)
    returns (limit: Result<Limit, DepthError>)
    requires IsMarketPrice(levels, side, amount, fillOrKill, tick, r)
    ensures IsDepthLimit(levels, side, amount, tick, limit)
    ensures r == match limit
                 case Err(e) => Err(e)
                 case Ok(found) =>
                   if fillOrKill && !found.fullyFillable then Err(InsufficientDepth) else Ok(found.price)
  {
    hide IsDepthLimit;
    if r.Ok? {
      var covered :| IsDepthLimit(levels, side, amount, tick, Ok(Limit(r.value, covered))) && (fillOrKill ==> covered);
      limit := Ok(Limit(r.value, covered));
    } else if IsDepthLimit(levels, side, amount, tick, Err(r.error)) {
      limit := Err(r.error);
    } else {
      var p :| IsDepthLimit(levels, side, amount, tick, Ok(Limit(p, false)));
      limit := Ok(Limit(p, false));
    }
  }
}
