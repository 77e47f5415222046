/** Concentrated-liquidity principal and fee growth, as the Cetus and Bluefin readers compute them. */
module Clmm {
  import opened Rounding

  const Q64: int := 0x1_0000_0000_0000_0000
  const MOD128: int := 0x1_0000_0000_0000_0000_0000_0000_0000_0000

  // ---------- Principal ----------

  datatype Principal = Principal(a: int, b: int)

  function Clamp(price: int, lower: int, upper: int): int {
    var p := if price < lower then lower else price;
    if p > upper then upper else p
  }

  /** The price nearest to the given one that lies in the range. */
  lemma ClampIsNearest(price: int, lower: int, upper: int)
    requires lower <= upper
    ensures lower <= Clamp(price, lower, upper) <= upper
    ensures lower <= price <= upper ==> Clamp(price, lower, upper) == price
    ensures price < lower ==> Clamp(price, lower, upper) == lower
    ensures price > upper ==> Clamp(price, lower, upper) == upper
  {
  }

  /** The floored token amounts a liquidity over `[lower, upper]` withdraws at a square-root price. */
  function Amounts(liquidity: nat, price: nat, lower: nat, upper: nat): Principal
    requires 0 < lower <= upper
  {
    var p := Clamp(price, lower, upper);
    Principal(TokenA(liquidity, p, upper), TokenB(liquidity, lower, p))
  }

  function TokenA(liquidity: nat, p: int, upper: int): int
    requires 0 < p && 0 < upper
  {
    Positive(p, upper);
    (upper - p) * liquidity * Q64 / (p * upper)
  }

  function TokenB(liquidity: nat, lower: int, p: int): int {
    (p - lower) * liquidity / Q64
  }

  /** Two parts never hold more than the whole, and at most one unit of each token less. */
  ghost predicate WithinOne(part: Principal, other: Principal, whole: Principal) {
    && part.a + other.a <= whole.a <= part.a + other.a + 1
    && part.b + other.b <= whole.b <= part.b + other.b + 1
  }

  /** The amounts are the floors of the exact withdrawal at real square-root prices: `L * (1/P - 1/U)` of
      token A and `L * (P - L0)` of token B, for the range bounds L0 and U and the price P, or the bound
      nearest to it when it lies outside. */
  lemma AmountsAreFloors(liquidity: nat, price: nat, lower: nat, upper: nat)
    requires 0 < lower <= upper
    ensures var amounts := Amounts(liquidity, price, lower, upper);
            var nearest := if price < lower then lower else if upper < price then upper else price;
            var root := nearest as real / Q64 as real;
            var lowerRoot, upperRoot, l := (lower as real) / Q64 as real, (upper as real) / Q64 as real, liquidity as real;
            && root > 0.0 && upperRoot > 0.0
            && amounts.a as real <= l / root - l / upperRoot < amounts.a as real + 1.0
            && amounts.b as real <= l * (root - lowerRoot) < amounts.b as real + 1.0
  {
    ClampIsNearest(price, lower, upper);
    TokenAIsFloor(liquidity, Clamp(price, lower, upper), upper);
    TokenBIsFloor(liquidity, lower, Clamp(price, lower, upper));
  }

  lemma TokenAIsFloor(liquidity: nat, p: int, upper: int)
    requires 0 < p && 0 < upper
    ensures var l, root, upperRoot := liquidity as real, p as real / Q64 as real, upper as real / Q64 as real;
            && root > 0.0 && upperRoot > 0.0
            && TokenA(liquidity, p, upper) as real <= l / root - l / upperRoot < TokenA(liquidity, p, upper) as real + 1.0
  {
    Positive(p, upper);
    var l, q, root, upperRoot := liquidity as real, Q64 as real, p as real / Q64 as real, upper as real / Q64 as real;
    TokenAReal(l, p as real, upper as real, q, root, upperRoot);
    RealOfProduct(upper - p, liquidity, Q64);
    RealOfProduct(p, upper, 1);
    FloorOfReal((upper - p) * liquidity * Q64, p * upper, l / root - l / upperRoot);
  }

  lemma RealOfProduct(a: int, b: int, c: int)
    ensures (a * b * c) as real == a as real * b as real * c as real
  {
  }

  lemma TokenBIsFloor(liquidity: nat, lower: int, p: int)
    ensures var l, root, lowerRoot := liquidity as real, p as real / Q64 as real, lower as real / Q64 as real;
            TokenB(liquidity, lower, p) as real <= l * (root - lowerRoot) < TokenB(liquidity, lower, p) as real + 1.0
  {
  }

  lemma FloorOfReal(n: int, d: int, x: real)
    requires d > 0 && x * d as real == n as real
    ensures (n / d) as real <= x < (n / d) as real + 1.0
  {
    FloorIs(n, d, n / d);
    var q := (n / d) as real;
    assert ((n / d) * d) as real == q * d as real && ((n / d + 1) * d) as real == (q + 1.0) * d as real;
    RealCancel(q, x, d as real);
    RealCancel(q + 1.0, x, d as real);
  }

  lemma RealCancel(x: real, y: real, d: real)
    requires d > 0.0
    ensures x <= y <==> x * d <= y * d
  {
  }

  lemma TokenAReal(l: real, p: real, u: real, q: real, root: real, upperRoot: real)
    requires p > 0.0 && u > 0.0 && q > 0.0 && root == p / q && upperRoot == u / q
    ensures root > 0.0 && upperRoot > 0.0
    ensures (l / root - l / upperRoot) * (p * u) == (u - p) * l * q
  {
  }

  lemma Positive(x: int, y: int)
    requires 0 < x && 0 < y
    ensures 0 < x * y
  {
  }

  /** Floors of two fractions whose denominators share a factor, against the floor of their sum
      `a/(p*m) + b/(m*h) == c/(p*h)`. */
  lemma FractionsAdd(a: int, b: int, c: int, p: int, m: int, h: int)
    requires 0 < p && 0 < m && 0 < h
    requires a * h + b * p == c * m
    ensures 0 < p * m && 0 < m * h && 0 < p * h
    ensures a / (p * m) + b / (m * h) <= c / (p * h) <= a / (p * m) + b / (m * h) + 1
  {
    Positive(p, m);
    Positive(m, h);
    Positive(p, h);
    var x, y := a / (p * m), b / (m * h);
    FloorIs(a, p * m, x);
    FloorIs(b, m * h, y);
    FractionsAddLower(a, b, c, p, m, h, x, y);
    FloorAtLeast(c, p * h, x + y);
    FractionsAddUpper(a, b, c, p, m, h, x, y);
    FloorAtLeast(c, p * h, x + y + 2);
  }

  lemma FractionsAddLower(a: int, b: int, c: int, p: int, m: int, h: int, x: int, y: int)
    requires 0 < p && 0 < m && 0 < h
    requires a * h + b * p == c * m
    requires x * (p * m) <= a && y * (m * h) <= b
    ensures (x + y) * (p * h) <= c
  {
  }

  lemma FractionsAddUpper(a: int, b: int, c: int, p: int, m: int, h: int, x: int, y: int)
    requires 0 < p && 0 < m && 0 < h
    requires a * h + b * p == c * m
    requires a < (x + 1) * (p * m) && b < (y + 1) * (m * h)
    ensures c < (x + y + 2) * (p * h)
  {
  }

  lemma TokenASplits(liquidity: nat, p: int, m: int, h: int)
    requires 0 < p <= m <= h
    ensures TokenA(liquidity, p, m) + TokenA(liquidity, m, h) <= TokenA(liquidity, p, h)
         <= TokenA(liquidity, p, m) + TokenA(liquidity, m, h) + 1
  {
    var k := liquidity * Q64;
    Reassociate(m - p, liquidity, Q64);
    Reassociate(h - m, liquidity, Q64);
    Reassociate(h - p, liquidity, Q64);
    SplitIdentity(p, m, h, k);
    FractionsAdd((m - p) * k, (h - m) * k, (h - p) * k, p, m, h);
  }

  lemma SplitIdentity(p: int, m: int, h: int, k: int)
    ensures (m - p) * k * h + (h - m) * k * p == (h - p) * k * m
  {
  }

  lemma Reassociate(x: int, y: int, z: int)
    ensures x * y * z == x * (y * z)
  {
  }

  lemma TokenBSplits(liquidity: nat, l: int, m: int, p: int)
    ensures TokenB(liquidity, l, m) + TokenB(liquidity, m, p) <= TokenB(liquidity, l, p)
         <= TokenB(liquidity, l, m) + TokenB(liquidity, m, p) + 1
  {
  }

  lemma EmptyRange(liquidity: nat, p: int)
    requires 0 < p
    ensures TokenA(liquidity, p, p) == 0 && TokenB(liquidity, p, p) == 0
  {
  }

  /** Splitting a range never creates value and costs each token at most one unit, at any price. */
  lemma RangeSplit(liquidity: nat, price: nat, lower: nat, mid: nat, upper: nat)
    requires 0 < lower <= mid <= upper
    ensures WithinOne(Amounts(liquidity, price, lower, mid), Amounts(liquidity, price, mid, upper),
                      Amounts(liquidity, price, lower, upper))
  {
    var p := Clamp(price, lower, upper);
    EmptyRange(liquidity, mid);
    if price <= mid {
      TokenASplits(liquidity, p, mid, upper);
    } else {
      TokenBSplits(liquidity, lower, mid, p);
    }
  }

  /** Two positions over one range never hold more than one position with their liquidities together. */
  lemma LiquiditySuperadditive(first: nat, second: nat, price: nat, lower: nat, upper: nat)
    requires 0 < lower <= upper
    ensures WithinOne(Amounts(first, price, lower, upper), Amounts(second, price, lower, upper),
                      Amounts(first + second, price, lower, upper))
  {
    var p := Clamp(price, lower, upper);
    Positive(p, upper);
    assert (p - lower) * (first + second) == (p - lower) * first + (p - lower) * second;
    FloorOfSum((p - lower) * first, (p - lower) * second, Q64);
    assert (upper - p) * (first + second) == (upper - p) * first + (upper - p) * second;
    FloorOfSum((upper - p) * first * Q64, (upper - p) * second * Q64, p * upper);
  }

  /** Through both clamps, a higher price never leaves more of token A nor less of token B. */
  lemma AmountsFollowPrice(liquidity: nat, low: nat, high: nat, lower: nat, upper: nat)
    requires 0 < lower <= upper && low <= high
    ensures Amounts(liquidity, high, lower, upper).a <= Amounts(liquidity, low, lower, upper).a
    ensures Amounts(liquidity, low, lower, upper).b <= Amounts(liquidity, high, lower, upper).b
  {
    var p, p' := Clamp(low, lower, upper), Clamp(high, lower, upper);
    MulMono(p - lower, p' - lower, liquidity);
    FloorMono((p - lower) * liquidity, (p' - lower) * liquidity, Q64);

    Positive(p, upper);
    Positive(p', upper);
    var n, n' := (upper - p) * liquidity * Q64, (upper - p') * liquidity * Q64;
    var q := n' / (p' * upper);
    MulMono(upper - p', upper - p, liquidity);
    MulMono(0, upper - p', liquidity);
    FloorAtLeast(n', p' * upper, 0);
    FloorAtLeast(n', p' * upper, q);
    MulMono(p, p', upper);
    MulMono(p * upper, p' * upper, q);
    FloorAtLeast(n, p * upper, q);
  }

  // ---------- Wrapping fee growth ----------

  function Sub(a: int, b: int): int {
    (a - b) % MOD128
  }

  function Inside(global: int, lower: int, upper: int, current: int, lo: int, hi: int): int {
    var below := if current < lo then Sub(global, lower) else lower;
    var above := if current >= hi then Sub(global, upper) else upper;
    Sub(Sub(global, below), above)
  }

  /** What a position is owed: the stored amount plus the floored share of growth since `last`,
      refused when it leaves u64. */
  datatype Owing = Owed(amount: int) | ExceedsU64

  function OwedAmount(owed: nat, last: int, inside: int, liquidity: nat): Owing {
    var delta := Sub(inside, last) * liquidity / Q64 + owed;
    if delta < Q64 then Owed(delta) else ExceedsU64
  }

  ghost predicate Congruent(a: int, b: int) {
    a % MOD128 == b % MOD128
  }

  lemma CongruentWitness(a: int, b: int, k: int)
    requires a == b + k * MOD128
    ensures Congruent(a, b)
  {
  }

  lemma SubCongruent(a: int, b: int)
    ensures Congruent(Sub(a, b), a - b) && 0 <= Sub(a, b) < MOD128
  {
  }

  lemma CongruentArithmetic(a: int, a': int, b: int, b': int)
    requires Congruent(a, a') && Congruent(b, b')
    ensures Congruent(a + b, a' + b') && Congruent(a - b, a' - b')
  {
    var k, l := a / MOD128 - a' / MOD128, b / MOD128 - b' / MOD128;
    CongruentWitness(a + b, a' + b', k + l);
    CongruentWitness(a - b, a' - b', k - l);
  }

  /** Growth that accrued below a tick, as its outside counter encodes it. */
  ghost function Below(global: int, outside: int, current: int, tick: int): int {
    if current < tick then global - outside else outside
  }

  lemma InsideIsDifference(global: int, lower: int, upper: int, current: int, lo: int, hi: int)
    ensures Congruent(Inside(global, lower, upper, current, lo, hi),
                      Below(global, upper, current, hi) - Below(global, lower, current, lo))
  {
    var below := if current < lo then Sub(global, lower) else lower;
    var above := if current >= hi then Sub(global, upper) else upper;
    SubCongruent(global, lower);
    SubCongruent(global, upper);
    SubCongruent(global, below);
    SubCongruent(Sub(global, below), above);
    CongruentArithmetic(global, global, below, Below(global, lower, current, lo));
    CongruentArithmetic(global, global, Below(global, upper, current, hi), Below(global, upper, current, hi));
    CongruentArithmetic(Sub(global, below), global - Below(global, lower, current, lo),
                        above, global - Below(global, upper, current, hi));
  }

  /** Inside growth telescopes over adjacent ranges modulo 2^128, wherever the current tick is. */
  lemma InsideTelescopes(global: int, oLo: int, oMid: int, oHi: int, current: int, lo: int, mid: int, hi: int)
    ensures Congruent(Inside(global, oLo, oMid, current, lo, mid) + Inside(global, oMid, oHi, current, mid, hi),
                      Inside(global, oLo, oHi, current, lo, hi))
  {
    InsideIsDifference(global, oLo, oMid, current, lo, mid);
    InsideIsDifference(global, oMid, oHi, current, mid, hi);
    InsideIsDifference(global, oLo, oHi, current, lo, hi);
    CongruentArithmetic(Inside(global, oLo, oMid, current, lo, mid),
                        Below(global, oMid, current, mid) - Below(global, oLo, current, lo),
                        Inside(global, oMid, oHi, current, mid, hi),
                        Below(global, oHi, current, hi) - Below(global, oMid, current, mid));
  }

  // ---------- Whole pool histories ----------

  /** The counters a pool keeps: wrapped global growth, the current tick, and the wrapped outside
      growth of every initialised tick. */
  datatype Pool = Pool(global: int, current: int, outside: map<int, int>)

  datatype Event = Accrue(growth: nat) | Move(tick: int)

  /** A pool moving its current tick flips the outside growth of every initialised tick it crosses. */
  ghost function Apply(pool: Pool, event: Event): Pool {
    match event
    case Accrue(growth) => pool.(global := (pool.global + growth) % MOD128)
    case Move(tick) =>
      Pool(pool.global, tick,
           map x | x in pool.outside ::
             if (pool.current < x) != (tick < x) then Sub(pool.global, pool.outside[x]) else pool.outside[x])
  }

  ghost function Run(pool: Pool, events: seq<Event>): Pool
    decreases |events|
  {
    if events == [] then pool else Run(Apply(pool, events[0]), events[1..])
  }

  /** The growth a range really earned: every accrual that happened while the current tick was in it. */
  ghost function Earned(pool: Pool, events: seq<Event>, lo: int, hi: int): nat
    decreases |events|
  {
    if events == [] then 0 else
    (if events[0].Accrue? && lo <= pool.current < hi then events[0].growth else 0)
      + Earned(Apply(pool, events[0]), events[1..], lo, hi)
  }

  function InsideOf(pool: Pool, lo: int, hi: int): int
    requires lo in pool.outside && hi in pool.outside
  {
    Inside(pool.global, pool.outside[lo], pool.outside[hi], pool.current, lo, hi)
  }

  ghost function BelowOf(pool: Pool, tick: int): int
    requires tick in pool.outside
  {
    Below(pool.global, pool.outside[tick], pool.current, tick)
  }

  /** One event moves the growth below a tick by what it accrued there, and a crossing by nothing. */
  lemma BelowAfter(pool: Pool, event: Event, tick: int)
    requires tick in pool.outside
    ensures tick in Apply(pool, event).outside
    ensures Congruent(BelowOf(Apply(pool, event), tick),
                      BelowOf(pool, tick) + if event.Accrue? && pool.current < tick then event.growth else 0)
  {
    match event
    case Accrue(growth) =>
      var o := pool.outside[tick];
      if pool.current < tick {
        CongruentWitness(pool.global + growth, (pool.global + growth) % MOD128, (pool.global + growth) / MOD128);
        CongruentArithmetic((pool.global + growth) % MOD128, pool.global + growth, o, o);
      }
    case Move(to) =>
      SubCongruent(pool.global, pool.outside[tick]);
      CongruentArithmetic(pool.global, pool.global, Sub(pool.global, pool.outside[tick]), pool.global - pool.outside[tick]);
  }

  lemma InsideAfter(pool: Pool, event: Event, lo: int, hi: int)
    requires lo in pool.outside && hi in pool.outside && lo <= hi
    ensures lo in Apply(pool, event).outside && hi in Apply(pool, event).outside
    ensures Congruent(InsideOf(Apply(pool, event), lo, hi),
                      InsideOf(pool, lo, hi) + if event.Accrue? && lo <= pool.current < hi then event.growth else 0)
  {
    var next := Apply(pool, event);
    BelowAfter(pool, event, lo);
    BelowAfter(pool, event, hi);
    InsideIsDifference(pool.global, pool.outside[lo], pool.outside[hi], pool.current, lo, hi);
    InsideIsDifference(next.global, next.outside[lo], next.outside[hi], next.current, lo, hi);
    var dLo := if event.Accrue? && pool.current < lo then event.growth else 0;
    var dHi := if event.Accrue? && pool.current < hi then event.growth else 0;
    CongruentArithmetic(BelowOf(next, hi), BelowOf(pool, hi) + dHi, BelowOf(next, lo), BelowOf(pool, lo) + dLo);
    CongruentArithmetic(InsideOf(pool, lo, hi), BelowOf(pool, hi) - BelowOf(pool, lo), dHi - dLo, dHi - dLo);
  }

  /** Over every history, wrapped inside growth advances by exactly what the range earned, modulo 2^128. */
  lemma {:induction false} InsideTracksEarned(pool: Pool, events: seq<Event>, lo: int, hi: int)
    requires lo in pool.outside && hi in pool.outside && lo <= hi
    ensures lo in Run(pool, events).outside && hi in Run(pool, events).outside
    ensures Congruent(InsideOf(Run(pool, events), lo, hi), InsideOf(pool, lo, hi) + Earned(pool, events, lo, hi))
    decreases |events|
  {
    if events != [] {
      var next := Apply(pool, events[0]);
      InsideAfter(pool, events[0], lo, hi);
      InsideTracksEarned(next, events[1..], lo, hi);
      var rest := Earned(next, events[1..], lo, hi);
      var step := Earned(pool, events, lo, hi) - rest;
      CongruentArithmetic(InsideOf(next, lo, hi), InsideOf(pool, lo, hi) + step, rest, rest);
    }
  }

  /** However often the counters wrapped, a position opened before a history is owed its stored amount
      plus the share of the growth its range earned, as long as that growth stayed below 2^128; past
      that, whole multiples of 2^128 are lost. It fails exactly when the amount leaves u64. */
  lemma OwedIsEarned(pool: Pool, events: seq<Event>, lo: int, hi: int, owed: nat, liquidity: nat)
    requires lo in pool.outside && hi in pool.outside && lo <= hi
    ensures lo in Run(pool, events).outside && hi in Run(pool, events).outside
    ensures var earned := Earned(pool, events, lo, hi);
            var credited := earned % MOD128 * liquidity / Q64 + owed;
            && OwedAmount(owed, InsideOf(pool, lo, hi), InsideOf(Run(pool, events), lo, hi), liquidity)
               == (if credited < Q64 then Owed(credited) else ExceedsU64)
            && (earned < MOD128 ==> credited == earned * liquidity / Q64 + owed)
  {
    InsideTracksEarned(pool, events, lo, hi);
    GrowthSince(InsideOf(pool, lo, hi), InsideOf(Run(pool, events), lo, hi), Earned(pool, events, lo, hi));
  }

  lemma GrowthSince(last: int, now: int, earned: nat)
    requires Congruent(now, last + earned)
    ensures Sub(now, last) == earned % MOD128
    ensures earned < MOD128 ==> earned % MOD128 == earned
  {
  }
}
