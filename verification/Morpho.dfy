/** Morpho Blue interest accrual and share pricing, on unbounded integers. */
module Morpho {
  import opened Rounding

  const WAD: nat := 1_000_000_000_000_000_000
  const VIRTUAL_SHARES: nat := 1_000_000

  type Address = nat
  const ZERO_ADDRESS: Address := 0

  datatype Market = Market(
    supplyAssets: nat, supplyShares: nat, borrowAssets: nat, borrowShares: nat, lastUpdate: nat, fee: nat)

  function MulDivDown(x: nat, y: nat, denominator: nat): nat
    requires denominator > 0
  {
    Share(x, y, denominator)
  }

  /** The smallest amount whose product with the denominator covers `x * y`. */
  function MulDivUp(x: nat, y: nat, denominator: nat): (r: nat)
    requires denominator > 0
    ensures x * y <= r * denominator < x * y + denominator
  {
    if x == 0 || y == 0 then 0 else
    var n := x * y + (denominator - 1);
    FloorAtLeast(n, denominator, 0);
    FloorIs(n, denominator, n / denominator);
    assert (n / denominator + 1) * denominator == n / denominator * denominator + denominator;
    n / denominator
  }

  // ---------- Interest ----------

  /** The three-term Taylor expansion of the compounded rate at one whole `w`, each term floored. */
  function Taylor(x: nat, w: nat): nat
    requires w > 0
  {
    var second := MulDivDown(x, x, 2 * w);
    x + second + MulDivDown(second, x, 3 * w)
  }

  function Compounded(x: nat): nat {
    Taylor(x, WAD)
  }

  function Interest(market: Market, rate: nat, elapsed: nat): nat {
    if elapsed == 0 || market.borrowAssets == 0 || rate == 0 then 0 else
    MulDivDown(market.borrowAssets, Compounded(rate * elapsed), WAD)
  }

  /** The part of the interest taken as a fee: all of it at most, for a fee of at most one WAD. */
  function FeeAmount(market: Market, interest: nat): (fee: nat)
    ensures market.fee <= WAD ==> fee <= interest
  {
    if market.fee > 0 && interest > 0 then
      FeeWithin(market.fee, interest);
      MulDivDown(interest, market.fee, WAD)
    else 0
  }

  lemma FeeWithin(fee: nat, interest: nat)
    ensures fee <= WAD ==> MulDivDown(interest, fee, WAD) <= interest
  {
    if fee <= WAD {
      MulMono(fee, WAD, interest);
      FloorMono(interest * fee, interest * WAD, WAD);
      FloorIs(interest * WAD, WAD, interest);
    }
  }

  /** The supply can pay the fee, as it always can when the fee is at most one WAD. */
  predicate Payable(market: Market, rate: nat, elapsed: nat) {
    var interest := Interest(market, rate, elapsed);
    FeeAmount(market, interest) <= market.supplyAssets + interest
  }

  /** Shares minted for the fee, at the price the supply has without the fee. */
  function FeeShares(market: Market, rate: nat, elapsed: nat): nat
    requires Payable(market, rate, elapsed)
  {
    var interest := Interest(market, rate, elapsed);
    MulDivDown(FeeAmount(market, interest), market.supplyShares + VIRTUAL_SHARES,
               market.supplyAssets + interest - FeeAmount(market, interest) + 1)
  }

  function Accrued(market: Market, rate: nat, elapsed: nat): Market
    requires Payable(market, rate, elapsed)
  {
    var interest := Interest(market, rate, elapsed);
    market.(supplyAssets := market.supplyAssets + interest,
            borrowAssets := market.borrowAssets + interest,
            supplyShares := market.supplyShares + FeeShares(market, rate, elapsed))
  }

  /** The fee is its exact part of the interest, rounded down. */
  lemma FeeIsProportional(market: Market, interest: nat)
    ensures var fee := FeeAmount(market, interest);
            fee * WAD <= interest * market.fee < fee * WAD + WAD
  {
    JustBelow(interest * market.fee, WAD);
  }

  lemma NoShares(n: nat, d: nat)
    requires d > 0
    ensures MulDivDown(0, n, d) == 0
  {
  }

  /** The step-by-step update of a copy, and the fee shares still to be minted. */
  method ExpectedMarketBalances(market: Market, rate: nat, elapsed: nat) returns (result: Market, feeShares: nat)
    requires Payable(market, rate, elapsed)
    ensures result == Accrued(market, rate, elapsed)
    ensures feeShares == FeeShares(market, rate, elapsed)
  {
    result := market;
    feeShares := 0;
    if elapsed == 0 || result.borrowAssets == 0 || rate == 0 {
      NoShares(market.supplyShares + VIRTUAL_SHARES, market.supplyAssets + 1);
      return;
    }
    var firstTerm := rate * elapsed;
    var secondTerm := MulDivDown(firstTerm, firstTerm, 2 * WAD);
    var thirdTerm := MulDivDown(secondTerm, firstTerm, 3 * WAD);
    var compounded := firstTerm + secondTerm;
    compounded := compounded + thirdTerm;
    var interest := MulDivDown(result.borrowAssets, compounded, WAD);
    result := result.(borrowAssets := result.borrowAssets + interest);
    result := result.(supplyAssets := result.supplyAssets + interest);
    if result.fee > 0 && interest > 0 {
      var feeAmount := MulDivDown(interest, result.fee, WAD);
      var virtualShares := result.supplyShares + VIRTUAL_SHARES;
      var virtualAssets := result.supplyAssets - feeAmount + 1;
      feeShares := MulDivDown(feeAmount, virtualShares, virtualAssets);
      result := result.(supplyShares := result.supplyShares + feeShares);
    } else {
      NoShares(market.supplyShares + VIRTUAL_SHARES, market.supplyAssets + interest + 1);
    }
  }

  /** Accrual moves interest from borrowers to suppliers and nothing else: net assets are conserved. */
  lemma AccrualConserves(market: Market, rate: nat, elapsed: nat)
    requires Payable(market, rate, elapsed)
    ensures var r := Accrued(market, rate, elapsed);
            && r.supplyAssets - r.borrowAssets == market.supplyAssets - market.borrowAssets
            && r.supplyAssets == market.supplyAssets + Interest(market, rate, elapsed)
            && r.supplyShares == market.supplyShares + FeeShares(market, rate, elapsed)
            && r.borrowShares == market.borrowShares && r.fee == market.fee && r.lastUpdate == market.lastUpdate
  {
  }

  /** The minted shares are the most the fee can buy at the price the supply has without it. */
  lemma FeeShareBounds(market: Market, rate: nat, elapsed: nat)
    requires Payable(market, rate, elapsed)
    ensures var interest := Interest(market, rate, elapsed);
            var fee := FeeAmount(market, interest);
            && FeeShares(market, rate, elapsed) * (market.supplyAssets + interest - fee + 1)
               <= fee * (market.supplyShares + VIRTUAL_SHARES)
               < (FeeShares(market, rate, elapsed) + 1) * (market.supplyAssets + interest - fee + 1)
  {
    var interest := Interest(market, rate, elapsed);
    var fee := FeeAmount(market, interest);
    var w := market.supplyAssets + interest - fee + 1;
    FloorIs(fee * (market.supplyShares + VIRTUAL_SHARES), w, FeeShares(market, rate, elapsed));
  }

  /** Accrual never dilutes: the price `(assets + 1) / (shares + 10^6)` of a supply share never falls. */
  lemma AccrualNeverDilutes(market: Market, rate: nat, elapsed: nat)
    requires market.fee <= WAD
    ensures var r := Accrued(market, rate, elapsed);
            (market.supplyAssets + 1) * (r.supplyShares + VIRTUAL_SHARES)
            <= (r.supplyAssets + 1) * (market.supplyShares + VIRTUAL_SHARES)
  {
    FeeShareBounds(market, rate, elapsed);
    var interest, minted := Interest(market, rate, elapsed), FeeShares(market, rate, elapsed);
    var fee := FeeAmount(market, interest);
    MintingKeepsPrice(market.supplyAssets + 1, market.supplyShares + VIRTUAL_SHARES, interest, fee, minted);
  }

  lemma MintingKeepsPrice(a: nat, v: nat, interest: nat, fee: nat, minted: nat)
    requires fee <= interest && minted * (a + interest - fee) <= fee * v
    ensures a * (v + minted) <= (a + interest) * v
  {
    MulMono(a, a + interest - fee, minted);
    MulMono(fee, interest, v);
    assert a * (v + minted) == a * v + a * minted;
    assert (a + interest) * v == a * v + interest * v;
  }

  /** So no holder's floored supply amount falls when interest accrues. */
  lemma HoldersNeverLose(market: Market, rate: nat, elapsed: nat, shares: nat)
    requires market.fee <= WAD
    ensures var r := Accrued(market, rate, elapsed);
            SupplyAmount(shares, market) <= SupplyAmount(shares, r)
  {
    AccrualNeverDilutes(market, rate, elapsed);
    var r := Accrued(market, rate, elapsed);
    PriceMonotone(shares, market.supplyAssets + 1, market.supplyShares + VIRTUAL_SHARES,
                  r.supplyAssets + 1, r.supplyShares + VIRTUAL_SHARES);
  }

  lemma PriceMonotone(x: nat, n: nat, d: nat, n': nat, d': nat)
    requires d > 0 && d' > 0 && n * d' <= n' * d
    ensures Share(x, n, d) <= Share(x, n', d')
  {
    var q := Share(x, n, d);
    FloorIs(x * n, d, q);
    calc {
      q * d' * d;
      { assert q * d' * d == q * d * d'; }
      q * d * d';
    <= { MulMono(q * d, x * n, d'); }
      x * n * d';
      { assert x * n * d' == n * d' * x; }
      n * d' * x;
    <= { MulMono(n * d', n' * d, x); }
      n' * d * x;
      { assert n' * d * x == x * n' * d; }
      x * n' * d;
    }
    CancelFactor(q * d', x * n', d);
    FloorAtLeast(x * n', d', q);
  }

  /** The minted fee shares are worth at most the fee, at the price after minting. */
  lemma FeeSharesWorthTheFee(market: Market, rate: nat, elapsed: nat)
    requires Payable(market, rate, elapsed)
    ensures var r := Accrued(market, rate, elapsed);
            SupplyAmount(FeeShares(market, rate, elapsed), r) <= FeeAmount(market, Interest(market, rate, elapsed))
  {
    FeeShareBounds(market, rate, elapsed);
    var r, minted := Accrued(market, rate, elapsed), FeeShares(market, rate, elapsed);
    var fee := FeeAmount(market, Interest(market, rate, elapsed));
    MintedWorth(r.supplyAssets + 1 - fee, market.supplyShares + VIRTUAL_SHARES, fee, minted);
  }

  lemma MintedWorth(w: nat, v: nat, fee: nat, minted: nat)
    requires v > 0 && minted * w <= fee * v
    ensures Share(minted, w + fee, v + minted) <= fee
  {
    assert minted * (w + fee) == minted * w + minted * fee;
    assert fee * (v + minted) == fee * v + fee * minted;
    FloorMono(minted * (w + fee), fee * (v + minted), v + minted);
    FloorIs(fee * (v + minted), v + minted, fee);
  }

  lemma MulDivMono(x: nat, y: nat, x': nat, y': nat, d: nat)
    requires x <= x' && y <= y' && d > 0
    ensures MulDivDown(x, y, d) <= MulDivDown(x', y', d)
  {
    MulMono(x, x', y);
    MulMono(y, y', x');
    FloorMono(x * y, x' * y', d);
  }

  /** More time or a higher rate never accrues less interest. */
  lemma InterestMonotone(market: Market, rate: nat, elapsed: nat, rate': nat, elapsed': nat)
    requires rate <= rate' && elapsed <= elapsed'
    ensures Interest(market, rate, elapsed) <= Interest(market, rate', elapsed')
  {
    if elapsed != 0 && market.borrowAssets != 0 && rate != 0 {
      var x, x' := rate * elapsed, rate' * elapsed';
      MulMono(rate, rate', elapsed);
      MulMono(elapsed, elapsed', rate');
      var s, s' := MulDivDown(x, x, 2 * WAD), MulDivDown(x', x', 2 * WAD);
      MulDivMono(x, x, x', x', 2 * WAD);
      MulDivMono(s, x, s', x', 3 * WAD);
      MulDivMono(market.borrowAssets, Compounded(x), market.borrowAssets, Compounded(x'), WAD);
    }
  }

  /** Six times the square of `w`, times the exact sum `x + x^2 / 2w + x^3 / 6w^2`. */
  ghost function ScaledSum(x: nat, w: nat): nat {
    6 * w * w * x + 3 * w * (x * x) + x * x * x
  }

  /** Flooring the two higher terms loses less than `2 + x / 3w` of the exact sum, and never overstates it. */
  lemma TaylorError(x: nat, w: nat)
    requires w > 0
    ensures 6 * w * w * Taylor(x, w) <= ScaledSum(x, w) < 6 * w * w * (Taylor(x, w) + 2) + 2 * w * x
  {
    var s := MulDivDown(x, x, 2 * w);
    var t := MulDivDown(s, x, 3 * w);
    FloorIs(x * x, 2 * w, s);
    FloorIs(s * x, 3 * w, t);
    assert s * (2 * w) <= x * x < s * (2 * w) + 2 * w by { assert (s + 1) * (2 * w) == s * (2 * w) + 2 * w; }
    assert t * (3 * w) <= s * x < t * (3 * w) + 3 * w by { assert (t + 1) * (3 * w) == t * (3 * w) + 3 * w; }
    ScaleSecond(x, w, s);
    ScaleThird(x, w, s, t);
    TaylorSum(x, w, s, t);
  }

  /** The floored square, scaled: `6w^2 s` lies within `6w^2` below `3w x^2`. */
  lemma ScaleSecond(x: nat, w: nat, s: nat)
    requires s * (2 * w) <= x * x < s * (2 * w) + 2 * w
    ensures 6 * w * w * s <= 3 * w * (x * x) <= 6 * w * w * s + 6 * w * w
  {
    MulMono(s * (2 * w), x * x, 3 * w);
    MulMono(x * x, s * (2 * w) + 2 * w, 3 * w);
    assert s * (2 * w) * (3 * w) == 6 * w * w * s;
    assert (s * (2 * w) + 2 * w) * (3 * w) == 6 * w * w * s + 6 * w * w;
  }

  /** The floored cube, scaled: `6w^2 t` lies within `6w^2 + 2w x` below `x^3`. */
  lemma ScaleThird(x: nat, w: nat, s: nat, t: nat)
    requires w > 0
    requires s * (2 * w) <= x * x < s * (2 * w) + 2 * w
    requires t * (3 * w) <= s * x < t * (3 * w) + 3 * w
    ensures 6 * w * w * t <= x * x * x < 6 * w * w * t + 6 * w * w + 2 * w * x
  {
    CubeAroundSquare(x, w, s);
    ScaleQuotient(w, s * x, t);
  }

  lemma CubeAroundSquare(x: nat, w: nat, s: nat)
    requires s * (2 * w) <= x * x < s * (2 * w) + 2 * w
    ensures 2 * w * (s * x) <= x * x * x <= 2 * w * (s * x) + 2 * w * x
  {
    MulMono(s * (2 * w), x * x, x);
    MulMono(x * x, s * (2 * w) + 2 * w, x);
    assert s * (2 * w) * x == 2 * w * (s * x);
    assert (s * (2 * w) + 2 * w) * x == s * (2 * w) * x + 2 * w * x;
  }

  lemma ScaleQuotient(w: nat, y: nat, t: nat)
    requires w > 0
    requires t * (3 * w) <= y < t * (3 * w) + 3 * w
    ensures 6 * w * w * t <= 2 * w * y < 6 * w * w * t + 6 * w * w
  {
    MulMono(t * (3 * w), y, 2 * w);
    MulMono(y + 1, t * (3 * w) + 3 * w, 2 * w);
    assert t * (3 * w) * (2 * w) == 6 * w * w * t;
    assert (t * (3 * w) + 3 * w) * (2 * w) == t * (3 * w) * (2 * w) + 6 * w * w;
    assert (y + 1) * (2 * w) == 2 * w * y + 2 * w;
  }

  lemma TaylorSum(x: nat, w: nat, s: nat, t: nat)
    requires 6 * w * w * s <= 3 * w * (x * x) <= 6 * w * w * s + 6 * w * w
    requires 6 * w * w * t <= x * x * x < 6 * w * w * t + 6 * w * w + 2 * w * x
    ensures 6 * w * w * (x + s + t) <= ScaledSum(x, w) < 6 * w * w * (x + s + t + 2) + 2 * w * x
  {
    var k := 6 * w * w;
    assert k * (x + s + t) == k * x + k * s + k * t;
    assert k * (x + s + t + 2) == k * x + k * s + k * t + k + k;
  }

  /** `interest` on a debt of `b` never exceeds the exact third-order compounding of `x` at one whole `w`, and
      falls short of it by less than one unit and the debt's part of the Taylor error. */
  ghost predicate CloseToExact(interest: nat, b: nat, x: nat, w: nat) {
    6 * w * w * (interest * w) <= b * ScaledSum(x, w) <= 6 * w * w * (interest * w + w) + b * (12 * w * w + 2 * w * x)
  }

  lemma InterestAgainstExact(market: Market, rate: nat, elapsed: nat)
    ensures CloseToExact(Interest(market, rate, elapsed), market.borrowAssets, rate * elapsed, WAD)
  {
    var x, b := rate * elapsed, market.borrowAssets;
    if elapsed == 0 || b == 0 || rate == 0 {
      assert b == 0 || x == 0;
      NothingAccrues(b, x, WAD);
    } else {
      FlooredAgainstExact(b, x, WAD);
    }
  }

  lemma NothingAccrues(b: nat, x: nat, w: nat)
    requires b == 0 || x == 0
    ensures CloseToExact(0, b, x, w)
  {
    NonNegative(w, b, x);
    assert x == 0 ==> ScaledSum(x, w) == 0;
  }

  lemma FlooredAgainstExact(b: nat, x: nat, w: nat)
    requires w > 0
    ensures CloseToExact(MulDivDown(b, Taylor(x, w), w), b, x, w)
  {
    var k, c, exact := 6 * w * w, Taylor(x, w), ScaledSum(x, w);
    var floored := MulDivDown(b, c, w) * w;
    assert k * c <= exact < k * (c + 2) + 2 * w * x by { TaylorError(x, w); }
    assert floored <= b * c < floored + w by { JustBelow(b * c, w); }
    ScaleInterest(k, b, c, floored, w, exact, 2 * w * x);
    assert 2 * k == 12 * w * w;
  }

  lemma JustBelow(n: nat, d: nat)
    requires d > 0
    ensures n / d * d <= n < n / d * d + d
  {
    FloorIs(n, d, n / d);
    assert (n / d + 1) * d == n / d * d + d;
  }

  lemma NonNegative(w: nat, b: nat, x: nat)
    ensures 0 <= 6 * w * w * w && 0 <= b * (12 * w * w + 2 * w * x)
  {
    assert 0 <= 12 * w * w + 2 * w * x;
  }

  lemma ScaleInterest(k: nat, b: nat, c: nat, floored: nat, w: nat, exact: nat, slack: nat)
    requires floored <= b * c < floored + w
    requires k * c <= exact < k * (c + 2) + slack
    ensures k * floored <= b * exact <= k * (floored + w) + b * (2 * k + slack)
  {
    ScaleBelow(k, b, c, floored, exact);
    assert k * (c + 2) == k * c + 2 * k;
    ScaleAbove(k, b, c, floored + w, exact, 2 * k + slack);
  }

  lemma ScaleBelow(k: nat, b: nat, c: nat, floored: nat, exact: nat)
    requires floored <= b * c && k * c <= exact
    ensures k * floored <= b * exact
  {
    MulMono(floored, b * c, k);
    MulMono(k * c, exact, b);
    assert b * c * k == k * c * b;
  }

  lemma ScaleAbove(k: nat, b: nat, c: nat, ceiling: nat, exact: nat, slack: nat)
    requires b * c <= ceiling && exact <= k * c + slack
    ensures b * exact <= k * ceiling + b * slack
  {
    MulMono(b * c, ceiling, k);
    MulMono(exact, k * c + slack, b);
    assert (k * c + slack) * b == b * c * k + b * slack;
  }

  // ---------- Claims ----------

  /** A supply claim in assets, rounded down. */
  function SupplyAmount(shares: nat, market: Market): nat {
    Share(shares, market.supplyAssets + 1, market.supplyShares + VIRTUAL_SHARES)
  }

  /** A debt in assets, rounded up. */
  function DebtAmount(shares: nat, market: Market): nat {
    MulDivUp(shares, market.borrowAssets + 1, market.borrowShares + VIRTUAL_SHARES)
  }

  /** A supply claim is its exact part of the virtual supply, rounded down. */
  lemma SupplyAmountIsProportional(shares: nat, market: Market)
    ensures var amount, d := SupplyAmount(shares, market), market.supplyShares + VIRTUAL_SHARES;
            amount * d <= shares * (market.supplyAssets + 1) < amount * d + d
  {
    JustBelow(shares * (market.supplyAssets + 1), market.supplyShares + VIRTUAL_SHARES);
  }

  datatype Holder = Holder(account: Address, supplyShares: nat, borrowShares: nat)

  function EffectiveSupplyShares(holder: Holder, pendingFeeShares: nat, recipient: Address): nat {
    if recipient != ZERO_ADDRESS && holder.account == recipient then holder.supplyShares + pendingFeeShares
    else holder.supplyShares
  }

  ghost predicate Distinct(holders: seq<Holder>) {
    forall i, j :: 0 <= i < j < |holders| ==> holders[i].account != holders[j].account
  }

  function Stored(holders: seq<Holder>): (shares: seq<nat>)
    ensures |shares| == |holders|
  {
    seq(|holders|, i requires 0 <= i < |holders| => holders[i].supplyShares)
  }

  function Effective(holders: seq<Holder>, pending: nat, recipient: Address): (shares: seq<nat>)
    ensures |shares| == |holders|
  {
    seq(|holders|, i requires 0 <= i < |holders| => EffectiveSupplyShares(holders[i], pending, recipient))
  }

  /** Pending fee shares are credited at most once, and only to the recipient. */
  lemma {:induction false} EffectiveSum(holders: seq<Holder>, pending: nat, recipient: Address)
    requires Distinct(holders)
    ensures var credited := recipient != ZERO_ADDRESS && exists h :: h in holders && h.account == recipient;
            Sum(Effective(holders, pending, recipient)) == Sum(Stored(holders)) + if credited then pending else 0
  {
    if holders != [] {
      var rest := holders[1..];
      EffectiveSum(rest, pending, recipient);
      assert Effective(holders, pending, recipient)[1..] == Effective(rest, pending, recipient);
      assert Stored(holders)[1..] == Stored(rest);
      assert holders == [holders[0]] + rest;
      if holders[0].account == recipient {
        assert forall h :: h in rest ==> h.account != recipient;
      }
    }
  }

  /** Every set of holders within the stored total stays within the expected total once pending fee
      shares are credited, and their floored supply amounts together never exceed the supplied assets. */
  lemma SupplyClaimsCovered(market: Market, rate: nat, elapsed: nat, holders: seq<Holder>, recipient: Address)
    requires market.fee <= WAD && Distinct(holders)
    requires Sum(Stored(holders)) <= market.supplyShares
    ensures var r := Accrued(market, rate, elapsed);
            var claims := Effective(holders, FeeShares(market, rate, elapsed), recipient);
            && Sum(claims) <= r.supplyShares
            && Sum(FlooredShares(claims, r.supplyAssets + 1, r.supplyShares + VIRTUAL_SHARES)) <= r.supplyAssets
  {
    var r := Accrued(market, rate, elapsed);
    var claims := Effective(holders, FeeShares(market, rate, elapsed), recipient);
    EffectiveSum(holders, FeeShares(market, rate, elapsed), recipient);
    ClaimsFit(claims, r.supplyAssets, r.supplyShares);
  }

  lemma ClaimsFit(claims: seq<nat>, assets: nat, shares: nat)
    requires Sum(claims) <= shares
    ensures Sum(FlooredShares(claims, assets + 1, shares + VIRTUAL_SHARES)) <= assets
  {
    var n, d := assets + 1, shares + VIRTUAL_SHARES;
    FlooredSharesFit(claims, n, d);
    ShareBelow(Sum(claims), n, d);
  }

  lemma ShareBelow(x: nat, n: nat, d: nat)
    requires x < d && n > 0
    ensures Share(x, n, d) < n
  {
    MulMono(x + 1, d, n);
    assert (x + 1) * n == x * n + n;
    FloorAtLeast(x * n, d, n);
  }

  function Debts(holders: seq<Holder>, market: Market): (debts: seq<nat>)
    ensures |debts| == |holders|
  {
    seq(|holders|, i requires 0 <= i < |holders| => DebtAmount(holders[i].borrowShares, market))
  }

  function Borrowed(holders: seq<Holder>): (shares: seq<nat>)
    ensures |shares| == |holders|
  {
    seq(|holders|, i requires 0 <= i < |holders| => holders[i].borrowShares)
  }

  /** Rounded-up debts cover the holders' exact fraction of the borrowed assets, and exceed it by less than one
      unit each. */
  lemma {:induction false} DebtsCover(market: Market, holders: seq<Holder>)
    ensures var n, d := market.borrowAssets + 1, market.borrowShares + VIRTUAL_SHARES;
            && Sum(Borrowed(holders)) * n <= Sum(Debts(holders, market)) * d
            && (holders != [] ==> Sum(Debts(holders, market)) * d < (Sum(Borrowed(holders)) * n) + |holders| * d)
  {
    var n, d := market.borrowAssets + 1, market.borrowShares + VIRTUAL_SHARES;
    if holders != [] {
      var rest := holders[1..];
      DebtsCover(market, rest);
      assert Debts(holders, market)[1..] == Debts(rest, market);
      assert Borrowed(holders)[1..] == Borrowed(rest);
      var debt, shares := DebtAmount(holders[0].borrowShares, market), holders[0].borrowShares;
      AddDebt(n, d, shares, debt, Sum(Borrowed(rest)), Sum(Debts(rest, market)), |rest|);
    }
  }

  lemma AddDebt(n: nat, d: nat, shares: nat, debt: nat, allShares: nat, allDebts: nat, count: nat)
    requires shares * n <= debt * d < shares * n + d
    requires allShares * n <= allDebts * d <= allShares * n + count * d
    ensures (shares + allShares) * n <= (debt + allDebts) * d < (shares + allShares) * n + (1 + count) * d
  {
    assert (debt + allDebts) * d == debt * d + allDebts * d;
    assert (shares + allShares) * n == shares * n + allShares * n;
    assert (1 + count) * d == d + count * d;
  }
}
