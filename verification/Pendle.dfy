/** Pendle valuation: solvency, the split of a claim into PT and YT, reserve shares, and which market
    prices a PT. */
module Pendle {
  import opened Rounding
  import opened Wrappers

  const ONE: nat := 1_000_000_000_000_000_000

  // ---------- Solvency ----------

  datatype FactorError = IndexNotPositive | FactorUnderflow

  function SolvencyFactor(syIndex: int, pyIndexStored: int): Result<nat, FactorError> {
    if syIndex <= 0 || pyIndexStored <= 0 then Err(IndexNotPositive) else
    if syIndex >= pyIndexStored then Ok(ONE) else
    var factor := Share(syIndex, ONE, pyIndexStored);
    if factor <= 0 then Err(FactorUnderflow) else Ok(factor)
  }

  /** The redeemable part of a claim, capped at the whole claim. */
  function Redeemable(syIndex: nat, pyIndex: nat): nat
    requires pyIndex > 0
  {
    if syIndex >= pyIndex then ONE else Share(syIndex, ONE, pyIndex)
  }

  /** Reading only the stored index loses nothing: whether the oracle library takes the stored index, as it
      does inside the block that cached it, or the larger of the two, as it does otherwise, the redeemable
      part is the factor, which fails only on a non-positive index or a part below one unit. */
  lemma FactorMatchesOracle(syIndex: int, pyIndexStored: int, cachedThisBlock: bool)
    ensures var factor := SolvencyFactor(syIndex, pyIndexStored);
            var pyIndex := if cachedThisBlock || syIndex <= pyIndexStored then pyIndexStored else syIndex;
            && (factor.Ok? <==> syIndex > 0 && pyIndexStored > 0 && Redeemable(syIndex, pyIndex) > 0)
            && (factor == Err(IndexNotPositive) <==> syIndex <= 0 || pyIndexStored <= 0)
            && (factor.Ok? ==> factor.value == Redeemable(syIndex, pyIndex) && 0 < factor.value <= ONE)
  {
  }

  function ApplySolvency(ratio: nat, factor: nat): nat {
    Share(ratio, factor, ONE)
  }

  function YTRatio(ptRatio: nat): Option<nat> {
    if ONE - ptRatio <= 0 then None else Some(ONE - ptRatio)
  }

  /** A ratio's solvent part is its exact part, rounded down. */
  lemma SolvencyIsProportional(ratio: nat, factor: nat)
    ensures ApplySolvency(ratio, factor) * ONE <= ratio * factor < ApplySolvency(ratio, factor) * ONE + ONE
  {
    FloorIs(ratio * factor, ONE, ratio * factor / ONE);
  }

  /** A YT is worth what its PT is short of a whole claim, and nothing can be said once that is nothing. */
  lemma YieldIsTheRest(ptRatio: nat)
    ensures YTRatio(ptRatio).Some? <==> ptRatio < ONE
    ensures YTRatio(ptRatio).Some? ==> ptRatio + YTRatio(ptRatio).value == ONE
  {
  }

  /** A discounted PT and its YT together are never worth more than the solvent claim, and fall short
      of it by at most one unit. */
  lemma PrincipalAndYield(ptRatio: nat, factor: nat)
    requires YTRatio(ptRatio).Some?
    ensures var pt, yt := ApplySolvency(ptRatio, factor), ApplySolvency(YTRatio(ptRatio).value, factor);
            && pt + yt <= factor <= pt + yt + 1
            && pt * ONE <= ptRatio * factor < pt * ONE + ONE
            && yt * ONE <= (ONE - ptRatio) * factor < yt * ONE + ONE
  {
    SolvencyIsProportional(ptRatio, factor);
    SolvencyIsProportional(ONE - ptRatio, factor);
  }

  // ---------- Reserves ----------

  function ReserveShare(balance: nat, reserve: nat, totalLp: nat): nat
    requires totalLp > 0
  {
    Share(balance, reserve, totalLp)
  }

  /** A holder is credited its exact part of the reserve, rounded down. */
  lemma ReserveShareIsProportional(balance: nat, reserve: nat, totalLp: nat)
    requires totalLp > 0
    ensures var share := ReserveShare(balance, reserve, totalLp);
            share * totalLp <= balance * reserve < share * totalLp + totalLp
  {
    var share := ReserveShare(balance, reserve, totalLp);
    FloorIs(balance * reserve, totalLp, share);
    assert (share + 1) * totalLp == share * totalLp + totalLp;
  }

  /** Holders who together hold at most the LP supply are never credited more than the reserve, and those
      who hold all of it are credited all of it but at most one unit each. */
  lemma ReserveSharesFit(balances: seq<nat>, reserve: nat, totalLp: nat)
    requires totalLp > 0 && Sum(balances) <= totalLp
    ensures Sum(seq(|balances|, i requires 0 <= i < |balances| => ReserveShare(balances[i], reserve, totalLp))) <= reserve
    ensures Sum(balances) == totalLp ==>
              reserve <= Sum(seq(|balances|, i requires 0 <= i < |balances| =>
                                   ReserveShare(balances[i], reserve, totalLp))) + |balances|
  {
    var shares := seq(|balances|, i requires 0 <= i < |balances| => ReserveShare(balances[i], reserve, totalLp));
    assert shares == FlooredShares(balances, reserve, totalLp);
    FlooredSharesFit(balances, reserve, totalLp);
    MulMono(Sum(balances), totalLp, reserve);
    assert totalLp * reserve == reserve * totalLp;
    FloorMono(Sum(balances) * reserve, reserve * totalLp, totalLp);
    FloorIs(reserve * totalLp, totalLp, reserve);
  }

  // ---------- Which market prices a PT ----------

  type Address = nat

  datatype Candidate = Candidate(pt: Address, market: Address)

  /** One market's state: absent when its read failed or did not decode. */
  datatype MarketState = MarketState(totalSy: int, totalLp: int, lnImpliedRate: int)

  ghost predicate Usable(states: Address -> Option<MarketState>, market: Address) {
    states(market).Some? && states(market).value.totalSy > 0
    && states(market).value.totalLp > 0 && states(market).value.lnImpliedRate > 0
  }

  /** `market` is at least as good as `other`: deeper, or as deep under a lower address. */
  ghost predicate Preferred(states: Address -> Option<MarketState>, market: Address, other: Address)
    requires Usable(states, market) && Usable(states, other)
  {
    var depth, otherDepth := states(market).value.totalSy, states(other).value.totalSy;
    depth > otherDepth || (depth == otherDepth && market <= other)
  }

  /** `market` is the best usable candidate for `pt`. */
  ghost predicate Best(states: Address -> Option<MarketState>, candidates: seq<Candidate>, pt: Address,
                       market: Address) {
    && Candidate(pt, market) in candidates && Usable(states, market)
    && forall c :: c in candidates && c.pt == pt && Usable(states, c.market) ==> Preferred(states, market, c.market)
  }

  ghost predicate HasUsable(states: Address -> Option<MarketState>, candidates: seq<Candidate>, pt: Address) {
    exists c :: c in candidates && c.pt == pt && Usable(states, c.market)
  }

  /** Each PT with a usable candidate carries the rate of a best one, and no other PT carries any. */
  ghost predicate PricesByBest(states: Address -> Option<MarketState>, candidates: seq<Candidate>,
                               rates: map<Address, int>) {
    && (forall pt :: pt in rates <==> HasUsable(states, candidates, pt))
    && forall pt :: pt in rates ==>
         exists market :: Best(states, candidates, pt, market) && rates[pt] == states(market).value.lnImpliedRate
  }

  /** The maps chosen so far are right for the candidates seen so far. */
  ghost predicate Selected(
    states: Address -> Option<MarketState>, seen: seq<Candidate>,
    rates: map<Address, int>, depths: map<Address, int>, chosen: map<Address, Address>)
  {
    && rates.Keys == depths.Keys == chosen.Keys
    && forall pt :: && (pt in chosen <==> HasUsable(states, seen, pt))
                    && (pt in chosen ==> && Best(states, seen, pt, chosen[pt])
                                         && depths[pt] == states(chosen[pt]).value.totalSy
                                         && rates[pt] == states(chosen[pt]).value.lnImpliedRate)
  }

  /** Folds the candidates' market states into one rate per PT: the rate of its deepest usable market,
      ties to the lowest address. A PT with no usable market gets none. */
  method MarketImpliedRates(states: Address -> Option<MarketState>, candidates: seq<Candidate>)
    returns (rates: map<Address, int>)
    ensures PricesByBest(states, candidates, rates)
  {
    rates := map[];
    var depths: map<Address, int>, chosen: map<Address, Address> := map[], map[];
    for index := 0 to |candidates|
      invariant Selected(states, candidates[..index], rates, depths, chosen)
    {
      var candidate := candidates[index];
      var row := states(candidate.market);
      var skip := row.None? || row.value.totalSy <= 0 || row.value.totalLp <= 0 || row.value.lnImpliedRate <= 0;
      if !skip && candidate.pt in depths {
        var deepest := depths[candidate.pt];
        skip := row.value.totalSy < deepest
                || (row.value.totalSy == deepest && candidate.market >= chosen[candidate.pt]);
      }
      assert candidates[..index + 1] == candidates[..index] + [candidate];
      if skip {
        Loses(states, candidates[..index], candidate, rates, depths, chosen);
      } else {
        Wins(states, candidates[..index], candidate, rates, depths, chosen);
        depths := depths[candidate.pt := row.value.totalSy];
        chosen := chosen[candidate.pt := candidate.market];
        rates := rates[candidate.pt := row.value.lnImpliedRate];
      }
    }
    assert candidates[..|candidates|] == candidates;
  }

  /** A candidate of another PT changes nothing for this one. */
  lemma OtherPT(states: Address -> Option<MarketState>, seen: seq<Candidate>, candidate: Candidate, pt: Address)
    requires pt != candidate.pt
    ensures HasUsable(states, seen + [candidate], pt) <==> HasUsable(states, seen, pt)
    ensures forall market :: Best(states, seen + [candidate], pt, market) <==> Best(states, seen, pt, market)
  {
    assert forall c :: c in seen + [candidate] <==> c in seen || c == candidate;
  }

  /** A usable candidate makes its PT priceable, and is its best when preferred to the best so far;
      any other leaves the best so far in place. */
  lemma OwnPT(states: Address -> Option<MarketState>, seen: seq<Candidate>, candidate: Candidate)
    ensures var more, pt, market := seen + [candidate], candidate.pt, candidate.market;
            && (HasUsable(states, more, pt) <==> HasUsable(states, seen, pt) || Usable(states, market))
            && (Usable(states, market) && !HasUsable(states, seen, pt) ==> Best(states, more, pt, market))
            && forall best :: Best(states, seen, pt, best) ==>
                 && (Usable(states, market) && Preferred(states, market, best) ==> Best(states, more, pt, market))
                 && (Usable(states, market) && Preferred(states, best, market) ==> Best(states, more, pt, best))
                 && (!Usable(states, market) ==> Best(states, more, pt, best))
  {
    assert candidate in seen + [candidate];
    assert forall c :: c in seen + [candidate] <==> c in seen || c == candidate;
  }

  /** A candidate that is usable, and deeper than its PT's choice or as deep under a lower address,
      becomes the choice. */
  lemma Wins(
    states: Address -> Option<MarketState>, seen: seq<Candidate>, candidate: Candidate,
    rates: map<Address, int>, depths: map<Address, int>, chosen: map<Address, Address>)
    requires Selected(states, seen, rates, depths, chosen)
    requires Usable(states, candidate.market)
    requires candidate.pt in chosen ==> Preferred(states, candidate.market, chosen[candidate.pt])
    ensures var state, pt := states(candidate.market).value, candidate.pt;
            Selected(states, seen + [candidate], rates[pt := state.lnImpliedRate], depths[pt := state.totalSy],
                     chosen[pt := candidate.market])
  {
    var more, state := seen + [candidate], states(candidate.market).value;
    var rates', depths' := rates[candidate.pt := state.lnImpliedRate], depths[candidate.pt := state.totalSy];
    var chosen' := chosen[candidate.pt := candidate.market];
    OwnPT(states, seen, candidate);
    assert rates'.Keys == depths'.Keys == chosen'.Keys == chosen.Keys + {candidate.pt};
    forall pt
      ensures pt in chosen' <==> HasUsable(states, more, pt)
      ensures pt in chosen' ==> && Best(states, more, pt, chosen'[pt])
                                && depths'[pt] == states(chosen'[pt]).value.totalSy
                                && rates'[pt] == states(chosen'[pt]).value.lnImpliedRate
    {
      if pt != candidate.pt {
        OtherPT(states, seen, candidate, pt);
      }
    }
  }

  /** Any other candidate leaves the choices right as they are. */
  lemma Loses(
    states: Address -> Option<MarketState>, seen: seq<Candidate>, candidate: Candidate,
    rates: map<Address, int>, depths: map<Address, int>, chosen: map<Address, Address>)
    requires Selected(states, seen, rates, depths, chosen)
    requires Usable(states, candidate.market) ==> && candidate.pt in chosen
                                                  && Preferred(states, chosen[candidate.pt], candidate.market)
    ensures Selected(states, seen + [candidate], rates, depths, chosen)
  {
    OwnPT(states, seen, candidate);
    forall pt | pt != candidate.pt
      ensures HasUsable(states, seen + [candidate], pt) <==> HasUsable(states, seen, pt)
      ensures forall market :: Best(states, seen + [candidate], pt, market) <==> Best(states, seen, pt, market)
    {
      OtherPT(states, seen, candidate, pt);
    }
  }

  /** A PT has at most one best market. */
  lemma BestIsUnique(states: Address -> Option<MarketState>, candidates: seq<Candidate>, pt: Address, m: Address,
                     m': Address)
    requires Best(states, candidates, pt, m) && Best(states, candidates, pt, m')
    ensures m == m'
  {
  }

  /** So what the fold returns depends only on which candidates there are, never on their order. */
  lemma OrderIrrelevant(states: Address -> Option<MarketState>, candidates: seq<Candidate>, reordered: seq<Candidate>,
                        rates: map<Address, int>, rates': map<Address, int>)
    requires forall c :: c in candidates <==> c in reordered
    requires PricesByBest(states, candidates, rates) && PricesByBest(states, reordered, rates')
    ensures rates == rates'
  {
  }
}
