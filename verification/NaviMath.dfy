/** NAVI reserve interest: linear for supply, a third-order binomial for borrows. */
module NaviMath {
  import opened Ray
  import opened Rounding

  const YEAR_SECONDS: nat := 365 * 24 * 60 * 60

  datatype Projection = Index(value: nat) | InvalidInputs

  function SupplyInterest(rate: nat, seconds: nat): nat {
    RAY + Share(rate, seconds, YEAR_SECONDS)
  }

  function BorrowInterest(rate: nat, seconds: nat): nat {
    if seconds == 0 then RAY else
    var perSecond := rate / YEAR_SECONDS;
    var square := Mul(perSecond, perSecond);
    var cube := Mul(square, perSecond);
    var minusOne := seconds - 1;
    var minusTwo := if seconds > 2 then seconds - 2 else 0;
    var term2 := Share(seconds * minusOne, square, 2);
    var term3 := Share(seconds * minusOne * minusTwo, cube, 6);
    RAY + perSecond * seconds + term2 + term3
  }

  function IndexAt(index: int, rate: int, lastMs: nat, targetMs: nat, borrow: bool): Projection {
    if index <= 0 || rate < 0 || targetMs < lastMs then InvalidInputs else
    var seconds := (targetMs - lastMs) / 1000;
    Index(Mul(index, if borrow then BorrowInterest(rate, seconds) else SupplyInterest(rate, seconds)))
  }

  // ---------- The binomial ----------

  function Choose(n: nat, k: nat): nat {
    if k == 0 then 1 else if n == 0 then 0 else Choose(n - 1, k - 1) + Choose(n - 1, k)
  }

  lemma {:induction false} ChooseOne(n: nat)
    ensures Choose(n, 1) == n
  {
    if n > 0 {
      ChooseOne(n - 1);
    }
  }

  lemma {:induction false} ChooseTwo(n: nat)
    ensures 2 * Choose(n, 2) == n * (n - 1)
  {
    if n > 0 {
      ChooseTwo(n - 1);
      ChooseOne(n - 1);
      assert n * (n - 1) == (n - 1) * (n - 2) + 2 * (n - 1);
    }
  }

  lemma {:induction false} ChooseThree(n: nat)
    ensures 6 * Choose(n, 3) == n * (n - 1) * (n - 2)
  {
    if n > 0 {
      ChooseThree(n - 1);
      ChooseTwo(n - 1);
      OneMoreFactor((n - 1) * (n - 2), n);
    }
  }

  lemma OneMoreFactor(a: int, n: int)
    requires a == (n - 1) * (n - 2)
    ensures n * (n - 1) * (n - 2) == (n - 1) * (n - 2) * (n - 3) + 3 * a
  {
    assert n * (n - 1) * (n - 2) == n * a by { assert n * ((n - 1) * (n - 2)) == n * (n - 1) * (n - 2); }
    assert n * a == (n - 3) * a + 3 * a;
    assert (n - 1) * (n - 2) * (n - 3) == a * (n - 3) == (n - 3) * a;
  }

  lemma {:induction false} ChooseMonotone(n: nat, m: nat, k: nat)
    requires n <= m
    ensures Choose(n, k) <= Choose(m, k)
    decreases m
  {
    if n < m {
      ChooseMonotone(n, m - 1, k);
    }
  }

  lemma ExactDivision(q: nat, c: nat, d: nat)
    requires d > 0
    ensures Share(d * q, c, d) == q * c
  {
    assert d * q * c == q * c * d;
    FloorIs(q * c * d, d, q * c);
  }

  /** The divisions by two and six never truncate: the borrow factor is the third-order binomial over
      the half-up ray powers of the per-second rate, for every number of seconds. */
  lemma BorrowInterestIsBinomial(rate: nat, s: nat)
    ensures var p := rate / YEAR_SECONDS;
            BorrowInterest(rate, s)
            == RAY + Choose(s, 1) * p + Choose(s, 2) * Mul(p, p) + Choose(s, 3) * Mul(Mul(p, p), p)
  {
    ChooseOne(s);
    if s > 0 {
      var p := rate / YEAR_SECONDS;
      var square := Mul(p, p);
      assert Share(s * (s - 1), square, 2) == Choose(s, 2) * square by {
        ChooseTwo(s);
        ExactDivision(Choose(s, 2), square, 2);
      }
      var cube := Mul(square, p);
      var minusTwo := if s > 2 then s - 2 else 0;
      assert Share(s * (s - 1) * minusTwo, cube, 6) == Choose(s, 3) * cube by {
        ThreeFactors(s);
        ExactDivision(Choose(s, 3), cube, 6);
      }
    }
  }

  lemma ThreeFactors(s: nat)
    requires s > 0
    ensures s * (s - 1) * (if s > 2 then s - 2 else 0) == 6 * Choose(s, 3)
  {
    ChooseThree(s);
    if s <= 2 {
      assert s == 1 || s == 2;
    }
  }

  lemma BorrowInterestMonotone(rate: nat, s: nat, rate': nat, s': nat)
    requires rate <= rate' && s <= s'
    ensures RAY <= BorrowInterest(rate, s) <= BorrowInterest(rate', s')
  {
    BorrowInterestIsBinomial(rate, s);
    BorrowInterestIsBinomial(rate', s');
    var p, p' := rate / YEAR_SECONDS, rate' / YEAR_SECONDS;
    FloorMono(rate, rate', YEAR_SECONDS);
    MulMonotone(p, p, p', p');
    MulMonotone(Mul(p, p), p, Mul(p', p'), p');
    TermMonotone(s, s', 1, p, p');
    TermMonotone(s, s', 2, Mul(p, p), Mul(p', p'));
    TermMonotone(s, s', 3, Mul(Mul(p, p), p), Mul(Mul(p', p'), p'));
  }

  lemma TermMonotone(s: nat, s': nat, k: nat, power: nat, power': nat)
    requires s <= s' && power <= power'
    ensures 0 <= Choose(s, k) * power <= Choose(s', k) * power'
  {
    ChooseMonotone(s, s', k);
    ProductMono(0, Choose(s, k), 0, power);
    ProductMono(Choose(s, k), Choose(s', k), power, power');
  }

  lemma SupplyInterestMonotone(rate: nat, s: nat, rate': nat, s': nat)
    requires rate <= rate' && s <= s'
    ensures RAY <= SupplyInterest(rate, s) <= SupplyInterest(rate', s')
  {
    ProductMono(rate, rate', s, s');
    FloorMono(rate * s, rate' * s', YEAR_SECONDS);
  }

  /** Supply interest is simple interest: whole years at a rate earn exactly that many times the rate. */
  lemma SupplyInterestIsLinear(rate: nat, years: nat)
    ensures SupplyInterest(rate, years * YEAR_SECONDS) == RAY + rate * years
  {
  }

  /** The exact floored simple interest. */
  lemma SupplyInterestIsFloored(rate: nat, seconds: nat)
    ensures SupplyInterest(rate, seconds) >= RAY
    ensures var earned := SupplyInterest(rate, seconds) - RAY;
            earned * YEAR_SECONDS <= rate * seconds < earned * YEAR_SECONDS + YEAR_SECONDS
  {
    FloorIs(rate * seconds, YEAR_SECONDS, rate * seconds / YEAR_SECONDS);
    FloorAtLeast(rate * seconds, YEAR_SECONDS, 0);
  }

  /** An index is projected exactly for a positive stored index, a rate not negative and a time not past. The
      borrow index is the stored one times the binomial factor over the whole seconds elapsed, and the supply
      index the stored one times the simple-interest factor; each is rounded to the nearest unit, halves up. */
  lemma IndexIsScaled(index: int, rate: int, lastMs: nat, targetMs: nat, borrow: bool)
    ensures IndexAt(index, rate, lastMs, targetMs, borrow).Index? <==> index > 0 && rate >= 0 && lastMs <= targetMs
    ensures index > 0 && rate >= 0 && lastMs <= targetMs ==>
              var s, p := (targetMs - lastMs) / 1000, rate / YEAR_SECONDS;
              var factor := RAY + if borrow
                                  then Choose(s, 1) * p + Choose(s, 2) * Mul(p, p) + Choose(s, 3) * Mul(Mul(p, p), p)
                                  else rate * s / YEAR_SECONDS;
              var value := IndexAt(index, rate, lastMs, targetMs, borrow).value;
              index * factor + HALF_RAY - RAY < value * RAY <= index * factor + HALF_RAY
  {
    if index > 0 && rate >= 0 && lastMs <= targetMs {
      var s := (targetMs - lastMs) / 1000;
      BorrowInterestIsBinomial(rate, s);
      MulBounds(index, if borrow then BorrowInterest(rate, s) else SupplyInterest(rate, s));
    }
  }

  /** Either index never falls below the stored one, grows with time and rate, and has not moved before
      a whole second has passed. */
  lemma IndexMonotone(index: int, rate: int, rate': int, lastMs: nat, targetMs: nat, targetMs': nat, borrow: bool)
    requires 0 < index && 0 <= rate <= rate' && lastMs <= targetMs <= targetMs'
    ensures var now, later := IndexAt(index, rate, lastMs, targetMs, borrow), IndexAt(index, rate', lastMs, targetMs', borrow);
            && now.Index? && later.Index? && index <= now.value <= later.value
            && (targetMs - lastMs < 1000 ==> now.value == index)
  {
    var s, s' := (targetMs - lastMs) / 1000, (targetMs' - lastMs) / 1000;
    FloorMono(targetMs - lastMs, targetMs' - lastMs, 1000);
    BorrowInterestMonotone(rate, s, rate', s');
    SupplyInterestMonotone(rate, s, rate', s');
    MulOne(index);
    var f := if borrow then BorrowInterest(rate, s) else SupplyInterest(rate, s);
    var f' := if borrow then BorrowInterest(rate', s') else SupplyInterest(rate', s');
    MulMonotone(index, RAY, index, f);
    MulMonotone(index, f, index, f');
    if s == 0 {
      assert rate * 0 == 0;
    }
  }
}
