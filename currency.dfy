/** Price conversion and the price band of the cleaning script. Prices are
    exact integers: Bangladeshi taka as parsed, and euro amounts in cents,
    which is exactly what rounding to two decimals keeps. */
module Currency {

  /** The fixed exchange rate used by the cleaner: 120 BDT per euro. */
  const BdtPerEur: nat := 120
  const CentsPerEur: nat := 100

  /** The inclusive band of accepted prices, 5 EUR to 10000 EUR, in cents. */
  const MinEurCents: nat := 500
  const MaxEurCents: nat := 1000000

  /** The integer nearest to n/d, ties to the even neighbour (numpy's `rint`,
      which `round(2)` applies after scaling by 100). */
  function RoundHalfEven(n: nat, d: nat): (r: nat)
    requires d > 0
    ensures -(d as int) <= 2 * (n - r * d) <= d
    ensures (2 * (n - r * d) == d || 2 * (n - r * d) == -(d as int)) ==> r % 2 == 0
  {
    var q, rem := n / d, n % d;
    assert n == q * d + rem;
    if 2 * rem < d then q
    else if 2 * rem > d then
      assert n - (q + 1) * d == rem - d;
      q + 1
    else if q % 2 == 0 then q
    else
      assert n - (q + 1) * d == rem - d;
      q + 1
  }

  /** `round(price_bdt / 120, 2)` as a number of cents. */
  function EurCents(bdt: nat): (c: nat)
    ensures 100 * bdt - 60 <= 120 * c <= 100 * bdt + 60
  {
    RoundHalfEven(bdt * CentsPerEur, BdtPerEur)
  }

  predicate InBand(cents: nat) {
    MinEurCents <= cents <= MaxEurCents
  }

  /** A higher price never converts to fewer cents. */
  lemma EurCentsMonotone(a: nat, b: nat)
    requires a <= b
    ensures EurCents(a) <= EurCents(b)
  {
  }

  /** The euro band is a band on the parsed taka price: 600 BDT (5.00 EUR)
      up to 1,200,000 BDT (10000.00 EUR); 599 BDT gives 4.99 EUR and
      1,200,001 BDT gives 10000.01 EUR, both outside. */
  lemma BandInTaka(bdt: nat)
    ensures InBand(EurCents(bdt)) <==> 600 <= bdt <= 1200000
  {
    if bdt < 600 {
      EurCentsMonotone(bdt, 599);
      assert EurCents(599) == 499;
    } else if bdt > 1200000 {
      EurCentsMonotone(1200001, bdt);
      assert EurCents(1200001) == 1000001;
    } else {
      EurCentsMonotone(600, bdt);
      EurCentsMonotone(bdt, 1200000);
      assert EurCents(600) == 500;
      assert EurCents(1200000) == 1000000;
    }
  }

  /** Prices that are whole multiples of 6 BDT convert exactly (no rounding). */
  lemma EurCentsExact(k: nat)
    ensures EurCents(6 * k) == 5 * k
  {
  }
}
