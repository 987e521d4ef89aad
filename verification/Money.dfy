/**
 Currency amounts and banker's rounding (crates/core/src/domain/money.rs).

 `Decimal` is modelled as an exact `real`: no 28-digit truncation and no overflow.
 */
module Money {

  /** Round to the nearest integer, ties to the even neighbour. */
  function HalfEven(x: real): (n: int)
  {
    var below := x.Floor;
    var rest := x - below as real;
    if rest < 0.5 then below
    else if rest > 0.5 then below + 1
    else if below % 2 == 0 then below
    else below + 1
  }

  datatype Currency = Currency(code: string) {

    /** Decimal places of the minor unit: 0 for DZD, 2 for USD, CAD and every other code. */
    function Scale(): nat {
      if code == "DZD" then 0 else 2
    }

    /** The amount counted in minor units. */
    function Minor(amount: real): real {
      if Scale() == 0 then amount else 100.0 * amount
    }

    function FromMinor(count: int): real {
      if Scale() == 0 then count as real else count as real / 100.0
    }

    function Round(amount: real): real {
      FromMinor(HalfEven(Minor(amount)))
    }

    /** The amount is a whole number of minor units. */
    predicate OnGrid(amount: real) {
      Minor(amount) == Minor(amount).Floor as real
    }
  }

  function Abs(x: real): real {
    if x < 0.0 then -x else x
  }

  /** Distance from an amount to an integer. */
  function Gap(x: real, m: int): real {
    Abs(x - m as real)
  }

  /** `n` is the banker's rounding of `x` exactly when no integer is nearer and a tie is even. */
  ghost predicate IsBankersRounding(x: real, n: int) {
    && (forall m: int :: Gap(x, n) <= Gap(x, m))
    && (Gap(x, n) == 0.5 ==> n % 2 == 0)
  }

  lemma HalfEvenCharacterised(x: real, n: int)
    ensures n == HalfEven(x) <==> IsBankersRounding(x, n)
  {
    var h := HalfEven(x);
    assert Gap(x, h) <= 0.5;
    forall m: int
      ensures m >= h + 1 ==> Gap(x, m) >= 0.5 && (Gap(x, m) == 0.5 ==> m == h + 1 && Gap(x, h) == 0.5)
      ensures m <= h - 1 ==> Gap(x, m) >= 0.5 && (Gap(x, m) == 0.5 ==> m == h - 1 && Gap(x, h) == 0.5)
    {
      if m >= h + 1 {
        assert m as real >= h as real + 1.0;
      } else if m <= h - 1 {
        assert m as real <= h as real - 1.0;
      }
    }
    assert Gap(x, n) <= Gap(x, h) || !IsBankersRounding(x, n);
  }

  lemma HalfEvenMonotone(x: real, y: real)
    requires x <= y
    ensures HalfEven(x) <= HalfEven(y)
  {
    assert x.Floor <= y.Floor;
    if x.Floor < y.Floor {
      assert HalfEven(x) <= x.Floor + 1 <= y.Floor <= HalfEven(y);
    }
  }

  lemma MinorLinear(c: Currency, x: real, y: real)
    ensures c.Minor(x + y) == c.Minor(x) + c.Minor(y)
  {
  }

  lemma MinorOfRound(c: Currency, x: real)
    ensures c.Minor(c.Round(x)) == HalfEven(c.Minor(x)) as real
  {
  }

  /** `n` minor units: dinars for the dinar, hundredths for every other currency. */
  ghost function MinorUnits(code: string, n: int): real {
    if code == "DZD" then n as real else n as real / 100.0
  }

  lemma GridExactly(c: Currency, x: real)
    ensures c.OnGrid(x) <==> exists n :: x == MinorUnits(c.code, n)
  {
    if c.OnGrid(x) {
      assert x == MinorUnits(c.code, c.Minor(x).Floor);
    }
    if n :| x == MinorUnits(c.code, n) {
      assert c.Minor(x) == n as real;
    }
  }

  /** Rounding moves an amount by at most half a minor unit. */
  lemma RoundWithinHalfUnit(c: Currency, x: real)
    ensures Abs(c.Minor(c.Round(x) - x)) <= 0.5
    ensures c.OnGrid(c.Round(x))
  {
    MinorOfRound(c, x);
    assert c.Minor(c.Round(x) - x) == c.Minor(c.Round(x)) - c.Minor(x);
  }

  /** An amount already on the grid is left alone, so rounding is idempotent. */
  lemma RoundExactOnGrid(c: Currency, x: real)
    requires c.OnGrid(x)
    ensures c.Round(x) == x
  {
    var m := c.Minor(x).Floor;
    assert HalfEven(m as real) == m;
    assert c.FromMinor(m) == x;
  }

  lemma ZeroOnGrid(c: Currency)
    ensures c.OnGrid(0.0) && c.Round(0.0) == 0.0
  {
    RoundExactOnGrid(c, 0.0);
  }

  lemma GridSum(c: Currency, x: real, y: real)
    requires c.OnGrid(x) && c.OnGrid(y)
    ensures c.OnGrid(x + y)
    ensures c.Round(x + y) == x + y
  {
    var m, n := c.Minor(x).Floor, c.Minor(y).Floor;
    MinorLinear(c, x, y);
    assert c.Minor(x + y) == (m + n) as real;
    RoundExactOnGrid(c, x + y);
  }

  lemma RoundMonotone(c: Currency, x: real, y: real)
    requires x <= y
    ensures c.Round(x) <= c.Round(y)
  {
    HalfEvenMonotone(c.Minor(x), c.Minor(y));
  }
}
