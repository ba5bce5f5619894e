/** The fee arithmetic of the debit stage: a sender's share of a
    denomination's burn or commission, proportional to what it sends and
    rounded up to a whole unit. The source computes it in 64-bit floats;
    here it is exact. */
module FeeShares {

  /** The least integer not below `x` (`f64::ceil`). */
  function Ceil(x: real): (c: int)
    ensures (c - 1) as real < x <= c as real
  {
    -((-x).Floor)
  }

  /** `i128::min` */
  function Min(a: int, b: int): (m: int)
    ensures m <= a && m <= b
    ensures m == a || m == b
  {
    if a <= b then a else b
  }

  /** `total_burn` / `total_commission`: the fee base times the rate. */
  function TotalFee(base: int, rate: real): real
  {
    base as real * rate
  }

  /** The unrounded share: the total fee times the sender's amount over
      the sum of all non-issuer inputs. */
  function ExactShare(base: int, rate: real, amount: int, sum: int): real
    requires sum != 0
  {
    TotalFee(base, rate) * amount as real / sum as real
  }

  /** One sender's share of a fee. A zero sum makes the float quotient
      0/0, a NaN, which the cast to an integer turns into 0. */
  function FeeShare(base: int, rate: real, amount: int, sum: int): (share: int)
    ensures sum != 0 ==> (share - 1) as real < ExactShare(base, rate, amount, sum) <= share as real
    ensures sum == 0 ==> share == 0
  {
    if sum == 0 then 0 else Ceil(ExactShare(base, rate, amount, sum))
  }

  /** With a rate in [0, 1], a fee base no larger than the sum and a
      non-negative amount, a share lies between 0 and the amount. */
  lemma ShareWithinAmount(base: int, rate: real, amount: int, sum: int)
    requires 0 < sum && 0 <= base <= sum
    requires 0.0 <= rate <= 1.0 && 0 <= amount
    ensures 0 <= FeeShare(base, rate, amount, sum) <= amount
  {
    FeeWithinBase(base, rate, sum);
    var f, a, s := TotalFee(base, rate), amount as real, sum as real;
    QuotientWithin(f, a, s);
    assert 0.0 <= f * a / s <= a;
    assert ExactShare(base, rate, amount, sum) == f * a / s;
  }

  /** When the fee base is the whole sum, the share is the rate applied to
      the sender's own amount, rounded up. */
  lemma ShareAtFullBase(rate: real, amount: int, sum: int)
    requires sum != 0
    ensures FeeShare(sum, rate, amount, sum) == Rounded(rate, amount)
  {
    var a := amount as real;
    FullBaseCancels(sum, rate, a);
    assert TotalFee(sum, rate) * a / sum as real == rate * a;
    assert ExactShare(sum, rate, amount, sum) == TotalFee(sum, rate) * a / sum as real;
  }

  /** A rate applied to an amount, rounded up. */
  function Rounded(rate: real, amount: int): int
  {
    Ceil(rate * amount as real)
  }

  /** A rate in [0, 1] applied to a non-negative amount and rounded up
      lies between 0 and the amount, and is 0 for the rate 0. */
  lemma RoundedWithinAmount(rate: real, amount: int)
    requires 0.0 <= rate <= 1.0 && amount >= 0
    ensures 0 <= Rounded(rate, amount) <= amount
    ensures rate == 0.0 ==> Rounded(rate, amount) == 0
  {
    ShareAtFullBase(rate, amount, 1);
    ShareWithinAmount(1, rate, amount, 1);
    if rate == 0.0 {
      assert rate * amount as real == 0.0;
    }
  }

  function Sum(xs: seq<int>): int
  {
    if xs == [] then 0 else Sum(xs[..|xs| - 1]) + xs[|xs| - 1]
  }

  /** The rounded shares charged to senders of the given amounts, added up. */
  function TotalShares(base: int, rate: real, amounts: seq<int>, sum: int): int
  {
    if amounts == [] then 0
    else TotalShares(base, rate, amounts[..|amounts| - 1], sum) + FeeShare(base, rate, amounts[|amounts| - 1], sum)
  }

  /** The unrounded shares of the same senders, added up. */
  function ExactTotal(base: int, rate: real, amounts: seq<int>, sum: int): real
    requires sum != 0
  {
    if amounts == [] then 0.0
    else ExactTotal(base, rate, amounts[..|amounts| - 1], sum) + ExactShare(base, rate, amounts[|amounts| - 1], sum)
  }

  /** Rounding each share up on its own never collects less than the exact
      total, and collects less than one unit more per sender. */
  lemma {:induction false} SharesOvershootBelowCount(base: int, rate: real, amounts: seq<int>, sum: int)
    requires sum != 0
    ensures var exact := ExactTotal(base, rate, amounts, sum);
            && exact <= TotalShares(base, rate, amounts, sum) as real
            && (amounts != [] ==> TotalShares(base, rate, amounts, sum) as real < exact + |amounts| as real)
    decreases |amounts|
  {
    if amounts != [] {
      var n := |amounts|;
      var init, last := amounts[..n - 1], amounts[n - 1];
      SharesOvershootBelowCount(base, rate, init, sum);
      var share := FeeShare(base, rate, last, sum);
      assert (share - 1) as real < ExactShare(base, rate, last, sum) <= share as real;
      assert |amounts| as real == |init| as real + 1.0;
    }
  }

  /** The exact shares add up to the exact share of the senders' amounts
      together. */
  lemma {:induction false} ExactTotalIsProportional(base: int, rate: real, amounts: seq<int>, sum: int)
    requires sum != 0
    ensures ExactTotal(base, rate, amounts, sum) == ExactShare(base, rate, Sum(amounts), sum)
    decreases |amounts|
  {
    if amounts == [] {
      ZeroQuotient(TotalFee(base, rate), sum as real);
    } else {
      var n := |amounts|;
      var init, last := amounts[..n - 1], amounts[n - 1];
      ExactTotalIsProportional(base, rate, init, sum);
      ShareAdditive(base, rate, Sum(init), last, sum);
    }
  }

  /** Senders whose amounts make up the whole sum split exactly the total
      fee between them. */
  lemma SharesSplitTotalFee(base: int, rate: real, amounts: seq<int>, sum: int)
    requires sum != 0 && Sum(amounts) == sum
    ensures ExactTotal(base, rate, amounts, sum) == TotalFee(base, rate)
  {
    ExactTotalIsProportional(base, rate, amounts, sum);
    var f, s := TotalFee(base, rate), sum as real;
    assert ExactShare(base, rate, sum, sum) == f * s / s;
    Cancel(s, f);
    assert f * s == s * f;
  }

  /** The exact share of two amounts together is the sum of their shares. */
  lemma ShareAdditive(base: int, rate: real, a: int, b: int, sum: int)
    requires sum != 0
    ensures ExactShare(base, rate, a, sum) + ExactShare(base, rate, b, sum) == ExactShare(base, rate, a + b, sum)
  {
    assert (a + b) as real == a as real + b as real;
    SplitQuotient(TotalFee(base, rate), a as real, b as real, sum as real);
  }

  /** The total fee lies between 0 and the sum. */
  lemma FeeWithinBase(base: int, rate: real, sum: int)
    requires 0 <= base <= sum && 0.0 <= rate <= 1.0
    ensures 0.0 <= TotalFee(base, rate) <= sum as real
  {
    var b := base as real;
    assert b * rate <= b by {
      assert b * (1.0 - rate) >= 0.0;
      assert b * (1.0 - rate) == b - b * rate;
    }
    assert b * rate >= 0.0;
  }

  /** With the whole sum as the fee base, the sum cancels out. */
  lemma FullBaseCancels(sum: int, rate: real, a: real)
    requires sum != 0
    ensures TotalFee(sum, rate) * a / sum as real == rate * a
  {
    var s := sum as real;
    Cancel(s, rate * a);
    assert s * rate * a == s * (rate * a);
  }

  // Facts of real arithmetic that the solver does not find on its own.

  lemma DivMul(x: real, s: real)
    requires s != 0.0
    ensures (x / s) * s == x
  {
  }

  lemma Cancel(s: real, y: real)
    requires s != 0.0
    ensures s * y / s == y
  {
    var q := s * y / s;
    DivMul(s * y, s);
    assert (q - y) * s == 0.0;
  }

  lemma DivLe(x: real, y: real, s: real)
    requires s > 0.0 && x <= y
    ensures x / s <= y / s
  {
    DivMul(x, s);
    DivMul(y, s);
    var qx, qy := x / s, y / s;
    if qx > qy {
      assert (qx - qy) * s > 0.0;
    }
  }

  lemma MulLe(x: real, y: real, z: real)
    requires 0.0 <= z && x <= y
    ensures x * z <= y * z
  {
    assert (y - x) * z >= 0.0;
  }

  lemma SplitQuotient(t: real, x: real, y: real, s: real)
    requires s != 0.0
    ensures t * (x + y) / s == t * x / s + t * y / s
  {
    DivMul(t * (x + y), s);
    DivMul(t * x, s);
    DivMul(t * y, s);
    var a, b, c := t * (x + y) / s, t * x / s, t * y / s;
    assert a * s == b * s + c * s;
    assert (a - b - c) * s == 0.0;
  }

  lemma QuotientWithin(f: real, a: real, s: real)
    requires 0.0 < s && 0.0 <= f <= s && 0.0 <= a
    ensures 0.0 <= f * a / s <= a
  {
    MulLe(0.0, f, a);
    MulLe(f, s, a);
    DivLe(0.0, f * a, s);
    DivLe(f * a, s * a, s);
    Cancel(s, a);
  }

  lemma ZeroQuotient(t: real, s: real)
    requires s != 0.0
    ensures t * 0.0 / s == 0.0
  {
    assert t * 0.0 == 0.0;
  }

}
