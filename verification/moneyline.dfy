/** Conversion of an American moneyline price into an implied win probability
    (`convert_odds_to_probs` in nfl_confidence/odds.py). */
module Moneyline {

  /** What a bettor risks at this price: a negative price risks its magnitude to win 100,
      a non-negative price risks 100. */
  function Stake(price: int): nat
  {
    if price < 0 then -price else 100
  }

  /** What a bettor wins on top of the stake at this price. */
  function Payout(price: int): nat
  {
    if price < 0 then 100 else price
  }

  /** The implied probability of a price. It lies in (0, 1]; a price of 0 is not
      rejected and yields 1. */
  function ConvertOddsToProbs(price: int): (p: real)
    ensures 0.0 < p <= 1.0
    ensures p == 1.0 <==> price == 0
  {
    if price < 0 then (-price) as real / ((-price) + 100) as real
    else 100.0 / (price + 100) as real
  }

  /** The implied probability is the break-even probability of a bet at that price: the
      expected payout equals the expected loss of the stake. */
  lemma FairBet(price: int)
    ensures ConvertOddsToProbs(price) * Payout(price) as real
      == (1.0 - ConvertOddsToProbs(price)) * Stake(price) as real
  {
    var p := ConvertOddsToProbs(price);
    var s, w := Stake(price) as real, Payout(price) as real;
    assert p * (s + w) == s;
  }

  /** x / (x + 100) grows strictly with x on the non-negative reals. */
  lemma RatioIncreasing(x: real, y: real)
    requires 0.0 <= x < y
    ensures x / (x + 100.0) < y / (y + 100.0)
  {
    var dx, dy := x + 100.0, y + 100.0;
    assert x * dy < y * dx by {
      assert x * dy == x * y + 100.0 * x;
      assert y * dx == x * y + 100.0 * y;
    }
    DivideByPositive(x * dy, y * dx, dx * dy);
    assert x / dx == (x * dy) / (dx * dy);
    assert y / dy == (y * dx) / (dx * dy);
  }

  lemma DivideByPositive(a: real, b: real, c: real)
    requires a < b && 0.0 < c
    ensures a / c < b / c
  {
    assert b / c - a / c == (b - a) / c;
  }

  /** Within each branch of the conversion a larger price means a smaller probability. */
  lemma ProbabilityDecreasingInPrice(a: int, b: int)
    requires a < b
    requires b < 0 || 0 <= a
    ensures ConvertOddsToProbs(a) > ConvertOddsToProbs(b)
  {
    if b < 0 {
      RatioIncreasing((-b) as real, (-a) as real);
    } else {
      var da, db := (a + 100) as real, (b + 100) as real;
      assert 0.0 < da < db;
      calc {
        100.0 / db;
      ==
        (100.0 * da) / (da * db);
      <
        (100.0 * db) / (da * db);
      ==
        100.0 / da;
      }
    }
  }

  /** The probability is not monotone across the two branches: -1 gives 1/101 but 0 gives 1. */
  lemma NotMonotoneAcrossZero()
    ensures ConvertOddsToProbs(-1) < ConvertOddsToProbs(0)
  {
  }

  /** Favourites priced at -100 or shorter are at least even money. */
  lemma FavouriteAtLeastHalf(price: int)
    requires price <= -100
    ensures ConvertOddsToProbs(price) >= 0.5
  {
    var x := (-price) as real;
    assert 2.0 * x >= x + 100.0;
  }

  /** Underdogs priced at +100 or longer are at most even money. */
  lemma UnderdogAtMostHalf(price: int)
    requires price >= 100
    ensures ConvertOddsToProbs(price) <= 0.5
  {
    var d := (price + 100) as real;
    assert 100.0 <= 0.5 * d;
  }

  /** Two prices have the same implied probability exactly when they are equal or when
      one is negative, the other positive, and their product is -10000 (for example
      -200 and +50, both 2/3). */
  lemma SameProbabilityIff(a: int, b: int)
    ensures ConvertOddsToProbs(a) == ConvertOddsToProbs(b) <==> a == b || a * b == -10000
  {
    if a == b {
    } else if a < b {
      SameProbabilityOrdered(a, b);
    } else {
      SameProbabilityOrdered(b, a);
    }
  }

  lemma SameProbabilityOrdered(a: int, b: int)
    requires a < b
    ensures ConvertOddsToProbs(a) == ConvertOddsToProbs(b) <==> a * b == -10000
  {
    if b < 0 || 0 <= a {
      ProbabilityDecreasingInPrice(a, b);
      SameSignProduct(a, b);
    } else {
      OppositeSignsTie(a, b);
    }
  }

  /** A favourite's x / (x + 100) meets an underdog's 100 / (y + 100) exactly when
      x * y == 10000. */
  lemma OppositeSignsTie(a: int, b: int)
    requires a < 0 <= b
    ensures ConvertOddsToProbs(a) == ConvertOddsToProbs(b) <==> a * b == -10000
  {
    var x, y := (-a) as real, b as real;
    assert ConvertOddsToProbs(a) == x / (x + 100.0);
    assert ConvertOddsToProbs(b) == 100.0 / (y + 100.0);
    CrossMultiply(x, x + 100.0, 100.0, y + 100.0);
    ExpandTie(x, y);
    IntProductAsReal(-a, b);
    NegatedProduct(a, b);
  }

  lemma SameSignProduct(a: int, b: int)
    requires a < b && (b < 0 || 0 <= a)
    ensures a * b >= 0
  {
  }

  lemma NegatedProduct(a: int, b: int)
    ensures (-a) * b == -(a * b)
  {
  }

  lemma CrossMultiply(x: real, y: real, u: real, v: real)
    requires y > 0.0 && v > 0.0
    ensures x / y == u / v <==> x * v == u * y
  {
    assert (x / y) * y == x && (u / v) * v == u;
    if x * v == u * y {
      assert (x / y) * (y * v) == (u / v) * (y * v);
    }
  }

  lemma ExpandTie(x: real, y: real)
    ensures x * (y + 100.0) == 100.0 * (x + 100.0) <==> x * y == 10000.0
  {
  }

  lemma IntProductAsReal(m: int, n: int)
    ensures (m * n) as real == m as real * n as real
  {
  }
}
