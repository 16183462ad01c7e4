/** One bookmaker's head-to-head quote and the values derived from it
    (`Outcome`, `HeadToHeadOdds` and `BookMakerOdds` in nfl_confidence/odds.py). */
module Bookmakers {
  import opened Wrappers
  import opened Moneyline

  /** One side of a market: a team name (already converted) and its moneyline price. */
  datatype Outcome = Outcome(name: string, price: int)

  /** The head-to-head market; the validator admits exactly two outcomes, in feed order. */
  datatype HeadToHeadOdds = HeadToHeadOdds(lastUpdate: int, first: Outcome, second: Outcome)

  /** A bookmaker's quote; the validator admits exactly one market per bookmaker. */
  datatype BookMakerOdds = BookMakerOdds(title: string, lastUpdate: int, market: HeadToHeadOdds)

  /** The outcome's `raw_win_probability`: the implied probability of its price. */
  function RawWinProbability(o: Outcome): (p: real)
    ensures 0.0 < p <= 1.0
  {
    ConvertOddsToProbs(o.price)
  }

  function RawFirst(b: BookMakerOdds): real
  {
    RawWinProbability(b.market.first)
  }

  function RawSecond(b: BookMakerOdds): real
  {
    RawWinProbability(b.market.second)
  }

  /** The raw probabilities divided by their sum: the pair sums to one, both parts are
      strictly between 0 and 1, and their ratio is the ratio of the raw probabilities. */
  function NormalizedProbabilities(b: BookMakerOdds): (n: (real, real))
    ensures n.0 + n.1 == 1.0
    ensures 0.0 < n.0 < 1.0 && 0.0 < n.1 < 1.0
    ensures n.0 * RawSecond(b) == n.1 * RawFirst(b)
  {
    var p, q := RawFirst(b), RawSecond(b);
    NormalizePair(p, q);
    (p / (p + q), q / (p + q))
  }

  /** Dividing two positive reals by their sum. */
  lemma NormalizePair(p: real, q: real)
    requires 0.0 < p && 0.0 < q
    ensures p / (p + q) + q / (p + q) == 1.0
    ensures 0.0 < p / (p + q) < 1.0 && 0.0 < q / (p + q) < 1.0
    ensures (p / (p + q)) * q == (q / (p + q)) * p
  {
    var s := p + q;
    var x, y := p / s, q / s;
    assert x * s == p && y * s == q;
    assert x + y == (p + q) / s;
    assert x < 1.0 by { assert x * s < s; }
    assert y < 1.0 by { assert y * s < s; }
    assert (x * q) * s == (y * p) * s by {
      assert (x * q) * s == (x * s) * q;
      assert (y * p) * s == (y * s) * p;
    }
  }

  /** Normalisation is the only way to turn the raw pair into probabilities that sum to
      one while keeping the bookmaker's ratio between the two sides. */
  lemma NormalizationUnique(b: BookMakerOdds, x: real, y: real)
    requires x + y == 1.0
    requires x * RawSecond(b) == y * RawFirst(b)
    ensures (x, y) == NormalizedProbabilities(b)
  {
    var p, q := RawFirst(b), RawSecond(b);
    var n := NormalizedProbabilities(b);
    // Both pairs solve x * (p + q) == p, and p + q is positive.
    SolveNormalized(x, p, q);
    SolveNormalized(n.0, p, q);
  }

  lemma SolveNormalized(x: real, p: real, q: real)
    requires 0.0 < p && 0.0 < q
    requires x * q == (1.0 - x) * p
    ensures x == p / (p + q)
  {
    assert x * (p + q) == p;
  }

  /** `win_probability`: the larger of the two normalised probabilities; never below
      one half, always below one. */
  function WinProbability(b: BookMakerOdds): (w: real)
    ensures 0.5 <= w < 1.0
    ensures w == NormalizedProbabilities(b).0 || w == NormalizedProbabilities(b).1
    ensures w >= NormalizedProbabilities(b).0 && w >= NormalizedProbabilities(b).1
  {
    var n := NormalizedProbabilities(b);
    if n.0 >= n.1 then n.0 else n.1
  }

  /** `predicted_winner`: no winner on an exact tie of the raw probabilities, otherwise
      the outcome with the larger raw probability. */
  function PredictedWinner(b: BookMakerOdds): (r: Option<string>)
    ensures r.None? <==> RawFirst(b) == RawSecond(b)
    ensures RawFirst(b) > RawSecond(b) ==> r == Some(b.market.first.name)
    ensures RawSecond(b) > RawFirst(b) ==> r == Some(b.market.second.name)
  {
    var raw := [RawFirst(b), RawSecond(b)];
    if raw[0] == raw[1] then None
    else Some(if raw[0] >= raw[1] then b.market.first.name else b.market.second.name)
  }

  /** The larger raw probability is also the larger normalised one, so the predicted
      winner carries the bookmaker's `win_probability`, which then exceeds one half. */
  lemma WinnerCarriesWinProbability(b: BookMakerOdds)
    ensures RawFirst(b) > RawSecond(b) ==>
      NormalizedProbabilities(b).0 == WinProbability(b) > 0.5
    ensures RawSecond(b) > RawFirst(b) ==>
      NormalizedProbabilities(b).1 == WinProbability(b) > 0.5
  {
    var n := NormalizedProbabilities(b);
    LargerShareWins(RawFirst(b), RawSecond(b), n.0, n.1, WinProbability(b));
  }

  /** For positive raw values p, q and a pair x, y that sums to one with x : y == p : q,
      the larger raw value's share is the pair's maximum w and exceeds one half. */
  lemma LargerShareWins(p: real, q: real, x: real, y: real, w: real)
    requires 0.0 < p && 0.0 < q
    requires 0.0 < x && 0.0 < y && x + y == 1.0
    requires x * q == y * p
    requires (w == x || w == y) && w >= x && w >= y
    ensures p > q ==> x == w > 0.5
    ensures q > p ==> y == w > 0.5
  {
    if p > q {
      LargerRawLargerShare(p, q, x, y);
    } else if q > p {
      LargerRawLargerShare(q, p, y, x);
    }
  }

  lemma LargerRawLargerShare(p: real, q: real, x: real, y: real)
    requires 0.0 < q < p
    requires 0.0 < x && 0.0 < y
    requires x * q == y * p
    ensures x > y
  {
  }

  /** A bookmaker has no predicted winner exactly when its `win_probability` is one half. */
  lemma NoWinnerIffEvenMoney(b: BookMakerOdds)
    ensures PredictedWinner(b).None? <==> WinProbability(b) == 0.5
  {
    WinnerCarriesWinProbability(b);
    var n := NormalizedProbabilities(b);
    if RawFirst(b) == RawSecond(b) {
      assert n.0 == n.1;
    }
  }

  /** A raw tie is not only two equal prices: prices whose product is -10000 tie too
      (-200 against +50 both imply 2/3). */
  lemma NoWinnerIffTiedPrices(b: BookMakerOdds)
    ensures PredictedWinner(b).None? <==>
      b.market.first.price == b.market.second.price
      || b.market.first.price * b.market.second.price == -10000
  {
    SameProbabilityIff(b.market.first.price, b.market.second.price);
  }
}
