/** The statistics the aggregation needs over finite sequences of reals: sums, the
    arithmetic mean (`np.mean`, and a Python sum divided by a length) and the population
    variance (`np.var`). */
module Stats {

  function Sum(xs: seq<real>): real
  {
    if |xs| == 0 then 0.0 else xs[0] + Sum(xs[1..])
  }

  /** One more term of c adds c to n * c. */
  lemma MulSucc(n: real, c: real)
    ensures (n + 1.0) * c == n * c + c
  {
  }

  /** A sum of terms that are all at least lo is at least n * lo. */
  lemma {:induction false} SumAtLeast(xs: seq<real>, lo: real)
    requires forall i :: 0 <= i < |xs| ==> lo <= xs[i]
    ensures |xs| as real * lo <= Sum(xs)
  {
    if |xs| > 0 {
      SumAtLeast(xs[1..], lo);
      MulSucc(|xs[1..]| as real, lo);
    }
  }

  /** A sum of terms that are all at most hi is at most n * hi. */
  lemma {:induction false} SumAtMost(xs: seq<real>, hi: real)
    requires forall i :: 0 <= i < |xs| ==> xs[i] <= hi
    ensures Sum(xs) <= |xs| as real * hi
  {
    if |xs| > 0 {
      SumAtMost(xs[1..], hi);
      MulSucc(|xs[1..]| as real, hi);
    }
  }

  /** A sum of terms that all lie in [lo, hi] lies in [n * lo, n * hi]. */
  lemma SumBounds(xs: seq<real>, lo: real, hi: real)
    requires forall i :: 0 <= i < |xs| ==> lo <= xs[i] <= hi
    ensures |xs| as real * lo <= Sum(xs) <= |xs| as real * hi
  {
    SumAtLeast(xs, lo);
    SumAtMost(xs, hi);
  }

  /** A sum of terms at most hi reaches n * hi only when every term is hi. */
  lemma {:induction false} SumAtUpperBound(xs: seq<real>, hi: real)
    requires forall i :: 0 <= i < |xs| ==> xs[i] <= hi
    requires Sum(xs) == |xs| as real * hi
    ensures forall i :: 0 <= i < |xs| ==> xs[i] == hi
  {
    if |xs| > 0 {
      var rest := xs[1..];
      SumAtMost(rest, hi);
      MulSucc(|rest| as real, hi);
      SumAtUpperBound(rest, hi);
      forall i | 0 < i < |xs| ensures xs[i] == hi {
        assert xs[i] == rest[i - 1];
      }
    }
  }

  /** A sum of terms at least lo reaches n * lo only when every term is lo. */
  lemma {:induction false} SumAtLowerBound(xs: seq<real>, lo: real)
    requires forall i :: 0 <= i < |xs| ==> lo <= xs[i]
    requires Sum(xs) == |xs| as real * lo
    ensures forall i :: 0 <= i < |xs| ==> xs[i] == lo
  {
    if |xs| > 0 {
      var rest := xs[1..];
      SumAtLeast(rest, lo);
      MulSucc(|rest| as real, lo);
      SumAtLowerBound(rest, lo);
      forall i | 0 < i < |xs| ensures xs[i] == lo {
        assert xs[i] == rest[i - 1];
      }
    }
  }

  /** A non-empty sum of terms strictly inside (lo, hi) lies strictly inside (n * lo, n * hi). */
  lemma {:induction false} SumStrictBounds(xs: seq<real>, lo: real, hi: real)
    requires |xs| > 0
    requires forall i :: 0 <= i < |xs| ==> lo < xs[i] < hi
    ensures |xs| as real * lo < Sum(xs) < |xs| as real * hi
  {
    var rest := xs[1..];
    MulSucc(|rest| as real, lo);
    MulSucc(|rest| as real, hi);
    if |rest| == 0 {
      assert Sum(rest) == 0.0;
      assert |rest| as real * lo == 0.0 && |rest| as real * hi == 0.0;
    } else {
      SumStrictBounds(rest, lo, hi);
    }
  }

  /** The arithmetic mean of a non-empty sequence. */
  function Mean(xs: seq<real>): real
    requires |xs| > 0
  {
    Sum(xs) / |xs| as real
  }

  /** The mean of terms in [lo, hi] lies in [lo, hi], and equals an end only when every
      term equals it. */
  lemma MeanBounds(xs: seq<real>, lo: real, hi: real)
    requires |xs| > 0
    requires forall i :: 0 <= i < |xs| ==> lo <= xs[i] <= hi
    ensures lo <= Mean(xs) <= hi
    ensures Mean(xs) == hi ==> forall i :: 0 <= i < |xs| ==> xs[i] == hi
    ensures Mean(xs) == lo ==> forall i :: 0 <= i < |xs| ==> xs[i] == lo
  {
    var n := |xs| as real;
    SumBounds(xs, lo, hi);
    ScaleByLength(Sum(xs), n, lo);
    ScaleByLength(Sum(xs), n, hi);
    if Mean(xs) == hi {
      SumAtUpperBound(xs, hi);
    }
    if Mean(xs) == lo {
      SumAtLowerBound(xs, lo);
    }
  }

  /** The mean of terms strictly inside (lo, hi) is strictly inside (lo, hi). */
  lemma MeanStrictBounds(xs: seq<real>, lo: real, hi: real)
    requires |xs| > 0
    requires forall i :: 0 <= i < |xs| ==> lo < xs[i] < hi
    ensures lo < Mean(xs) < hi
  {
    var n := |xs| as real;
    SumStrictBounds(xs, lo, hi);
    ScaleByLength(Sum(xs), n, lo);
    ScaleByLength(Sum(xs), n, hi);
  }

  /** Comparing s / n with c is comparing s with n * c, for positive n. */
  lemma ScaleByLength(s: real, n: real, c: real)
    requires n > 0.0
    ensures s / n <= c <==> s <= n * c
    ensures s / n >= c <==> s >= n * c
    ensures s / n == c <==> s == n * c
  {
    assert (s / n) * n == s;
  }

  /** Every term equal to c makes the mean c. */
  lemma MeanOfConstant(xs: seq<real>, c: real)
    requires |xs| > 0
    requires forall i :: 0 <= i < |xs| ==> xs[i] == c
    ensures Mean(xs) == c
  {
    MeanBounds(xs, c, c);
  }

  function Square(d: real): real
  {
    d * d
  }

  /** A square is never negative and is zero only at zero. */
  lemma SquareSign(d: real)
    ensures Square(d) >= 0.0
    ensures d != 0.0 ==> Square(d) > 0.0
    ensures d == 0.0 ==> Square(d) == 0.0
  {
    if d > 0.0 {
      calc { Square(d); == d * d; > 0.0; }
    } else if d < 0.0 {
      calc { Square(d); == (-d) * (-d); > 0.0; }
    }
  }

  /** The squared deviations of every term from m. */
  function SquaredDeviations(xs: seq<real>, m: real): (ds: seq<real>)
    ensures |ds| == |xs|
    ensures forall i :: 0 <= i < |xs| ==> ds[i] >= 0.0 && (ds[i] == 0.0 <==> xs[i] == m)
  {
    var ds := seq(|xs|, i requires 0 <= i < |xs| => Square(xs[i] - m));
    assert forall i :: 0 <= i < |xs| ==> ds[i] >= 0.0 && (ds[i] == 0.0 <==> xs[i] == m) by {
      forall i | 0 <= i < |xs| ensures ds[i] >= 0.0 && (ds[i] == 0.0 <==> xs[i] == m) {
        SquareSign(xs[i] - m);
      }
    }
    ds
  }

  /** `np.var`: the population variance, the mean squared deviation from the mean.
      It is never negative. */
  function Variance(xs: seq<real>): (v: real)
    requires |xs| > 0
    ensures v >= 0.0
  {
    var ds := SquaredDeviations(xs, Mean(xs));
    MeanBounds(ds, 0.0, Max(ds));
    Mean(ds)
  }

  /** The smallest term of a non-empty sequence. */
  function Min(xs: seq<real>): (m: real)
    requires |xs| > 0
    ensures forall i :: 0 <= i < |xs| ==> m <= xs[i]
  {
    if |xs| == 1 then xs[0]
    else
      var rest := Min(xs[1..]);
      assert forall i :: 1 <= i < |xs| ==> xs[i] == xs[1..][i - 1];
      if xs[0] <= rest then xs[0] else rest
  }

  /** The largest term of a non-empty sequence. */
  function Max(xs: seq<real>): (m: real)
    requires |xs| > 0
    ensures forall i :: 0 <= i < |xs| ==> xs[i] <= m
    ensures exists i :: 0 <= i < |xs| && xs[i] == m
  {
    if |xs| == 1 then xs[0]
    else
      var rest := Max(xs[1..]);
      assert forall i :: 1 <= i < |xs| ==> xs[i] == xs[1..][i - 1];
      if xs[0] >= rest then xs[0] else rest
  }

  /** The variance is zero exactly when all terms are equal. */
  lemma VarianceZeroIff(xs: seq<real>)
    requires |xs| > 0
    ensures Variance(xs) == 0.0 <==> forall i, j :: 0 <= i < |xs| && 0 <= j < |xs| ==> xs[i] == xs[j]
  {
    var m := Mean(xs);
    var ds := SquaredDeviations(xs, m);
    MeanBounds(ds, 0.0, Max(ds));
    if forall i, j :: 0 <= i < |xs| && 0 <= j < |xs| ==> xs[i] == xs[j] {
      MeanOfConstant(xs, xs[0]);
      assert forall i :: 0 <= i < |ds| ==> ds[i] == 0.0;
      MeanOfConstant(ds, 0.0);
    }
  }

  /** `np.mean` of a boolean sequence: the fraction of its entries that are true. */
  function Fraction(bs: seq<bool>): real
    requires |bs| > 0
  {
    Mean(seq(|bs|, i requires 0 <= i < |bs| => if bs[i] then 1.0 else 0.0))
  }

  /** A fraction lies in [0, 1]; it is 1 exactly when every entry is true and 0 exactly
      when none is. */
  lemma FractionBounds(bs: seq<bool>)
    requires |bs| > 0
    ensures 0.0 <= Fraction(bs) <= 1.0
    ensures Fraction(bs) == 1.0 <==> forall i :: 0 <= i < |bs| ==> bs[i]
    ensures Fraction(bs) == 0.0 <==> forall i :: 0 <= i < |bs| ==> !bs[i]
  {
    var xs := seq(|bs|, i requires 0 <= i < |bs| => if bs[i] then 1.0 else 0.0);
    MeanBounds(xs, 0.0, 1.0);
    assert forall i :: 0 <= i < |bs| ==> (bs[i] <==> xs[i] == 1.0) && (!bs[i] <==> xs[i] == 0.0);
    if forall i :: 0 <= i < |bs| ==> bs[i] {
      MeanOfConstant(xs, 1.0);
    }
    if forall i :: 0 <= i < |bs| ==> !bs[i] {
      MeanOfConstant(xs, 0.0);
    }
  }

  /** Every term replaced by one minus it, as when a probability is read for the other
      team. */
  function Complement(xs: seq<real>): (ys: seq<real>)
    ensures |ys| == |xs|
    ensures forall i :: 0 <= i < |xs| ==> ys[i] == 1.0 - xs[i]
  {
    seq(|xs|, i requires 0 <= i < |xs| => 1.0 - xs[i])
  }

  lemma {:induction false} SumComplement(xs: seq<real>)
    ensures Sum(Complement(xs)) == |xs| as real - Sum(xs)
  {
    if |xs| > 0 {
      SumComplement(xs[1..]);
      assert Complement(xs)[1..] == Complement(xs[1..]);
    }
  }

  lemma MeanOfComplement(xs: seq<real>)
    requires |xs| > 0
    ensures Mean(Complement(xs)) == 1.0 - Mean(xs)
  {
    var n, ys := |xs| as real, Complement(xs);
    SumComplement(xs);
    assert Mean(ys) == (n - Sum(xs)) / n;
    OneMinusRatio(Sum(xs), n);
  }

  lemma OneMinusRatio(b: real, n: real)
    requires n > 0.0
    ensures (n - b) / n == 1.0 - b / n
  {
    var q, r := (n - b) / n, b / n;
    assert q * n == n - b && r * n == b;
    CancelFactor(q, 1.0 - r, n);
  }

  lemma CancelFactor(x: real, y: real, n: real)
    requires n > 0.0
    requires x * n == y * n
    ensures x == y
  {
  }

  lemma SquareOfNegation(d: real)
    ensures Square(-d) == Square(d)
  {
    calc {
      Square(-d);
    ==
      (-d) * (-d);
    ==
      d * d;
    ==
      Square(d);
    }
  }

  /** Reading every term as its complement leaves the variance unchanged. */
  lemma VarianceOfComplement(xs: seq<real>)
    requires |xs| > 0
    ensures Variance(Complement(xs)) == Variance(xs)
  {
    var m := Mean(xs);
    MeanOfComplement(xs);
    var ds, ds' := SquaredDeviations(xs, m), SquaredDeviations(Complement(xs), 1.0 - m);
    forall i | 0 <= i < |xs| ensures ds'[i] == ds[i] {
      var d := xs[i] - m;
      assert (1.0 - xs[i]) - (1.0 - m) == -d;
      SquareOfNegation(d);
    }
    assert ds' == ds;
  }
}
