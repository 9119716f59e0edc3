/** Column statistics shared by every stage of the pipeline: sums, means and
    extrema of real-valued columns, and the pandas conventions for columns
    whose cells may be undefined (NaN). */
module Stats {

  /** A cell that may be undefined; None plays the part of pandas' NaN. */
  datatype Option<T> = None | Some(value: T)

  /** Sum of a column, accumulated from the first row to the last. */
  function Sum(s: seq<real>): real
  {
    if s == [] then 0.0 else Sum(s[..|s| - 1]) + s[|s| - 1]
  }

  /** Arithmetic mean of a non-empty column. */
  function Mean(s: seq<real>): real
    requires s != []
  {
    Sum(s) / |s| as real
  }

  /** Largest entry of a non-empty column. */
  function Max(s: seq<real>): (m: real)
    requires s != []
    ensures forall i :: 0 <= i < |s| ==> s[i] <= m
    ensures exists i :: 0 <= i < |s| && s[i] == m
  {
    if |s| == 1 then s[0]
    else
      var m' := Max(s[..|s| - 1]);
      if s[|s| - 1] > m' then s[|s| - 1] else m'
  }

  /** Smallest entry of a non-empty column. */
  function Min(s: seq<real>): (m: real)
    requires s != []
    ensures forall i :: 0 <= i < |s| ==> m <= s[i]
    ensures exists i :: 0 <= i < |s| && s[i] == m
  {
    if |s| == 1 then s[0]
    else
      var m' := Min(s[..|s| - 1]);
      if s[|s| - 1] < m' then s[|s| - 1] else m'
  }

  /** Strictly increasing keys, as a pandas `groupby` lists them. */
  ghost predicate Ascending(g: seq<int>)
  {
    forall i, j :: 0 <= i < j < |g| ==> g[i] < g[j]
  }

  /** A column that never decreases along the rows. */
  ghost predicate NonDecreasing(s: seq<real>)
  {
    forall i, j :: 0 <= i <= j < |s| ==> s[i] <= s[j]
  }

  /** Number of true entries of a boolean column (pandas' `sum()` of a mask). */
  function Count(b: seq<bool>): nat
  {
    if b == [] then 0 else Count(b[..|b| - 1]) + (if b[|b| - 1] then 1 else 0)
  }

  // Facts of real arithmetic, each proved where nothing else is in scope,
  // so that the proofs using them need no nonlinear reasoning of their own.

  lemma MulMonotone(a: real, b: real, c: real)
    requires a <= b && c >= 0.0
    ensures a * c <= b * c
  {
    assert b * c - a * c == (b - a) * c;
  }

  lemma MulCongruent(a: real, b: real, c: real)
    requires a == b
    ensures a * c == b * c
  {
  }

  lemma MulStrict(a: real, b: real, c: real)
    requires a < b && c > 0.0
    ensures a * c < b * c
  {
    assert b * c - a * c == (b - a) * c;
  }

  lemma Square(e: real)
    ensures e * e >= 0.0
  {
    if e < 0.0 {
      MulStrict(e, 0.0, -e);
      assert e * e == e * (-e) * -1.0;
    } else {
      MulMonotone(0.0, e, e);
    }
  }

  lemma DivMul(x: real, m: real)
    requires m != 0.0
    ensures (x / m) * m == x
  {
  }

  lemma DivOne(x: real, n: real)
    requires n == 1.0
    ensures x / n == x
  {
  }

  lemma DivCongruent(x: real, n: real, k: real)
    requires n == k && k != 0.0
    ensures x / n == x / k
  {
  }

  lemma DivSelf(m: real)
    requires m != 0.0
    ensures m / m == 1.0
  {
  }

  lemma DivAtMost(x: real, n: real, hi: real)
    requires n > 0.0 && x <= n * hi
    ensures x / n <= hi
  {
    DivMul(x, n);
    if x / n > hi {
      MulStrict(hi, x / n, n);
    }
  }

  lemma DivAtLeast(x: real, n: real, lo: real)
    requires n > 0.0 && n * lo <= x
    ensures lo <= x / n
  {
    DivMul(x, n);
    if x / n < lo {
      MulStrict(x / n, lo, n);
    }
  }

  lemma SumAppend(s: seq<real>, x: real)
    ensures Sum(s + [x]) == Sum(s) + x
  {
    assert (s + [x])[..|s|] == s;
  }

  /** Every entry within [lo, hi] bounds the sum by |s|·lo and |s|·hi. */
  lemma {:induction false} SumBetween(s: seq<real>, lo: real, hi: real)
    requires forall i :: 0 <= i < |s| ==> lo <= s[i] <= hi
    ensures |s| as real * lo <= Sum(s) <= |s| as real * hi
  {
    if s != [] {
      var n := |s| as real;
      SumBetween(s[..|s| - 1], lo, hi);
      assert n * lo == (n - 1.0) * lo + lo;
      assert n * hi == (n - 1.0) * hi + hi;
    }
  }

  /** Subtracting a constant from every entry lowers the sum by |s|·c. */
  lemma {:induction false} SumShifted(s: seq<real>, t: seq<real>, c: real)
    requires |t| == |s|
    requires forall i :: 0 <= i < |s| ==> t[i] == s[i] - c
    ensures Sum(t) == Sum(s) - |s| as real * c
  {
    if s != [] {
      var n := |s| as real;
      SumShifted(s[..|s| - 1], t[..|t| - 1], c);
      assert n * c == (n - 1.0) * c + c;
    }
  }

  /** A mean lies between any bounds of its entries. */
  lemma MeanBetween(s: seq<real>, lo: real, hi: real)
    requires s != []
    requires forall i :: 0 <= i < |s| ==> lo <= s[i] <= hi
    ensures lo <= Mean(s) <= hi
  {
    var n := |s| as real;
    SumBetween(s, lo, hi);
    DivAtLeast(Sum(s), n, lo);
    DivAtMost(Sum(s), n, hi);
  }

  /** In particular a mean never exceeds the maximum nor falls below the minimum. */
  lemma MeanWithinExtremes(s: seq<real>)
    requires s != []
    ensures Min(s) <= Mean(s) <= Max(s)
  {
    MeanBetween(s, Min(s), Max(s));
  }

  /** The defined cells of a column, in order: what pandas' skipna reductions see. */
  function Defined(s: seq<Option<real>>): (d: seq<real>)
    ensures |d| <= |s|
  {
    if s == [] then []
    else
      Defined(s[..|s| - 1]) + (if s[|s| - 1].Some? then [s[|s| - 1].value] else [])
  }

  /** A value is among the defined cells exactly when some cell holds it. */
  lemma {:induction false} DefinedMembers(s: seq<Option<real>>)
    ensures forall x :: x in Defined(s) <==> Some(x) in s
  {
    if s != [] {
      DefinedMembers(s[..|s| - 1]);
      assert s == s[..|s| - 1] + [s[|s| - 1]];
    }
  }

  lemma DefinedAppend(s: seq<Option<real>>, x: Option<real>)
    ensures Defined(s + [x]) == Defined(s) + (if x.Some? then [x.value] else [])
  {
    assert (s + [x])[..|s|] == s;
  }

  lemma DefinedCell(s: seq<Option<real>>, i: int)
    requires 0 <= i < |s| && s[i].Some?
    ensures s[i].value in Defined(s)
  {
    DefinedMembers(s);
    assert Some(s[i].value) == s[i];
  }

  /** Maximum over the defined cells (pandas `max()`), undefined when none is. */
  function MaxDefined(s: seq<Option<real>>): (m: Option<real>)
    ensures m.Some? <==> exists i :: 0 <= i < |s| && s[i].Some?
    ensures m.Some? ==> forall i :: 0 <= i < |s| && s[i].Some? ==> s[i].value <= m.value
    ensures m.Some? ==> exists i :: 0 <= i < |s| && s[i] == Some(m.value)
  {
    var d := Defined(s);
    if d == [] then
      assert forall i :: 0 <= i < |s| ==> s[i].None? by {
        forall i | 0 <= i < |s| ensures s[i].None? {
          if s[i].Some? { DefinedCell(s, i); }
        }
      }
      None
    else
      var m := Max(d);
      assert forall i :: 0 <= i < |s| && s[i].Some? ==> s[i].value <= m by {
        forall i | 0 <= i < |s| && s[i].Some? ensures s[i].value <= m {
          DefinedCell(s, i);
        }
      }
      assert Some(m) in s by {
        var k :| 0 <= k < |d| && d[k] == m;
        assert m in d;
        DefinedMembers(s);
      }
      Some(m)
  }

  /** Mean over the defined cells (pandas `mean()`), undefined when none is. */
  function MeanDefined(s: seq<Option<real>>): (m: Option<real>)
    ensures m.Some? <==> Defined(s) != []
    ensures m.Some? ==> Min(Defined(s)) <= m.value <= Max(Defined(s))
  {
    var d := Defined(s);
    if d == [] then None
    else
      MeanWithinExtremes(d);
      Some(Mean(d))
  }

  /** Sum of squared deviations of the entries from a centre c. */
  function SquaredDeviations(s: seq<real>, c: real): (r: real)
    ensures r >= 0.0
  {
    if s == [] then 0.0
    else
      var e := s[|s| - 1] - c;
      Square(e);
      SquaredDeviations(s[..|s| - 1], c) + e * e
  }

  /** Sample variance over the defined cells (pandas `std()` squared, ddof = 1);
      undefined with fewer than two defined cells. */
  function SampleVariance(s: seq<Option<real>>): (v: Option<real>)
    ensures v.Some? <==> |Defined(s)| >= 2
    ensures v.Some? ==> v.value >= 0.0
  {
    var d := Defined(s);
    if |d| < 2 then None
    else
      var q := SquaredDeviations(d, Mean(d));
      var n := (|d| - 1) as real;
      DivAtLeast(q, n, 0.0);
      Some(q / n)
  }

  /** The defined values of a pair of cells, in order. */
  lemma DefinedPair(a: Option<real>, b: Option<real>)
    ensures Defined([a, b]) == (if a.Some? then [a.value] else []) + (if b.Some? then [b.value] else [])
  {
    assert [a, b][..1] == [a];
    assert [a][..0] == [];
    assert [] + [a] == [a];
    DefinedAppend([], a);
    assert [a] + [b] == [a, b];
    DefinedAppend([a], b);
  }

  lemma SumPair(a: real, b: real)
    ensures Sum([a, b]) == a + b
  {
    assert [a, b][..1] == [a];
    assert [a][..0] == [];
    assert [] + [a] == [a];
    SumAppend([], a);
    assert [a] + [b] == [a, b];
    SumAppend([a], b);
  }

  /** Two defined values average to their midpoint. */
  lemma PairMean(a: real, b: real)
    ensures Defined([Some(a), Some(b)]) == [a, b]
    ensures MeanDefined([Some(a), Some(b)]) == Some((a + b) / 2.0)
  {
    var s := [Some(a), Some(b)];
    DefinedPair(Some(a), Some(b));
    assert Defined(s) == [a, b];
    SumPair(a, b);
    MeanOfTwo([a, b], a + b);
    MeanDefinedOf(s, [a, b]);
  }

  lemma MeanDefinedOf(s: seq<Option<real>>, d: seq<real>)
    requires Defined(s) == d && d != []
    ensures MeanDefined(s) == Some(Mean(d))
  {
  }

  lemma MeanOfTwo(d: seq<real>, x: real)
    requires |d| == 2 && Sum(d) == x
    ensures Mean(d) == x / 2.0
  {
    DivCongruent(x, |d| as real, 2.0);
  }

  /** One defined value averages to itself. */
  lemma SingleMean(a: real)
    ensures Mean([a]) == a
  {
    assert [a][..0] == [];
    assert [] + [a] == [a];
    SumAppend([], a);
  }

  /** Half the squared gap between two values. */
  function PairSpread(a: real, b: real): real
  {
    (a - b) * (a - b) / 2.0
  }

  /** The squared deviations of two values from their midpoint. */
  lemma PairDeviations(a: real, b: real)
    ensures SquaredDeviations([a, b], (a + b) / 2.0) == PairSpread(a, b)
  {
    var c := (a + b) / 2.0;
    assert [a, b][..1] == [a];
    assert [a][..0] == [];
    assert SquaredDeviations([a], c) == (a - c) * (a - c);
    assert SquaredDeviations([a, b], c) == (a - c) * (a - c) + (b - c) * (b - c);
    assert a - c == (a - b) / 2.0 && b - c == (b - a) / 2.0;
  }

  /** For two defined values the sample variance is their spread (a − b)²/2,
      so the sample standard deviation is |a − b|/√2. */
  lemma PairVariance(a: real, b: real)
    ensures SampleVariance([Some(a), Some(b)]) == Some(PairSpread(a, b))
  {
    PairDeviationsVariance(a, b);
    PairDeviations(a, b);
  }

  lemma PairDeviationsVariance(a: real, b: real)
    ensures SampleVariance([Some(a), Some(b)]) == Some(SquaredDeviations([a, b], (a + b) / 2.0))
  {
    var m := (a + b) / 2.0;
    PairMean(a, b);
    VarianceOfTwo([Some(a), Some(b)], [a, b], m, SquaredDeviations([a, b], m));
  }

  /** Two defined values with mean m and squared deviations q from it have
      sample variance q. */
  lemma VarianceOfTwo(s: seq<Option<real>>, d: seq<real>, m: real, q: real)
    requires Defined(s) == d && |d| == 2 && MeanDefined(s) == Some(m)
    requires SquaredDeviations(d, m) == q
    ensures SampleVariance(s) == Some(q)
  {
    DivOne(q, (|d| - 1) as real);
  }

  /** `x / m * 100`: x as a percentage of m. */
  function Percent(x: real, m: real): real
    requires m != 0.0
  {
    x / m * 100.0
  }

  /** A percentage scales back to its value, is exactly 100 at m itself, and
      with a positive m maps every value up to m to at most 100 and every
      non-negative value to at least 0. */
  lemma PercentBounds(x: real, m: real)
    requires m != 0.0
    ensures Percent(x, m) * m == x * 100.0
    ensures x == m ==> Percent(x, m) == 100.0
    ensures m > 0.0 && x <= m ==> Percent(x, m) <= 100.0
    ensures m > 0.0 && x >= 0.0 ==> Percent(x, m) >= 0.0
  {
    DivMul(x, m);
    if x == m {
      DivSelf(m);
    }
    if m > 0.0 && x <= m {
      DivAtMost(x, m, 1.0);
    }
    if m > 0.0 && x >= 0.0 {
      DivAtLeast(x, m, 0.0);
    }
  }

  /** Division of every defined cell by the column's maximum, times 100
      (`x / x.max() * 100`). A zero maximum produces only infinities and NaN
      in the source; such a column is undefined here. */
  function Normalise(s: seq<Option<real>>): (r: seq<Option<real>>)
    ensures |r| == |s|
  {
    var m := MaxDefined(s);
    seq(|s|, i requires 0 <= i < |s| =>
      if s[i].Some? && m.Some? && m.value != 0.0 then Some(Percent(s[i].value, m.value)) else None)
  }

  /** One normalised cell: it is the cell's value as a percentage of the
      maximum, so with a positive maximum it never exceeds 100. */
  lemma NormalisedCell(s: seq<Option<real>>, i: int)
    requires 0 <= i < |s| && s[i].Some?
    requires MaxDefined(s).Some? && MaxDefined(s).value != 0.0
    ensures s[i].value <= MaxDefined(s).value
    ensures Normalise(s)[i] == Some(Percent(s[i].value, MaxDefined(s).value))
    ensures Percent(s[i].value, MaxDefined(s).value) * MaxDefined(s).value == s[i].value * 100.0
    ensures MaxDefined(s).value > 0.0 ==> Percent(s[i].value, MaxDefined(s).value) <= 100.0
    ensures MaxDefined(s).value > 0.0 && s[i].value >= 0.0 ==> Percent(s[i].value, MaxDefined(s).value) >= 0.0
    ensures s[i].value == MaxDefined(s).value ==> Normalise(s)[i] == Some(100.0)
  {
    PercentBounds(s[i].value, MaxDefined(s).value);
  }

  /** The row holding the maximum normalises to exactly 100; with a positive
      maximum no row exceeds 100, and non-negative rows stay non-negative. */
  lemma NormalisedPeak(s: seq<Option<real>>)
    requires MaxDefined(s).Some? && MaxDefined(s).value != 0.0
    ensures forall i :: 0 <= i < |s| ==> (Normalise(s)[i].Some? <==> s[i].Some?)
    ensures exists i :: 0 <= i < |s| && s[i] == MaxDefined(s) && Normalise(s)[i] == Some(100.0)
    ensures MaxDefined(s).value > 0.0 ==>
      forall i :: 0 <= i < |s| && s[i].Some? ==> 0.0 <= Normalise(s)[i].value <= 100.0 || s[i].value < 0.0
    ensures MaxDefined(s).value > 0.0 ==>
      forall i :: 0 <= i < |s| && s[i].Some? ==> Normalise(s)[i].value <= 100.0
  {
    var m := MaxDefined(s).value;
    var k :| 0 <= k < |s| && s[k] == Some(m);
    NormalisedCell(s, k);
    forall i | 0 <= i < |s| && s[i].Some?
      ensures m > 0.0 ==> Normalise(s)[i].value <= 100.0
      ensures m > 0.0 && s[i].value >= 0.0 ==> 0.0 <= Normalise(s)[i].value
    {
      NormalisedCell(s, i);
    }
  }
}
