/** Per-shot mean dose and the depth table of the profile page: each shot's
    dose is the mean of its pulses within a percentage of the shot's peak,
    the 18 shots are two profiles (crossplane, inplane) at each of nine
    depths, and the two shots of a depth are averaged and normalised to 100
    at the deepest-dose maximum. */
module Aggregation {
  import opened Stats
  import opened Dose

  /** The entries of a column at or above a bound, in order. */
  function AtLeast(x: seq<real>, bound: real): (r: seq<real>)
    ensures |r| <= |x|
  {
    if x == [] then []
    else AtLeast(x[..|x| - 1], bound) + (if x[|x| - 1] >= bound then [x[|x| - 1]] else [])
  }

  lemma {:induction false} AtLeastMembers(x: seq<real>, bound: real)
    ensures forall v :: v in AtLeast(x, bound) <==> v in x && v >= bound
  {
    if x != [] {
      AtLeastMembers(x[..|x| - 1], bound);
      assert x == x[..|x| - 1] + [x[|x| - 1]];
    }
  }

  /** The entries at or above a bound lie between it and the column's peak,
      and there is one exactly when the peak reaches the bound. */
  lemma AtLeastBounds(x: seq<real>, bound: real)
    requires x != []
    ensures forall i :: 0 <= i < |AtLeast(x, bound)| ==> bound <= AtLeast(x, bound)[i] <= Max(x)
    ensures AtLeast(x, bound) != [] <==> Max(x) >= bound
  {
    var sel := AtLeast(x, bound);
    AtLeastMembers(x, bound);
    forall i | 0 <= i < |sel| ensures bound <= sel[i] <= Max(x) {
      assert sel[i] in sel;
      var k :| 0 <= k < |x| && x[k] == sel[i];
    }
    var k :| 0 <= k < |x| && x[k] == Max(x);
    if Max(x) >= bound {
      assert x[k] in sel;
    }
  }

  /** The mean of the entries at or above a bound: defined exactly when the
      peak reaches the bound, and then between the bound and the peak. */
  function MeanAbove(x: seq<real>, bound: real): (m: Option<real>)
    requires x != []
    ensures m.Some? <==> bound <= Max(x)
    ensures m.Some? ==> bound <= m.value <= Max(x)
  {
    var sel := AtLeast(x, bound);
    AtLeastBounds(x, bound);
    if sel == [] then None
    else
      MeanBetween(sel, bound, Max(x));
      Some(Mean(sel))
  }

  /** The qualifying level of a shot: `percent / 100 * x.max()`. */
  function Level(x: seq<real>, percent: real): real
    requires x != []
  {
    percent / 100.0 * Max(x)
  }

  /** `x[x >= percent / 100 * x.max()].mean()` for the doses x of one shot. */
  function MeanDose(x: seq<real>, percent: real): (m: Option<real>)
    requires x != []
    ensures m.Some? <==> Level(x, percent) <= Max(x)
    ensures m.Some? ==> Level(x, percent) <= m.value <= Max(x)
  {
    MeanAbove(x, Level(x, percent))
  }

  /** For a percentage up to 100, a shot's mean dose is defined exactly when
      its peak dose is not negative or the percentage is 100; at 100 it is
      the peak itself. */
  lemma MeanDoseDefined(x: seq<real>, percent: real)
    requires x != [] && 0.0 <= percent <= 100.0
    ensures MeanDose(x, percent).Some? <==> Max(x) >= 0.0 || percent == 100.0
    ensures percent == 100.0 ==> MeanDose(x, percent) == Some(Max(x))
  {
    LevelBelow(percent, Max(x), Level(x, percent));
    if percent == 100.0 {
      MeanAtPeak(MeanDose(x, percent), Level(x, percent), Max(x));
    }
  }

  /** A mean that is defined when the level reaches the peak, and then lies
      between them, is the peak itself when the level is the peak. */
  lemma MeanAtPeak(r: Option<real>, l: real, m: real)
    requires (r.Some? <==> l <= m) && (r.Some? ==> l <= r.value <= m) && l == m
    ensures r == Some(m)
  {
  }

  /** The level percent/100 · m reaches m exactly when m is not negative or
      the percentage is 100, and at 100 it is m itself. */
  lemma LevelBelow(percent: real, m: real, l: real)
    requires 0.0 <= percent <= 100.0 && l == percent / 100.0 * m
    ensures l <= m <==> m >= 0.0 || percent == 100.0
    ensures percent == 100.0 ==> l == m
  {
    FractionBelow(percent / 100.0, m, l);
    if percent == 100.0 {
      MulCongruent(percent / 100.0, 1.0, m);
    }
  }

  /** A fraction f ≤ 1 of a value reaches the value itself exactly when the
      value is not negative or the fraction is the whole. */
  lemma FractionBelow(f: real, m: real, l: real)
    requires 0.0 <= f <= 1.0 && l == f * m
    ensures l <= m <==> m >= 0.0 || f == 1.0
  {
    assert m - f * m == m * (1.0 - f);
    if m < 0.0 && f < 1.0 {
      MulStrict(m, 0.0, 1.0 - f);
    }
  }

  /** The doses of the pulse rows labelled with shot k, in row order. */
  function ShotDoses(rows: seq<DoseRow>, labels: seq<Option<nat>>, k: nat): (d: seq<real>)
    requires |labels| == |rows|
    ensures |d| <= |rows|
  {
    if rows == [] then []
    else
      var n := |rows|;
      ShotDoses(rows[..n - 1], labels[..n - 1], k) + (if labels[n - 1] == Some(k) then [rows[n - 1].dose] else [])
  }

  lemma {:induction false} ShotDosesMembers(rows: seq<DoseRow>, labels: seq<Option<nat>>, k: nat)
    requires |labels| == |rows|
    ensures forall v :: v in ShotDoses(rows, labels, k) <==>
      exists i :: 0 <= i < |rows| && labels[i] == Some(k) && v == rows[i].dose
    ensures ShotDoses(rows, labels, k) != [] <==> Some(k) in labels
  {
    if rows != [] {
      var n := |rows|;
      var r0, l0 := rows[..n - 1], labels[..n - 1];
      ShotDosesMembers(r0, l0, k);
      forall v | v in ShotDoses(rows, labels, k)
        ensures exists i :: 0 <= i < |rows| && labels[i] == Some(k) && v == rows[i].dose
      {
        if v !in ShotDoses(r0, l0, k) {
          assert labels[n - 1] == Some(k) && v == rows[n - 1].dose;
        } else {
          var i :| 0 <= i < n - 1 && l0[i] == Some(k) && v == r0[i].dose;
          assert labels[i] == l0[i] && rows[i] == r0[i];
        }
      }
      forall i | 0 <= i < |rows| && labels[i] == Some(k)
        ensures rows[i].dose in ShotDoses(rows, labels, k)
      {
        if i < n - 1 {
          assert l0[i] == labels[i] && r0[i] == rows[i];
        }
      }
      assert labels == l0 + [labels[n - 1]];
      if Some(k) in labels {
        var i :| 0 <= i < n && labels[i] == Some(k);
        assert rows[i].dose in ShotDoses(rows, labels, k);
      }
    }
  }

  /** The shots 0 .. n−1 that label at least one row, ascending. */
  function ShotsFrom(labels: seq<Option<nat>>, n: nat): (g: seq<nat>)
  {
    if n == 0 then [] else ShotsFrom(labels, n - 1) + (if Some(n - 1) in labels then [n - 1] else [])
  }

  lemma {:induction false} ShotsFromSpec(labels: seq<Option<nat>>, n: nat)
    ensures Ascending(ShotsFrom(labels, n))
    ensures forall k :: k in ShotsFrom(labels, n) <==> k < n && Some(k) in labels
  {
    if n > 0 {
      ShotsFromSpec(labels, n - 1);
      var g0, g := ShotsFrom(labels, n - 1), ShotsFrom(labels, n);
      if Some(n - 1) in labels {
        assert g == g0 + [n - 1];
        forall i, j | 0 <= i < j < |g| ensures g[i] < g[j] {
          assert g[i] == g0[i] && g[i] in g0;
          if j < |g0| {
            assert g[j] == g0[j];
          }
        }
      }
    }
  }

  /** The index of `dfzp.groupby('shot')`: the distinct shot labels in
      ascending order, unlabelled rows (NaN) forming no group. Every label
      is below n, the number of shots. */
  function ShotKeys(labels: seq<Option<nat>>, n: nat): (g: seq<nat>)
    requires forall i :: 0 <= i < |labels| && labels[i].Some? ==> labels[i].value < n
    ensures Ascending(g)
    ensures forall k :: k in g <==> Some(k) in labels
  {
    ShotsFromSpec(labels, n);
    ShotsFrom(labels, n)
  }

  /** One group of the per-shot aggregation. */
  function ShotMean(rows: seq<DoseRow>, labels: seq<Option<nat>>, k: nat, percent: real): Option<real>
    requires |labels| == |rows| && Some(k) in labels
  {
    ShotDosesMembers(rows, labels, k);
    MeanDose(ShotDoses(rows, labels, k), percent)
  }

  /** `dfi['meandose']`: one mean dose per shot that labels a pulse row, in
      ascending shot order. */
  function ShotMeans(rows: seq<DoseRow>, labels: seq<Option<nat>>, n: nat, percent: real): (m: seq<Option<real>>)
    requires |labels| == |rows|
    requires forall i :: 0 <= i < |labels| && labels[i].Some? ==> labels[i].value < n
    ensures |m| == |ShotKeys(labels, n)|
  {
    var g := ShotKeys(labels, n);
    seq(|g|, i requires 0 <= i < |g| => ShotMean(rows, labels, g[i], percent))
  }

  /** Every labelled pulse row belongs to exactly one group, the one of its
      shot, and each group's mean dose lies between the percentage bound and
      the shot's peak. */
  lemma ShotMeansGroups(rows: seq<DoseRow>, labels: seq<Option<nat>>, n: nat, percent: real)
    requires |labels| == |rows|
    requires forall i :: 0 <= i < |labels| && labels[i].Some? ==> labels[i].value < n
    ensures forall r :: 0 <= r < |rows| && labels[r].Some? ==>
      exists i :: 0 <= i < |ShotKeys(labels, n)| && ShotKeys(labels, n)[i] == labels[r].value
        && rows[r].dose in ShotDoses(rows, labels, labels[r].value)
    ensures forall i, j :: 0 <= i < j < |ShotKeys(labels, n)| ==> ShotKeys(labels, n)[i] != ShotKeys(labels, n)[j]
    ensures forall i :: 0 <= i < |ShotKeys(labels, n)| ==>
      var d := ShotDoses(rows, labels, ShotKeys(labels, n)[i]);
      d != [] && ShotMeans(rows, labels, n, percent)[i] == MeanDose(d, percent)
  {
    var g := ShotKeys(labels, n);
    forall r | 0 <= r < |rows| && labels[r].Some?
      ensures exists i :: 0 <= i < |g| && g[i] == labels[r].value
      ensures rows[r].dose in ShotDoses(rows, labels, labels[r].value)
    {
      assert Some(labels[r].value) == labels[r] && labels[r] in labels;
      ShotDosesMembers(rows, labels, labels[r].value);
    }
    forall i | 0 <= i < |g| ensures ShotDoses(rows, labels, g[i]) != [] {
      assert g[i] in g;
      ShotDosesMembers(rows, labels, g[i]);
    }
  }

  /** The orientation of one profile shot. */
  datatype Direction = Crossplane | Inplane

  /** `['crossplane', 'inplane'] * 9`. */
  const Directions: seq<Direction> := [
    Crossplane, Inplane, Crossplane, Inplane, Crossplane, Inplane,
    Crossplane, Inplane, Crossplane, Inplane, Crossplane, Inplane,
    Crossplane, Inplane, Crossplane, Inplane, Crossplane, Inplane]

  /** The depth (mm) of each of the 18 shots. */
  const Depths: seq<int> := [5, 5, 10, 10, 15, 15, 25, 25, 50, 50, 100, 100, 150, 150, 200, 200, 250, 250]

  /** The nine measured depths in ascending order. */
  const DepthKeys: seq<int> := [5, 10, 15, 25, 50, 100, 150, 200, 250]

  /** The protocol of the profile recording: shot i is at the (i/2)-th depth,
      even shots crossplane and odd shots inplane, so every depth is measured
      once in each direction; and the depths in ascending order without
      repeats are exactly the keys of the depth table. */
  lemma ShotProtocol()
    ensures |Depths| == 18 && |Directions| == 18 && |DepthKeys| == 9
    ensures forall i :: 0 <= i < 18 ==> Depths[i] == DepthKeys[i / 2]
    ensures forall i :: 0 <= i < 18 ==> Directions[i] == (if i % 2 == 0 then Crossplane else Inplane)
    ensures forall i, j :: 0 <= i < j < 9 ==> DepthKeys[i] < DepthKeys[j]
    ensures forall x :: x in Depths <==> x in DepthKeys
  {
    forall x | x in DepthKeys ensures x in Depths {
      var j :| 0 <= j < 9 && DepthKeys[j] == x;
      assert Depths[2 * j] == x;
    }
  }

  /** One row of `dfi`: a shot's mean dose, direction and depth. */
  datatype ShotRow = ShotRow(meanDose: Option<real>, direction: Direction, depth: int)

  /** Assigning the 18-entry direction and depth lists to `dfi` fails when
      there are some shots but not exactly 18. With no shot at all the empty
      frame takes the 18 rows of the list and its mean dose column is
      undefined in every row. */
  function ShotTable(means: seq<Option<real>>): (t: Option<seq<ShotRow>>)
    ensures t.Some? <==> |means| == 18 || means == []
    ensures t.Some? ==> |t.value| == 18
    ensures |means| == 18 ==> forall i :: 0 <= i < 18 ==> t.value[i] == ShotRow(means[i], Directions[i], Depths[i])
    ensures means == [] ==> forall i :: 0 <= i < 18 ==> t.value[i] == ShotRow(None, Directions[i], Depths[i])
  {
    if |means| != 18 && means != [] then None
    else Some(seq(18, i requires 0 <= i < 18 =>
      ShotRow(if means == [] then None else means[i], Directions[i], Depths[i])))
  }

  /** The mean doses of the shots at one depth, in shot order. */
  function Select(t: seq<ShotRow>, depth: int): (s: seq<Option<real>>)
    ensures |s| <= |t|
  {
    if t == [] then []
    else
      var n := |t|;
      Select(t[..n - 1], depth) + (if t[n - 1].depth == depth then [t[n - 1].meanDose] else [])
  }

  /** Over a table laid out in pairs by ascending keys, the first n rows
      hold none, one or both of key j's pair. */
  lemma {:induction false} SelectUpTo(t: seq<ShotRow>, keys: seq<int>, j: nat, n: nat)
    requires |t| == 2 * |keys| && j < |keys| && n <= |t|
    requires forall i, k :: 0 <= i < k < |keys| ==> keys[i] < keys[k]
    requires forall i :: 0 <= i < |t| ==> t[i].depth == keys[i / 2]
    ensures n <= 2 * j ==> Select(t[..n], keys[j]) == []
    ensures n == 2 * j + 1 ==> Select(t[..n], keys[j]) == [t[2 * j].meanDose]
    ensures n >= 2 * j + 2 ==> Select(t[..n], keys[j]) == [t[2 * j].meanDose, t[2 * j + 1].meanDose]
  {
    if n == 0 {
      assert t[..0] == [];
    } else {
      SelectUpTo(t, keys, j, n - 1);
      var m := (n - 1) / 2;
      assert t[..n][..n - 1] == t[..n - 1];
      assert t[..n][n - 1] == t[n - 1];
      assert t[n - 1].depth == keys[m];
      assert keys[m] == keys[j] <==> m == j;
      assert m == j <==> n == 2 * j + 1 || n == 2 * j + 2;
    }
  }

  /** The two shots of depth j, crossplane then inplane, are the rows 2j and
      2j + 1 of the shot table. */
  lemma {:induction false} SelectPair(t: seq<ShotRow>, j: nat)
    requires |t| == 18 && j < 9
    requires forall i :: 0 <= i < 18 ==> t[i].depth == DepthKeys[i / 2]
    ensures Select(t, DepthKeys[j]) == [t[2 * j].meanDose, t[2 * j + 1].meanDose]
  {
    ShotProtocol();
    SelectUpTo(t, DepthKeys, j, 18);
    assert t[..18] == t;
  }

  /** One row of `dfig`: a depth, the mean of its shots' mean doses, their
      sample variance (the square of the `error` column) and the PDD. */
  datatype DepthRow = DepthRow(depth: int, meanDose: Option<real>, variance: Option<real>, pdd: Option<real>)

  /** `groupby('depth').mean()`: one cell per depth key. */
  function DepthMeans(t: seq<ShotRow>): (m: seq<Option<real>>)
    ensures |m| == 9
  {
    seq(9, j requires 0 <= j < 9 => MeanDefined(Select(t, DepthKeys[j])))
  }

  /** `dfig`: group by depth, average, take the sample deviation
      and normalise the averages to 100 at their maximum. */
  function DepthTable(t: seq<ShotRow>): (d: seq<DepthRow>)
    ensures |d| == 9
  {
    var ms := DepthMeans(t);
    var pdd := Normalise(ms);
    seq(9, j requires 0 <= j < 9 =>
      DepthRow(DepthKeys[j], ms[j], SampleVariance(Select(t, DepthKeys[j])), pdd[j]))
  }

  /** Mean and sample variance of a pair of cells that may be undefined:
      two defined cells give their midpoint and (a − b)²/2, one gives
      itself and no variance, none gives neither. */
  lemma PairStats(a: Option<real>, b: Option<real>)
    ensures a.Some? && b.Some? ==> MeanDefined([a, b]) == Some((a.value + b.value) / 2.0)
    ensures a.Some? && b.Some? ==> SampleVariance([a, b]) == Some(PairSpread(a.value, b.value))
    ensures a.Some? && b.None? ==> MeanDefined([a, b]) == Some(a.value) && SampleVariance([a, b]).None?
    ensures a.None? && b.Some? ==> MeanDefined([a, b]) == Some(b.value) && SampleVariance([a, b]).None?
    ensures a.None? && b.None? ==> MeanDefined([a, b]).None? && SampleVariance([a, b]).None?
  {
    DefinedPair(a, b);
    if a.Some? && b.Some? {
      assert [a, b] == [Some(a.value), Some(b.value)];
      PairMean(a.value, b.value);
      PairVariance(a.value, b.value);
    } else if a.Some? {
      SingleMean(a.value);
    } else if b.Some? {
      SingleMean(b.value);
    }
  }

  /** The depth table of 18 shot mean doses has one row per depth key, in
      ascending depth order; each row averages exactly the crossplane and
      inplane shots of its depth and holds their sample variance. */
  lemma DepthTableRows(means: seq<Option<real>>)
    requires |means| == 18
    ensures var d := DepthTable(ShotTable(means).value);
      forall j :: 0 <= j < 9 ==>
        d[j].depth == DepthKeys[j] &&
        d[j].meanDose == MeanDefined([means[2 * j], means[2 * j + 1]]) &&
        d[j].variance == SampleVariance([means[2 * j], means[2 * j + 1]])
  {
    var t := ShotTable(means).value;
    ShotLayout(means);
    DepthTableOfPairs(t, means);
  }

  /** With no shot at all the depth table still has its nine rows, in
      ascending depth order, but no row has a mean, a variance or a PDD. */
  lemma UnlabelledDepthTable()
    ensures ShotTable([]).Some?
    ensures var d := DepthTable(ShotTable([]).value);
      forall j :: 0 <= j < 9 ==>
        d[j].depth == DepthKeys[j] && d[j].meanDose.None? && d[j].variance.None? && d[j].pdd.None?
  {
    var t := ShotTable([]).value;
    ShotProtocol();
    assert forall i :: 0 <= i < 18 ==> t[i].depth == DepthKeys[i / 2] && t[i].meanDose.None?;
    UndefinedDepthTable(t);
  }

  /** Over any table laid out like the shot table whose mean doses are all
      undefined, every row of the depth table is undefined. */
  lemma UndefinedDepthTable(t: seq<ShotRow>)
    requires |t| == 18
    requires forall i :: 0 <= i < 18 ==> t[i].depth == DepthKeys[i / 2] && t[i].meanDose.None?
    ensures forall j :: 0 <= j < 9 ==>
      DepthTable(t)[j].depth == DepthKeys[j] && DepthTable(t)[j].meanDose.None? &&
      DepthTable(t)[j].variance.None? && DepthTable(t)[j].pdd.None?
  {
    var none: seq<Option<real>> := seq(18, i => None);
    DepthTableOfPairs(t, none);
    PairStats(None, None);
    assert forall j :: 0 <= j < 9 ==> [none[2 * j], none[2 * j + 1]] == [None, None];
    assert forall j :: 0 <= j < 9 ==> DepthMeans(t)[j] == DepthTable(t)[j].meanDose;
  }

  lemma DepthTableOfPairs(t: seq<ShotRow>, means: seq<Option<real>>)
    requires |t| == 18 && |means| == 18
    requires forall i :: 0 <= i < 18 ==> t[i].depth == DepthKeys[i / 2] && t[i].meanDose == means[i]
    ensures forall j :: 0 <= j < 9 ==>
      DepthTable(t)[j].depth == DepthKeys[j] &&
      DepthTable(t)[j].meanDose == MeanDefined([means[2 * j], means[2 * j + 1]]) &&
      DepthTable(t)[j].variance == SampleVariance([means[2 * j], means[2 * j + 1]])
  {
    forall j | 0 <= j < 9
      ensures DepthTable(t)[j].depth == DepthKeys[j]
      ensures DepthTable(t)[j].meanDose == MeanDefined([means[2 * j], means[2 * j + 1]])
      ensures DepthTable(t)[j].variance == SampleVariance([means[2 * j], means[2 * j + 1]])
    {
      DepthOfPair(t, means, j);
    }
  }

  /** Over any table laid out like the shot table, row j of the depth table
      gathers the mean doses of rows 2j and 2j + 1. */
  lemma DepthOfPair(t: seq<ShotRow>, means: seq<Option<real>>, j: nat)
    requires |t| == 18 && |means| == 18 && j < 9
    requires forall i :: 0 <= i < 18 ==> t[i].depth == DepthKeys[i / 2] && t[i].meanDose == means[i]
    ensures DepthTable(t)[j].depth == DepthKeys[j]
    ensures DepthTable(t)[j].meanDose == MeanDefined([means[2 * j], means[2 * j + 1]])
    ensures DepthTable(t)[j].variance == SampleVariance([means[2 * j], means[2 * j + 1]])
  {
    SelectPair(t, j);
    DepthRowAt(t, j);
    assert [t[2 * j].meanDose, t[2 * j + 1].meanDose] == [means[2 * j], means[2 * j + 1]];
  }

  /** Row i of the shot table holds shot i's mean dose at depth key i/2, in
      the crossplane direction for even i and inplane for odd i. */
  lemma ShotLayout(means: seq<Option<real>>)
    requires |means| == 18
    ensures forall i :: 0 <= i < 18 ==>
      ShotTable(means).value[i].meanDose == means[i] &&
      ShotTable(means).value[i].depth == DepthKeys[i / 2] &&
      ShotTable(means).value[i].direction == (if i % 2 == 0 then Crossplane else Inplane)
  {
    ShotProtocol();
  }

  /** Row j of the depth table gathers the shots of depth key j. */
  lemma DepthRowAt(t: seq<ShotRow>, j: nat)
    requires j < 9
    ensures DepthTable(t)[j].depth == DepthKeys[j]
    ensures DepthTable(t)[j].meanDose == MeanDefined(Select(t, DepthKeys[j]))
    ensures DepthTable(t)[j].variance == SampleVariance(Select(t, DepthKeys[j]))
  {
  }

  /** The PDD column of the depth table: defined on exactly the depths with a
      defined mean, exactly 100 at the depth of maximal mean dose and, when
      that maximum is positive, at most 100 everywhere. */
  lemma DepthTablePeak(t: seq<ShotRow>)
    requires MaxDefined(DepthMeans(t)).Some? && MaxDefined(DepthMeans(t)).value != 0.0
    ensures forall j :: 0 <= j < 9 ==> (DepthTable(t)[j].pdd.Some? <==> DepthTable(t)[j].meanDose.Some?)
    ensures exists j :: (0 <= j < 9 && DepthTable(t)[j].meanDose == MaxDefined(DepthMeans(t)) &&
      DepthTable(t)[j].pdd == Some(100.0))
    ensures MaxDefined(DepthMeans(t)).value > 0.0 ==>
      forall j :: 0 <= j < 9 && DepthTable(t)[j].pdd.Some? ==> DepthTable(t)[j].pdd.value <= 100.0
  {
    var ms, d := DepthMeans(t), DepthTable(t);
    NormalisedPeak(ms);
    assert forall j :: 0 <= j < 9 ==> d[j].meanDose == ms[j] && d[j].pdd == Normalise(ms)[j];
    var k :| 0 <= k < 9 && ms[k] == MaxDefined(ms) && Normalise(ms)[k] == Some(100.0);
    assert d[k].meanDose == MaxDefined(ms) && d[k].pdd == Some(100.0);
  }
}
