/** The last stage of a single scan: rows with an undefined cell are dropped,
    the pulse doses are smoothed by a centred rolling mean and the smoothed
    curve is normalised to 100 at its maximum. */
module Finishing {
  import opened Stats
  import opened Position

  /** One row of `dfzpddp`: time, position and pulse dose, all defined. */
  datatype PddRow = PddRow(time: real, pos: real, dose: real)

  /** A window row survives `dropna()` when its position and pulse dose are
      defined and it is not the recording's last row. */
  predicate Complete(row: ScanRow, pos: Option<real>)
  {
    pos.Some? && row.dosep.Some? && !row.last
  }

  function RowOf(row: ScanRow, pos: Option<real>): PddRow
    requires Complete(row, pos)
  {
    PddRow(row.time, pos.value, row.dosep.value)
  }

  /** `dfzpdd.dropna()`, in row order. */
  function DropUndefined(w: seq<ScanRow>, pos: seq<Option<real>>): (r: seq<PddRow>)
    requires |pos| == |w|
    ensures |r| <= |w|
  {
    if w == [] then []
    else
      var n := |w|;
      DropUndefined(w[..n - 1], pos[..n - 1])
        + (if Complete(w[n - 1], pos[n - 1]) then [RowOf(w[n - 1], pos[n - 1])] else [])
  }

  /** The surviving rows are exactly the complete window rows. */
  lemma {:induction false} DropUndefinedMembers(w: seq<ScanRow>, pos: seq<Option<real>>)
    requires |pos| == |w|
    ensures forall x :: x in DropUndefined(w, pos) <==>
      exists k :: 0 <= k < |w| && Complete(w[k], pos[k]) && x == RowOf(w[k], pos[k])
  {
    if w != [] {
      var n := |w|;
      DropUndefinedMembers(w[..n - 1], pos[..n - 1]);
      forall x | x in DropUndefined(w, pos)
        ensures exists k :: 0 <= k < |w| && Complete(w[k], pos[k]) && x == RowOf(w[k], pos[k])
      {
        if x !in DropUndefined(w[..n - 1], pos[..n - 1]) {
          assert Complete(w[n - 1], pos[n - 1]) && x == RowOf(w[n - 1], pos[n - 1]);
        } else {
          var k :| 0 <= k < n - 1 && Complete(w[..n - 1][k], pos[..n - 1][k]) && x == RowOf(w[..n - 1][k], pos[..n - 1][k]);
          assert w[..n - 1][k] == w[k] && pos[..n - 1][k] == pos[k];
        }
      }
      forall k | 0 <= k < n && Complete(w[k], pos[k])
        ensures RowOf(w[k], pos[k]) in DropUndefined(w, pos)
      {
        if k < n - 1 {
          assert w[..n - 1][k] == w[k] && pos[..n - 1][k] == pos[k];
        }
      }
    }
  }

  /** Positions never increase down the rows. */
  ghost predicate Descending(r: seq<PddRow>)
  {
    forall i, j :: 0 <= i <= j < |r| ==> r[j].pos <= r[i].pos
  }

  /** `dropna()` keeps the row order, so a position column that never
      increases across the complete rows never increases in the result. */
  lemma {:induction false} DropUndefinedKeepsOrder(w: seq<ScanRow>, pos: seq<Option<real>>)
    requires |pos| == |w|
    requires forall j, k :: 0 <= j <= k < |w| && Complete(w[j], pos[j]) && Complete(w[k], pos[k]) ==>
      pos[k].value <= pos[j].value
    ensures Descending(DropUndefined(w, pos))
  {
    if w != [] {
      var n := |w|;
      var w0, p0 := w[..n - 1], pos[..n - 1];
      assert forall j, k :: 0 <= j <= k < |w0| && Complete(w0[j], p0[j]) && Complete(w0[k], p0[k]) ==>
        p0[k].value <= p0[j].value by {
        forall j, k | 0 <= j <= k < |w0| && Complete(w0[j], p0[j]) && Complete(w0[k], p0[k])
          ensures p0[k].value <= p0[j].value
        {
          assert w0[j] == w[j] && w0[k] == w[k] && p0[j] == pos[j] && p0[k] == pos[k];
        }
      }
      DropUndefinedKeepsOrder(w0, p0);
      var r0, r := DropUndefined(w0, p0), DropUndefined(w, pos);
      if Complete(w[n - 1], pos[n - 1]) {
        assert r == r0 + [RowOf(w[n - 1], pos[n - 1])];
        DropUndefinedMembers(w0, p0);
        forall i | 0 <= i < |r0| ensures pos[n - 1].value <= r0[i].pos {
          assert r0[i] in r0;
          var k :| 0 <= k < n - 1 && Complete(w0[k], p0[k]) && r0[i] == RowOf(w0[k], p0[k]);
          assert w0[k] == w[k] && p0[k] == pos[k];
        }
        forall i, j | 0 <= i <= j < |r| ensures r[j].pos <= r[i].pos {
          if j < |r0| {
            assert r[i] == r0[i] && r[j] == r0[j];
          } else if i < |r0| {
            assert r[i] == r0[i];
          }
        }
      }
    }
  }

  /** `rolling(w, center=True).mean()` on a column without gaps: row i takes
      the mean of the w rows ending (w − 1)/2 rows after it, and is undefined
      when that window runs off either end of the column. */
  function RollingAt(xs: seq<real>, w: nat, i: nat): Option<real>
    requires w >= 1 && i < |xs|
  {
    var stop := i + 1 + (w - 1) / 2;
    if stop < w || stop > |xs| then None else Some(Mean(xs[stop - w..stop]))
  }

  function Rolling(xs: seq<real>, w: nat): (r: seq<Option<real>>)
    requires w >= 1
    ensures |r| == |xs|
  {
    seq(|xs|, i requires 0 <= i < |xs| => RollingAt(xs, w, i))
  }

  /** A row is smoothed exactly when it has w/2 rows before it and (w − 1)/2
      rows after it; its value is then the mean of that centred window,
      which holds w rows. */
  lemma RollingCell(xs: seq<real>, w: nat, i: nat)
    requires w >= 1 && i < |xs|
    ensures Rolling(xs, w)[i].Some? <==> w / 2 <= i && i + (w - 1) / 2 < |xs|
    ensures Rolling(xs, w)[i].Some? ==>
      Rolling(xs, w)[i].value == Mean(xs[i - w / 2..i + 1 + (w - 1) / 2])
      && |xs[i - w / 2..i + 1 + (w - 1) / 2]| == w
  {
    assert (w - 1) / 2 + w / 2 == w - 1;
  }

  /** Some row is smoothed exactly when the column has at least w rows. */
  lemma RollingNonEmpty(xs: seq<real>, w: nat)
    requires w >= 1
    ensures (exists i :: 0 <= i < |xs| && Rolling(xs, w)[i].Some?) <==> |xs| >= w
  {
    if |xs| >= w {
      RollingCell(xs, w, w / 2);
    }
    forall i | 0 <= i < |xs| && Rolling(xs, w)[i].Some? ensures |xs| >= w {
      RollingCell(xs, w, i);
    }
  }

  /** A window of width 1 leaves the column unchanged. */
  lemma RollingOfOne(xs: seq<real>)
    ensures forall i :: 0 <= i < |xs| ==> Rolling(xs, 1)[i] == Some(xs[i])
  {
    forall i | 0 <= i < |xs| ensures Rolling(xs, 1)[i] == Some(xs[i]) {
      assert xs[i..i + 1] == [] + [xs[i]];
      SumAppend([], xs[i]);
    }
  }

  /** Smoothing stays within any bounds of the data. */
  lemma RollingWithin(xs: seq<real>, w: nat, lo: real, hi: real)
    requires w >= 1
    requires forall i :: 0 <= i < |xs| ==> lo <= xs[i] <= hi
    ensures forall i :: 0 <= i < |xs| && Rolling(xs, w)[i].Some? ==> lo <= Rolling(xs, w)[i].value <= hi
  {
    forall i | 0 <= i < |xs| && Rolling(xs, w)[i].Some?
      ensures lo <= Rolling(xs, w)[i].value <= hi
    {
      var stop := i + 1 + (w - 1) / 2;
      var win := xs[stop - w..stop];
      assert forall j :: 0 <= j < |win| ==> win[j] == xs[stop - w + j];
      MeanBetween(win, lo, hi);
    }
  }

  /** One row of the displayed table: time, position, smoothed dose and PDD. */
  datatype PddPoint = PddPoint(time: real, pos: real, smooth: real, pdd: real)

  function Doses(rows: seq<PddRow>): (d: seq<real>)
    ensures |d| == |rows| && forall i :: 0 <= i < |rows| ==> d[i] == rows[i].dose
  {
    seq(|rows|, i requires 0 <= i < |rows| => rows[i].dose)
  }

  /** `loc[:, ['pos', 'pdd', 'smoothcharge']].dropna()`: the rows where both
      the smoothed dose and the PDD are defined. */
  function Keep(rows: seq<PddRow>, smooth: seq<Option<real>>, pdd: seq<Option<real>>): (t: seq<PddPoint>)
    requires |smooth| == |rows| && |pdd| == |rows|
    ensures |t| <= |rows|
  {
    if rows == [] then []
    else
      var n := |rows|;
      Keep(rows[..n - 1], smooth[..n - 1], pdd[..n - 1])
        + (if smooth[n - 1].Some? && pdd[n - 1].Some?
           then [PddPoint(rows[n - 1].time, rows[n - 1].pos, smooth[n - 1].value, pdd[n - 1].value)]
           else [])
  }

  lemma {:induction false} KeepMembers(rows: seq<PddRow>, smooth: seq<Option<real>>, pdd: seq<Option<real>>)
    requires |smooth| == |rows| && |pdd| == |rows|
    ensures forall x :: x in Keep(rows, smooth, pdd) <==>
      exists i :: 0 <= i < |rows| && smooth[i].Some? && pdd[i].Some? &&
        x == PddPoint(rows[i].time, rows[i].pos, smooth[i].value, pdd[i].value)
  {
    if rows != [] {
      var n := |rows|;
      var r0, s0, p0 := rows[..n - 1], smooth[..n - 1], pdd[..n - 1];
      KeepMembers(r0, s0, p0);
      forall x | x in Keep(rows, smooth, pdd)
        ensures exists i :: (0 <= i < |rows| && smooth[i].Some? && pdd[i].Some? &&
          x == PddPoint(rows[i].time, rows[i].pos, smooth[i].value, pdd[i].value))
      {
        if x in Keep(r0, s0, p0) {
          var i :| 0 <= i < n - 1 && s0[i].Some? && p0[i].Some? &&
            x == PddPoint(r0[i].time, r0[i].pos, s0[i].value, p0[i].value);
          assert r0[i] == rows[i] && s0[i] == smooth[i] && p0[i] == pdd[i];
        }
      }
      forall i | 0 <= i < n && smooth[i].Some? && pdd[i].Some?
        ensures PddPoint(rows[i].time, rows[i].pos, smooth[i].value, pdd[i].value) in Keep(rows, smooth, pdd)
      {
        if i < n - 1 {
          assert r0[i] == rows[i] && s0[i] == smooth[i] && p0[i] == pdd[i];
        }
      }
    }
  }

  lemma {:induction false} KeepKeepsOrder(rows: seq<PddRow>, smooth: seq<Option<real>>, pdd: seq<Option<real>>)
    requires |smooth| == |rows| && |pdd| == |rows|
    requires Descending(rows)
    ensures forall i, j :: 0 <= i <= j < |Keep(rows, smooth, pdd)| ==>
      Keep(rows, smooth, pdd)[j].pos <= Keep(rows, smooth, pdd)[i].pos
  {
    if rows != [] {
      var n := |rows|;
      var r0, s0, p0 := rows[..n - 1], smooth[..n - 1], pdd[..n - 1];
      assert Descending(r0) by {
        forall i, j | 0 <= i <= j < |r0| ensures r0[j].pos <= r0[i].pos {
          assert r0[i] == rows[i] && r0[j] == rows[j];
        }
      }
      KeepKeepsOrder(r0, s0, p0);
      var t0, t := Keep(r0, s0, p0), Keep(rows, smooth, pdd);
      if smooth[n - 1].Some? && pdd[n - 1].Some? {
        assert t == t0 + [PddPoint(rows[n - 1].time, rows[n - 1].pos, smooth[n - 1].value, pdd[n - 1].value)];
        KeepMembers(r0, s0, p0);
        forall i | 0 <= i < |t0| ensures rows[n - 1].pos <= t0[i].pos {
          assert t0[i] in t0;
          var k :| 0 <= k < n - 1 && s0[k].Some? && p0[k].Some? &&
            t0[i] == PddPoint(r0[k].time, r0[k].pos, s0[k].value, p0[k].value);
          assert r0[k] == rows[k];
        }
        forall i, j | 0 <= i <= j < |t| ensures t[j].pos <= t[i].pos {
          if j < |t0| {
            assert t[i] == t0[i] && t[j] == t0[j];
          } else if i < |t0| {
            assert t[i] == t0[i];
          }
        }
      }
    }
  }

  /** The rows of a column normalised to its maximum, where both are defined. */
  function Normalised(rows: seq<PddRow>, smooth: seq<Option<real>>): (t: seq<PddPoint>)
    requires |smooth| == |rows|
  {
    Keep(rows, smooth, Normalise(smooth))
  }

  /** `dfzpddp` as displayed: smooth, normalise and keep the defined rows. */
  function PddTable(rows: seq<PddRow>, w: nat): (t: seq<PddPoint>)
    requires w >= 1
    ensures |t| <= |rows|
  {
    Normalised(rows, Rolling(Doses(rows), w))
  }

  lemma NormalisedNonEmpty(rows: seq<PddRow>, smooth: seq<Option<real>>)
    requires |smooth| == |rows|
    ensures Normalised(rows, smooth) != [] <==>
      (exists i :: 0 <= i < |rows| && smooth[i].Some?) && MaxDefined(smooth) != Some(0.0)
  {
    var t := Normalised(rows, smooth);
    var norm := Normalise(smooth);
    KeepMembers(rows, smooth, norm);
    if t != [] {
      assert t[0] in t;
    }
    if (exists i :: 0 <= i < |rows| && smooth[i].Some?) && MaxDefined(smooth) != Some(0.0) {
      var i :| 0 <= i < |rows| && smooth[i].Some?;
      NormalisedCell(smooth, i);
      assert PddPoint(rows[i].time, rows[i].pos, smooth[i].value, norm[i].value) in t;
    }
  }

  /** The table is non-empty exactly when there are at least w pulse rows
      and the smoothed maximum is not 0. */
  lemma PddTableNonEmpty(rows: seq<PddRow>, w: nat)
    requires w >= 1
    ensures PddTable(rows, w) != [] <==>
      |rows| >= w && MaxDefined(Rolling(Doses(rows), w)) != Some(0.0)
  {
    RollingNonEmpty(Doses(rows), w);
    NormalisedNonEmpty(rows, Rolling(Doses(rows), w));
  }

  /** Every row of a normalised table carries its value as a percentage of
      the column's maximum. */
  lemma NormalisedRow(rows: seq<PddRow>, smooth: seq<Option<real>>, x: PddPoint)
    requires |smooth| == |rows| && x in Normalised(rows, smooth)
    ensures MaxDefined(smooth).Some? && MaxDefined(smooth).value != 0.0
    ensures x.smooth <= MaxDefined(smooth).value
    ensures x.pdd == Percent(x.smooth, MaxDefined(smooth).value)
    ensures MaxDefined(smooth).value > 0.0 ==> x.pdd <= 100.0
  {
    var norm := Normalise(smooth);
    KeepMembers(rows, smooth, norm);
    var l :| 0 <= l < |rows| && smooth[l].Some? && norm[l].Some? &&
      x == PddPoint(rows[l].time, rows[l].pos, smooth[l].value, norm[l].value);
    NormalisedCell(smooth, l);
  }

  /** One row holds the largest smoothed value, with PDD exactly 100; every
      PDD is its row's value as a percentage of that one, and with a positive
      peak no PDD exceeds 100. */
  ghost predicate PeakAt(t: seq<PddPoint>, k: int)
  {
    0 <= k < |t| && t[k].pdd == 100.0 && t[k].smooth != 0.0 &&
    (forall j :: 0 <= j < |t| ==> t[j].smooth <= t[k].smooth) &&
    (forall j :: 0 <= j < |t| ==> t[j].pdd == Percent(t[j].smooth, t[k].smooth)) &&
    (t[k].smooth > 0.0 ==> forall j :: 0 <= j < |t| ==> t[j].pdd <= 100.0)
  }

  /** A non-empty normalised table is normalised at its peak. */
  lemma NormalisedPeakRow(rows: seq<PddRow>, smooth: seq<Option<real>>)
    requires |smooth| == |rows| && Normalised(rows, smooth) != []
    ensures exists k :: PeakAt(Normalised(rows, smooth), k)
  {
    var t := Normalised(rows, smooth);
    var norm := Normalise(smooth);
    assert t[0] in t;
    NormalisedRow(rows, smooth, t[0]);
    var m := MaxDefined(smooth).value;
    var k :| 0 <= k < |smooth| && smooth[k] == Some(m);
    NormalisedCell(smooth, k);
    var peak := PddPoint(rows[k].time, rows[k].pos, m, 100.0);
    KeepMembers(rows, smooth, norm);
    assert peak in t;
    var kt :| 0 <= kt < |t| && t[kt] == peak;
    forall j | 0 <= j < |t|
      ensures t[j].smooth <= m
      ensures t[j].pdd == Percent(t[j].smooth, m)
      ensures m > 0.0 ==> t[j].pdd <= 100.0
    {
      assert t[j] in t;
      NormalisedRow(rows, smooth, t[j]);
    }
    assert PeakAt(t, kt);
  }

  /** The single-scan PDD table is normalised at its peak. */
  lemma PddTablePeak(rows: seq<PddRow>, w: nat)
    requires w >= 1 && PddTable(rows, w) != []
    ensures exists k :: PeakAt(PddTable(rows, w), k)
  {
    NormalisedPeakRow(rows, Rolling(Doses(rows), w));
  }
}
