/** Baseline zeroing: the recorded table, the beam-off prefix, and the
    subtraction of each channel's beam-off mean from the whole series. */
module Zeroing {
  import opened Stats

  /** One row of a recorded table: the sample number, the time in seconds and
      the two detector channels. Zeroed and merged series have the same shape,
      with the channels replaced by their zeroed or merged values. */
  datatype Sample = Sample(number: int, time: real, ch0: real, ch1: real)

  /** A recording as the instrument writes it: sample numbers strictly
      increasing and times non-decreasing along the rows. */
  ghost predicate Ordered(series: seq<Sample>)
  {
    forall i, j :: 0 <= i < j < |series| ==>
      series[i].number < series[j].number && series[i].time <= series[j].time
  }

  function Times(rows: seq<Sample>): (t: seq<real>)
    ensures |t| == |rows| && forall i :: 0 <= i < |rows| ==> t[i] == rows[i].time
  {
    seq(|rows|, i requires 0 <= i < |rows| => rows[i].time)
  }

  function Ch0(rows: seq<Sample>): (c: seq<real>)
    ensures |c| == |rows| && forall i :: 0 <= i < |rows| ==> c[i] == rows[i].ch0
  {
    seq(|rows|, i requires 0 <= i < |rows| => rows[i].ch0)
  }

  function Ch1(rows: seq<Sample>): (c: seq<real>)
    ensures |c| == |rows| && forall i :: 0 <= i < |rows| ==> c[i] == rows[i].ch1
  {
    seq(|rows|, i requires 0 <= i < |rows| => rows[i].ch1)
  }

  /** The rows recorded before the beam starts, `df[df.time < lim0]`. */
  function NoBeam(series: seq<Sample>, lim0: real): (nb: seq<Sample>)
    ensures |nb| <= |series|
  {
    if series == [] then []
    else
      var last := series[|series| - 1];
      NoBeam(series[..|series| - 1], lim0) + (if last.time < lim0 then [last] else [])
  }

  /** A row is in the beam-off selection exactly when it is a row of the
      series earlier than lim0. */
  lemma {:induction false} NoBeamMembers(series: seq<Sample>, lim0: real)
    ensures forall x :: x in NoBeam(series, lim0) <==> x in series && x.time < lim0
  {
    if series != [] {
      var n := |series|;
      NoBeamMembers(series[..n - 1], lim0);
      assert series == series[..n - 1] + [series[n - 1]];
    }
  }

  /** The two per-channel offsets measured with the beam off. */
  datatype Baseline = Baseline(zero0: real, zero1: real)

  /** Channel means over the beam-off rows; undefined (pandas NaN) when no
      row is earlier than lim0. */
  function BaselineOf(series: seq<Sample>, lim0: real): (b: Option<Baseline>)
    ensures b.None? <==> forall i :: 0 <= i < |series| ==> series[i].time >= lim0
  {
    var nb := NoBeam(series, lim0);
    NoBeamMembers(series, lim0);
    if nb == [] then
      assert forall i :: 0 <= i < |series| ==> series[i].time >= lim0 by {
        forall i | 0 <= i < |series| ensures series[i].time >= lim0 {
          assert series[i] in series;
        }
      }
      None
    else
      assert nb[0] in series;
      Some(Baseline(Mean(Ch0(nb)), Mean(Ch1(nb))))
  }

  /** One row with a baseline subtracted from both channels. */
  function ShiftRow(x: Sample, b: Baseline): Sample
  {
    x.(ch0 := x.ch0 - b.zero0, ch1 := x.ch1 - b.zero1)
  }

  /** The series with a baseline subtracted from both channels. */
  function Subtract(series: seq<Sample>, b: Baseline): (z: seq<Sample>)
    ensures |z| == |series|
  {
    seq(|series|, i requires 0 <= i < |series| => ShiftRow(series[i], b))
  }

  /** The zeroed series (`ch0z`, `ch1z`); undefined when the baseline is. */
  function Zero(series: seq<Sample>, lim0: real): (z: Option<seq<Sample>>)
    ensures z.Some? <==> BaselineOf(series, lim0).Some?
    ensures z.Some? ==> |z.value| == |series| && Times(z.value) == Times(series)
    ensures z.Some? ==> forall i :: 0 <= i < |series| ==> z.value[i].number == series[i].number
  {
    match BaselineOf(series, lim0)
    case None => None
    case Some(b) => Some(Subtract(series, b))
  }

  /** Selecting the beam-off rows commutes with subtracting a baseline. */
  lemma {:induction false} NoBeamOfSubtracted(series: seq<Sample>, b: Baseline, lim0: real)
    ensures NoBeam(Subtract(series, b), lim0) == Subtract(NoBeam(series, lim0), b)
  {
    if series != [] {
      var n := |series|;
      var front, last := series[..n - 1], series[n - 1];
      NoBeamOfSubtracted(front, b, lim0);
      var zs := Subtract(series, b);
      assert zs[..n - 1] == Subtract(front, b);
      assert zs[n - 1] == ShiftRow(last, b);
      var nb := NoBeam(front, lim0);
      assert NoBeam(zs, lim0) == Subtract(nb, b) + (if last.time < lim0 then [ShiftRow(last, b)] else []);
      if last.time < lim0 {
        assert NoBeam(series, lim0) == nb + [last];
        assert Subtract(nb + [last], b) == Subtract(nb, b) + [ShiftRow(last, b)];
      } else {
        assert NoBeam(series, lim0) == nb;
      }
    }
  }

  /** Subtracting a column's own mean leaves a column whose sum is 0. */
  lemma CentredSumIsZero(c: seq<real>, t: seq<real>)
    requires c != [] && |t| == |c|
    requires forall i :: 0 <= i < |c| ==> t[i] == c[i] - Mean(c)
    ensures Sum(t) == 0.0 && Mean(t) == 0.0
  {
    var n := |c| as real;
    SumShifted(c, t, Mean(c));
    DivMul(Sum(c), n);
  }

  /** Zeroing makes each channel's mean over the beam-off rows exactly 0. */
  lemma ZeroedBaselineMeanIsZero(series: seq<Sample>, lim0: real)
    requires Zero(series, lim0).Some?
    ensures NoBeam(Zero(series, lim0).value, lim0) != []
    ensures Mean(Ch0(NoBeam(Zero(series, lim0).value, lim0))) == 0.0
    ensures Mean(Ch1(NoBeam(Zero(series, lim0).value, lim0))) == 0.0
  {
    var b := BaselineOf(series, lim0).value;
    var nb := NoBeam(series, lim0);
    assert nb != [];
    NoBeamOfSubtracted(series, b, lim0);
    assert Zero(series, lim0).value == Subtract(series, b);
    SubtractedMeansZero(nb, b);
  }

  /** Subtracting a set of rows' own channel means centres both channels. */
  lemma SubtractedMeansZero(nb: seq<Sample>, b: Baseline)
    requires nb != [] && b == Baseline(Mean(Ch0(nb)), Mean(Ch1(nb)))
    ensures Mean(Ch0(Subtract(nb, b))) == 0.0 && Mean(Ch1(Subtract(nb, b))) == 0.0
  {
    var znb := Subtract(nb, b);
    CentredSumIsZero(Ch0(nb), Ch0(znb));
    CentredSumIsZero(Ch1(nb), Ch1(znb));
  }

  /** The zeroed beam-off maximum, `dfz.loc[dfz.time < lim0, 'ch0z'].max()`. */
  function BaselineMax(zeroed: seq<Sample>, lim0: real): real
    requires NoBeam(zeroed, lim0) != []
  {
    Max(Ch0(NoBeam(zeroed, lim0)))
  }

  /** Since the zeroed beam-off mean is 0, the zeroed beam-off maximum is never negative. */
  lemma BaselineMaxNonNegative(series: seq<Sample>, lim0: real)
    requires Zero(series, lim0).Some?
    ensures NoBeam(Zero(series, lim0).value, lim0) != []
    ensures BaselineMax(Zero(series, lim0).value, lim0) >= 0.0
  {
    ZeroedBaselineMeanIsZero(series, lim0);
    MeanWithinExtremes(Ch0(NoBeam(Zero(series, lim0).value, lim0)));
  }
}
