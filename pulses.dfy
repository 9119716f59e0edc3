/** Pulse classification and coincident-pulse merging. A sample is a pulse
    candidate when its zeroed ch0 is above 1.40 times the zeroed beam-off
    maximum; two adjacent candidates are one physical pulse split over two
    samples, whose charge is folded into the first of them. */
module Pulses {
  import opened Stats
  import opened Zeroing

  /** Multiple of the beam-off maximum a pulse must exceed. */
  const Threshold: real := 1.40

  /** `pulseg`: zeroed ch0 strictly above the threshold. */
  function Candidates(zeroed: seq<Sample>, maxNoBeam: real): (c: seq<bool>)
    ensures |c| == |zeroed|
  {
    seq(|zeroed|, i requires 0 <= i < |zeroed| => zeroed[i].ch0 > Threshold * maxNoBeam)
  }

  /** `pulsecoincide = pulseg & pulseg.shift(-1)`: the missing successor of the
      last row counts as false. */
  function Coincide(c: seq<bool>): (k: seq<bool>)
    ensures |k| == |c|
    ensures forall i :: 0 <= i < |c| ==> (k[i] <==> c[i] && i + 1 < |c| && c[i + 1])
  {
    seq(|c|, i requires 0 <= i < |c| => c[i] && i + 1 < |c| && c[i + 1])
  }

  /** `pulsecoincidea = pulsecoincide.shift().fillna(False)`: the row after a
      coincident row. */
  function Continuation(c: seq<bool>): (k: seq<bool>)
    ensures |k| == |c|
    ensures forall i :: 0 <= i < |c| ==> (k[i] <==> i > 0 && c[i - 1] && c[i])
  {
    var co := Coincide(c);
    seq(|c|, i requires 0 <= i < |c| => i > 0 && co[i - 1])
  }

  /** `pulse`: the candidates that are not continuations. These are exactly
      the first samples of the runs of consecutive candidates. */
  function Accepted(c: seq<bool>): (a: seq<bool>)
    ensures |a| == |c|
    ensures forall i :: 0 <= i < |c| ==> (a[i] <==> c[i] && (i == 0 || !c[i - 1]))
  {
    var ct := Continuation(c);
    seq(|c|, i requires 0 <= i < |c| => c[i] && !ct[i])
  }

  /** Copy `pulseg` into the `pulse` column, then overwrite it with false on
      every continuation row. */
  method MarkAccepted(c: seq<bool>) returns (pulse: seq<bool>)
    ensures pulse == Accepted(c)
  {
    var ct := Continuation(c);
    var col := new bool[|c|](i requires 0 <= i < |c| => c[i]);
    for i := 0 to |c|
      invariant forall j :: 0 <= j < i ==> col[j] == (c[j] && !ct[j])
      invariant forall j :: i <= j < |c| ==> col[j] == c[j]
    {
      if ct[i] {
        col[i] := false;
      }
    }
    pulse := col[..];
  }

  /** Every row of the beam-off window is below the threshold: the zeroed
      beam-off maximum is never negative, so no beam-off sample can exceed
      1.40 times it. */
  lemma NoBaselineRowIsCandidate(series: seq<Sample>, lim0: real)
    requires Zero(series, lim0).Some?
    ensures NoBeam(Zero(series, lim0).value, lim0) != []
    ensures var z := Zero(series, lim0).value;
      forall i :: 0 <= i < |z| && z[i].time < lim0 ==> !Candidates(z, BaselineMax(z, lim0))[i]
  {
    var z := Zero(series, lim0).value;
    BaselineMaxNonNegative(series, lim0);
    var m := BaselineMax(z, lim0);
    NoBeamMembers(z, lim0);
    forall i | 0 <= i < |z| && z[i].time < lim0
      ensures !Candidates(z, m)[i]
    {
      assert z[i] in NoBeam(z, lim0);
      var nb := NoBeam(z, lim0);
      var k :| 0 <= k < |nb| && nb[k] == z[i];
      assert Ch0(nb)[k] == z[i].ch0;
    }
  }

  /** Accepted rows are candidates, and no two adjacent rows are both accepted. */
  lemma NoAdjacentAccepted(c: seq<bool>)
    ensures forall i :: 0 <= i < |c| && Accepted(c)[i] ==> c[i]
    ensures forall i :: 0 <= i < |c| - 1 ==> !(Accepted(c)[i] && Accepted(c)[i + 1])
  {
  }

  /** Two flag columns that partition a third have counts that add up. */
  lemma {:induction false} CountPartition(x: seq<bool>, y: seq<bool>, z: seq<bool>)
    requires |x| == |z| && |y| == |z|
    requires forall i :: 0 <= i < |z| ==> (z[i] <==> x[i] || y[i]) && !(x[i] && y[i])
    ensures Count(x) + Count(y) == Count(z)
  {
    if z != [] {
      var n := |z|;
      CountPartition(x[..n - 1], y[..n - 1], z[..n - 1]);
    }
  }

  /** A column shifted down by one row, whose dropped last entry was false,
      has the same count. */
  lemma {:induction false} CountShifted(x: seq<bool>, y: seq<bool>, k: nat)
    requires |x| == |y| && k < |y|
    requires !y[0] && forall i :: 0 < i < |y| ==> (y[i] <==> x[i - 1])
    ensures Count(y[..k + 1]) == Count(x[..k])
  {
    if k > 0 {
      CountShifted(x, y, k - 1);
      assert y[..k + 1][..k] == y[..k];
      assert x[..k][..k - 1] == x[..k - 1];
    } else {
      assert y[..1][..0] == [];
    }
  }

  /** Every true entry adds one: a count is zero exactly when no entry is true. */
  lemma {:induction false} CountZero(b: seq<bool>)
    ensures Count(b) == 0 <==> forall i :: 0 <= i < |b| ==> !b[i]
  {
    if b != [] {
      CountZero(b[..|b| - 1]);
    }
  }

  /** Each coincidence removes exactly one row from the accepted count:
      #accepted + #coincident = #candidates. */
  lemma AcceptedCount(c: seq<bool>)
    ensures Count(Accepted(c)) + Count(Coincide(c)) == Count(c)
  {
    var a, co, ct := Accepted(c), Coincide(c), Continuation(c);
    CountPartition(a, ct, c);
    if c != [] {
      var n := |c|;
      CountShifted(co, ct, n - 1);
      assert ct[..n] == ct;
      assert Count(co) == Count(co[..n - 1]) by {
        assert !co[n - 1];
      }
    }
  }

  /** The accepted count equals the candidate count exactly when no two
      candidates are adjacent, and is strictly smaller otherwise. */
  lemma AcceptedCountEqualIffNoCoincidence(c: seq<bool>)
    ensures Count(Accepted(c)) <= Count(c)
    ensures Count(Accepted(c)) == Count(c) <==> forall i :: 0 <= i < |c| ==> !Coincide(c)[i]
  {
    AcceptedCount(c);
    CountZero(Coincide(c));
  }

  /** `ch0zg`/`ch1zg` as the ordered overwrites of the merge step leave them: 0 on
      every continuation row (that overwrite runs last), the sum of the row and its
      successor on the other coincident rows, the zeroed value elsewhere. */
  function Merged(z: seq<real>, c: seq<bool>): (m: seq<real>)
    requires |z| == |c|
    ensures |m| == |z|
  {
    var co, ct := Coincide(c), Continuation(c);
    seq(|z|, i requires 0 <= i < |z| =>
      if ct[i] then 0.0 else if co[i] then z[i] + z[i + 1] else z[i])
  }

  /** A merged column after the two additions only: every coincident row holds its
      own charge plus its successor's. */
  function WithSuccessor(z: seq<real>, c: seq<bool>): (m: seq<real>)
    requires |z| == |c|
    ensures |m| == |z|
  {
    var co := Coincide(c);
    seq(|z|, i requires 0 <= i < |z| => if co[i] then z[i] + z[i + 1] else z[i])
  }

  /** The merge step as the scripts run it: initialise both merged columns with
      the zeroed channels, add the successor's charge on every coincident row
      (ch0 first, then ch1), and finally zero both columns on
      every continuation row, which overrides the additions. */
  method MergeCoincident(ch0z: seq<real>, ch1z: seq<real>, c: seq<bool>)
    returns (ch0zg: seq<real>, ch1zg: seq<real>)
    requires |ch0z| == |c| && |ch1z| == |c|
    ensures ch0zg == Merged(ch0z, c)
    ensures ch1zg == Merged(ch1z, c)
  {
    var n := |c|;
    var g1 := new real[n](i requires 0 <= i < n => ch1z[i]);
    var g0 := new real[n](i requires 0 <= i < n => ch0z[i]);
    AddSuccessor(g0, ch0z, c);
    AddSuccessor(g1, ch1z, c);
    ClearContinuations(g0, ch0z, c);
    ClearContinuations(g1, ch1z, c);
    ch0zg, ch1zg := g0[..], g1[..];
  }

  /** One masked addition: a column still holding the zeroed channel gets its
      successor's charge added on every coincident row. */
  method AddSuccessor(g: array<real>, z: seq<real>, c: seq<bool>)
    requires g.Length == |z| == |c| && g[..] == z
    modifies g
    ensures g[..] == WithSuccessor(z, c)
  {
    var co := Coincide(c);
    for i := 0 to |z|
      invariant forall j :: 0 <= j < i ==> g[j] == WithSuccessor(z, c)[j]
      invariant forall j :: i <= j < |z| ==> g[j] == z[j]
    {
      if co[i] {
        g[i] := z[i] + z[i + 1];
      }
    }
  }

  /** The last masked overwrite: every continuation row of a column that went
      through the addition is set to 0, which yields the merged column. */
  method ClearContinuations(g: array<real>, z: seq<real>, c: seq<bool>)
    requires g.Length == |z| == |c| && g[..] == WithSuccessor(z, c)
    modifies g
    ensures g[..] == Merged(z, c)
  {
    var ct := Continuation(c);
    for i := 0 to |z|
      invariant forall j :: 0 <= j < i ==> g[j] == Merged(z, c)[j]
      invariant forall j :: i <= j < |z| ==> g[j] == WithSuccessor(z, c)[j]
    {
      if ct[i] {
        g[i] := 0.0;
      }
    }
  }

  /** A pulse split over exactly two samples: the first carries both charges,
      the second is emptied, and no charge is created or lost. */
  lemma MergedPair(z: seq<real>, c: seq<bool>, i: nat)
    requires |z| == |c| && i + 1 < |c|
    requires c[i] && c[i + 1] && (i == 0 || !c[i - 1]) && (i + 2 == |c| || !c[i + 2])
    ensures Merged(z, c)[i] == z[i] + z[i + 1]
    ensures Merged(z, c)[i + 1] == 0.0
    ensures Merged(z, c)[i] + Merged(z, c)[i + 1] == z[i] + z[i + 1]
  {
    assert !Continuation(c)[i] && Coincide(c)[i] && Continuation(c)[i + 1];
  }

  /** A run of two or more candidates keeps the first two samples' charge on
      its first row and empties every later row of the run: from the third
      row on, the charge is dropped. */
  lemma MergedRun(z: seq<real>, c: seq<bool>, i: nat, len: nat)
    requires |z| == |c| && len >= 2 && i + len <= |c|
    requires forall j :: i <= j < i + len ==> c[j]
    requires i == 0 || !c[i - 1]
    ensures Merged(z, c)[i] == z[i] + z[i + 1]
    ensures forall j :: i < j < i + len ==> Merged(z, c)[j] == 0.0 && !Accepted(c)[j]
    ensures Accepted(c)[i]
  {
  }

  /** Rows that are neither coincident nor continuations keep their zeroed value. */
  lemma MergedElsewhere(z: seq<real>, c: seq<bool>, i: nat)
    requires |z| == |c| && i < |c|
    requires (i == 0 || !c[i - 1] || !c[i]) && (i + 1 == |c| || !c[i] || !c[i + 1])
    ensures Merged(z, c)[i] == z[i]
  {
  }

  /** Charge dropped by the merge among the first k rows: the successor's
      charge of every row that is both coincident and a continuation (the
      middle rows of runs of three or more candidates). */
  function Lost(z: seq<real>, c: seq<bool>, k: nat): real
    requires |z| == |c| && k <= |c|
  {
    if k == 0 then 0.0
    else
      var co, ct := Coincide(c), Continuation(c);
      Lost(z, c, k - 1) + (if co[k - 1] && ct[k - 1] then z[k] else 0.0)
  }

  lemma {:induction false} PrefixBalance(z: seq<real>, c: seq<bool>, k: nat)
    requires |z| == |c| && k <= |c|
    ensures Sum(Merged(z, c)[..k]) ==
            Sum(z[..k]) - Lost(z, c, k) + (if k > 0 && Coincide(c)[k - 1] then z[k] else 0.0)
  {
    if k > 0 {
      PrefixBalance(z, c, k - 1);
      var m := Merged(z, c);
      assert m[..k] == m[..k - 1] + [m[k - 1]];
      assert z[..k] == z[..k - 1] + [z[k - 1]];
      SumAppend(m[..k - 1], m[k - 1]);
      SumAppend(z[..k - 1], z[k - 1]);
    } else {
      assert Merged(z, c)[..0] == [] && z[..0] == [];
    }
  }

  /** Total merged charge equals total zeroed charge minus what runs of three
      or more candidates drop. */
  lemma ChargeBalance(z: seq<real>, c: seq<bool>)
    requires |z| == |c|
    ensures Sum(Merged(z, c)) == Sum(z) - Lost(z, c, |c|)
  {
    PrefixBalance(z, c, |c|);
    assert Merged(z, c)[..|c|] == Merged(z, c);
    assert z[..|c|] == z;
  }

  lemma {:induction false} NothingLostWithoutLongRuns(z: seq<real>, c: seq<bool>, k: nat)
    requires |z| == |c| && k <= |c|
    requires forall i :: 0 <= i < |c| - 2 ==> !(c[i] && c[i + 1] && c[i + 2])
    ensures Lost(z, c, k) == 0.0
  {
    if k > 0 {
      NothingLostWithoutLongRuns(z, c, k - 1);
    }
  }

  /** When no three consecutive samples are candidates, merging conserves the
      total charge of the channel. */
  lemma ChargeConservedWithoutLongRuns(z: seq<real>, c: seq<bool>)
    requires |z| == |c|
    requires forall i :: 0 <= i < |c| - 2 ==> !(c[i] && c[i + 1] && c[i + 2])
    ensures Sum(Merged(z, c)) == Sum(z)
  {
    ChargeBalance(z, c);
    NothingLostWithoutLongRuns(z, c, |c|);
  }
}
