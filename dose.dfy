/** Charge-to-dose conversion: the merged reference channel, weighted by the
    channel-balance ratio ACR, is subtracted from the merged signal channel. */
module Dose {
  import opened Stats
  import opened Zeroing
  import opened Pulses

  /** `chargedose = ch0zg - ch1zg * ACR`, defined on every row. The
      profile page uses ACR = 1 (`dose = ch0zg - ch1zg`). */
  function ChargeDose(ch0zg: seq<real>, ch1zg: seq<real>, acr: real): (d: seq<real>)
    requires |ch0zg| == |ch1zg|
    ensures |d| == |ch0zg|
  {
    seq(|ch0zg|, i requires 0 <= i < |ch0zg| => ch0zg[i] - ch1zg[i] * acr)
  }

  /** Merging and dose conversion commute: the dose of the merged channels is
      the merged dose of the zeroed channels. So a split pulse's first row
      carries the dose of both samples and its continuation carries none. */
  lemma DoseOfMergedIsMergedDose(ch0z: seq<real>, ch1z: seq<real>, c: seq<bool>, acr: real)
    requires |ch0z| == |c| && |ch1z| == |c|
    ensures ChargeDose(Merged(ch0z, c), Merged(ch1z, c), acr) == Merged(ChargeDose(ch0z, ch1z, acr), c)
  {
    var m0, m1 := Merged(ch0z, c), Merged(ch1z, c);
    var d := ChargeDose(ch0z, ch1z, acr);
    var lhs, rhs := ChargeDose(m0, m1, acr), Merged(d, c);
    var co, ct := Coincide(c), Continuation(c);
    forall i | 0 <= i < |c| ensures lhs[i] == rhs[i] {
      assert lhs[i] == m0[i] - m1[i] * acr;
      if ct[i] {
        assert m0[i] == 0.0 && m1[i] == 0.0 && rhs[i] == 0.0;
      } else if co[i] {
        assert m0[i] == ch0z[i] + ch0z[i + 1] && m1[i] == ch1z[i] + ch1z[i + 1];
        assert rhs[i] == d[i] + d[i + 1];
        assert (ch0z[i] + ch0z[i + 1]) - (ch1z[i] + ch1z[i + 1]) * acr ==
               (ch0z[i] - ch1z[i] * acr) + (ch0z[i + 1] - ch1z[i + 1] * acr);
      } else {
        assert m0[i] == ch0z[i] && m1[i] == ch1z[i] && rhs[i] == d[i];
      }
    }
  }

  /** `chargedosep = dfz.loc[dfz.pulse, 'chargedose']`: the dose on accepted
      rows, undefined on every other row. */
  function PulseDose(dose: seq<real>, pulse: seq<bool>): (p: seq<Option<real>>)
    requires |dose| == |pulse|
    ensures |p| == |dose|
  {
    seq(|dose|, i requires 0 <= i < |dose| => if pulse[i] then Some(dose[i]) else None)
  }

  /** The pulse dose is defined exactly on the first sample of each run of
      candidates; when that run continues, it is the dose of the run's first
      two samples together. */
  lemma PulseDoseAt(ch0z: seq<real>, ch1z: seq<real>, c: seq<bool>, acr: real, i: nat)
    requires |ch0z| == |c| && |ch1z| == |c| && i < |c|
    ensures var p := PulseDose(ChargeDose(Merged(ch0z, c), Merged(ch1z, c), acr), Accepted(c));
      (p[i].Some? <==> c[i] && (i == 0 || !c[i - 1])) &&
      (p[i].Some? && i + 1 < |c| && c[i + 1] ==>
         p[i].value == (ch0z[i] - ch1z[i] * acr) + (ch0z[i + 1] - ch1z[i + 1] * acr))
  {
    var m0, m1 := Merged(ch0z, c), Merged(ch1z, c);
    var p := PulseDose(ChargeDose(m0, m1, acr), Accepted(c));
    assert p[i].Some? <==> Accepted(c)[i];
    if p[i].Some? && i + 1 < |c| && c[i + 1] {
      assert !Continuation(c)[i] && Coincide(c)[i];
      assert m0[i] == ch0z[i] + ch0z[i + 1] && m1[i] == ch1z[i] + ch1z[i + 1];
      assert p[i].value == m0[i] - m1[i] * acr;
      assert (ch0z[i] + ch0z[i + 1]) - (ch1z[i] + ch1z[i + 1]) * acr ==
             (ch0z[i] - ch1z[i] * acr) + (ch0z[i + 1] - ch1z[i + 1] * acr);
    }
  }

  /** One row of the pulse table `dfzp`. */
  datatype DoseRow = DoseRow(time: real, dose: real)

  /** `dfzp = dfz[dfz.pulse]`: the accepted rows with their time and dose. */
  function PulseRows(times: seq<real>, dose: seq<real>, pulse: seq<bool>): (r: seq<DoseRow>)
    requires |times| == |pulse| && |dose| == |pulse|
    ensures |r| == Count(pulse)
  {
    if pulse == [] then []
    else
      var n := |pulse|;
      PulseRows(times[..n - 1], dose[..n - 1], pulse[..n - 1])
        + (if pulse[n - 1] then [DoseRow(times[n - 1], dose[n - 1])] else [])
  }

  /** A row is in the pulse table exactly when it comes from an accepted row. */
  lemma {:induction false} PulseRowsMembers(times: seq<real>, dose: seq<real>, pulse: seq<bool>)
    requires |times| == |pulse| && |dose| == |pulse|
    ensures forall x :: x in PulseRows(times, dose, pulse) <==>
      exists i :: 0 <= i < |pulse| && pulse[i] && x == DoseRow(times[i], dose[i])
  {
    if pulse != [] {
      var n := |pulse|;
      PulseRowsMembers(times[..n - 1], dose[..n - 1], pulse[..n - 1]);
      forall x | x in PulseRows(times, dose, pulse)
        ensures exists i :: 0 <= i < |pulse| && pulse[i] && x == DoseRow(times[i], dose[i])
      {
        if x !in PulseRows(times[..n - 1], dose[..n - 1], pulse[..n - 1]) {
          assert x == DoseRow(times[n - 1], dose[n - 1]);
        }
      }
      forall i | 0 <= i < |pulse| && pulse[i]
        ensures DoseRow(times[i], dose[i]) in PulseRows(times, dose, pulse)
      {
        if i < n - 1 {
          assert times[..n - 1][i] == times[i] && dose[..n - 1][i] == dose[i] && pulse[..n - 1][i];
        }
      }
    }
  }
}
