/** The three analyses end to end. The two single-scan pages (the PDD page and
    the ultrafast page) share one pipeline: zero, flag and merge pulses,
    convert to dose, position the window rows and smooth and normalise the
    pulse doses. The profile page finds the shots of a recording, averages
    each shot's dose and tabulates the average per depth. */
module Pipelines {
  import opened Stats
  import opened Zeroing
  import opened Pulses
  import opened Dose
  import opened Position
  import opened Finishing
  import opened Segmentation
  import opened Aggregation

  /** Why an analysis stops with a Python exception instead of a table. */
  datatype Error =
    | DegenerateSpeed      // lim1 == lim2: division by zero in the speed
    | NoStartTransition    // no rising chunk edge: `iloc[0]` of an empty series
    | NoFinishTransition   // no falling chunk edge: `iloc[0]` of an empty series
    | DepthTableMismatch   // some shots, but not 18, for the 18 depth/direction labels

  datatype Result<T> = Ok(value: T) | Err(error: Error)

  /** The window-ready rows of a zeroed recording: time, pulse dose (defined on
      accepted rows) and whether the row is the last one. */
  function RowsOf(zs: seq<Sample>, dosep: seq<Option<real>>): (rows: seq<ScanRow>)
    requires |dosep| == |zs|
    ensures |rows| == |zs|
    ensures forall i :: 0 <= i < |zs| ==> rows[i].time == zs[i].time && rows[i].dosep == dosep[i]
    ensures forall i :: 0 <= i < |zs| ==> (rows[i].last <==> i == |zs| - 1)
  {
    seq(|zs|, i requires 0 <= i < |zs| => ScanRow(zs[i].time, dosep[i], i == |zs| - 1))
  }

  /** Pulse flags, merge and dose conversion of a zeroed recording. */
  function ScanRows(zs: seq<Sample>, lim0: real, acr: real): (rows: seq<ScanRow>)
    requires NoBeam(zs, lim0) != []
    ensures |rows| == |zs|
  {
    var c := Flags(zs, lim0);
    RowsOf(zs, PulseDose(ChargeDose(Merged(Ch0(zs), c), Merged(Ch1(zs), c), acr), Accepted(c)))
  }

  /** `dfzpdd` positioned and with its incomplete rows dropped. */
  function PddRows(rows: seq<ScanRow>, lim1: real, lim2: real, depth: real, speed: real): (r: seq<PddRow>)
  {
    var w := Window(rows, lim1, lim2);
    DropUndefined(w, Positions(RowTimes(w), depth, speed))
  }

  /** The single-scan analysis. The speed is computed after the zeroing, but
      its division by zero raises whatever the data; an undefined baseline
      leaves every pulse dose undefined, so `dropna()` empties the table. */
  function ScanTable(series: seq<Sample>, lim0: real, lim1: real, lim2: real, depth: real, acr: real, smooth: nat)
    : (r: Result<seq<PddPoint>>)
    requires smooth >= 1
    ensures r.Err? <==> lim1 == lim2
    ensures r.Err? ==> r.error == DegenerateSpeed
    ensures r.Ok? && Zero(series, lim0).None? ==> r.value == []
  {
    var speed := Speed(depth, lim1, lim2);
    if speed.None? then Err(DegenerateSpeed)
    else
      match Zero(series, lim0)
      case None => Ok([])
      case Some(zs) =>
        ZeroedBaselineMeanIsZero(series, lim0);
        Ok(PddTable(PddRows(ScanRows(zs, lim0, acr), lim1, lim2, depth, speed.value), smooth))
  }

  /** Every row inside the scan window and its position between the surface
      and the full depth. */
  ghost predicate WithinScan(t: seq<PddPoint>, lim1: real, lim2: real, depth: real)
  {
    forall i :: 0 <= i < |t| ==> lim1 < t[i].time < lim2 && 0.0 <= t[i].pos <= depth
  }

  /** Positions never increase down the table. */
  ghost predicate PositionsDescend(t: seq<PddPoint>)
  {
    forall i, j :: 0 <= i <= j < |t| ==> t[j].pos <= t[i].pos
  }

  /** One row holds the largest smoothed dose with PDD exactly 100, and every
      PDD is its row's smoothed dose as a percentage of that one. */
  ghost predicate PeakNormalised(t: seq<PddPoint>)
  {
    exists k :: PeakAt(t, k)
  }

  /** Over an ordered window every defined position lies between 0 and the
      depth, and positions never increase. */
  lemma PositionBounds(ts: seq<real>, depth: real, lim1: real, lim2: real)
    requires lim1 < lim2 && depth >= 0.0 && NonDecreasing(ts)
    requires forall k :: 0 <= k < |ts| ==> lim1 < ts[k] < lim2
    ensures forall k :: 0 <= k < |ts| && Positions(ts, depth, Speed(depth, lim1, lim2).value)[k].Some? ==>
      0.0 <= Positions(ts, depth, Speed(depth, lim1, lim2).value)[k].value <= depth
    ensures forall j, k :: (0 <= j <= k < |ts| && Positions(ts, depth, Speed(depth, lim1, lim2).value)[j].Some? &&
      Positions(ts, depth, Speed(depth, lim1, lim2).value)[k].Some?) ==>
      Positions(ts, depth, Speed(depth, lim1, lim2).value)[k].value <= Positions(ts, depth, Speed(depth, lim1, lim2).value)[j].value
  {
    var speed := Speed(depth, lim1, lim2).value;
    PositionsWithinDepth(ts, depth, lim1, lim2);
    SpeedNonNegative(depth, lim1, lim2);
    PositionsNonIncreasing(ts, depth, speed);
    if |ts| > 0 {
      PositionAt(ts, depth, speed, 0);
    }
  }

  /** Dropping incomplete rows keeps any bounds of the window times and of the
      defined positions. */
  lemma DroppedWithin(w: seq<ScanRow>, pos: seq<Option<real>>, lim1: real, lim2: real, depth: real)
    requires |pos| == |w|
    requires forall k :: 0 <= k < |w| ==> lim1 < w[k].time < lim2
    requires forall k :: 0 <= k < |w| && pos[k].Some? ==> 0.0 <= pos[k].value <= depth
    ensures forall x :: x in DropUndefined(w, pos) ==> lim1 < x.time < lim2 && 0.0 <= x.pos <= depth
  {
    DropUndefinedMembers(w, pos);
  }

  /** The positioned rows of ordered window rows lie inside the window and
      between 0 and the depth, deepest first. */
  lemma PddRowsWithin(rows: seq<ScanRow>, lim1: real, lim2: real, depth: real)
    requires lim1 < lim2 && depth >= 0.0 && NonDecreasing(RowTimes(rows))
    ensures forall x :: x in PddRows(rows, lim1, lim2, depth, Speed(depth, lim1, lim2).value) ==>
      lim1 < x.time < lim2 && 0.0 <= x.pos <= depth
    ensures Descending(PddRows(rows, lim1, lim2, depth, Speed(depth, lim1, lim2).value))
  {
    var speed := Speed(depth, lim1, lim2).value;
    var w := Window(rows, lim1, lim2);
    var ts := RowTimes(w);
    var pos := Positions(ts, depth, speed);
    WindowRows(rows, lim1, lim2);
    assert forall k :: 0 <= k < |ts| ==> lim1 < ts[k] < lim2 by {
      forall k | 0 <= k < |ts| ensures lim1 < ts[k] < lim2 {
        assert w[k] in w;
      }
    }
    PositionBounds(ts, depth, lim1, lim2);
    DroppedWithin(w, pos, lim1, lim2, depth);
    DropUndefinedKeepsOrder(w, pos);
  }

  /** Smoothing and normalising keeps the bounds and the order of the
      positioned rows, and the result is normalised at its peak. */
  lemma PddTableWithin(prs: seq<PddRow>, smooth: nat, lim1: real, lim2: real, depth: real)
    requires smooth >= 1 && Descending(prs)
    requires forall x :: x in prs ==> lim1 < x.time < lim2 && 0.0 <= x.pos <= depth
    ensures WithinScan(PddTable(prs, smooth), lim1, lim2, depth)
    ensures PositionsDescend(PddTable(prs, smooth))
    ensures PddTable(prs, smooth) != [] ==> PeakNormalised(PddTable(prs, smooth))
  {
    var t := PddTable(prs, smooth);
    var sm := Rolling(Doses(prs), smooth);
    KeepMembers(prs, sm, Normalise(sm));
    forall i | 0 <= i < |t| ensures lim1 < t[i].time < lim2 && 0.0 <= t[i].pos <= depth {
      assert t[i] in t;
      var l :| 0 <= l < |prs| && sm[l].Some? && Normalise(sm)[l].Some? &&
        t[i] == PddPoint(prs[l].time, prs[l].pos, sm[l].value, Normalise(sm)[l].value);
      assert prs[l] in prs;
    }
    KeepKeepsOrder(prs, sm, Normalise(sm));
    if t != [] {
      PddTablePeak(prs, smooth);
    }
  }

  /** On an ordered recording with lim1 < lim2 and a non-negative depth, the
      single-scan table lies inside the window and between 0 and the depth,
      deepest first, and is normalised at its peak. */
  lemma ScanTableProperties(series: seq<Sample>, lim0: real, lim1: real, lim2: real, depth: real, acr: real, smooth: nat)
    requires smooth >= 1 && Ordered(series) && lim1 < lim2 && depth >= 0.0
    ensures ScanTable(series, lim0, lim1, lim2, depth, acr, smooth).Ok?
    ensures WithinScan(ScanTable(series, lim0, lim1, lim2, depth, acr, smooth).value, lim1, lim2, depth)
    ensures PositionsDescend(ScanTable(series, lim0, lim1, lim2, depth, acr, smooth).value)
    ensures ScanTable(series, lim0, lim1, lim2, depth, acr, smooth).value != [] ==>
      PeakNormalised(ScanTable(series, lim0, lim1, lim2, depth, acr, smooth).value)
  {
    if Zero(series, lim0).Some? {
      var zs := Zero(series, lim0).value;
      ZeroedBaselineMeanIsZero(series, lim0);
      var rows := ScanRows(zs, lim0, acr);
      ScanRowsOrdered(series, zs, lim0, acr);
      var prs := PddRows(rows, lim1, lim2, depth, Speed(depth, lim1, lim2).value);
      PddRowsWithin(rows, lim1, lim2, depth);
      PddTableWithin(prs, smooth, lim1, lim2, depth);
    }
  }

  /** The rows of a zeroed ordered recording keep its time order. */
  lemma ScanRowsOrdered(series: seq<Sample>, zs: seq<Sample>, lim0: real, acr: real)
    requires Ordered(series) && Times(zs) == Times(series) && NoBeam(zs, lim0) != []
    ensures NonDecreasing(RowTimes(ScanRows(zs, lim0, acr)))
  {
    var rows := ScanRows(zs, lim0, acr);
    forall i, j | 0 <= i <= j < |rows| ensures RowTimes(rows)[i] <= RowTimes(rows)[j] {
      assert Times(zs)[i] == Times(series)[i] && Times(zs)[j] == Times(series)[j];
    }
  }

  /** The single-scan pages as they run: the pulse flags and the merged
      channels come from the column-overwriting steps. */
  method ScanPdd(series: seq<Sample>, lim0: real, lim1: real, lim2: real, depth: real, acr: real, smooth: nat)
    returns (r: Result<seq<PddPoint>>)
    requires smooth >= 1
    ensures r == ScanTable(series, lim0, lim1, lim2, depth, acr, smooth)
    ensures r.Err? <==> lim1 == lim2
  {
    var speed := Speed(depth, lim1, lim2);
    if speed.None? {
      return Err(DegenerateSpeed);
    }
    var z := Zero(series, lim0);
    if z.None? {
      return Ok([]);
    }
    var zs := z.value;
    ZeroedBaselineMeanIsZero(series, lim0);
    var c := Flags(zs, lim0);
    var pulse := MarkAccepted(c);
    var ch0zg, ch1zg := MergeCoincident(Ch0(zs), Ch1(zs), c);
    var dosep := PulseDose(ChargeDose(ch0zg, ch1zg, acr), pulse);
    var rows := RowsOf(zs, dosep);
    r := Ok(PddTable(PddRows(rows, lim1, lim2, depth, speed.value), smooth));
  }

  /** The zeroed recording with its channels replaced by the merged ones
      (`ch0zg`, `ch1zg`); numbers and times are untouched. */
  function MergedSeries(zs: seq<Sample>, m0: seq<real>, m1: seq<real>): (m: seq<Sample>)
    requires |m0| == |zs| && |m1| == |zs|
    ensures |m| == |zs|
    ensures forall i :: 0 <= i < |zs| ==> m[i].number == zs[i].number && m[i].time == zs[i].time
  {
    seq(|zs|, i requires 0 <= i < |zs| => zs[i].(ch0 := m0[i], ch1 := m1[i]))
  }

  /** The padded start and finish times of the shots. */
  datatype Bounds = Bounds(starts: seq<real>, finishes: seq<real>)

  /** Shot detection on the merged recording: chunk, trim, find the rising
      and falling edges, collapse each run of edges and pad. It fails exactly
      when the kept chunks have no rising or no falling transition, reporting
      the missing start first. */
  function ShotBounds(merged: seq<Sample>): (b: Result<Bounds>)
    ensures b.Err? <==>
      Transitions(Trim(ChunkTable(merged)), true) == [] || Transitions(Trim(ChunkTable(merged)), false) == []
    ensures b.Err? ==> b.error == NoStartTransition || b.error == NoFinishTransition
    ensures b.Err? ==> (b.error == NoStartTransition <==> Transitions(Trim(ChunkTable(merged)), true) == [])
    ensures b.Ok? ==> b.value.starts != [] && b.value.finishes != []
    ensures b.Ok? ==>
      b.value.starts == Pad(Collapse(Transitions(Trim(ChunkTable(merged)), true)).value, -Padding) &&
      b.value.finishes == Pad(Collapse(Transitions(Trim(ChunkTable(merged)), false)).value, Padding)
  {
    var k := Trim(ChunkTable(merged));
    match Collapse(Transitions(k, true))
    case None => Err(NoStartTransition)
    case Some(stss) =>
      match Collapse(Transitions(k, false))
      case None => Err(NoFinishTransition)
      case Some(ftss) => Ok(Bounds(Pad(stss, -Padding), Pad(ftss, Padding)))
  }

  /** Edge times taken from an ordered chunk table's kept groups are ordered. */
  lemma TrimmedEdgesOrdered(merged: seq<Sample>, rising: bool)
    requires Ordered(merged)
    ensures forall i, j :: 0 <= i < j < |Trim(ChunkTable(merged))| ==>
      Edge(Trim(ChunkTable(merged))[i], rising) <= Edge(Trim(ChunkTable(merged))[j], rising)
  {
    var t := ChunkTable(merged);
    ChunkTimesOrdered(merged);
    var k := Trim(t);
    forall i, j | 0 <= i < j < |k| ensures Edge(k[i], rising) <= Edge(k[j], rising) {
      assert k[i] == t[i + 1] && k[j] == t[j + 1];
    }
  }

  lemma PadSpaced(xs: seq<real>, delta: real)
    requires Spaced(xs)
    ensures Spaced(Pad(xs, delta))
  {
    PadKeepsSpacing(xs, delta);
  }

  /** On an ordered recording the padded starts are pairwise more than MinGap
      apart, and so are the padded finishes. */
  lemma ShotBoundsSpaced(merged: seq<Sample>)
    requires Ordered(merged) && ShotBounds(merged).Ok?
    ensures Spaced(ShotBounds(merged).value.starts)
    ensures Spaced(ShotBounds(merged).value.finishes)
  {
    var k := Trim(ChunkTable(merged));
    TrimmedEdgesOrdered(merged, true);
    TrimmedEdgesOrdered(merged, false);
    TransitionsOrdered(k, true);
    TransitionsOrdered(k, false);
    var st, ft := Transitions(k, true), Transitions(k, false);
    CollapseSpacing(st);
    CollapseSpacing(ft);
    PadSpaced(Collapse(st).value, -Padding);
    PadSpaced(Collapse(ft).value, Padding);
  }

  /** The shot label of every pulse row after the labelling loop. */
  function LabelsOf(prow: seq<DoseRow>, b: Bounds): (labels: seq<Option<nat>>)
    ensures |labels| == |prow|
    ensures forall i :: 0 <= i < |prow| && labels[i].Some? ==> labels[i].value < ShotCount(b.starts, b.finishes)
  {
    seq(|prow|, i requires 0 <= i < |prow| => ShotOf(prow[i].time, b.starts, b.finishes, ShotCount(b.starts, b.finishes)))
  }

  /** The flags and merged channels of a zeroed recording. */
  function Flags(zs: seq<Sample>, lim0: real): (c: seq<bool>)
    requires NoBeam(zs, lim0) != []
    ensures |c| == |zs|
  {
    Candidates(zs, BaselineMax(zs, lim0))
  }

  /** The per-shot and per-depth aggregation of a zeroed recording's pulse
      table, once the shots are found. */
  function DepthsOf(prow: seq<DoseRow>, b: Bounds, percent: real): (r: Result<seq<DepthRow>>)
    ensures r.Err? <==> |ShotKeys(LabelsOf(prow, b), ShotCount(b.starts, b.finishes))| != 18 && |ShotKeys(LabelsOf(prow, b), ShotCount(b.starts, b.finishes))| != 0
    ensures r.Err? ==> r.error == DepthTableMismatch
    ensures r.Ok? ==> |r.value| == 9 && forall j :: 0 <= j < 9 ==> r.value[j].depth == DepthKeys[j]
  {
    var labels := LabelsOf(prow, b);
    match ShotTable(ShotMeans(prow, labels, ShotCount(b.starts, b.finishes), percent))
    case None => Err(DepthTableMismatch)
    case Some(t) => Ok(DepthTable(t))
  }

  /** The profile analysis of a zeroed recording: flags and merge, shot
      bounds from the merged recording, then the per-shot and per-depth
      aggregation of the pulse table. */
  function ZeroedProfile(zs: seq<Sample>, lim0: real, percent: real): (r: Result<seq<DepthRow>>)
    requires NoBeam(zs, lim0) != []
    ensures r.Err? ==> r.error == NoStartTransition || r.error == NoFinishTransition || r.error == DepthTableMismatch
    ensures r.Ok? ==> |r.value| == 9 && forall j :: 0 <= j < 9 ==> r.value[j].depth == DepthKeys[j]
  {
    var c := Flags(zs, lim0);
    var m0, m1 := Merged(Ch0(zs), c), Merged(Ch1(zs), c);
    match ShotBounds(MergedSeries(zs, m0, m1))
    case Err(e) => Err(e)
    case Ok(b) => DepthsOf(PulseRows(Times(zs), ChargeDose(m0, m1, 1.0), Accepted(c)), b, percent)
  }

  /** The profile analysis. An undefined baseline makes every merged charge
      NaN, every chunk sum 0 and so finds no start edge. */
  function ProfileTable(series: seq<Sample>, lim0: real, percent: real): (r: Result<seq<DepthRow>>)
    ensures Zero(series, lim0).None? ==> r == Err(NoStartTransition)
    ensures r.Err? ==> r.error == NoStartTransition || r.error == NoFinishTransition || r.error == DepthTableMismatch
    ensures r.Ok? ==> |r.value| == 9 && forall j :: 0 <= j < 9 ==> r.value[j].depth == DepthKeys[j]
  {
    match Zero(series, lim0)
    case None => Err(NoStartTransition)
    case Some(zs) =>
      ZeroedBaselineMeanIsZero(series, lim0);
      ZeroedProfile(zs, lim0, percent)
  }

  /** A finished profile table comes from exactly 18 shots or from none.
      With 18, each depth row averages its depth's crossplane and inplane
      shot and holds their sample variance; with none, every row is
      undefined. */
  lemma DepthsOfRows(prow: seq<DoseRow>, b: Bounds, percent: real)
    requires DepthsOf(prow, b, percent).Ok?
    ensures |ShotKeys(LabelsOf(prow, b), ShotCount(b.starts, b.finishes))| == 18 || |ShotKeys(LabelsOf(prow, b), ShotCount(b.starts, b.finishes))| == 0
    ensures var means := ShotMeans(prow, LabelsOf(prow, b), ShotCount(b.starts, b.finishes), percent);
      |ShotKeys(LabelsOf(prow, b), ShotCount(b.starts, b.finishes))| == 18 ==> |means| == 18 && forall j :: 0 <= j < 9 ==>
        DepthsOf(prow, b, percent).value[j].meanDose == MeanDefined([means[2 * j], means[2 * j + 1]]) &&
        DepthsOf(prow, b, percent).value[j].variance == SampleVariance([means[2 * j], means[2 * j + 1]])
    ensures |ShotKeys(LabelsOf(prow, b), ShotCount(b.starts, b.finishes))| == 0 ==> forall j :: 0 <= j < 9 ==>
      DepthsOf(prow, b, percent).value[j].meanDose.None? &&
      DepthsOf(prow, b, percent).value[j].variance.None? &&
      DepthsOf(prow, b, percent).value[j].pdd.None?
  {
    var means := ShotMeans(prow, LabelsOf(prow, b), ShotCount(b.starts, b.finishes), percent);
    if |means| == 18 {
      DepthTableRows(means);
    } else {
      assert means == [];
      UnlabelledDepthTable();
    }
  }

  /** Every pulse row labelled with shot k lies strictly inside shot k's
      padded interval and inside no later shot's; an unlabelled row lies
      inside none. */
  lemma LabelsOfSpec(prow: seq<DoseRow>, b: Bounds, i: nat)
    requires i < |prow|
    ensures var n := ShotCount(b.starts, b.finishes);
      (LabelsOf(prow, b)[i].None? <==> forall k :: 0 <= k < n ==> !Inside(prow[i].time, b.starts, b.finishes, k)) &&
      (LabelsOf(prow, b)[i].Some? ==>
        var k := LabelsOf(prow, b)[i].value;
        b.starts[k] < prow[i].time < b.finishes[k] &&
        forall l :: k < l < n ==> !Inside(prow[i].time, b.starts, b.finishes, l))
  {
    ShotOfSpec(prow[i].time, b.starts, b.finishes, ShotCount(b.starts, b.finishes));
  }

  /** The profile page as it runs: flags, merge and shot labels come from the
      column-overwriting steps. */
  method ProfilesPdd(series: seq<Sample>, lim0: real, percent: real) returns (r: Result<seq<DepthRow>>)
    ensures r == ProfileTable(series, lim0, percent)
    ensures r.Ok? ==> |r.value| == 9 && forall j :: 0 <= j < 9 ==> r.value[j].depth == DepthKeys[j]
  {
    var z := Zero(series, lim0);
    if z.None? {
      return Err(NoStartTransition);
    }
    var zs := z.value;
    ZeroedBaselineMeanIsZero(series, lim0);
    var c := Flags(zs, lim0);
    var pulse := MarkAccepted(c);
    var ch0zg, ch1zg := MergeCoincident(Ch0(zs), Ch1(zs), c);
    var bounds := ShotBounds(MergedSeries(zs, ch0zg, ch1zg));
    if bounds.Err? {
      return Err(bounds.error);
    }
    var prow := PulseRows(Times(zs), ChargeDose(ch0zg, ch1zg, 1.0), pulse);
    r := ProfileDepths(prow, bounds.value, percent);
  }

  /** The aggregation as the page runs it, once the shots are found: the
      labelling loop, then the per-shot and per-depth tables. */
  method ProfileDepths(prow: seq<DoseRow>, b: Bounds, percent: real) returns (r: Result<seq<DepthRow>>)
    ensures r == DepthsOf(prow, b, percent)
    ensures r.Err? <==> |ShotKeys(LabelsOf(prow, b), ShotCount(b.starts, b.finishes))| != 18 && |ShotKeys(LabelsOf(prow, b), ShotCount(b.starts, b.finishes))| != 0
  {
    var times := seq(|prow|, i requires 0 <= i < |prow| => prow[i].time);
    var labels := LabelShots(times, b.starts, b.finishes);
    assert labels == LabelsOf(prow, b);
    var n := ShotCount(b.starts, b.finishes);
    var shots := ShotTable(ShotMeans(prow, labels, n, percent));
    if shots.None? {
      return Err(DepthTableMismatch);
    }
    r := Ok(DepthTable(shots.value));
  }
}
