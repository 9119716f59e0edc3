/** Single-scan position calibration: the detector moves at one uniform speed,
    depth / (lim2 − lim1), through the window lim1 < time < lim2, and its
    position is the full depth minus the distance travelled since the first
    row of the window. */
module Position {
  import opened Stats

  /** One row of the frame entering the PDD window: its time, its pulse dose
      (`chargedosep`, defined on accepted rows only), and whether it is the
      recording's last row, where the columns shifted up by one row
      (`pulseafter`, `ch0za`, `ch1za`) are undefined. */
  datatype ScanRow = ScanRow(time: real, dosep: Option<real>, last: bool)

  function RowTimes(rows: seq<ScanRow>): (t: seq<real>)
    ensures |t| == |rows| && forall i :: 0 <= i < |rows| ==> t[i] == rows[i].time
  {
    seq(|rows|, i requires 0 <= i < |rows| => rows[i].time)
  }

  /** `dfz.loc[(dfz.time > lim1) & (dfz.time < lim2)]`: both bounds strict. */
  function Window(rows: seq<ScanRow>, lim1: real, lim2: real): (w: seq<ScanRow>)
    ensures |w| <= |rows|
  {
    if rows == [] then []
    else
      var last := rows[|rows| - 1];
      Window(rows[..|rows| - 1], lim1, lim2) + (if lim1 < last.time < lim2 then [last] else [])
  }

  lemma {:induction false} WindowMembers(rows: seq<ScanRow>, lim1: real, lim2: real)
    ensures forall x :: x in Window(rows, lim1, lim2) <==> x in rows && lim1 < x.time < lim2
  {
    if rows != [] {
      var n := |rows|;
      WindowMembers(rows[..n - 1], lim1, lim2);
      assert rows == rows[..n - 1] + [rows[n - 1]];
    }
  }

  lemma {:induction false} WindowKeepsOrder(rows: seq<ScanRow>, lim1: real, lim2: real)
    requires NonDecreasing(RowTimes(rows))
    ensures NonDecreasing(RowTimes(Window(rows, lim1, lim2)))
  {
    if rows != [] {
      var n := |rows|;
      var front, last := rows[..n - 1], rows[n - 1];
      assert NonDecreasing(RowTimes(front)) by {
        forall i, j | 0 <= i <= j < |front| ensures front[i].time <= front[j].time {
          assert RowTimes(rows)[i] <= RowTimes(rows)[j];
        }
      }
      WindowKeepsOrder(front, lim1, lim2);
      WindowMembers(front, lim1, lim2);
      var w0 := Window(front, lim1, lim2);
      forall x | x in w0 ensures x.time <= last.time {
        var i :| 0 <= i < |front| && front[i] == x;
        assert RowTimes(rows)[i] <= RowTimes(rows)[n - 1];
      }
      var w := Window(rows, lim1, lim2);
      forall i, j | 0 <= i <= j < |w| ensures w[i].time <= w[j].time {
        if j >= |w0| {
          assert w[j] == last && w[i] in w0 + [last];
        } else {
          assert w[i] == w0[i] && w[j] == w0[j];
          assert RowTimes(w0)[i] <= RowTimes(w0)[j];
        }
      }
    }
  }

  /** The window holds exactly the rows strictly between lim1 and lim2, in
      their original order. */
  lemma WindowRows(rows: seq<ScanRow>, lim1: real, lim2: real)
    ensures forall x :: x in Window(rows, lim1, lim2) <==> x in rows && lim1 < x.time < lim2
    ensures NonDecreasing(RowTimes(rows)) ==> NonDecreasing(RowTimes(Window(rows, lim1, lim2)))
  {
    WindowMembers(rows, lim1, lim2);
    if NonDecreasing(RowTimes(rows)) {
      WindowKeepsOrder(rows, lim1, lim2);
    }
  }

  /** `speed = depth / (lim2 - lim1)`; Python raises on a zero span, which is
      the undefined case here. Over the whole span the detector travels the
      full depth. */
  function Speed(depth: real, lim1: real, lim2: real): (v: Option<real>)
    ensures v.None? <==> lim1 == lim2
    ensures v.Some? ==> v.value * (lim2 - lim1) == depth
  {
    if lim2 == lim1 then None else Some(depth / (lim2 - lim1))
  }

  /** `disttraveled = time.diff() * speed`: undefined on the first row, and
      speed × the time since the previous row on every later row. */
  function Steps(ts: seq<real>, speed: real): (d: seq<Option<real>>)
    ensures |d| == |ts|
  {
    seq(|ts|, k requires 0 <= k < |ts| => StepAt(ts, speed, k))
  }

  function StepAt(ts: seq<real>, speed: real, k: nat): Option<real>
    requires k < |ts|
  {
    if k == 0 then None else Some((ts[k] - ts[k - 1]) * speed)
  }

  /** pandas `cumsum()`: an undefined cell stays undefined, every other cell
      holds the sum of the defined cells up to it. */
  function CumSum(xs: seq<Option<real>>): (r: seq<Option<real>>)
    ensures |r| == |xs|
  {
    seq(|xs|, k requires 0 <= k < |xs| => CumSumAt(xs, k))
  }

  function CumSumAt(xs: seq<Option<real>>, k: nat): Option<real>
    requires k < |xs|
  {
    if xs[k].None? then None else Some(Sum(Defined(xs[..k + 1])))
  }

  /** `pos = depth - pos1` with `pos1 = disttraveled.cumsum()`. */
  function Positions(ts: seq<real>, depth: real, speed: real): (p: seq<Option<real>>)
    ensures |p| == |ts|
  {
    var p1 := CumSum(Steps(ts, speed));
    seq(|ts|, k requires 0 <= k < |ts| => Remaining(depth, p1[k]))
  }

  function Remaining(depth: real, travelled: Option<real>): Option<real>
  {
    if travelled.None? then None else Some(depth - travelled.value)
  }

  /** The distance cumulated up to row k is speed × the time elapsed since
      row 0. */
  lemma {:induction false} TravelTelescopes(ts: seq<real>, speed: real, k: nat)
    requires k < |ts|
    ensures Sum(Defined(Steps(ts, speed)[..k + 1])) == (ts[k] - ts[0]) * speed
  {
    var st := Steps(ts, speed);
    if k == 0 {
      assert st[..1] == [] + [None];
      DefinedAppend([], None);
    } else {
      assert st[..k + 1] == st[..k] + [StepAt(ts, speed, k)];
      DefinedAppend(st[..k], StepAt(ts, speed, k));
      SumAppend(Defined(st[..k]), (ts[k] - ts[k - 1]) * speed);
      TravelTelescopes(ts, speed, k - 1);
      Distribute(ts[k - 1] - ts[0], ts[k] - ts[k - 1], speed);
      MulCongruent((ts[k - 1] - ts[0]) + (ts[k] - ts[k - 1]), ts[k] - ts[0], speed);
    }
  }

  lemma Distribute(a: real, b: real, c: real)
    ensures (a + b) * c == a * c + b * c
  {
  }

  /** The position is undefined at the window's first row and is
      depth − speed·(t − t_first) at every later row. */
  lemma PositionAt(ts: seq<real>, depth: real, speed: real, k: nat)
    requires k < |ts|
    ensures k == 0 ==> Positions(ts, depth, speed)[k].None?
    ensures k > 0 ==> Positions(ts, depth, speed)[k] == Some(depth - (ts[k] - ts[0]) * speed)
  {
    if k > 0 {
      TravelTelescopes(ts, speed, k);
    }
  }

  /** With a non-negative speed and ordered times the position never
      increases along the window. */
  lemma PositionsNonIncreasing(ts: seq<real>, depth: real, speed: real)
    requires NonDecreasing(ts) && speed >= 0.0
    ensures forall j, k :: 0 < j <= k < |ts| ==>
      Positions(ts, depth, speed)[k].value <= Positions(ts, depth, speed)[j].value
  {
    forall j, k | 0 < j <= k < |ts|
      ensures Positions(ts, depth, speed)[k].value <= Positions(ts, depth, speed)[j].value
    {
      PositionAt(ts, depth, speed, j);
      PositionAt(ts, depth, speed, k);
      MulMonotone(ts[j] - ts[0], ts[k] - ts[0], speed);
    }
  }

  /** A forward window and a non-negative depth give a non-negative speed. */
  lemma SpeedNonNegative(depth: real, lim1: real, lim2: real)
    requires lim1 < lim2 && depth >= 0.0
    ensures Speed(depth, lim1, lim2).value >= 0.0
  {
    DivAtLeast(depth, lim2 - lim1, 0.0);
  }

  /** Inside the window (lim1 < lim2, non-negative depth, ordered times) every
      defined position lies between 0 and the full depth. */
  lemma PositionsWithinDepth(ts: seq<real>, depth: real, lim1: real, lim2: real)
    requires lim1 < lim2 && depth >= 0.0 && NonDecreasing(ts)
    requires forall k :: 0 <= k < |ts| ==> lim1 < ts[k] < lim2
    ensures forall k :: 0 < k < |ts| ==>
      0.0 <= Positions(ts, depth, Speed(depth, lim1, lim2).value)[k].value <= depth
  {
    var speed := Speed(depth, lim1, lim2).value;
    SpeedNonNegative(depth, lim1, lim2);
    forall k | 0 < k < |ts|
      ensures 0.0 <= Positions(ts, depth, speed)[k].value <= depth
    {
      PositionAt(ts, depth, speed, k);
      BoundedTravel(Positions(ts, depth, speed)[k], ts, k, lim1, lim2, speed, depth);
    }
  }

  /** Travelling for at most the whole span at the speed that covers the depth
      in that span leaves a remaining depth between 0 and the depth. */
  lemma BoundedTravel(p: Option<real>, ts: seq<real>, k: nat, lim1: real, lim2: real, speed: real, depth: real)
    requires k < |ts| && 0.0 <= ts[k] - ts[0] <= lim2 - lim1
    requires speed >= 0.0 && speed * (lim2 - lim1) == depth
    requires p == Some(depth - (ts[k] - ts[0]) * speed)
    ensures 0.0 <= p.value <= depth
  {
    MulMonotone(0.0, ts[k] - ts[0], speed);
    MulMonotone(ts[k] - ts[0], lim2 - lim1, speed);
  }
}
