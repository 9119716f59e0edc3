/** Shot segmentation of a profile recording: the samples are grouped into
    chunks of 300 consecutive sample numbers, a rise or fall of more than 40
    in a chunk's charge marks a shot's start or finish, transitions less than
    2 s apart collapse into one, and every pulse row strictly inside a padded
    [start, finish] interval is labelled with that shot's number. */
module Segmentation {
  import opened Stats
  import opened Zeroing

  const ChunkSize: int := 300
  /** Smallest change of a chunk's charge that marks a transition. */
  const Jump: real := 40.0
  /** Transitions closer than this (in seconds) belong to the same edge. */
  const MinGap: real := 2.0
  /** Starts move this much earlier and finishes this much later. */
  const Padding: real := 0.5

  /** `number // 300`; for a positive divisor Python's floor division is
      Dafny's Euclidean division. */
  function ChunkOf(number: int): int
  {
    number / ChunkSize
  }

  lemma ChunkOfMonotone(a: int, b: int)
    requires a <= b
    ensures ChunkOf(a) <= ChunkOf(b)
  {
    var qa, qb := a / ChunkSize, b / ChunkSize;
    assert a == ChunkSize * qa + a % ChunkSize;
    assert b == ChunkSize * qb + b % ChunkSize;
  }

  /** The rows of one chunk, in row order. */
  function InChunk(rows: seq<Sample>, key: int): (c: seq<Sample>)
    ensures |c| <= |rows|
  {
    if rows == [] then []
    else
      var last := rows[|rows| - 1];
      InChunk(rows[..|rows| - 1], key) + (if ChunkOf(last.number) == key then [last] else [])
  }

  lemma {:induction false} InChunkMembers(rows: seq<Sample>, key: int)
    ensures forall x :: x in InChunk(rows, key) <==> x in rows && ChunkOf(x.number) == key
  {
    if rows != [] {
      var n := |rows|;
      InChunkMembers(rows[..n - 1], key);
      assert rows == rows[..n - 1] + [rows[n - 1]];
    }
  }


  /** A chunk holds a row exactly when its key is some row's chunk. */
  lemma InChunkNonEmpty(rows: seq<Sample>, key: int)
    ensures InChunk(rows, key) != [] <==> key in Keys(rows)
  {
    InChunkMembers(rows, key);
    if key in Keys(rows) {
      var i :| 0 <= i < |rows| && Keys(rows)[i] == key;
      assert rows[i] in rows;
    }
    if InChunk(rows, key) != [] {
      var x := InChunk(rows, key)[0];
      assert x in InChunk(rows, key);
      var i :| 0 <= i < |rows| && rows[i] == x;
      assert Keys(rows)[i] == key;
    }
  }

  /** One row of the grouped tables `dfgs`/`dfgf`: the chunk, its first and
      last time and the sum of its merged signal charge. */
  datatype ChunkStat = ChunkStat(key: int, start: real, finish: real, charge: real)

  function StatOf(rows: seq<Sample>, key: int): ChunkStat
    requires key in Keys(rows)
  {
    InChunkNonEmpty(rows, key);
    var c := InChunk(rows, key);
    ChunkStat(key, Min(Times(c)), Max(Times(c)), Sum(Ch0(c)))
  }

  /** A chunk's start and finish are the earliest and latest times of its rows. */
  lemma StatBounds(rows: seq<Sample>, key: int)
    requires key in Keys(rows)
    ensures forall x :: x in rows && ChunkOf(x.number) == key ==>
      StatOf(rows, key).start <= x.time <= StatOf(rows, key).finish
    ensures exists x :: x in rows && ChunkOf(x.number) == key && x.time == StatOf(rows, key).start
    ensures exists x :: x in rows && ChunkOf(x.number) == key && x.time == StatOf(rows, key).finish
  {
    InChunkNonEmpty(rows, key);
    var c := InChunk(rows, key);
    InChunkMembers(rows, key);
    var s := StatOf(rows, key);
    forall x | x in rows && ChunkOf(x.number) == key ensures s.start <= x.time <= s.finish {
      var i :| 0 <= i < |c| && c[i] == x;
      assert Times(c)[i] == x.time;
    }
    var i :| 0 <= i < |c| && Times(c)[i] == s.start;
    assert c[i] in c;
    var j :| 0 <= j < |c| && Times(c)[j] == s.finish;
    assert c[j] in c;
  }

  function Keys(rows: seq<Sample>): (k: seq<int>)
    ensures |k| == |rows| && forall i :: 0 <= i < |rows| ==> k[i] == ChunkOf(rows[i].number)
  {
    seq(|rows|, i requires 0 <= i < |rows| => ChunkOf(rows[i].number))
  }

  function Lowest(s: seq<int>): (m: int)
    requires s != []
    ensures forall i :: 0 <= i < |s| ==> m <= s[i]
  {
    if |s| == 1 then s[0]
    else
      var m' := Lowest(s[..|s| - 1]);
      if s[|s| - 1] < m' then s[|s| - 1] else m'
  }

  function Highest(s: seq<int>): (m: int)
    requires s != []
    ensures forall i :: 0 <= i < |s| ==> s[i] <= m
  {
    if |s| == 1 then s[0]
    else
      var m' := Highest(s[..|s| - 1]);
      if s[|s| - 1] > m' then s[|s| - 1] else m'
  }

  /** The keys k .. hi that occur in ks, in ascending order. */
  function KeysFrom(ks: seq<int>, k: int, hi: int): (g: seq<int>)
    decreases hi - k
  {
    if k > hi then [] else (if k in ks then [k] else []) + KeysFrom(ks, k + 1, hi)
  }

  lemma {:induction false} KeysFromSpec(ks: seq<int>, k: int, hi: int)
    ensures Ascending(KeysFrom(ks, k, hi))
    ensures forall x :: x in KeysFrom(ks, k, hi) <==> k <= x <= hi && x in ks
    decreases hi - k
  {
    if k <= hi {
      KeysFromSpec(ks, k + 1, hi);
      var rest := KeysFrom(ks, k + 1, hi);
      if k in ks {
        var g := KeysFrom(ks, k, hi);
        assert g == [k] + rest;
        forall i, j | 0 <= i < j < |g| ensures g[i] < g[j] {
          assert g[j] == rest[j - 1] && g[j] in rest;
          if i > 0 {
            assert g[i] == rest[i - 1];
          }
        }
      }
    }
  }

  /** The sorted distinct chunk keys, the index of `groupby('chunk')`. */
  function GroupKeys(rows: seq<Sample>): (g: seq<int>)
    ensures Ascending(g)
    ensures forall x :: x in g <==> x in Keys(rows)
  {
    if rows == [] then []
    else
      var ks := Keys(rows);
      KeysFromSpec(ks, Lowest(ks), Highest(ks));
      KeysFrom(ks, Lowest(ks), Highest(ks))
  }

  /** `groupby('chunk').agg(...)`: one group per chunk key present, in
      ascending key order, with min/max time and summed charge. */
  function ChunkTable(rows: seq<Sample>): (t: seq<ChunkStat>)
    ensures |t| == |GroupKeys(rows)|
    ensures forall i :: 0 <= i < |t| ==> t[i].key == GroupKeys(rows)[i]
  {
    var g := GroupKeys(rows);
    seq(|g|, i requires 0 <= i < |g| => StatOf(rows, g[i]))
  }

  /** The chunk table holds one group for every chunk that has a row and for
      no other, in strictly ascending key order, each with its chunk's
      statistics. */
  lemma ChunkTableKeys(rows: seq<Sample>)
    ensures forall i :: 0 <= i < |ChunkTable(rows)| ==>
      ChunkTable(rows)[i].key in Keys(rows) && ChunkTable(rows)[i] == StatOf(rows, ChunkTable(rows)[i].key)
    ensures forall i, j :: 0 <= i < j < |ChunkTable(rows)| ==> ChunkTable(rows)[i].key < ChunkTable(rows)[j].key
    ensures forall x :: x in rows ==> exists i :: 0 <= i < |ChunkTable(rows)| && ChunkTable(rows)[i].key == ChunkOf(x.number)
  {
    var t, g := ChunkTable(rows), GroupKeys(rows);
    forall i | 0 <= i < |t| ensures t[i].key in Keys(rows) {
      assert g[i] in g;
    }
    forall x | x in rows
      ensures exists i :: 0 <= i < |t| && t[i].key == ChunkOf(x.number)
    {
      var j :| 0 <= j < |rows| && rows[j] == x;
      assert Keys(rows)[j] == ChunkOf(x.number);
      assert ChunkOf(x.number) in g;
    }
  }

  /** Two rows of an ordered recording in chunks k1 < k2 come in that order. */
  lemma ChunkRowsOrdered(rows: seq<Sample>, a: Sample, b: Sample)
    requires Ordered(rows) && a in rows && b in rows
    requires ChunkOf(a.number) < ChunkOf(b.number)
    ensures a.time <= b.time
  {
    var i :| 0 <= i < |rows| && rows[i] == a;
    var j :| 0 <= j < |rows| && rows[j] == b;
    if b.number <= a.number {
      ChunkOfMonotone(b.number, a.number);
    }
  }

  /** On an ordered recording both the chunk starts and the chunk finishes
      are non-decreasing down the chunk table. */
  lemma ChunkTimesOrdered(rows: seq<Sample>)
    requires Ordered(rows)
    ensures forall i, j :: 0 <= i < j < |ChunkTable(rows)| ==>
      ChunkTable(rows)[i].start <= ChunkTable(rows)[j].start && ChunkTable(rows)[i].finish <= ChunkTable(rows)[j].finish
  {
    var t := ChunkTable(rows);
    ChunkTableKeys(rows);
    forall i, j | 0 <= i < j < |t| ensures t[i].start <= t[j].start && t[i].finish <= t[j].finish {
      StatBounds(rows, t[i].key);
      StatBounds(rows, t[j].key);
      var a :| a in rows && ChunkOf(a.number) == t[i].key && a.time == t[i].finish;
      var b :| b in rows && ChunkOf(b.number) == t[j].key && b.time == t[j].start;
      ChunkRowsOrdered(rows, a, b);
    }
  }

  /** `iloc[1:-1]`: the first and the last group are dropped. */
  function Trim(t: seq<ChunkStat>): (k: seq<ChunkStat>)
    ensures |t| < 2 ==> k == []
    ensures |t| >= 2 ==> |k| == |t| - 2 && forall i :: 0 <= i < |k| ==> k[i] == t[i + 1]
  {
    if |t| < 2 then [] else t[1..|t| - 1]
  }

  /** Whether kept group i (i ≥ 1, since `diff()` is undefined on the first)
      changed its charge by more than Jump in the given direction. */
  predicate Transition(k: seq<ChunkStat>, i: int, rising: bool)
    requires 0 < i < |k|
  {
    if rising then k[i].charge - k[i - 1].charge > Jump else k[i].charge - k[i - 1].charge < -Jump
  }

  /** A start transition is timed by its group's first sample, a finish
      transition by its last. */
  function Edge(s: ChunkStat, rising: bool): real
  {
    if rising then s.start else s.finish
  }

  /** `starttimes` (rising) or `finishtimes` (falling), in table order. */
  function Transitions(k: seq<ChunkStat>, rising: bool): (c: seq<real>)
    ensures |c| < |k| || k == []
  {
    if |k| <= 1 then []
    else
      var n := |k|;
      Transitions(k[..n - 1], rising) + (if Transition(k, n - 1, rising) then [Edge(k[n - 1], rising)] else [])
  }

  lemma {:induction false} TransitionsMembers(k: seq<ChunkStat>, rising: bool)
    ensures forall x :: x in Transitions(k, rising) <==>
      exists i :: 0 < i < |k| && Transition(k, i, rising) && x == Edge(k[i], rising)
  {
    if |k| > 1 {
      var n := |k|;
      var k0 := k[..n - 1];
      TransitionsMembers(k0, rising);
      forall i | 0 < i < n - 1 ensures Transition(k0, i, rising) == Transition(k, i, rising) && k0[i] == k[i] {
        assert k0[i - 1] == k[i - 1];
      }
    }
  }

  /** Transitions taken from non-decreasing edges are non-decreasing. */
  lemma {:induction false} TransitionsOrdered(k: seq<ChunkStat>, rising: bool)
    requires forall i, j :: 0 <= i < j < |k| ==> Edge(k[i], rising) <= Edge(k[j], rising)
    ensures NonDecreasing(Transitions(k, rising))
  {
    if |k| > 1 {
      var n := |k|;
      var k0 := k[..n - 1];
      assert forall i, j :: 0 <= i < j < |k0| ==> Edge(k0[i], rising) <= Edge(k0[j], rising) by {
        forall i, j | 0 <= i < j < |k0| ensures Edge(k0[i], rising) <= Edge(k0[j], rising) {
          assert k0[i] == k[i] && k0[j] == k[j];
        }
      }
      TransitionsOrdered(k0, rising);
      TransitionsMembers(k0, rising);
      var c0, c := Transitions(k0, rising), Transitions(k, rising);
      if Transition(k, n - 1, rising) {
        var e := Edge(k[n - 1], rising);
        assert c == c0 + [e];
        forall i | 0 <= i < |c0| ensures c0[i] <= e {
          assert c0[i] in c0;
          var m :| 0 < m < |k0| && Transition(k0, m, rising) && c0[i] == Edge(k0[m], rising);
          assert k0[m] == k[m];
        }
        forall i, j | 0 <= i <= j < |c| ensures c[i] <= c[j] {
          if j < |c0| {
            assert c[i] == c0[i] && c[j] == c0[j];
          } else if i < |c0| {
            assert c[i] == c0[i];
          }
        }
      }
    }
  }

  /** `c[c.diff() > 2]`, looking at the first n candidates: every candidate
      more than MinGap after the candidate before it. */
  function Later(c: seq<real>, n: nat): (r: seq<real>)
    requires n <= |c|
    ensures |r| < n || n == 0
  {
    if n <= 1 then []
    else Later(c, n - 1) + (if c[n - 1] - c[n - 2] > MinGap then [c[n - 1]] else [])
  }

  /** `[c.iloc[0]] + c[c.diff() > 2].to_list()`: one time per run of
      transitions. `iloc[0]` of an empty series raises, which is the
      undefined case. */
  function Collapse(c: seq<real>): (r: Option<seq<real>>)
    ensures r.Some? <==> c != []
    ensures r.Some? ==> r.value != [] && r.value[0] == c[0] && |r.value| <= |c|
  {
    if c == [] then None else Some([c[0]] + Later(c, |c|))
  }

  lemma {:induction false} LaterMembers(c: seq<real>, n: nat)
    requires n <= |c|
    ensures forall x :: x in Later(c, n) <==>
      exists k :: 1 <= k < n && c[k] - c[k - 1] > MinGap && x == c[k]
  {
    if n > 1 {
      LaterMembers(c, n - 1);
    }
  }

  /** The collapsed list is a subsequence of the candidates: their first one
      and every one more than MinGap after its predecessor. */
  lemma CollapseMembers(c: seq<real>)
    requires c != []
    ensures forall x :: x in Collapse(c).value <==>
      x == c[0] || exists k :: 1 <= k < |c| && c[k] - c[k - 1] > MinGap && x == c[k]
  {
    LaterMembers(c, |c|);
  }

  ghost predicate Spaced(r: seq<real>)
  {
    forall i, j :: 0 <= i < j < |r| ==> r[j] - r[i] > MinGap
  }

  /** The first candidate followed by the later ones among the first n. */
  function Collapsed(c: seq<real>, n: nat): seq<real>
    requires 1 <= n <= |c|
  {
    [c[0]] + Later(c, n)
  }

  /** With ordered candidates, the collapsed times are pairwise more than
      MinGap apart, and none is after the last candidate looked at. */
  lemma {:induction false} LaterSpacing(c: seq<real>, n: nat)
    requires 1 <= n <= |c| && NonDecreasing(c)
    ensures Spaced(Collapsed(c, n))
    ensures forall i :: 0 <= i < |Collapsed(c, n)| ==> Collapsed(c, n)[i] <= c[n - 1]
  {
    var r := Collapsed(c, n);
    if n == 1 {
      assert r == [c[0]];
    } else {
      LaterSpacing(c, n - 1);
      var r0 := Collapsed(c, n - 1);
      assert c[n - 2] <= c[n - 1];
      if c[n - 1] - c[n - 2] > MinGap {
        assert r == r0 + [c[n - 1]];
        forall i, j | 0 <= i < j < |r| ensures r[j] - r[i] > MinGap {
          if j < |r0| {
            assert r[i] == r0[i] && r[j] == r0[j];
          } else {
            assert r[i] == r0[i] && r[j] == c[n - 1];
          }
        }
        forall i | 0 <= i < |r| ensures r[i] <= c[n - 1] {
          if i < |r0| {
            assert r[i] == r0[i];
          }
        }
      } else {
        assert r == r0;
      }
    }
  }

  /** With ordered candidates the collapsed times are pairwise more than
      MinGap apart, so in particular strictly increasing. */
  lemma CollapseSpacing(c: seq<real>)
    requires c != [] && NonDecreasing(c)
    ensures Spaced(Collapse(c).value)
  {
    LaterSpacing(c, |c|);
  }

  /** `[i - 0.5 for i in stss]` / `[i + 0.5 for i in ftss]`. */
  function Pad(xs: seq<real>, delta: real): (p: seq<real>)
    ensures |p| == |xs|
  {
    seq(|xs|, i requires 0 <= i < |xs| => xs[i] + delta)
  }

  /** Padding moves every time by the same amount: differences between
      entries, and so their order and spacing, are unchanged. */
  lemma PadKeepsSpacing(xs: seq<real>, delta: real)
    ensures forall i, j :: 0 <= i < |xs| && 0 <= j < |xs| ==> Pad(xs, delta)[j] - Pad(xs, delta)[i] == xs[j] - xs[i]
    ensures forall i :: 0 <= i < |xs| ==> Pad(xs, delta)[i] - xs[i] == delta
  {
  }

  /** Number of shots: `zip` stops at the shorter list. */
  function ShotCount(sts: seq<real>, fts: seq<real>): (n: nat)
    ensures n <= |sts| && n <= |fts| && (n == |sts| || n == |fts|)
  {
    if |sts| <= |fts| then |sts| else |fts|
  }

  predicate Inside(t: real, sts: seq<real>, fts: seq<real>, k: nat)
    requires k < |sts| && k < |fts|
  {
    sts[k] < t < fts[k]
  }

  /** The label the loop leaves on a row at time t after shots 0 .. n−1 have
      been written: the last of them whose open interval holds t. */
  function ShotOf(t: real, sts: seq<real>, fts: seq<real>, n: nat): (s: Option<nat>)
    requires n <= |sts| && n <= |fts|
    ensures s.Some? ==> s.value < n
  {
    if n == 0 then None
    else if Inside(t, sts, fts, n - 1) then Some(n - 1)
    else ShotOf(t, sts, fts, n - 1)
  }

  /** A row is labelled k exactly when shot k's interval holds it and no later
      shot's does; it stays unlabelled exactly when no interval holds it. */
  lemma {:induction false} ShotOfSpec(t: real, sts: seq<real>, fts: seq<real>, n: nat)
    requires n <= |sts| && n <= |fts|
    ensures ShotOf(t, sts, fts, n).None? <==> forall k :: 0 <= k < n ==> !Inside(t, sts, fts, k)
    ensures forall k: nat :: ShotOf(t, sts, fts, n) == Some(k) <==>
      k < n && Inside(t, sts, fts, k) && forall l :: k < l < n ==> !Inside(t, sts, fts, l)
  {
    if n > 0 {
      ShotOfSpec(t, sts, fts, n - 1);
    }
  }

  /** The labelling loop over the pulse table: for each shot in turn, every
      row strictly inside its interval is labelled with it, overwriting an
      earlier label. */
  method LabelShots(times: seq<real>, sts: seq<real>, fts: seq<real>) returns (labels: seq<Option<nat>>)
    ensures |labels| == |times|
    ensures forall i :: 0 <= i < |times| ==> labels[i] == ShotOf(times[i], sts, fts, ShotCount(sts, fts))
  {
    var shot := new Option<nat>[|times|](_ => None);
    var n := ShotCount(sts, fts);
    for num := 0 to n
      invariant forall i :: 0 <= i < |times| ==> shot[i] == ShotOf(times[i], sts, fts, num)
    {
      for i := 0 to |times|
        invariant forall j :: 0 <= j < i ==> shot[j] == ShotOf(times[j], sts, fts, num + 1)
        invariant forall j :: i <= j < |times| ==> shot[j] == ShotOf(times[j], sts, fts, num)
      {
        if sts[num] < times[i] < fts[num] {
          shot[i] := Some(num);
        }
      }
    }
    labels := shot[..];
  }
}
