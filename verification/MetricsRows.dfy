/** The concise rendering of the metric history: points merged into at most 24 rows. */
module MetricsRows {
  import opened Wrappers
  import opened MetricsHistory

  const CONCISE_ROWS := 24

  function Absorb(acc: Option<Accumulator>, stats: SeriesStats): Accumulator {
    var weighted := stats.avg * stats.count as real;
    match acc
    case None => Accumulator(stats.min, stats.max, weighted, stats.count)
    case Some(t) =>
      Accumulator(if stats.min < t.min then stats.min else t.min, if stats.max > t.max then stats.max else t.max,
             t.sum + weighted, t.count + stats.count)
  }

  function AbsorbNames(series: map<string, Accumulator>, point: HistoryPoint, names: set<string>): map<string, Accumulator>
    requires names <= point.series.Keys
  {
    map name | name in series.Keys + names ::
      if name in names then Absorb(Get(series, name), point.series[name]) else series[name]
  }

  function TotalsOf(points: seq<HistoryPoint>): map<string, Accumulator> {
    if points == [] then map[]
    else
      var last := points[|points| - 1];
      AbsorbNames(TotalsOf(points[..|points| - 1]), last, last.series.Keys)
  }

  function Merged(points: seq<HistoryPoint>): HistoryPoint
    requires points != []
  {
    var totals := TotalsOf(points);
    HistoryPoint(points[0].bucketStartMs, map name | name in totals :: ToStats(totals[name]))
  }

  lemma {:induction false} AbsorbOneMore(series: map<string, Accumulator>, point: HistoryPoint, names: set<string>, name: string)
    requires names <= point.series.Keys && name in point.series && name !in names
    ensures AbsorbNames(series, point, names + {name})
         == AbsorbNames(series, point, names)[name := Absorb(Get(AbsorbNames(series, point, names), name), point.series[name])]
  {
  }

  lemma {:induction false} AbsorbNone(series: map<string, Accumulator>, point: HistoryPoint)
    ensures AbsorbNames(series, point, {}) == series
  {
  }

  method AbsorbPoint(series: map<string, Accumulator>, point: HistoryPoint) returns (totals: map<string, Accumulator>)
    ensures totals == AbsorbNames(series, point, point.series.Keys)
  {
    totals := series;
    var pending := point.series.Keys;
    ghost var done := {};
    AbsorbNone(series, point);
    while pending != {}
      invariant done <= point.series.Keys && pending == point.series.Keys - done
      invariant totals == AbsorbNames(series, point, done)
      decreases pending
    {
      var name :| name in pending;
      AbsorbOneMore(series, point, done, name);
      totals := totals[name := Absorb(Get(totals, name), point.series[name])];
      done := done + {name};
      pending := pending - {name};
    }
    assert done == point.series.Keys;
  }

  method MergePoints(points: seq<HistoryPoint>) returns (row: HistoryPoint)
    requires points != []
    ensures row == Merged(points)
  {
    var series: map<string, Accumulator> := map[];
    for i := 0 to |points|
      invariant series == TotalsOf(points[..i])
    {
      series := AbsorbPoint(series, points[i]);
      assert points[..i + 1][..i] == points[..i];
    }
    assert points[..|points|] == points;
    row := HistoryPoint(points[0].bucketStartMs, map name | name in series :: ToStats(series[name]));
  }

  // ---------------------------------------------------------------- merging is folding

  /** One fold over raw values, as the ring does it for a single bucket. */
  function FoldAll(values: seq<real>): Accumulator
    requires values != []
  {
    if |values| == 1 then Fold(None, values[0])
    else Fold(Some(FoldAll(values[..|values| - 1])), values[|values| - 1])
  }

  lemma {:induction false} FoldAllSummarizes(values: seq<real>)
    requires values != []
    ensures Summarizes(FoldAll(values), values)
  {
    var before := values[..|values| - 1];
    assert values == before + [values[|values| - 1]];
    if |values| == 1 {
      FoldSummarizes(None, before, values[0]);
    } else {
      FoldAllSummarizes(before);
      FoldSummarizes(Some(FoldAll(before)), before, values[|values| - 1]);
    }
  }

  lemma {:induction false} DescriptionIsUnique(a: SeriesStats, b: SeriesStats, values: seq<real>)
    requires Describes(a, values) && Describes(b, values)
    ensures a == b
  {
    var c := a.count as real;
    assert a.avg * c == b.avg * c;
    assert a.avg == a.avg * c / c && b.avg == b.avg * c / c;
  }

  /** The raw values behind a run of points, concatenated in order. */
  function Joined(raws: seq<map<string, seq<real>>>, name: string): seq<real> {
    if raws == [] then []
    else
      var last := raws[|raws| - 1];
      var before := Joined(raws[..|raws| - 1], name);
      if name in last then before + last[name] else before
  }

  /** `raws[i]` holds the raw values that point `i` describes. */
  ghost predicate Behind(raws: seq<map<string, seq<real>>>, points: seq<HistoryPoint>) {
    && |raws| == |points|
    && forall i | 0 <= i < |points| ::
         raws[i].Keys == points[i].series.Keys
         && forall name | name in points[i].series :: Describes(points[i].series[name], raws[i][name])
  }

  lemma {:induction false} SumOfConcatenation(a: seq<real>, b: seq<real>)
    ensures Sum(a + b) == Sum(a) + Sum(b)
    decreases |b|
  {
    if b == [] {
      assert a + b == a;
    } else {
      SumOfConcatenation(a, b[..|b| - 1]);
      assert (a + b)[..|a + b| - 1] == a + b[..|b| - 1];
    }
  }

  lemma {:induction false} AbsorbDescribes(acc: Option<Accumulator>, values: seq<real>, stats: SeriesStats, more: seq<real>)
    requires if acc.None? then values == [] else Summarizes(acc.value, values)
    requires Describes(stats, more)
    ensures Summarizes(Absorb(acc, stats), values + more)
  {
    SumOfConcatenation(values, more);
    var t := Absorb(acc, stats);
    assert forall v :: v in values + more <==> v in values || v in more;
    assert acc.None? ==> values + more == more;
  }

  lemma {:induction false} TotalsDescribeJoined(points: seq<HistoryPoint>, raws: seq<map<string, seq<real>>>, name: string)
    requires Behind(raws, points)
    ensures name in TotalsOf(points) <==> Joined(raws, name) != []
    ensures name in TotalsOf(points) ==> Summarizes(TotalsOf(points)[name], Joined(raws, name))
    decreases |points|
  {
    if points != [] {
      var n := |points| - 1;
      TotalsDescribeJoined(points[..n], raws[..n], name);
      if name in points[n].series {
        AbsorbDescribes(Get(TotalsOf(points[..n]), name), Joined(raws[..n], name), points[n].series[name], raws[n][name]);
      }
    }
  }

  lemma {:induction false} AverageIsOneFold(t: Accumulator, values: seq<real>)
    requires Summarizes(t, values)
    ensures ToStats(t) == ToStats(FoldAll(values))
  {
    FoldAllSummarizes(values);
    StatsDescribe(FoldAll(values), values);
    assert ToStats(t).avg * t.count as real == t.sum;
    DescriptionIsUnique(ToStats(t), ToStats(FoldAll(values)), values);
  }

  /**
   Two-level aggregation is one aggregation: merging points gives, for every
   series, exactly the statistics of one fold over all the raw values behind
   them.
   */
  lemma {:induction false} MergeIsOneFold(points: seq<HistoryPoint>, raws: seq<map<string, seq<real>>>, name: string)
    requires points != [] && Behind(raws, points)
    ensures name in Merged(points).series <==> Joined(raws, name) != []
    ensures name in Merged(points).series ==> Merged(points).series[name] == ToStats(FoldAll(Joined(raws, name)))
  {
    TotalsDescribeJoined(points, raws, name);
    if name in TotalsOf(points) { AverageIsOneFold(TotalsOf(points)[name], Joined(raws, name)); }
  }

  // ---------------------------------------------------------------- rows

  function PerRow(n: nat): (size: nat)
    ensures size > 0
  {
    Max(1, CeilingDivide(n, CONCISE_ROWS))
  }

  type Group = g: seq<HistoryPoint> | g != [] witness [HistoryPoint(0, map[])]

  function Min(a: int, b: int): int { if a < b then a else b }

  /** The consecutive groups of `size` points from `start` on; the last may be shorter. */
  function Groups(points: seq<HistoryPoint>, start: nat, size: nat): (groups: seq<Group>)
    requires size > 0
    decreases |points| - start
  {
    if start >= |points| then []
    else [points[start..Min(start + size, |points|)]] + Groups(points, start + size, size)
  }

  function Rows(groups: seq<Group>): seq<HistoryPoint> {
    seq(|groups|, i requires 0 <= i < |groups| => Merged(groups[i]))
  }

  method FoldRows(points: seq<HistoryPoint>) returns (rows: seq<HistoryPoint>)
    ensures rows == Rows(Groups(points, 0, PerRow(|points|)))
  {
    var perRow := PerRow(|points|);
    rows := [];
    var start := 0;
    ghost var done: seq<Group> := [];
    while start < |points|
      invariant start >= 0 && rows == Rows(done)
      invariant done + Groups(points, start, perRow) == Groups(points, 0, perRow)
      decreases |points| - start
    {
      ghost var group: Group := points[start..Min(start + perRow, |points|)];
      ghost var later := Groups(points, start + perRow, perRow);
      assert done + ([group] + later) == (done + [group]) + later;
      var row := MergePoints(points[start..Min(start + perRow, |points|)]);
      rows := rows + [row];
      done := done + [group];
      start := start + perRow;
    }
  }

  function Flatten(groups: seq<Group>): seq<HistoryPoint> {
    if groups == [] then [] else groups[0] + Flatten(groups[1..])
  }

  lemma {:induction false} GroupsCover(points: seq<HistoryPoint>, start: nat, size: nat)
    requires size > 0 && start <= |points|
    ensures Flatten(Groups(points, start, size)) == points[start..]
    ensures forall g | g in Groups(points, start, size) :: |g| <= size
    decreases |points| - start
  {
    if start < |points| {
      var end := Min(start + size, |points|);
      var later := Groups(points, start + size, size);
      assert Groups(points, start, size)[1..] == later;
      assert points[start..] == points[start..end] + points[end..];
      if start + size < |points| {
        GroupsCover(points, start + size, size);
      } else {
        assert later == [] && points[end..] == [];
      }
    }
  }

  /** Every group but the last has exactly `size` points. */
  lemma {:induction false} GroupsAreFull(points: seq<HistoryPoint>, start: nat, size: nat)
    requires size > 0
    ensures forall i | 0 <= i < |Groups(points, start, size)| - 1 :: |Groups(points, start, size)[i]| == size
    decreases |points| - start
  {
    if start + size < |points| {
      GroupsAreFull(points, start + size, size);
      var later := Groups(points, start + size, size);
      assert forall i | 0 < i < |later| :: Groups(points, start, size)[i] == later[i - 1];
    }
  }

  lemma {:induction false} GroupsAreFew(points: seq<HistoryPoint>, start: nat, size: nat)
    requires size > 0
    ensures start < |points| ==> (|Groups(points, start, size)| - 1) * size < |points| - start
    ensures start >= |points| ==> |Groups(points, start, size)| == 0
    decreases |points| - start
  {
    if start < |points| {
      GroupsAreFew(points, start + size, size);
      var later := |Groups(points, start + size, size)|;
      assert (later - 1) * size + size == later * size;
    }
  }

  lemma {:induction false} FewGroups(rows: int, size: int, n: int)
    requires size > 0 && (rows - 1) * size < n && n <= CONCISE_ROWS * size
    ensures rows <= CONCISE_ROWS
  {
    assert (rows - 1 - CONCISE_ROWS) * size < 0;
    assert rows - 1 - CONCISE_ROWS < 0;
  }

  lemma {:induction false} GroupsReachTheEnd(points: seq<HistoryPoint>, start: nat, size: nat)
    requires size > 0
    ensures |Groups(points, start, size)| * size >= |points| - start
    decreases |points| - start
  {
    if start < |points| {
      GroupsReachTheEnd(points, start + size, size);
      var later := |Groups(points, start + size, size)|;
      assert (later + 1) * size == later * size + size;
    }
  }

  /** The rows are as fine as 24 allow: any smaller row size makes more than 24 of them. */
  lemma {:induction false} RowsAreFinest(points: seq<HistoryPoint>, size: nat)
    requires 0 < size < PerRow(|points|)
    ensures |Groups(points, 0, size)| > 24
  {
    GroupsReachTheEnd(points, 0, size);
    assert (PerRow(|points|) - 1) * 24 < |points|;
    TooManyGroups(|Groups(points, 0, size)|, size, |points|);
  }

  lemma {:induction false} TooManyGroups(rows: int, size: int, n: int)
    requires size > 0 && rows * size >= n && n > 24 * size
    ensures rows > 24
  {
    assert (rows - 24) * size > 0;
  }

  function CountOf(point: HistoryPoint, name: string): nat {
    if name in point.series then point.series[name].count else 0
  }

  function TotalCount(points: seq<HistoryPoint>, name: string): nat {
    if points == [] then 0 else TotalCount(points[..|points| - 1], name) + CountOf(points[|points| - 1], name)
  }

  lemma {:induction false} TotalCountSplits(a: seq<HistoryPoint>, b: seq<HistoryPoint>, name: string)
    ensures TotalCount(a + b, name) == TotalCount(a, name) + TotalCount(b, name)
    decreases |b|
  {
    if b == [] {
      assert a + b == a;
    } else {
      TotalCountSplits(a, b[..|b| - 1], name);
      assert (a + b)[..|a + b| - 1] == a + b[..|b| - 1];
    }
  }

  lemma {:induction false} MergeConservesCount(points: seq<HistoryPoint>, name: string)
    ensures TotalCount(points, name) == (if name in TotalsOf(points) then TotalsOf(points)[name].count else 0)
    decreases |points|
  {
    if points != [] { MergeConservesCount(points[..|points| - 1], name); }
  }

  lemma {:induction false} RowsConserveCount(groups: seq<Group>, name: string)
    ensures TotalCount(Rows(groups), name) == TotalCount(Flatten(groups), name)
  {
    if groups != [] {
      RowsConserveCount(groups[1..], name);
      MergeConservesCount(groups[0], name);
      TotalCountSplits(groups[0], Flatten(groups[1..]), name);
      var first := [Merged(groups[0])];
      assert Rows(groups) == first + Rows(groups[1..]);
      TotalCountSplits(first, Rows(groups[1..]), name);
      assert TotalCount(first, name) == TotalCount([], name) + CountOf(first[0], name);
    }
  }

  /** Any list of points becomes at most 24 rows over consecutive covering groups, and no sample count is lost. */
  lemma {:induction false} RowsPartitionThePoints(points: seq<HistoryPoint>, name: string)
    ensures var groups := Groups(points, 0, PerRow(|points|));
            && Flatten(groups) == points
            && (forall g | g in groups :: 0 < |g| <= PerRow(|points|))
            && (forall i | 0 <= i < |groups| - 1 :: |groups[i]| == PerRow(|points|))
            && |Rows(groups)| == |groups| <= 24
            && (forall i | 0 <= i < |groups| :: Rows(groups)[i].bucketStartMs == groups[i][0].bucketStartMs)
            && TotalCount(Rows(groups), name) == TotalCount(points, name)
  {
    var size := PerRow(|points|);
    GroupsCover(points, 0, size);
    RowsConserveCount(Groups(points, 0, size), name);
    assert |points| <= CONCISE_ROWS * size;
    GroupsAreFull(points, 0, size);
    GroupsAreFew(points, 0, size);
    if points != [] { FewGroups(|Groups(points, 0, size)|, size, |points|); }
  }

  /** The raw samples of the buckets behind a list of points. */
  ghost function RawsOf(log: seq<Sample>, points: seq<HistoryPoint>): seq<map<string, seq<real>>> {
    seq(|points|, i requires 0 <= i < |points| =>
      map name | name in points[i].series :: Raw(log, points[i].bucketStartMs / BUCKET_MS, name))
  }

  lemma {:induction false} RawsAreBehindTheWindow(log: seq<Sample>, sinceMs: int, from: nat, to: nat)
    requires Monotone(log) && from < to <= |Window(Ring(log), sinceMs)|
    ensures var points := Window(Ring(log), sinceMs)[from..to]; Behind(RawsOf(log, points), points)
  {
    var window := Window(Ring(log), sinceMs);
    var points := window[from..to];
    forall i | 0 <= i < |points|
      ensures forall n | n in points[i].series ::
                Describes(points[i].series[n], Raw(log, points[i].bucketStartMs / BUCKET_MS, n))
    {
      assert points[i] == window[from + i];
      PointsDescribeTheLog(log, sinceMs, from + i);
    }
  }

  /**
   End to end: a concise row over any stretch of the recorded window shows, for
   every series, one fold over all raw samples of that stretch's buckets.
   */
  lemma {:induction false} RowsDescribeTheLog(log: seq<Sample>, sinceMs: int, from: nat, to: nat, name: string)
    requires Monotone(log) && from < to <= |Window(Ring(log), sinceMs)|
    ensures var points := Window(Ring(log), sinceMs)[from..to];
            var raw := Joined(RawsOf(log, points), name);
            && (name in Merged(points).series <==> raw != [])
            && (name in Merged(points).series ==> Merged(points).series[name] == ToStats(FoldAll(raw)))
  {
    RawsAreBehindTheWindow(log, sinceMs, from, to);
    var points := Window(Ring(log), sinceMs)[from..to];
    MergeIsOneFold(points, RawsOf(log, points), name);
  }
}
