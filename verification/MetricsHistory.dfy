/**
 The in-memory metric history: a ring of 2880 thirty-second buckets that
 must agree with the unbounded log of every sample ever added. Measurements
 are reals, so floating-point rounding is not part of this model.
 */
module MetricsHistory {
  import opened Wrappers
  import opened StableSort

  const BUCKET_MS := 30_000
  const RETENTION_MS := 24 * 60 * 60 * 1000
  const BUCKET_CAPACITY := 2880
  const MS_PER_MINUTE := 60_000

  type Count = n: int | n > 0 witness 1

  datatype Accumulator = Accumulator(min: real, max: real, sum: real, count: Count)
  datatype SeriesStats = SeriesStats(min: real, max: real, avg: real, count: Count)
  datatype HistoryPoint = HistoryPoint(bucketStartMs: int, series: map<string, SeriesStats>)
  datatype Slot = Slot(bucketIndex: nat, series: map<string, Accumulator>)

  /** One call of `add`: the extracted series values and the sample time. */
  datatype Sample = Sample(values: map<string, real>, atMs: nat)

  function Fold(accumulator: Option<Accumulator>, value: real): Accumulator {
    match accumulator
    case None => Accumulator(value, value, value, 1)
    case Some(a) =>
      Accumulator(if value < a.min then value else a.min, if value > a.max then value else a.max,
                  a.sum + value, a.count + 1)
  }

  function Get<V>(m: map<string, V>, name: string): Option<V> {
    if name in m then Some(m[name]) else None
  }

  /** Folds the named values into their series; series not named stay as they are. */
  function FoldNames(series: map<string, Accumulator>, values: map<string, real>, names: set<string>)
    : map<string, Accumulator>
    requires names <= values.Keys
  {
    map name | name in series.Keys + names ::
      if name in names then Fold(Get(series, name), values[name]) else series[name]
  }

  function FoldSample(series: map<string, Accumulator>, values: map<string, real>): map<string, Accumulator> {
    FoldNames(series, values, values.Keys)
  }

  function BucketOf(atMs: int): int { atMs / BUCKET_MS }

  function AddSample(slots: seq<Option<Slot>>, sample: Sample): seq<Option<Slot>>
    requires |slots| == BUCKET_CAPACITY
  {
    var bucketIndex := BucketOf(sample.atMs);
    var position := bucketIndex % BUCKET_CAPACITY;
    var series := match slots[position]
                  case Some(slot) => if slot.bucketIndex == bucketIndex then slot.series else map[]
                  case None => map[];
    slots[position := Some(Slot(bucketIndex, FoldSample(series, sample.values)))]
  }

  /** The ring after a whole history of samples. */
  function Ring(log: seq<Sample>): (slots: seq<Option<Slot>>)
    ensures |slots| == BUCKET_CAPACITY
  {
    if log == [] then seq(BUCKET_CAPACITY, _ => None) else AddSample(Ring(log[..|log| - 1]), log[|log| - 1])
  }

  function ToStats(a: Accumulator): SeriesStats {
    SeriesStats(a.min, a.max, a.sum / a.count as real, a.count)
  }

  function ToPoint(slot: Slot): HistoryPoint {
    HistoryPoint(slot.bucketIndex * BUCKET_MS, map name | name in slot.series :: ToStats(slot.series[name]))
  }

  function ByBucket(a: Slot, b: Slot): int { a.bucketIndex - b.bucketIndex }

  function LiveSlots(slots: seq<Option<Slot>>, firstIndex: int): seq<Slot> {
    if slots == [] then []
    else if slots[0].Some? && slots[0].value.bucketIndex >= firstIndex then
      [slots[0].value] + LiveSlots(slots[1..], firstIndex)
    else LiveSlots(slots[1..], firstIndex)
  }

  function WindowSlots(slots: seq<Option<Slot>>, sinceMs: int): seq<Slot> {
    Sort(ByBucket, LiveSlots(slots, BucketOf(sinceMs)))
  }

  function Window(slots: seq<Option<Slot>>, sinceMs: int): (points: seq<HistoryPoint>)
  {
    var live := WindowSlots(slots, sinceMs);
    seq(|live|, i requires 0 <= i < |live| => ToPoint(live[i]))
  }

  // ---------------------------------------------------------------- the log

  /** Every raw value of one series that fell into one bucket, in order. */
  function Raw(log: seq<Sample>, bucket: int, name: string): seq<real> {
    if log == [] then []
    else
      var last := log[|log| - 1];
      var before := Raw(log[..|log| - 1], bucket, name);
      if BucketOf(last.atMs) == bucket && name in last.values then before + [last.values[name]] else before
  }

  predicate Sampled(log: seq<Sample>, bucket: int) {
    exists i | 0 <= i < |log| :: BucketOf(log[i].atMs) == bucket
  }

  ghost predicate Monotone(log: seq<Sample>) {
    forall i, j | 0 <= i < j < |log| :: log[i].atMs <= log[j].atMs
  }

  ghost predicate NoneAfter(log: seq<Sample>, now: int) {
    forall i | 0 <= i < |log| :: log[i].atMs <= now
  }

  function Sum(values: seq<real>): real {
    if values == [] then 0.0 else Sum(values[..|values| - 1]) + values[|values| - 1]
  }

  /** The four aggregates, each by its meaning rather than by folding. */
  ghost predicate Summarizes(a: Accumulator, values: seq<real>) {
    && a.count == |values| && a.sum == Sum(values)
    && a.min in values && (forall v | v in values :: a.min <= v)
    && a.max in values && (forall v | v in values :: v <= a.max)
  }

  ghost predicate Represents(slot: Slot, log: seq<Sample>) {
    && (forall name :: name in slot.series <==> Raw(log, slot.bucketIndex, name) != [])
    && (forall name | name in slot.series :: Summarizes(slot.series[name], Raw(log, slot.bucketIndex, name)))
  }

  /** Some later bucket has taken this bucket's slot. */
  ghost predicate Overwritten(log: seq<Sample>, bucket: int) {
    exists later :: Sampled(log, later) && later > bucket && later % 2880 == bucket % 2880
  }

  /** Slot `p` holds the greatest sampled bucket congruent to `p`, and nothing when there is none. */
  ghost predicate SlotAgrees(slots: seq<Option<Slot>>, log: seq<Sample>, p: nat)
    requires p < |slots|
  {
    match slots[p]
    case None => forall b :: Sampled(log, b) ==> b % 2880 != p
    case Some(slot) =>
      && slot.bucketIndex % 2880 == p
      && Sampled(log, slot.bucketIndex) && !Overwritten(log, slot.bucketIndex)
      && Represents(slot, log)
  }

  lemma {:induction false} FoldSummarizes(a: Option<Accumulator>, values: seq<real>, v: real)
    requires if values == [] then a.None? else a.Some? && Summarizes(a.value, values)
    ensures Summarizes(Fold(a, v), values + [v])
  {
    assert (values + [v])[..|values|] == values;
    assert v in values + [v];
    assert forall x :: x in values + [v] <==> x in values || x == v;
    if values == [] { assert Sum(values + [v]) == Sum([]) + v; }
  }

  lemma {:induction false} LastBucketIsGreatest(log: seq<Sample>, b: int)
    requires log != [] && Monotone(log) && Sampled(log, b)
    ensures b <= BucketOf(log[|log| - 1].atMs)
  {
    var i :| 0 <= i < |log| && BucketOf(log[i].atMs) == b;
    assert log[i].atMs <= log[|log| - 1].atMs;
  }

  lemma {:induction false} SampledAfterAdd(log: seq<Sample>, b: int)
    requires log != []
    ensures Sampled(log, b) <==> Sampled(log[..|log| - 1], b) || b == BucketOf(log[|log| - 1].atMs)
  {
    var before := log[..|log| - 1];
    if Sampled(before, b) {
      var i :| 0 <= i < |before| && BucketOf(before[i].atMs) == b;
      assert BucketOf(log[i].atMs) == b;
    }
    if Sampled(log, b) && b != BucketOf(log[|log| - 1].atMs) {
      var i :| 0 <= i < |log| && BucketOf(log[i].atMs) == b;
      assert BucketOf(before[i].atMs) == b;
    }
  }

  lemma {:induction false} UnsampledHasNoValues(log: seq<Sample>, b: int, name: string)
    requires !Sampled(log, b)
    ensures Raw(log, b, name) == []
  {
    if log != [] {
      SampledAfterAdd(log, b);
      UnsampledHasNoValues(log[..|log| - 1], b, name);
    }
  }

  /** A slot the new sample does not touch still agrees with the longer log. */
  lemma {:induction false} UntouchedSlotAgrees(log: seq<Sample>, p: nat)
    requires log != [] && Monotone(log) && p < BUCKET_CAPACITY
    requires p != BucketOf(log[|log| - 1].atMs) % BUCKET_CAPACITY
    requires SlotAgrees(Ring(log[..|log| - 1]), log[..|log| - 1], p)
    ensures SlotAgrees(Ring(log), log, p)
  {
    var before := log[..|log| - 1];
    assert Ring(log)[p] == Ring(before)[p];
    forall b ensures Sampled(log, b) <==> Sampled(before, b) || b == BucketOf(log[|log| - 1].atMs) {
      SampledAfterAdd(log, b);
    }
  }

  /** The slot of the new sample's bucket: folded into when it is that bucket's, started afresh when it is older. */
  lemma {:induction false} TouchedSlotAgrees(log: seq<Sample>)
    requires log != [] && Monotone(log)
    requires SlotAgrees(Ring(log[..|log| - 1]), log[..|log| - 1], BucketOf(log[|log| - 1].atMs) % BUCKET_CAPACITY)
    ensures SlotAgrees(Ring(log), log, BucketOf(log[|log| - 1].atMs) % BUCKET_CAPACITY)
  {
    var before, last := log[..|log| - 1], log[|log| - 1];
    var b := BucketOf(last.atMs);
    var p := b % BUCKET_CAPACITY;
    var old' := Ring(before)[p];
    var slot := Ring(log)[p].value;
    SampledAfterAdd(log, b);
    forall later | Sampled(log, later) ensures later <= b { LastBucketIsGreatest(log, later); }
    assert SlotAgrees(Ring(before), before, p);
    var kept := if old'.Some? && old'.value.bucketIndex == b then old'.value.series else map[];
    if !(old'.Some? && old'.value.bucketIndex == b) {
      if old'.Some? {
        SampledAfterAdd(log, old'.value.bucketIndex);
        assert old'.value.bucketIndex < b;
      }
      assert !Sampled(before, b);
    }
    forall name
      ensures name in slot.series <==> Raw(log, b, name) != []
      ensures name in slot.series ==> Summarizes(slot.series[name], Raw(log, b, name))
    {
      if !Sampled(before, b) { UnsampledHasNoValues(before, b, name); }
      assert name in kept <==> Raw(before, b, name) != [];
      if name in last.values {
        FoldSummarizes(Get(kept, name), Raw(before, b, name), last.values[name]);
      }
    }
  }

  /** The ring refines the log: every slot, after every history whose times never go back. */
  lemma {:induction false} RingRefinesLog(log: seq<Sample>, p: nat)
    requires Monotone(log) && p < BUCKET_CAPACITY
    ensures SlotAgrees(Ring(log), log, p)
    decreases |log|
  {
    if log != [] {
      var before := log[..|log| - 1];
      RingRefinesLog(before, p);
      if p == BucketOf(log[|log| - 1].atMs) % BUCKET_CAPACITY {
        TouchedSlotAgrees(log);
      } else {
        UntouchedSlotAgrees(log, p);
      }
    }
  }

  // ---------------------------------------------------------------- windows

  /** What the unbounded log would report: the sampled buckets of a range, oldest first. */
  function SampledBuckets(log: seq<Sample>, first: int, last: int): (r: seq<int>)
    decreases last - first + 1
  {
    if last < first then []
    else SampledBuckets(log, first, last - 1) + (if Sampled(log, last) then [last] else [])
  }

  function Buckets(slots: seq<Slot>): seq<int> {
    seq(|slots|, i requires 0 <= i < |slots| => slots[i].bucketIndex)
  }

  ghost predicate Ascending(s: seq<int>) {
    forall i, j | 0 <= i < j < |s| :: s[i] < s[j]
  }

  lemma {:induction false} SampledBucketsAre(log: seq<Sample>, first: int, last: int)
    ensures Ascending(SampledBuckets(log, first, last))
    ensures forall b :: b in SampledBuckets(log, first, last) <==> first <= b <= last && Sampled(log, b)
    decreases last - first + 1
  {
    if first <= last {
      SampledBucketsAre(log, first, last - 1);
      var s, t := SampledBuckets(log, first, last), SampledBuckets(log, first, last - 1);
      forall i, j | 0 <= i < j < |s| ensures s[i] < s[j] {
        assert s[i] == t[i] && t[i] in t;
        assert j < |t| ==> s[j] == t[j];
      }
    }
  }

  /** An ascending list is determined by its members. */
  lemma {:induction false} AscendingIsUnique(a: seq<int>, b: seq<int>)
    requires Ascending(a) && Ascending(b) && forall x :: x in a <==> x in b
    ensures a == b
  {
    assert b != [] ==> b[0] in b;
    if a != [] {
      assert a[0] in a;
      assert b[0] in a;
      assert a[0] == b[0];
      forall x ensures x in a[1..] <==> x in b[1..] {
        assert a == [a[0]] + a[1..] && b == [b[0]] + b[1..];
        assert x in a <==> x == a[0] || x in a[1..];
        assert x in b <==> x == b[0] || x in b[1..];
      }
      AscendingIsUnique(a[1..], b[1..]);
    }
  }

  lemma {:induction false} LiveSlotsAre(slots: seq<Option<Slot>>, firstIndex: int, s: Slot)
    ensures s in LiveSlots(slots, firstIndex) <==> Some(s) in slots && s.bucketIndex >= firstIndex
  {
    if slots != [] {
      LiveSlotsAre(slots[1..], firstIndex, s);
      assert slots == [slots[0]] + slots[1..];
      assert Some(s) in slots <==> Some(s) == slots[0] || Some(s) in slots[1..];
    }
  }

  ghost predicate OneSlotPerBucket(slots: seq<Option<Slot>>) {
    forall i, j | 0 <= i < j < |slots| && slots[i].Some? && slots[j].Some? ::
      slots[i].value.bucketIndex != slots[j].value.bucketIndex
  }

  ghost predicate BucketsDiffer(s: seq<Slot>) {
    forall i, j | 0 <= i < j < |s| :: s[i].bucketIndex != s[j].bucketIndex
  }

  lemma {:induction false} LiveSlotsDiffer(slots: seq<Option<Slot>>, firstIndex: int)
    requires OneSlotPerBucket(slots)
    ensures BucketsDiffer(LiveSlots(slots, firstIndex))
  {
    if slots != [] {
      LiveSlotsDiffer(slots[1..], firstIndex);
      var rest := LiveSlots(slots[1..], firstIndex);
      forall j | 0 <= j < |rest| ensures slots[0].Some? ==> slots[0].value.bucketIndex != rest[j].bucketIndex {
        LiveSlotsAre(slots[1..], firstIndex, rest[j]);
        var k :| 0 <= k < |slots[1..]| && slots[1..][k] == Some(rest[j]);
        assert slots[k + 1] == Some(rest[j]);
      }
    }
  }

  lemma {:induction false} InsertAscends(x: Slot, s: seq<Slot>)
    requires Ascending(Buckets(s)) && forall y | y in s :: y.bucketIndex != x.bucketIndex
    ensures Ascending(Buckets(Insert(ByBucket, x, s)))
  {
    var r := Insert(ByBucket, x, s);
    if s != [] && ByBucket(x, s[0]) <= 0 {
      assert x.bucketIndex < s[0].bucketIndex by { assert s[0] in s; }
      forall i, j | 0 <= i < j < |r| ensures Buckets(r)[i] < Buckets(r)[j] {
        if i > 0 {
          assert Buckets(s)[i - 1] < Buckets(s)[j - 1];
        } else if j > 1 {
          assert Buckets(s)[0] < Buckets(s)[j - 1];
        }
      }
    } else if s != [] {
      var rest := Insert(ByBucket, x, s[1..]);
      forall i, j | 0 <= i < j < |s[1..]| ensures Buckets(s[1..])[i] < Buckets(s[1..])[j] {
        assert Buckets(s)[i + 1] < Buckets(s)[j + 1];
      }
      InsertAscends(x, s[1..]);
      forall j | 0 <= j < |rest| ensures s[0].bucketIndex < rest[j].bucketIndex {
        assert rest[j] in multiset(rest);
        if rest[j] != x {
          assert rest[j] in s[1..];
          var k :| 0 <= k < |s[1..]| && s[1..][k] == rest[j];
          assert Buckets(s)[0] < Buckets(s)[k + 1];
        }
      }
      PrependAscends(s[0], rest);
    }
  }

  lemma {:induction false} PrependAscends(x: Slot, rest: seq<Slot>)
    requires Ascending(Buckets(rest)) && forall j | 0 <= j < |rest| :: x.bucketIndex < rest[j].bucketIndex
    ensures Ascending(Buckets([x] + rest))
  {
    assert Buckets([x] + rest) == [x.bucketIndex] + Buckets(rest);
  }

  lemma {:induction false} SortAscends(s: seq<Slot>)
    requires BucketsDiffer(s)
    ensures Ascending(Buckets(Sort(ByBucket, s)))
  {
    if s != [] {
      SortAscends(s[1..]);
      var rest := Sort(ByBucket, s[1..]);
      forall y | y in rest ensures y.bucketIndex != s[0].bucketIndex {
        assert y in multiset(rest);
        assert y in s[1..];
      }
      InsertAscends(s[0], rest);
    }
  }

  /** The window's slots: strictly ascending, each one a sampled bucket no later bucket has displaced, and all of those. */
  lemma {:induction false} WindowSlotsAre(log: seq<Sample>, sinceMs: int)
    requires Monotone(log)
    ensures var live := WindowSlots(Ring(log), sinceMs);
            && Ascending(Buckets(live))
            && (forall s | s in live :: Represents(s, log))
            && (forall b :: b in Buckets(live) <==> Sampled(log, b) && b >= BucketOf(sinceMs) && !Overwritten(log, b))
  {
    var live := WindowSlots(Ring(log), sinceMs);
    RingHasOneSlotPerBucket(log);
    LiveSlotsDiffer(Ring(log), BucketOf(sinceMs));
    SortAscends(LiveSlots(Ring(log), BucketOf(sinceMs)));
    forall s | s in live ensures Represents(s, log) {
      WindowSlotComesFromRing(log, sinceMs, s);
    }
    forall b ensures b in Buckets(live) <==> Sampled(log, b) && b >= BucketOf(sinceMs) && !Overwritten(log, b) {
      WindowHolds(log, sinceMs, b);
    }
  }

  lemma {:induction false} RingHasOneSlotPerBucket(log: seq<Sample>)
    requires Monotone(log)
    ensures OneSlotPerBucket(Ring(log))
  {
    var slots := Ring(log);
    forall i, j | 0 <= i < j < |slots| && slots[i].Some? && slots[j].Some?
      ensures slots[i].value.bucketIndex != slots[j].value.bucketIndex
    {
      RingRefinesLog(log, i);
      RingRefinesLog(log, j);
    }
  }

  lemma {:induction false} WindowSlotComesFromRing(log: seq<Sample>, sinceMs: int, s: Slot)
    requires Monotone(log)
    ensures s in WindowSlots(Ring(log), sinceMs) <==> Some(s) in Ring(log) && s.bucketIndex >= BucketOf(sinceMs)
    ensures s in WindowSlots(Ring(log), sinceMs) ==>
              Represents(s, log) && Sampled(log, s.bucketIndex) && !Overwritten(log, s.bucketIndex)
  {
    var unsorted := LiveSlots(Ring(log), BucketOf(sinceMs));
    assert s in multiset(WindowSlots(Ring(log), sinceMs)) <==> s in multiset(unsorted);
    LiveSlotsAre(Ring(log), BucketOf(sinceMs), s);
    if s in unsorted {
      var p :| 0 <= p < |Ring(log)| && Ring(log)[p] == Some(s);
      RingRefinesLog(log, p);
    }
  }

  lemma {:induction false} WindowHolds(log: seq<Sample>, sinceMs: int, b: int)
    requires Monotone(log)
    ensures b in Buckets(WindowSlots(Ring(log), sinceMs)) <==>
            Sampled(log, b) && b >= BucketOf(sinceMs) && !Overwritten(log, b)
  {
    var live := WindowSlots(Ring(log), sinceMs);
    if b in Buckets(live) {
      var k :| 0 <= k < |Buckets(live)| && Buckets(live)[k] == b;
      WindowSlotComesFromRing(log, sinceMs, live[k]);
    }
    if Sampled(log, b) && b >= BucketOf(sinceMs) && !Overwritten(log, b) {
      HoldsUndisplacedBucket(log, b);
      var s := Ring(log)[b % BUCKET_CAPACITY].value;
      WindowSlotComesFromRing(log, sinceMs, s);
      var k :| 0 <= k < |live| && live[k] == s;
      assert Buckets(live)[k] == b;
    }
  }

  lemma {:induction false} HoldsUndisplacedBucket(log: seq<Sample>, b: int)
    requires Monotone(log) && Sampled(log, b) && !Overwritten(log, b)
    ensures var s := Ring(log)[b % BUCKET_CAPACITY]; s.Some? && s.value.bucketIndex == b
  {
    var p := b % BUCKET_CAPACITY;
    RingRefinesLog(log, p);
    var s := Ring(log)[p];
    assert s.Some?;
    assert Sampled(log, s.value.bucketIndex) && !Overwritten(log, s.value.bucketIndex);
  }

  /**
   The window is the list the unbounded log gives exactly when no bucket of it
   has lost its slot, and that is so whenever the window starts fewer than 2880
   buckets before the last sample.
   */
  lemma {:induction false} WindowAgreesIffNothingOverwritten(log: seq<Sample>, sinceMs: int, now: int)
    requires Monotone(log) && NoneAfter(log, now)
    ensures var shown := Buckets(WindowSlots(Ring(log), sinceMs));
            var first, last := BucketOf(sinceMs), BucketOf(now);
            && (shown == SampledBuckets(log, first, last) <==> forall b :: Sampled(log, b) && b >= first ==> !Overwritten(log, b))
            && (log != [] && first > BucketOf(log[|log| - 1].atMs) - 2880 ==> shown == SampledBuckets(log, first, last))
  {
    var first, last := BucketOf(sinceMs), BucketOf(now);
    var shown := Buckets(WindowSlots(Ring(log), sinceMs));
    WindowSlotsAre(log, sinceMs);
    SampledBucketsAre(log, first, last);
    forall b | Sampled(log, b) ensures b <= last {
      var i :| 0 <= i < |log| && BucketOf(log[i].atMs) == b;
    }
    if forall b :: Sampled(log, b) && b >= first ==> !Overwritten(log, b) {
      AscendingIsUnique(shown, SampledBuckets(log, first, last));
    } else {
      var b :| Sampled(log, b) && b >= first && Overwritten(log, b);
      assert b in SampledBuckets(log, first, last) && b !in shown;
    }
    if log != [] && first > BucketOf(log[|log| - 1].atMs) - BUCKET_CAPACITY {
      forall b | Sampled(log, b) && b >= first ensures !Overwritten(log, b) {
        forall later | Sampled(log, later) && later > b
          ensures later % BUCKET_CAPACITY != b % BUCKET_CAPACITY
        {
          LastBucketIsGreatest(log, later);
          CongruentMeansFar(b, later);
        }
      }
    }
  }

  lemma {:induction false} CongruentMeansFar(b: int, later: int)
    ensures b < later < b + BUCKET_CAPACITY ==> later % BUCKET_CAPACITY != b % BUCKET_CAPACITY
  {
  }

  /** The statistics one point shows for one series, by their meaning. */
  ghost predicate Describes(stats: SeriesStats, values: seq<real>) {
    && stats.count == |values| && stats.avg * stats.count as real == Sum(values)
    && stats.min in values && (forall v | v in values :: stats.min <= v)
    && stats.max in values && (forall v | v in values :: v <= stats.max)
  }

  /** Every point shows exactly the series its bucket sampled, with the statistics of all their raw values. */
  lemma {:induction false} PointsDescribeTheLog(log: seq<Sample>, sinceMs: int, i: nat)
    requires Monotone(log) && i < |Window(Ring(log), sinceMs)|
    ensures var point := Window(Ring(log), sinceMs)[i];
            var bucket := point.bucketStartMs / BUCKET_MS;
            && point.bucketStartMs % BUCKET_MS == 0 && Sampled(log, bucket)
            && (forall name :: name in point.series <==> Raw(log, bucket, name) != [])
            && (forall name | name in point.series :: Describes(point.series[name], Raw(log, bucket, name)))
  {
    var slot := WindowSlots(Ring(log), sinceMs)[i];
    WindowSlotComesFromRing(log, sinceMs, slot);
    SlotDescribes(slot, log);
  }

  lemma {:induction false} StatsDescribe(a: Accumulator, values: seq<real>)
    requires Summarizes(a, values)
    ensures Describes(ToStats(a), values)
  {
  }

  lemma {:induction false} SlotDescribes(slot: Slot, log: seq<Sample>)
    requires Represents(slot, log)
    ensures var point := ToPoint(slot);
            && point.bucketStartMs / BUCKET_MS == slot.bucketIndex && point.bucketStartMs % BUCKET_MS == 0
            && (forall name :: name in point.series <==> Raw(log, slot.bucketIndex, name) != [])
            && (forall name | name in point.series :: Describes(point.series[name], Raw(log, slot.bucketIndex, name)))
  {
    forall name | name in slot.series ensures Describes(ToStats(slot.series[name]), Raw(log, slot.bucketIndex, name)) {
      StatsDescribe(slot.series[name], Raw(log, slot.bucketIndex, name));
    }
  }

  lemma {:induction false} PointStartsAtItsBucket(log: seq<Sample>, sinceMs: int, i: nat)
    requires Monotone(log) && i < |Window(Ring(log), sinceMs)|
    ensures var bucket := Buckets(WindowSlots(Ring(log), sinceMs))[i];
            Window(Ring(log), sinceMs)[i].bucketStartMs == bucket * BUCKET_MS && bucket >= BucketOf(sinceMs)
  {
    var buckets := Buckets(WindowSlots(Ring(log), sinceMs));
    WindowHolds(log, sinceMs, buckets[i]);
    assert buckets[i] in buckets;
  }

  /** The points a caller may expect since `sinceMs`: one per sampled bucket that kept its slot, oldest first. */
  ghost predicate ShowsTheLog(points: seq<HistoryPoint>, log: seq<Sample>, sinceMs: int) {
    && (forall i, j | 0 <= i < j < |points| :: points[i].bucketStartMs < points[j].bucketStartMs)
    && (forall b :: (exists i :: 0 <= i < |points| && points[i].bucketStartMs == b * BUCKET_MS) <==>
                    Sampled(log, b) && b >= BucketOf(sinceMs) && !Overwritten(log, b))
    && (forall i | 0 <= i < |points| :: PointDescribes(points[i], log))
  }

  ghost predicate PointDescribes(point: HistoryPoint, log: seq<Sample>) {
    var bucket := point.bucketStartMs / BUCKET_MS;
    && (forall name :: name in point.series <==> Raw(log, bucket, name) != [])
    && (forall name | name in point.series :: Describes(point.series[name], Raw(log, bucket, name)))
  }

  lemma {:induction false} WindowShowsTheLog(log: seq<Sample>, sinceMs: int)
    requires Monotone(log)
    ensures ShowsTheLog(Window(Ring(log), sinceMs), log, sinceMs)
  {
    var points, buckets := Window(Ring(log), sinceMs), Buckets(WindowSlots(Ring(log), sinceMs));
    WindowSlotsAre(log, sinceMs);
    forall i | 0 <= i < |points| ensures points[i].bucketStartMs == buckets[i] * BUCKET_MS && PointDescribes(points[i], log) {
      PointStartsAtItsBucket(log, sinceMs, i);
      PointsDescribeTheLog(log, sinceMs, i);
    }
    forall b ensures (exists i :: 0 <= i < |points| && points[i].bucketStartMs == b * BUCKET_MS) <==> b in buckets {
      if b in buckets {
        var i :| 0 <= i < |buckets| && buckets[i] == b;
        assert points[i].bucketStartMs == b * BUCKET_MS;
      }
    }
  }

  /**
   The doc comment promises buckets that start at or after `sinceMs`. That holds
   exactly when `sinceMs` is a bucket boundary or its own bucket has no point;
   otherwise the bucket that contains `sinceMs` is reported too.
   */
  lemma {:induction false} WindowStartsWithTheBucketContainingSince(log: seq<Sample>, sinceMs: int)
    requires Monotone(log)
    ensures var points := Window(Ring(log), sinceMs);
            && (forall i | 0 <= i < |points| :: points[i].bucketStartMs + BUCKET_MS > sinceMs)
            && ((forall i | 0 <= i < |points| :: points[i].bucketStartMs >= sinceMs) <==>
                sinceMs % BUCKET_MS == 0 || !Sampled(log, BucketOf(sinceMs)) || Overwritten(log, BucketOf(sinceMs)))
  {
    var buckets := Buckets(WindowSlots(Ring(log), sinceMs));
    var points := Window(Ring(log), sinceMs);
    var first := BucketOf(sinceMs);
    WindowHolds(log, sinceMs, first);
    forall i | 0 <= i < |points|
      ensures points[i].bucketStartMs == buckets[i] * BUCKET_MS && buckets[i] >= first
    {
      PointStartsAtItsBucket(log, sinceMs, i);
    }
    if sinceMs % BUCKET_MS != 0 && first in buckets {
      var i :| 0 <= i < |buckets| && buckets[i] == first;
      assert points[i].bucketStartMs < sinceMs;
    }
  }

  // ---------------------------------------------------------------- gaps

  datatype HistoryWindow = HistoryWindow(points: seq<HistoryPoint>, gaps: int, expectedBuckets: int)

  function Max(a: int, b: int): int { if a > b then a else b }

  function CeilingDivide(a: int, b: int): int
    requires b > 0
  {
    (a + b - 1) / b
  }

  /** The window goes back the minutes asked for, but not beyond the start of the recording. */
  predicate StartsWindow(startedAt: Option<int>, now: int, windowMinutes: int, start: int) {
    && start >= now - windowMinutes * 60_000
    && (startedAt.Some? ==> start >= startedAt.value)
    && (start == now - windowMinutes * 60_000 || startedAt == Some(start))
  }

  /** The least positive number of 30-second buckets that covers a span of time. */
  predicate CoversSpan(buckets: int, span: int) {
    buckets >= 1 && buckets * 30_000 >= span && (buckets > 1 ==> (buckets - 1) * 30_000 < span)
  }

  function ExpectedBuckets(sinceMs: int, now: int): int {
    Max(1, CeilingDivide(now - sinceMs, BUCKET_MS))
  }

  lemma {:induction false} ExpectedCoversSpan(sinceMs: int, now: int)
    ensures CoversSpan(ExpectedBuckets(sinceMs, now), now - sinceMs)
  {
    var span := now - sinceMs;
    var q := (span + BUCKET_MS - 1) / BUCKET_MS;
    assert q * BUCKET_MS <= span + BUCKET_MS - 1 < q * BUCKET_MS + BUCKET_MS;
  }

  function Reported(points: seq<HistoryPoint>, sinceMs: int, now: int): HistoryWindow {
    var expected := ExpectedBuckets(sinceMs, now);
    HistoryWindow(points, Max(0, expected - |points|), expected)
  }

  function GapsOf(log: seq<Sample>, sinceMs: int, now: int): int {
    Reported(Window(Ring(log), sinceMs), sinceMs, now).gaps
  }

  /** The true number of buckets meeting `[sinceMs, now]` that hold no sample. */
  function SamplelessBuckets(log: seq<Sample>, first: int, last: int): nat
    decreases last - first + 1
  {
    if last < first then 0
    else SamplelessBuckets(log, first, last - 1) + (if Sampled(log, last) then 0 else 1)
  }

  lemma {:induction false} EveryBucketIsSampledOrNot(log: seq<Sample>, first: int, last: int)
    requires first <= last + 1
    ensures SamplelessBuckets(log, first, last) + |SampledBuckets(log, first, last)| == last - first + 1
    decreases last - first + 1
  {
    if first <= last { EveryBucketIsSampledOrNot(log, first, last - 1); }
  }

  /** The recorder expects one bucket too few exactly when the window straddles a boundary it does not fill. */
  lemma {:induction false} ExpectedIsTrueCountOrOneLess(sinceMs: int, now: int)
    requires sinceMs <= now
    ensures var n := BucketOf(now) - BucketOf(sinceMs) + 1;
            ExpectedBuckets(sinceMs, now) ==
            if n == 1 || sinceMs % BUCKET_MS < now % BUCKET_MS then n else n - 1
  {
    var q, r := BucketOf(sinceMs), sinceMs % BUCKET_MS;
    var q', r' := BucketOf(now), now % BUCKET_MS;
    assert now - sinceMs + BUCKET_MS - 1 == (q' - q) * BUCKET_MS + (r' - r + BUCKET_MS - 1);
    if r < r' {
      QuotientOf(q' - q + 1, r' - r - 1);
    } else if r' - r + BUCKET_MS - 1 >= 0 {
      QuotientOf(q' - q, r' - r + BUCKET_MS - 1);
    }
  }

  lemma {:induction false} QuotientOf(q: int, r: int)
    requires 0 <= r < BUCKET_MS
    ensures (q * BUCKET_MS + r) / BUCKET_MS == q
  {
  }

  /** A window of at most 24 hours can lose only its first bucket, to the bucket of `now`. */
  lemma {:induction false} OnlyTheFirstBucketCanBeLost(log: seq<Sample>, sinceMs: int, now: int, b: int)
    requires NoneAfter(log, now) && sinceMs <= now <= sinceMs + RETENTION_MS
    requires Sampled(log, b) && b >= BucketOf(sinceMs) && Overwritten(log, b)
    ensures b == BucketOf(sinceMs) && BucketOf(now) == b + BUCKET_CAPACITY
    ensures now % BUCKET_MS <= sinceMs % BUCKET_MS
  {
    var later :| Sampled(log, later) && later > b && later % BUCKET_CAPACITY == b % BUCKET_CAPACITY;
    var i :| 0 <= i < |log| && BucketOf(log[i].atMs) == later;
    assert later <= BucketOf(now);
    CongruentMeansFar(b, later);
    assert BucketOf(now) <= BucketOf(sinceMs) + BUCKET_CAPACITY;
  }

  /** A window of at most 24 hours shows every sampled bucket, except its first when that has lost its slot. */
  lemma {:induction false} OnlyTheFirstIsMissing(log: seq<Sample>, sinceMs: int, now: int)
    requires Monotone(log) && NoneAfter(log, now) && sinceMs <= now <= sinceMs + RETENTION_MS
    ensures var first, last := BucketOf(sinceMs), BucketOf(now);
            |Window(Ring(log), sinceMs)|
              == |SampledBuckets(log, first, last)| - if Sampled(log, first) && Overwritten(log, first) then 1 else 0
  {
    var first := BucketOf(sinceMs);
    if Sampled(log, first) && Overwritten(log, first) {
      OnlyTheFirstBucketCanBeLost(log, sinceMs, now, first);
      FirstBucketLost(log, sinceMs, now);
    } else {
      forall b | Sampled(log, b) && b >= first ensures !Overwritten(log, b) {
        if Overwritten(log, b) { OnlyTheFirstBucketCanBeLost(log, sinceMs, now, b); }
      }
      WindowAgreesIffNothingOverwritten(log, sinceMs, now);
    }
  }

  /**
   For every alignment of a window of at most 24 hours, `gaps` is the number of
   sampleless buckets or one less, and it is exact precisely in the listed cases.
   */
  lemma {:induction false} GapsAreOffByAtMostOne(log: seq<Sample>, sinceMs: int, now: int)
    requires Monotone(log) && NoneAfter(log, now) && sinceMs <= now <= sinceMs + RETENTION_MS
    ensures var missing := SamplelessBuckets(log, BucketOf(sinceMs), BucketOf(now));
            var gaps := GapsOf(log, sinceMs, now);
            && missing - 1 <= gaps <= missing
            && (gaps == missing <==>
                || missing == 0
                || BucketOf(sinceMs) == BucketOf(now)
                || sinceMs % BUCKET_MS < now % BUCKET_MS
                || (Sampled(log, BucketOf(sinceMs)) && Overwritten(log, BucketOf(sinceMs))))
  {
    var first, last := BucketOf(sinceMs), BucketOf(now);
    EveryBucketIsSampledOrNot(log, first, last);
    ExpectedIsTrueCountOrOneLess(sinceMs, now);
    OnlyTheFirstIsMissing(log, sinceMs, now);
    if Sampled(log, first) && Overwritten(log, first) { OnlyTheFirstBucketCanBeLost(log, sinceMs, now, first); }
  }

  lemma {:induction false} AscendingSubsetIsShorter(a: seq<int>, b: seq<int>)
    requires Ascending(a) && Ascending(b) && forall x | x in a :: x in b
    ensures |a| <= |b|
    decreases |b|
  {
    if a != [] {
      assert a[|a| - 1] in a && a[|a| - 1] in b;
      var a', b' := a[..|a| - 1], b[..|b| - 1];
      forall x | x in a' ensures x in b' {
        var i :| 0 <= i < |a'| && a'[i] == x;
        assert a[i] in a;
        var j :| 0 <= j < |b| && b[j] == x;
        var k :| 0 <= k < |b| && b[k] == a[|a| - 1];
        assert j < k;
        assert b'[j] == x;
      }
      AscendingSubsetIsShorter(a', b');
    }
  }

  lemma {:induction false} SampledBucketsSplit(log: seq<Sample>, first: int, mid: int, last: int)
    requires first <= mid + 1 <= last + 1
    ensures SampledBuckets(log, first, last) == SampledBuckets(log, first, mid) + SampledBuckets(log, mid + 1, last)
    decreases last - mid
  {
    if mid == last {
      assert SampledBuckets(log, mid + 1, last) == [];
    } else {
      SampledBucketsSplit(log, first, mid, last - 1);
    }
  }

  /** Buckets the ring has overwritten, of a window of any length. */
  lemma {:induction false} LostBucketsAreBounded(log: seq<Sample>, sinceMs: int, now: int)
    requires Monotone(log) && NoneAfter(log, now) && sinceMs <= now
    ensures var first, last := BucketOf(sinceMs), BucketOf(now);
            0 <= |SampledBuckets(log, first, last)| - |Window(Ring(log), sinceMs)| <= Max(0, last - first - 2880 + 1)
  {
    var first, last := BucketOf(sinceMs), BucketOf(now);
    var shown := Buckets(WindowSlots(Ring(log), sinceMs));
    var mid := Max(first - 1, last - BUCKET_CAPACITY);
    WindowSlotsAre(log, sinceMs);
    SampledBucketsAre(log, first, last);
    SampledBucketsAre(log, mid + 1, last);
    forall b | Sampled(log, b) ensures b <= last {
      var i :| 0 <= i < |log| && BucketOf(log[i].atMs) == b;
    }
    forall b | b in SampledBuckets(log, mid + 1, last) ensures b in shown {
      if Overwritten(log, b) {
        var later :| Sampled(log, later) && later > b && later % BUCKET_CAPACITY == b % BUCKET_CAPACITY;
        CongruentMeansFar(b, later);
      }
    }
    AscendingSubsetIsShorter(SampledBuckets(log, mid + 1, last), shown);
    AscendingSubsetIsShorter(shown, SampledBuckets(log, first, last));
    SampledBucketsSplit(log, first, mid, last);
    EveryBucketIsSampledOrNot(log, first, mid);
  }

  /** At least the sampleless buckets or one less; at most those and the buckets beyond the ring. */
  ghost predicate GapsAreBounded(gaps: int, log: seq<Sample>, sinceMs: int, now: int) {
    var first, last := BucketOf(sinceMs), BucketOf(now);
    var missing := SamplelessBuckets(log, first, last);
    missing - 1 <= gaps <= missing + Max(0, last - first - 2880 + 1)
  }

  /**
   For windows of any length `gaps` is at least the number of sampleless buckets
   less one, and counts at most the buckets beyond 24 hours as further gaps.
   */
  lemma {:induction false} GapsOverAnyWindow(log: seq<Sample>, sinceMs: int, now: int)
    requires Monotone(log) && NoneAfter(log, now) && sinceMs <= now
    ensures GapsAreBounded(GapsOf(log, sinceMs, now), log, sinceMs, now)
  {
    EveryBucketIsSampledOrNot(log, BucketOf(sinceMs), BucketOf(now));
    ExpectedIsTrueCountOrOneLess(sinceMs, now);
    LostBucketsAreBounded(log, sinceMs, now);
  }

  /** The points show the log, and `gaps` keeps its bounds when no sample is later than the clock. */
  ghost predicate TellsTheLog(w: HistoryWindow, log: seq<Sample>, sinceMs: int, now: int) {
    Monotone(log) ==>
      && ShowsTheLog(w.points, log, sinceMs)
      && (NoneAfter(log, now) && sinceMs <= now ==> GapsAreBounded(w.gaps, log, sinceMs, now))
  }

  lemma {:induction false} WindowTellsTheLog(log: seq<Sample>, sinceMs: int, now: int)
    ensures TellsTheLog(Reported(Window(Ring(log), sinceMs), sinceMs, now), log, sinceMs, now)
  {
    if Monotone(log) {
      WindowShowsTheLog(log, sinceMs);
      if NoneAfter(log, now) && sinceMs <= now { GapsOverAnyWindow(log, sinceMs, now); }
    }
  }

  lemma {:induction false} LostOnlyFirst(log: seq<Sample>, sinceMs: int, now: int, b: int)
    requires NoneAfter(log, now) && sinceMs <= now <= sinceMs + RETENTION_MS
    ensures Sampled(log, b) ==> b <= BucketOf(now)
    ensures Sampled(log, b) && b >= BucketOf(sinceMs) && Overwritten(log, b) ==> b == BucketOf(sinceMs)
  {
    if Sampled(log, b) {
      var i :| 0 <= i < |log| && BucketOf(log[i].atMs) == b;
      if b >= BucketOf(sinceMs) && Overwritten(log, b) { OnlyTheFirstBucketCanBeLost(log, sinceMs, now, b); }
    }
  }

  lemma {:induction false} HeadIsLeast(s: seq<int>, least: int)
    requires Ascending(s) && least in s && forall x | x in s :: x >= least
    ensures s[0] == least && Ascending(s[1..]) && forall x :: x in s[1..] <==> x in s && x != least
  {
    assert s[0] in s;
    assert s == [s[0]] + s[1..];
  }

  lemma {:induction false} FirstBucketLost(log: seq<Sample>, sinceMs: int, now: int)
    requires Monotone(log) && NoneAfter(log, now) && sinceMs <= now <= sinceMs + RETENTION_MS
    requires Sampled(log, BucketOf(sinceMs)) && Overwritten(log, BucketOf(sinceMs))
    ensures |WindowSlots(Ring(log), sinceMs)| == |SampledBuckets(log, BucketOf(sinceMs), BucketOf(now))| - 1
  {
    var first, last := BucketOf(sinceMs), BucketOf(now);
    var shown := Buckets(WindowSlots(Ring(log), sinceMs));
    var all := SampledBuckets(log, first, last);
    WindowSlotsAre(log, sinceMs);
    SampledBucketsAre(log, first, last);
    HeadIsLeast(all, first);
    forall b ensures b in shown <==> b in all[1..] {
      LostOnlyFirst(log, sinceMs, now, b);
    }
    AscendingIsUnique(shown, all[1..]);
  }

  /** An alignment that undercounts: a window of 1 ms across a boundary meets two empty buckets and reports one gap. */
  lemma {:induction false} GapsUndercountExample()
    ensures SamplelessBuckets([], BucketOf(29_999), BucketOf(30_000)) == 2
    ensures GapsOf([], 29_999, 30_000) == 1
  {
    WindowAgreesIffNothingOverwritten([], 29_999, 30_000);
    SampledBucketsAre([], 0, 1);
    var live := Buckets(WindowSlots(Ring([]), 29_999));
    assert live == [] <== forall b :: b !in live;
    assert BucketOf(29_999) == 0 && BucketOf(30_000) == 1;
    assert SamplelessBuckets([], 0, 0) == 1;
  }

  // ---------------------------------------------------------------- the classes

  lemma {:induction false} FoldOneMore(series: map<string, Accumulator>, values: map<string, real>, names: set<string>, name: string)
    requires names <= values.Keys && name in values && name !in names
    ensures FoldNames(series, values, names + {name})
         == FoldNames(series, values, names)[name := Fold(Get(FoldNames(series, values, names), name), values[name])]
  {
  }

  lemma {:induction false} FoldNone(series: map<string, Accumulator>, values: map<string, real>)
    ensures FoldNames(series, values, {}) == series
  {
  }

  /** Visits the entries in any order. */
  method FoldValues(series: map<string, Accumulator>, values: map<string, real>) returns (folded: map<string, Accumulator>)
    ensures folded == FoldSample(series, values)
  {
    folded := series;
    var pending := values.Keys;
    ghost var done := {};
    FoldNone(series, values);
    while pending != {}
      invariant done <= values.Keys && pending == values.Keys - done
      invariant folded == FoldNames(series, values, done)
      decreases pending
    {
      var name :| name in pending;
      FoldOneMore(series, values, done, name);
      folded := folded[name := Fold(Get(folded, name), values[name])];
      done := done + {name};
      pending := pending - {name};
    }
    assert done == values.Keys;
  }

  /** The ring buffer: one array written in place. */
  class MetricRingBuffer {
    const slots: array<Option<Slot>>

    ghost predicate Valid()
      reads this
    {
      slots.Length == BUCKET_CAPACITY
    }

    constructor ()
      ensures Valid() && fresh(slots) && slots[..] == Ring([])
    {
      slots := new Option<Slot>[BUCKET_CAPACITY](_ => None);
      new;
      assert slots[..] == Ring([]);
    }

    method Add(values: map<string, real>, atMs: nat)
      requires Valid()
      modifies slots
      ensures slots[..] == AddSample(old(slots[..]), Sample(values, atMs))
    {
      var bucketIndex := BucketOf(atMs);
      var position := bucketIndex % BUCKET_CAPACITY;
      var existing := slots[position];
      var series: map<string, Accumulator> := map[];
      if existing.Some? && existing.value.bucketIndex == bucketIndex {
        series := existing.value.series;
      }
      series := FoldValues(series, values);
      slots[position] := Some(Slot(bucketIndex, series));
    }

    /** Keeps the ring equal to the ring of the whole history. */
    ghost predicate Holds(log: seq<Sample>)
      requires Valid()
      reads this, slots
    {
      slots[..] == Ring(log)
    }

    method Record(values: map<string, real>, atMs: nat, ghost log: seq<Sample>)
      requires Valid() && Holds(log)
      modifies slots
      ensures Holds(log + [Sample(values, atMs)])
    {
      Add(values, atMs);
      assert (log + [Sample(values, atMs)])[..|log|] == log;
    }

    /** Of a ring that holds `log`: the points of its window, which show exactly what the log says. */
    method PointsSince(sinceMs: int, ghost log: seq<Sample>) returns (points: seq<HistoryPoint>)
      requires Valid() && Holds(log)
      ensures points == Window(Ring(log), sinceMs)
      ensures Monotone(log) ==> ShowsTheLog(points, log, sinceMs)
    {
      points := Window(slots[..], sinceMs);
      if Monotone(log) { WindowShowsTheLog(log, sinceMs); }
    }
  }

  const METRIC_TOPICS := 3

  /** 0 to n - 1, in order. */
  function Numbers(n: nat): (r: seq<nat>)
    ensures |r| == n && forall k :: 0 <= k < n ==> r[k] == k
  {
    seq(n, k => k)
  }

  /**
   The recorder, over one topic's buffer. Feed subscriptions are numbered as they
   are made, and an unsubscribe function is the number of the one it ends.
   `ended` lists the numbers ended, one element per call.
   */
  class MetricsHistoryRecorder {
    const buffer: MetricRingBuffer
    var startedAt: Option<int>
    var unsubscribers: seq<nat>
    var subscribed: nat
    ghost var ended: seq<nat>

    /** Every subscription ever made was ended exactly once or still has its unsubscribe function. */
    ghost predicate Valid()
      reads this
    {
      && ended + unsubscribers == Numbers(subscribed)
      && |unsubscribers| == if startedAt.Some? then METRIC_TOPICS else 0
    }

    constructor (buffer: MetricRingBuffer)
      ensures Valid() && this.buffer == buffer && startedAt == None && unsubscribers == []
    {
      this.buffer, startedAt, unsubscribers, subscribed, ended := buffer, None, [], 0, [];
    }

    /** Opens one subscription per topic; a second start while running changes nothing. */
    method Start(now: int)
      requires Valid()
      modifies this
      ensures Valid() && startedAt == Some(old(startedAt).GetOr(now)) && ended == old(ended)
      ensures subscribed == old(subscribed) + if old(startedAt).Some? then 0 else METRIC_TOPICS
    {
      if startedAt.Some? {
        return;
      }
      startedAt := Some(now);
      for topic := 0 to METRIC_TOPICS
        invariant startedAt == Some(now) && ended == old(ended)
        invariant |unsubscribers| == topic && subscribed == old(subscribed) + topic
        invariant ended + unsubscribers == Numbers(subscribed)
      {
        assert Numbers(subscribed) + [subscribed] == Numbers(subscribed + 1);
        assert ended + (unsubscribers + [subscribed]) == (ended + unsubscribers) + [subscribed];
        unsubscribers := unsubscribers + [subscribed];
        subscribed := subscribed + 1;
      }
    }

    /** Ends every open subscription, each exactly once; the buffer keeps its samples. */
    method Dispose()
      requires Valid()
      modifies this
      ensures Valid() && startedAt == None && unsubscribers == []
      ensures subscribed == old(subscribed) && ended == Numbers(subscribed)
    {
      var spliced := unsubscribers;
      unsubscribers := [];
      for i := 0 to |spliced|
        invariant unsubscribers == [] && subscribed == old(subscribed)
        invariant ended == old(ended) + spliced[..i]
      {
        ended := ended + [spliced[i]];
      }
      startedAt := None;
    }

    /** The clock is read twice, so `later` may be after `now`. */
    method WindowOf(windowMinutes: int, now: int, later: int, ghost log: seq<Sample>)
      returns (w: HistoryWindow, ghost start: int)
      requires buffer.Valid() && buffer.Holds(log)
      ensures StartsWindow(startedAt, now, windowMinutes, start)
      ensures CoversSpan(w.expectedBuckets, later - start)
      ensures w.gaps == if w.expectedBuckets > |w.points| then w.expectedBuckets - |w.points| else 0
      ensures TellsTheLog(w, log, start, later)
    {
      var requested := now - windowMinutes * MS_PER_MINUTE;
      var since := Max(requested, startedAt.GetOr(requested));
      start := since;
      ExpectedCoversSpan(since, later);
      var points := buffer.PointsSince(since, log);
      w := Reported(points, since, later);
      WindowTellsTheLog(log, since, later);
    }
  }

  /**
   Every window the tool can ask for, the clock being read twice: at most the
   oldest bucket is lost to the newest, and `gaps` is the number of sampleless
   buckets or one less, unless the second reading is more than 24 hours after
   the start; then the general bounds hold.
   */
  lemma {:induction false} ToolWindowsAreCovered(log: seq<Sample>, startedAt: Option<int>, now: int, later: int,
                                                 windowMinutes: int, start: int)
    requires Monotone(log) && NoneAfter(log, later) && now <= later
    requires 0 < windowMinutes <= 1440 && (startedAt.Some? ==> startedAt.value <= now)
    requires StartsWindow(startedAt, now, windowMinutes, start)
    ensures var first, last := BucketOf(start), BucketOf(later);
            var missing, gaps := SamplelessBuckets(log, first, last), GapsOf(log, start, later);
            && start <= now <= start + RETENTION_MS
            && (later <= start + RETENTION_MS ==>
                 missing - 1 <= gaps <= missing && forall b | Sampled(log, b) && b > first :: !Overwritten(log, b))
            && missing - 1 <= gaps <= missing + Max(0, last - first - 2880 + 1)
  {
    GapsOverAnyWindow(log, start, later);
    if later <= start + RETENTION_MS {
      GapsAreOffByAtMostOne(log, start, later);
      forall b | Sampled(log, b) && b > BucketOf(start) ensures !Overwritten(log, b) { LostOnlyFirst(log, start, later, b); }
    }
  }
}
