/** The per-container aggregate of docker-stats events and the latest-sample store it lives in. */
module LiveStore {
  import opened Wrappers

  const DOCKER_STATS_TOPIC := "dockerContainerStats"
  const DOCKER_CONTAINER_EVICTION_MS := 30_000

  /** One container's figures; what they are does not matter here. */
  datatype Stats = Stats(id: string, figures: seq<string>)

  datatype Stamped = Stamped(stats: Stats, seenAtMs: int)

  type Aggregate = map<string, Stamped>

  /** The incoming payload may hold no stats, or stats with an empty id: both only age the aggregate. */
  predicate Counts(incoming: Option<Stats>) { incoming.Some? && incoming.value.id != "" }

  predicate Alive(entry: Stamped, nowMs: int) { nowMs - entry.seenAtMs <= DOCKER_CONTAINER_EVICTION_MS }

  function Kept(existing: Aggregate, nowMs: int): Aggregate {
    map id | id in existing && Alive(existing[id], nowMs) :: existing[id]
  }

  function Merged(existing: Aggregate, incoming: Option<Stats>, nowMs: int): Aggregate {
    if Counts(incoming) then Kept(existing, nowMs)[incoming.value.id := Stamped(incoming.value, nowMs)]
    else Kept(existing, nowMs)
  }

  /** A missing previous value is an empty aggregate. */
  method MergeDockerStatsSample(previous: Option<Aggregate>, incoming: Option<Stats>, nowMs: int)
    returns (merged: Aggregate)
    ensures merged == Merged(previous.GetOr(map[]), incoming, nowMs)
  {
    var existing := previous.GetOr(map[]);
    var kept: Aggregate := map[];
    var left := existing.Keys;
    while left != {}
      invariant left <= existing.Keys
      invariant forall id :: id in kept <==> id in existing && id !in left && Alive(existing[id], nowMs)
      invariant forall id <- kept :: kept[id] == existing[id]
      decreases |left|
    {
      var id :| id in left;
      left := left - {id};
      if Alive(existing[id], nowMs) {
        kept := kept[id := existing[id]];
      }
    }
    assert kept == Kept(existing, nowMs);
    merged := kept;
    if incoming.Some? && incoming.value.id != "" {
      merged := kept[incoming.value.id := Stamped(incoming.value, nowMs)];
    }
  }

  // ---------------------------------------------------------------- a run of events

  datatype Event = Event(incoming: Option<Stats>, nowMs: int)

  function AggregateOf(events: seq<Event>): Aggregate {
    if events == [] then map[]
    else
      var last := events[|events| - 1];
      Merged(AggregateOf(events[..|events| - 1]), last.incoming, last.nowMs)
  }

  predicate Sampled(event: Event, id: string) { id != "" && event.incoming.Some? && event.incoming.value.id == id }

  /** The newest sample of one container, at event `k`. */
  ghost predicate LastSampleAt(events: seq<Event>, id: string, k: nat) {
    && k < |events| && Sampled(events[k], id)
    && forall j :: k < j < |events| ==> !Sampled(events[j], id)
  }

  function SampleAt(events: seq<Event>, k: nat): Stamped
    requires k < |events| && events[k].incoming.Some?
  {
    Stamped(events[k].incoming.value, events[k].nowMs)
  }

  /** No event after the sample at `k` finds it too old. */
  ghost predicate NeverEvicted(events: seq<Event>, k: nat)
    requires k < |events|
  {
    forall j :: k < j < |events| ==> events[j].nowMs - events[k].nowMs <= DOCKER_CONTAINER_EVICTION_MS
  }

  /** Whatever the clock does: the aggregate holds a container's newest sample exactly when no later event evicted it. */
  lemma {:induction false} AggregateHoldsUnevictedSamples(events: seq<Event>, id: string)
    ensures id in AggregateOf(events) <==> exists k: nat :: LastSampleAt(events, id, k) && NeverEvicted(events, k)
    ensures id in AggregateOf(events) ==>
              exists k: nat :: LastSampleAt(events, id, k) && AggregateOf(events)[id] == SampleAt(events, k)
  {
    if events != [] {
      var n := |events| - 1;
      var last, before := events[n], events[..n];
      AggregateHoldsUnevictedSamples(before, id);
      var existing := AggregateOf(before);
      if Sampled(last, id) {
        assert LastSampleAt(events, id, n) && NeverEvicted(events, n);
        assert AggregateOf(events)[id] == SampleAt(events, n);
      } else {
        OlderSamples(events, id);
        if id in existing {
          var k: nat :| LastSampleAt(before, id, k) && existing[id] == SampleAt(before, k);
          var e: nat :| LastSampleAt(before, id, e) && NeverEvicted(before, e);
          LastSampleIsUnique(before, id, k, e);
          assert LastSampleAt(events, id, k) && SampleAt(events, k) == SampleAt(before, k);
          EvictionStep(events, k);
          forall m: nat | LastSampleAt(events, id, m) ensures m == k { LastSampleIsUnique(events, id, m, k); }
        } else {
          forall k: nat | LastSampleAt(events, id, k) ensures !NeverEvicted(events, k) {
            assert LastSampleAt(before, id, k);
            EvictionStep(events, k);
          }
        }
      }
    }
  }

  lemma {:induction false} OlderSamples(events: seq<Event>, id: string)
    requires events != [] && !Sampled(events[|events| - 1], id)
    ensures forall k: nat :: LastSampleAt(events, id, k) <==> LastSampleAt(events[..|events| - 1], id, k)
  {
    var before := events[..|events| - 1];
    forall k: nat ensures LastSampleAt(events, id, k) <==> LastSampleAt(before, id, k) {
      if LastSampleAt(before, id, k) {
        forall j | k < j < |events| ensures !Sampled(events[j], id) {
          assert j < |before| ==> !Sampled(before[j], id);
        }
      }
    }
  }

  lemma {:induction false} LastSampleIsUnique(events: seq<Event>, id: string, a: nat, b: nat)
    requires LastSampleAt(events, id, a) && LastSampleAt(events, id, b)
    ensures a == b
  {
  }

  lemma {:induction false} EvictionStep(events: seq<Event>, k: nat)
    requires k < |events| - 1
    ensures NeverEvicted(events, k)
       <==> NeverEvicted(events[..|events| - 1], k)
            && events[|events| - 1].nowMs - events[k].nowMs <= DOCKER_CONTAINER_EVICTION_MS
  {
    var before := events[..|events| - 1];
    if NeverEvicted(events, k) {
      forall j | k < j < |before| ensures before[j].nowMs - before[k].nowMs <= DOCKER_CONTAINER_EVICTION_MS {
        assert before[j] == events[j];
      }
    }
    if NeverEvicted(before, k) && events[|before|].nowMs - events[k].nowMs <= DOCKER_CONTAINER_EVICTION_MS {
      forall j | k < j < |events| ensures events[j].nowMs - events[k].nowMs <= DOCKER_CONTAINER_EVICTION_MS {
        assert j < |before| ==> events[j] == before[j];
      }
    }
  }

  /**
   Under a clock that never goes back, the aggregate is each container's newest
   sample, if the final event comes within 30 s of it.
   */
  lemma {:induction false} AggregateIsTheRecentSamples(events: seq<Event>, id: string)
    requires events != []
    requires forall i, j :: 0 <= i <= j < |events| ==> events[i].nowMs <= events[j].nowMs
    ensures id in AggregateOf(events)
       <==> exists k: nat :: LastSampleAt(events, id, k)
                           && events[|events| - 1].nowMs - events[k].nowMs <= DOCKER_CONTAINER_EVICTION_MS
    ensures id in AggregateOf(events) ==>
              exists k: nat :: LastSampleAt(events, id, k) && AggregateOf(events)[id] == SampleAt(events, k)
  {
    AggregateHoldsUnevictedSamples(events, id);
    var final := events[|events| - 1].nowMs;
    forall k: nat | k < |events|
      ensures NeverEvicted(events, k) <==> final - events[k].nowMs <= DOCKER_CONTAINER_EVICTION_MS
    {
      if k < |events| - 1 && NeverEvicted(events, k) { EvictionStep(events, k); }
      if final - events[k].nowMs <= DOCKER_CONTAINER_EVICTION_MS {
        forall j | k < j < |events| ensures events[j].nowMs - events[k].nowMs <= DOCKER_CONTAINER_EVICTION_MS {
          assert events[j].nowMs <= final;
        }
      }
    }
  }

  /** A clock set back is the only way an evicted container's newest sample can look recent again. */
  lemma {:induction false} ClockSetBackLosesARecentSample()
    ensures var sample := Stats("a", []);
            var events := [Event(Some(sample), 0), Event(None, 30_001), Event(None, 0)];
            "a" !in AggregateOf(events)
            && events[2].nowMs - events[0].nowMs <= DOCKER_CONTAINER_EVICTION_MS && LastSampleAt(events, "a", 0)
  {
    var sample := Stats("a", []);
    var events := [Event(Some(sample), 0), Event(None, 30_001), Event(None, 0)];
    AggregateHoldsUnevictedSamples(events, "a");
    assert LastSampleAt(events, "a", 0);
    assert events[1].nowMs - events[0].nowMs > DOCKER_CONTAINER_EVICTION_MS && !NeverEvicted(events, 0);
    forall k: nat | LastSampleAt(events, "a", k) ensures !NeverEvicted(events, k) {
      LastSampleIsUnique(events, "a", k, 0);
    }
  }

  // ---------------------------------------------------------------- the store

  datatype Sample = Sample(data: Aggregate, receivedAtMs: int)

  datatype Aged = Aged(data: Aggregate, ageMs: int)

  class LiveSnapshotStore {
    var samples: map<string, Sample>

    /** The docker-stats events fed since the store was made. */
    ghost var events: seq<Event>

    ghost predicate Valid()
      reads this
    {
      if events == [] then DOCKER_STATS_TOPIC !in samples
      else DOCKER_STATS_TOPIC in samples && samples[DOCKER_STATS_TOPIC].data == AggregateOf(events)
    }

    constructor ()
      ensures Valid() && samples == map[] && events == []
    {
      samples := map[];
      events := [];
    }

    method Set(topic: string, data: Aggregate, nowMs: int)
      modifies this`samples
      ensures samples == old(samples)[topic := Sample(data, nowMs)]
    {
      samples := samples[topic := Sample(data, nowMs)];
    }

    method Get(topic: string, nowMs: int) returns (aged: Option<Aged>)
      ensures aged == if topic in samples then Some(Aged(samples[topic].data, nowMs - samples[topic].receivedAtMs)) else None
    {
      if topic !in samples {
        return None;
      }
      var sample := samples[topic];
      aged := Some(Aged(sample.data, nowMs - sample.receivedAtMs));
    }

    /** The feed's callback for one docker-stats event: the stored aggregate stays that of all events so far. */
    method OnDockerStats(incoming: Option<Stats>, nowMs: int)
      requires Valid()
      modifies this
      ensures Valid() && events == old(events) + [Event(incoming, nowMs)]
      ensures samples == old(samples)["dockerContainerStats" := Sample(AggregateOf(events), nowMs)]
    {
      var previous := Get(DOCKER_STATS_TOPIC, nowMs);
      var data := match previous case Some(aged) => Some(aged.data) case None => None;
      var merged := MergeDockerStatsSample(data, incoming, nowMs);
      events := events + [Event(incoming, nowMs)];
      assert events[..|events| - 1] == old(events);
      Set(DOCKER_STATS_TOPIC, merged, nowMs);
    }
  }
}
