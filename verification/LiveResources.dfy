/**
 Subscribable live resources: each active URI owns the upstream subscriptions
 of its whole spec list. Upstream subscriptions are numbered as they start.
 */
module LiveResources {
  import opened Wrappers

  const LOGS_URI_PREFIX := "unraid://logs/"

  type Uri = string
  type Topic = string
  type SubscriptionId = nat

  const LIVE_TOPICS: map<Uri, seq<Topic>> := map[
    "unraid://live/parity" := ["parityHistorySubscription"],
    "unraid://live/docker-stats" := ["dockerContainerStats"],
    "unraid://live/metrics" := ["systemMetricsCpu", "systemMetricsMemory", "systemMetricsNetwork", "systemMetricsTemperature"],
    "unraid://live/ups" := ["upsUpdates"],
    "unraid://live/array" := ["arraySubscription"],
    "unraid://live/notifications" := ["notificationAdded"]
  ]

  /** The upstream topics behind a URI; `decodable` says whether a log path is valid percent-encoding. */
  function ResolveSubscriptions(uri: Uri, decodable: bool): (r: Option<seq<Topic>>)
    ensures r.Some? ==> r.value != []
  {
    if uri in LIVE_TOPICS then Some(LIVE_TOPICS[uri])
    else if LOGS_URI_PREFIX <= uri && decodable then Some([uri])
    else None
  }

  /** Six resources and every log with a readable path can be subscribed to; a log is its own topic. */
  lemma {:induction false} SubscribableIff(uri: Uri, decodable: bool)
    ensures ResolveSubscriptions(uri, decodable).Some?
       <==> || (uri in ["unraid://live/parity", "unraid://live/docker-stats", "unraid://live/metrics",
                        "unraid://live/ups", "unraid://live/array", "unraid://live/notifications"])
            || ("unraid://logs/" <= uri && decodable)
    ensures "unraid://logs/" <= uri && decodable ==> ResolveSubscriptions(uri, decodable) == Some([uri])
    ensures ResolveSubscriptions("unraid://live/metrics", decodable)
         == Some(["systemMetricsCpu", "systemMetricsMemory", "systemMetricsNetwork", "systemMetricsTemperature"])
  {
    if uri in LIVE_TOPICS {
      assert uri[10] == 'i';
    }
    if "unraid://logs/" <= uri {
      var prefix := "unraid://logs/";
      assert prefix[10] == 'o' && uri[10] == prefix[10];
    }
  }

  /** The first letters of a topic tell which resource it belongs to. */
  function HomeOf(topic: Topic): Uri {
    if |topic| < 2 then ""
    else if topic[0] == 'p' then "unraid://live/parity"
    else if topic[0] == 'd' then "unraid://live/docker-stats"
    else if topic[0] == 's' then "unraid://live/metrics"
    else if topic[0] == 'a' then "unraid://live/array"
    else if topic[0] == 'n' then "unraid://live/notifications"
    else if topic[1] == 'p' then "unraid://live/ups"
    else topic
  }

  lemma {:induction false} TopicsLiveAtHome(uri: Uri, decodable: bool, topic: Topic)
    requires ResolveSubscriptions(uri, decodable).Some? && topic in ResolveSubscriptions(uri, decodable).value
    ensures HomeOf(topic) == uri
  {
    if uri !in LIVE_TOPICS {
      assert uri[0] == LOGS_URI_PREFIX[0] && uri[1] == LOGS_URI_PREFIX[1];
    }
  }

  /** Two resources never feed the same topic, so one never overwrites the other's sample in the store. */
  lemma {:induction false} TopicsNeverCollide(u: Uri, v: Uri, topic: Topic)
    requires exists d :: ResolveSubscriptions(u, d).Some? && topic in ResolveSubscriptions(u, d).value
    requires exists d :: ResolveSubscriptions(v, d).Some? && topic in ResolveSubscriptions(v, d).value
    ensures u == v
  {
    var d :| ResolveSubscriptions(u, d).Some? && topic in ResolveSubscriptions(u, d).value;
    var e :| ResolveSubscriptions(v, e).Some? && topic in ResolveSubscriptions(v, e).value;
    TopicsLiveAtHome(u, d, topic);
    TopicsLiveAtHome(v, e, topic);
  }

  /** What the feed does inside one `subscribe` call. */
  datatype Outcome = Started | Throws | ErrorsAtOnce

  datatype Owner = Owner(uri: Uri, topic: Topic)

  datatype Machine = Machine(
    active: map<Uri, seq<SubscriptionId>>,
    live: set<SubscriptionId>,
    owners: map<SubscriptionId, Owner>,     // every subscription ever opened
    stopped: multiset<SubscriptionId>,      // one element per run of a stop function
    next: nat)

  const INITIAL := Machine(map[], {}, map[], multiset{}, 0)

  datatype Step =
    | Subscribe(uri: Uri, decodable: bool, outcomes: seq<Outcome>)
    | Unsubscribe(uri: Uri)
    | Error(id: SubscriptionId)
    | Completes(id: SubscriptionId)    // the server ends it; the feed's handler ignores that
    | Close

  /** The outcomes used: one per spec; a script that is too short counts as successes. */
  function OutcomeAt(outcomes: seq<Outcome>, i: nat): Outcome { if i < |outcomes| then outcomes[i] else Started }

  /** One more subscription, live or dead on arrival. */
  function Begin(m: Machine, uri: Uri, topic: Topic, live: bool): Machine {
    m.(owners := m.owners[m.next := Owner(uri, topic)], next := m.next + 1,
       live := if live then m.live + {m.next} else m.live)
  }

  /** Opens the specs in order. A synchronous error finds no active entry, so only the subscription itself is dead. */
  function OpenAll(m: Machine, uri: Uri, topics: seq<Topic>, outcomes: seq<Outcome>, ids: seq<SubscriptionId>): Machine
    requires |ids| <= |topics|
    decreases |topics| - |ids|
  {
    if |ids| == |topics| then m.(active := m.active[uri := ids])
    else
      match OutcomeAt(outcomes, |ids|)
      case Throws => m
      case Started => OpenAll(Begin(m, uri, topics[|ids|], true), uri, topics, outcomes, ids + [m.next])
      case ErrorsAtOnce => OpenAll(Begin(m, uri, topics[|ids|], false), uri, topics, outcomes, ids + [m.next])
  }

  function StopAll(m: Machine, ids: seq<SubscriptionId>): Machine {
    m.(live := m.live - (set id | id in ids), stopped := m.stopped + multiset(ids))
  }

  function Drop(m: Machine, uri: Uri): Machine {
    if uri in m.active then StopAll(m, m.active[uri]).(active := m.active - {uri}) else m
  }

  function SubscribeStep(m: Machine, uri: Uri, decodable: bool, outcomes: seq<Outcome>): Machine {
    var topics := ResolveSubscriptions(uri, decodable);
    if uri in m.active || topics.None? then m else OpenAll(m, uri, topics.value, outcomes, [])
  }

  function Listed(active: map<Uri, seq<SubscriptionId>>, uris: set<Uri>): set<SubscriptionId> {
    set uri, id | uri in uris && uri in active && id in active[uri] :: id
  }

  /** Runs every stop once and forgets every URI (no subscription is in two lists). */
  function CloseStep(m: Machine): Machine {
    var ids := Listed(m.active, m.active.Keys);
    m.(active := map[], live := m.live - ids, stopped := m.stopped + multiset(ids))
  }

  ghost predicate Enabled(m: Machine, step: Step) { step.Error? || step.Completes? ==> step.id in m.owners }

  ghost function Apply(m: Machine, step: Step): Machine
    requires Enabled(m, step)
  {
    match step
    case Subscribe(uri, decodable, outcomes) => SubscribeStep(m, uri, decodable, outcomes)
    case Unsubscribe(uri) => Drop(m, uri)
    case Error(id) => Drop(m.(live := m.live - {id}), m.owners[id].uri)
    case Completes(id) => m.(live := m.live - {id})
    case Close => CloseStep(m)
  }

  ghost predicate IsRun(m: Machine, run: seq<Step>)
    decreases |run|
  {
    run != [] ==> Enabled(m, run[0]) && IsRun(Apply(m, run[0]), run[1..])
  }

  ghost function After(m: Machine, run: seq<Step>): Machine
    requires IsRun(m, run)
    decreases |run|
  {
    if run == [] then m else After(Apply(m, run[0]), run[1..])
  }

  // ---------------------------------------------------------------- the invariant

  /** The URI's whole spec list is up, in order. */
  ghost predicate ListIsUp(m: Machine, uri: Uri)
    requires uri in m.active
  {
    var ids := m.active[uri];
    && (exists decodable :: ResolveSubscriptions(uri, decodable) == Some(TopicsOf(m, ids)))
    && (forall i | 0 <= i < |ids| :: ids[i] in m.owners && m.owners[ids[i]].uri == uri && ids[i] in m.live)
    && (forall i, j | 0 <= i < j < |ids| :: ids[i] < ids[j])
  }

  function TopicsOf(m: Machine, ids: seq<SubscriptionId>): seq<Topic> {
    seq(|ids|, i requires 0 <= i < |ids| => if ids[i] in m.owners then m.owners[ids[i]].topic else "")
  }

  /**
   The live subscriptions are the disjoint union of the spec lists of the active
   URIs (disjoint because each belongs to the URI that owns it), and no stop has
   run twice, or at all for a live one.
   */
  ghost predicate Inv(m: Machine) {
    && (forall uri | uri in m.active :: ListIsUp(m, uri))
    && (forall id | id in m.live :: id in m.owners && m.owners[id].uri in m.active && id in m.active[m.owners[id].uri])
    && (forall id :: m.stopped[id] <= 1)
    && (forall id | id in m.live :: m.stopped[id] == 0)
    && (forall id | id in m.stopped :: id < m.next)
    && (forall id | id in m.owners :: id < m.next)
  }

  /** Whatever of a URI is already dead, dropping it removes exactly its subscriptions, each stopped once. */
  lemma {:induction false} DropIsExact(m: Machine, uri: Uri, dead: set<SubscriptionId>)
    requires Inv(m) && forall id | id in dead :: id in m.owners && m.owners[id].uri == uri
    ensures var after := Drop(m.(live := m.live - dead), uri);
            && after.active == m.active - {uri} && after.owners == m.owners && after.next == m.next
            && (forall id :: id in after.live <==> id in m.live && m.owners[id].uri != uri)
            && (forall id :: after.stopped[id] == m.stopped[id] + if uri in m.active && id in m.active[uri] then 1 else 0)
            && (uri in m.active ==> forall id | id in m.active[uri] :: id in m.live && m.owners[id].uri == uri)
  {
    if uri in m.active {
      var ids := m.active[uri];
      assert ListIsUp(m, uri);
      StopsOnce(ids);
      forall id | id in ids ensures id in m.live && m.owners[id].uri == uri {
        var i :| 0 <= i < |ids| && ids[i] == id;
      }
    } else {
      assert m.active - {uri} == m.active;
      assert m.live - dead == m.live;
    }
  }

  lemma {:induction false} OthersStayUp(m: Machine, after: Machine, uri: Uri, other: Uri)
    requires Inv(m) && other in m.active && other != uri
    requires after.active == m.active - {uri} && after.owners == m.owners
    requires forall id :: id in after.live <==> id in m.live && m.owners[id].uri != uri
    ensures ListIsUp(after, other)
  {
    assert ListIsUp(m, other);
    var ids := m.active[other];
    assert TopicsOf(after, ids) == TopicsOf(m, ids);
    forall i | 0 <= i < |ids| ensures ids[i] in after.live {}
  }

  lemma {:induction false} DropKeepsInv(m: Machine, uri: Uri, dead: set<SubscriptionId>)
    requires Inv(m) && forall id | id in dead :: id in m.owners && m.owners[id].uri == uri
    ensures Inv(Drop(m.(live := m.live - dead), uri))
  {
    DropIsExact(m, uri, dead);
    var after := Drop(m.(live := m.live - dead), uri);
    forall other | other in after.active ensures ListIsUp(after, other) { OthersStayUp(m, after, uri, other); }
    BooksStayKept(m, after, uri);
  }

  lemma {:induction false} BooksStayKept(m: Machine, after: Machine, uri: Uri)
    requires Inv(m) && after.active == m.active - {uri} && after.owners == m.owners && after.next == m.next
    requires forall id :: id in after.live <==> id in m.live && m.owners[id].uri != uri
    requires forall id :: after.stopped[id] == m.stopped[id] + if uri in m.active && id in m.active[uri] then 1 else 0
    requires uri in m.active ==> forall id | id in m.active[uri] :: id in m.live && id in m.owners && m.owners[id].uri == uri
    requires forall other | other in after.active :: ListIsUp(after, other)
    ensures Inv(after)
  {
    forall id ensures after.stopped[id] <= 1 && (id in after.live ==> after.stopped[id] == 0)
      ensures id in after.stopped ==> id < after.next
    {
      assert id in after.stopped <==> after.stopped[id] > 0;
    }
  }

  /** An ascending list holds each element once. */
  lemma {:induction false} StopsOnce(ids: seq<SubscriptionId>)
    requires forall i, j | 0 <= i < j < |ids| :: ids[i] < ids[j]
    ensures forall id :: multiset(ids)[id] == if id in ids then 1 else 0
  {
    if ids != [] {
      var n := |ids| - 1;
      StopsOnce(ids[..n]);
      assert ids == ids[..n] + [ids[n]];
    }
  }

  lemma {:induction false} ListedAreLive(m: Machine)
    requires Inv(m)
    ensures Listed(m.active, m.active.Keys) == m.live
  {
    forall uri, id | uri in m.active && id in m.active[uri] ensures id in m.live {
      assert ListIsUp(m, uri);
      var i :| 0 <= i < |m.active[uri]| && m.active[uri][i] == id;
    }
  }

  lemma {:induction false} CloseKeepsInv(m: Machine)
    requires Inv(m)
    ensures Inv(CloseStep(m)) && CloseStep(m).active == map[] && CloseStep(m).live == {}
  {
    ListedAreLive(m);
  }

  // ---------------------------------------------------------------- subscribing

  /** While the specs of `uri` are being opened: everything else is settled, `ids` are open, all of them live. */
  ghost predicate Opening(m: Machine, uri: Uri, topics: seq<Topic>, ids: seq<SubscriptionId>) {
    && |ids| <= |topics| && uri !in m.active
    && Inv(m.(live := m.live - (set id | id in ids)))
    && (forall i | 0 <= i < |ids| :: ids[i] in m.owners && ids[i] in m.live && m.owners[ids[i]] == Owner(uri, topics[i]))
    && (forall i | 0 <= i < |ids| :: m.stopped[ids[i]] == 0)
    && (forall i, j | 0 <= i < j < |ids| :: ids[i] < ids[j])
  }

  ghost predicate NumberedBelowNext(m: Machine) {
    (forall id | id in m.live :: id < m.next) && (forall id | id in m.owners :: id < m.next)
  }

  /** New owners above the old numbering change nothing for the active URIs. */
  lemma {:induction false} KeepsTheBooks(m: Machine, after: Machine)
    requires Inv(m) && after.active == m.active && after.live == m.live && after.stopped == m.stopped && m.next <= after.next
    requires forall id | id in m.owners :: id in after.owners && after.owners[id] == m.owners[id]
    requires NumberedBelowNext(after)
    ensures Inv(after)
  {
    forall uri | uri in after.active ensures ListIsUp(after, uri) {
      assert ListIsUp(m, uri);
      assert TopicsOf(after, m.active[uri]) == TopicsOf(m, m.active[uri]);
    }
  }

  lemma {:induction false} OpeningOneMore(m: Machine, uri: Uri, topics: seq<Topic>, ids: seq<SubscriptionId>)
    requires Opening(m, uri, topics, ids) && |ids| < |topics|
    ensures Opening(Begin(m, uri, topics[|ids|], true), uri, topics, ids + [m.next])
  {
    var begun := Begin(m, uri, topics[|ids|], true);
    var ids' := ids + [m.next];
    var base := m.(live := m.live - (set id | id in ids));
    var base' := begun.(live := begun.live - (set id | id in ids'));
    assert m.next !in base.live && m.next !in m.owners && m.next !in m.stopped;
    assert base'.live == base.live by {
      forall id ensures id in base'.live <==> id in base.live {
        assert id in ids' <==> id in ids || id == m.next;
      }
    }
    KeepsTheBooks(base, base');
  }

  lemma {:induction false} OpenedIsActive(m: Machine, uri: Uri, topics: seq<Topic>, ids: seq<SubscriptionId>, decodable: bool)
    requires Opening(m, uri, topics, ids) && |ids| == |topics| && ResolveSubscriptions(uri, decodable) == Some(topics)
    ensures Inv(m.(active := m.active[uri := ids]))
  {
    var after := m.(active := m.active[uri := ids]);
    var base := m.(live := m.live - (set id | id in ids));
    assert TopicsOf(after, ids) == topics;
    assert ListIsUp(after, uri);
    forall other | other in after.active && other != uri ensures ListIsUp(after, other) {
      assert ListIsUp(base, other);
      assert TopicsOf(after, m.active[other]) == TopicsOf(base, m.active[other]);
    }
    forall id | id in after.live ensures after.owners[id].uri in after.active && id in after.active[after.owners[id].uri] {
      if id in ids {
        var i :| 0 <= i < |ids| && ids[i] == id;
      } else {
        assert id in base.live;
      }
    }
  }

  lemma {:induction false} OpenAllStarted(m: Machine, uri: Uri, topics: seq<Topic>, outcomes: seq<Outcome>,
                                          ids: seq<SubscriptionId>, decodable: bool)
    requires Opening(m, uri, topics, ids) && ResolveSubscriptions(uri, decodable) == Some(topics)
    requires forall i | |ids| <= i < |topics| :: OutcomeAt(outcomes, i).Started?
    ensures Inv(OpenAll(m, uri, topics, outcomes, ids)) && uri in OpenAll(m, uri, topics, outcomes, ids).active
    decreases |topics| - |ids|
  {
    if |ids| == |topics| {
      OpenedIsActive(m, uri, topics, ids, decodable);
    } else {
      OpeningOneMore(m, uri, topics, ids);
      OpenAllStarted(Begin(m, uri, topics[|ids|], true), uri, topics, outcomes, ids + [m.next], decodable);
    }
  }

  /** Every spec of the list starts. */
  ghost predicate AllStart(topics: seq<Topic>, outcomes: seq<Outcome>) {
    forall i | 0 <= i < |topics| :: OutcomeAt(outcomes, i).Started?
  }

  ghost predicate FirstThrow(topics: seq<Topic>, outcomes: seq<Outcome>, from: nat, k: nat) {
    from <= k < |topics| && OutcomeAt(outcomes, k).Throws? && forall i | from <= i < k :: !OutcomeAt(outcomes, i).Throws?
  }

  /** The feed throws before any spec has started. */
  ghost predicate ThrowsBeforeAnyStart(topics: seq<Topic>, outcomes: seq<Outcome>) {
    exists k: nat :: FirstThrow(topics, outcomes, 0, k) && forall i | 0 <= i < k :: OutcomeAt(outcomes, i).ErrorsAtOnce?
  }

  /** A throw leaves `active` alone; whatever had started by then is live and owned by nobody. */
  lemma {:induction false} OpenAllThrows(m: Machine, uri: Uri, topics: seq<Topic>, outcomes: seq<Outcome>,
                                         ids: seq<SubscriptionId>, k: nat)
    requires |ids| <= |topics| && NumberedBelowNext(m) && FirstThrow(topics, outcomes, |ids|, k)
    ensures var after := OpenAll(m, uri, topics, outcomes, ids);
            && after.active == m.active && after.stopped == m.stopped && m.live <= after.live && m.next <= after.next
            && (forall id | id in m.owners :: id in after.owners && after.owners[id] == m.owners[id])
            && NumberedBelowNext(after)
            && (if forall i | |ids| <= i < k :: OutcomeAt(outcomes, i).ErrorsAtOnce? then after.live == m.live
                else exists id :: id in after.live && id in after.owners && after.owners[id].uri == uri)
    decreases |topics| - |ids|
  {
    if |ids| < k {
      var begun := Begin(m, uri, topics[|ids|], false);
      match OutcomeAt(outcomes, |ids|)
      case Started =>
        var live := Begin(m, uri, topics[|ids|], true);
        OpenAllThrows(live, uri, topics, outcomes, ids + [m.next], k);
        var after := OpenAll(live, uri, topics, outcomes, ids + [m.next]);
        assert m.next in after.live && after.owners[m.next].uri == uri;
      case ErrorsAtOnce => OpenAllThrows(begun, uri, topics, outcomes, ids + [m.next], k);
    }
  }

  /** Without a throw the URI becomes active; a spec that failed at once has a dead subscription in the list. */
  lemma {:induction false} OpenAllReturns(m: Machine, uri: Uri, topics: seq<Topic>, outcomes: seq<Outcome>,
                                          ids: seq<SubscriptionId>)
    requires |ids| <= |topics| && NumberedBelowNext(m)
    requires forall i | |ids| <= i < |topics| :: !OutcomeAt(outcomes, i).Throws?
    ensures var after := OpenAll(m, uri, topics, outcomes, ids);
            && uri in after.active && |after.active[uri]| == |topics| && ids <= after.active[uri]
            && (forall id | id < m.next :: id in after.live <==> id in m.live)
            && (forall i | |ids| <= i < |topics| :: OutcomeAt(outcomes, i).ErrorsAtOnce? ==> after.active[uri][i] !in after.live)
    decreases |topics| - |ids|
  {
    if |ids| < |topics| {
      var begun := Begin(m, uri, topics[|ids|], false);
      var ids' := ids + [m.next];
      if OutcomeAt(outcomes, |ids|).Started? {
        OpenAllReturns(Begin(m, uri, topics[|ids|], true), uri, topics, outcomes, ids');
      } else {
        OpenAllReturns(begun, uri, topics, outcomes, ids');
        var after := OpenAll(begun, uri, topics, outcomes, ids');
        assert after.active[uri][|ids|] == ids'[|ids|] == m.next;
      }
    }
  }

  /**
   Subscribing keeps the books exactly when the feed starts every spec or throws
   before any has started. A throw after the first start leaks a subscription;
   an error raised inside `subscribe` leaves a dead one that blocks revival.
   */
  lemma {:induction false} SubscribeKeepsInvIff(m: Machine, uri: Uri, decodable: bool, outcomes: seq<Outcome>)
    requires Inv(m)
    ensures var topics := ResolveSubscriptions(uri, decodable);
            Inv(SubscribeStep(m, uri, decodable, outcomes)) <==>
            || uri in m.active || topics.None?
            || AllStart(topics.value, outcomes) || ThrowsBeforeAnyStart(topics.value, outcomes)
  {
    var resolved := ResolveSubscriptions(uri, decodable);
    if uri !in m.active && resolved.Some? {
      var topics := resolved.value;
      var after := OpenAll(m, uri, topics, outcomes, []);
      assert m.(live := m.live - (set id | id in [])) == m;
      if AllStart(topics, outcomes) {
        OpenAllStarted(m, uri, topics, outcomes, [], decodable);
      } else if exists k: nat :: FirstThrow(topics, outcomes, 0, k) {
        var k: nat :| FirstThrow(topics, outcomes, 0, k);
        OpenAllThrows(m, uri, topics, outcomes, [], k);
        if forall i | 0 <= i < k :: OutcomeAt(outcomes, i).ErrorsAtOnce? {
          KeepsTheBooks(m, after);
        } else {
          forall j: nat | FirstThrow(topics, outcomes, 0, j) ensures j == k {}
        }
      } else {
        NoThrowAtAll(topics, outcomes, |topics|);
        OpenAllReturns(m, uri, topics, outcomes, []);
        var i :| 0 <= i < |topics| && !OutcomeAt(outcomes, i).Started?;
        assert after.active[uri][i] !in after.live;
        assert !ListIsUp(after, uri);
      }
    }
  }

  lemma {:induction false} NoThrowAtAll(topics: seq<Topic>, outcomes: seq<Outcome>, n: nat)
    requires n <= |topics| && !exists k: nat :: FirstThrow(topics, outcomes, 0, k)
    ensures forall i | 0 <= i < n :: !OutcomeAt(outcomes, i).Throws?
  {
    if n > 0 {
      NoThrowAtAll(topics, outcomes, n - 1);
      assert !FirstThrow(topics, outcomes, 0, n - 1);
    }
  }

  // ---------------------------------------------------------------- every run

  /** What a step must not do: fail half way into a list, or end a subscription nobody stopped. */
  ghost predicate KeepsBooks(m: Machine, step: Step) {
    match step
    case Subscribe(uri, decodable, outcomes) =>
      var topics := ResolveSubscriptions(uri, decodable);
      uri in m.active || topics.None? || AllStart(topics.value, outcomes) || ThrowsBeforeAnyStart(topics.value, outcomes)
    case Completes(id) => id !in m.live
    case _ => true
  }

  lemma {:induction false} StepKeepsInvIff(m: Machine, step: Step)
    requires Inv(m) && Enabled(m, step)
    ensures Inv(Apply(m, step)) <==> KeepsBooks(m, step)
  {
    match step
    case Subscribe(uri, decodable, outcomes) => SubscribeKeepsInvIff(m, uri, decodable, outcomes);
    case Unsubscribe(uri) =>
      assert m.(live := m.live - {}) == m;
      DropKeepsInv(m, uri, {});
    case Error(id) => DropKeepsInv(m, m.owners[id].uri, {id});
    case Completes(id) => CompletionLosesTheList(m, id);
    case Close => CloseKeepsInv(m);
  }

  lemma {:induction false} CompletionLosesTheList(m: Machine, id: SubscriptionId)
    requires Inv(m) && id in m.owners
    ensures Inv(m.(live := m.live - {id})) <==> id !in m.live
  {
    var after := m.(live := m.live - {id});
    if id in m.live {
      var uri := m.owners[id].uri;
      var i :| 0 <= i < |m.active[uri]| && m.active[uri][i] == id;
      assert !ListIsUp(after, uri);
    } else {
      assert after == m;
    }
  }

  ghost predicate AlwaysKept(m: Machine, run: seq<Step>)
    requires IsRun(m, run)
    decreases |run|
  {
    Inv(m) && (run == [] || AlwaysKept(Apply(m, run[0]), run[1..]))
  }

  ghost predicate EveryStepKeepsBooks(m: Machine, run: seq<Step>)
    requires IsRun(m, run)
    decreases |run|
  {
    run == [] || (KeepsBooks(m, run[0]) && EveryStepKeepsBooks(Apply(m, run[0]), run[1..]))
  }

  /**
   Over every run of subscribes, unsubscribes, errors (late ones of an old
   generation included), completions and closes: at every moment the live
   upstream subscriptions are the disjoint union of the spec lists of the active
   URIs and each stop has run at most once, if and only if the feed never fails
   half way into a list and no live subscription completes.
   */
  lemma {:induction false} BooksAreKeptIff(m: Machine, run: seq<Step>)
    requires Inv(m) && IsRun(m, run)
    ensures AlwaysKept(m, run) <==> EveryStepKeepsBooks(m, run)
    ensures EveryStepKeepsBooks(m, run) ==> Inv(After(m, run))
    decreases |run|
  {
    if run != [] {
      StepKeepsInvIff(m, run[0]);
      if KeepsBooks(m, run[0]) { BooksAreKeptIff(Apply(m, run[0]), run[1..]); }
    }
  }

  /** The feed neither throws nor errors while it is being subscribed to, and nothing it serves completes. */
  ghost predicate FeedIsClean(run: seq<Step>) {
    && (forall i | 0 <= i < |run| && run[i].Subscribe? ::
          forall k | 0 <= k < |run[i].outcomes| :: run[i].outcomes[k].Started?)
    && (forall i | 0 <= i < |run| :: !run[i].Completes?)
  }

  /** With a clean feed, then, every run keeps the books. */
  lemma {:induction false} SubscriptionsAreConserved(m: Machine, run: seq<Step>)
    requires Inv(m) && IsRun(m, run) && FeedIsClean(run)
    ensures Inv(After(m, run)) && AlwaysKept(m, run)
    decreases |run|
  {
    if run != [] {
      assert run[0].Subscribe? ==> forall k | 0 <= k < |run[0].outcomes| :: run[0].outcomes[k].Started?;
      StepKeepsInvIff(m, run[0]);
      assert forall i | 0 <= i < |run[1..]| :: run[1..][i] == run[i + 1];
      SubscriptionsAreConserved(Apply(m, run[0]), run[1..]);
    }
  }

  /** Nothing survives a close. */
  lemma {:induction false} CloseLeavesNothing(run: seq<Step>)
    requires IsRun(INITIAL, run) && EveryStepKeepsBooks(INITIAL, run)
    ensures var m := After(INITIAL, run);
            CloseStep(m).live == {} && CloseStep(m).active == map[] && forall id :: CloseStep(m).stopped[id] <= 1
  {
    BooksAreKeptIff(INITIAL, run);
    CloseKeepsInv(After(INITIAL, run));
  }

  /** A completed subscription is never revived: its URI stays active, so subscribing again does nothing. */
  lemma {:induction false} CompletionBlocksRevival(m: Machine, id: SubscriptionId, decodable: bool, outcomes: seq<Outcome>)
    requires Inv(m) && id in m.live
    ensures var uri := m.owners[id].uri;
            var ended := Apply(m, Completes(id));
            && uri in ended.active && id in ended.active[uri] && id !in ended.live
            && SubscribeStep(ended, uri, decodable, outcomes) == ended
  {
  }

  /**
   Any error, even one of an earlier generation, takes its whole URI down, so
   the next subscribe of that URI starts the full list afresh.
   */
  lemma {:induction false} ErrorReenablesSubscribe(m: Machine, id: SubscriptionId, decodable: bool)
    requires Inv(m) && id in m.owners && ResolveSubscriptions(m.owners[id].uri, decodable).Some?
    ensures var uri := m.owners[id].uri;
            var down := Apply(m, Error(id));
            var again := SubscribeStep(down, uri, decodable, []);
            && uri !in down.active && (forall x | x in down.live :: down.owners[x].uri != uri)
            && Inv(again) && uri in again.active
            && (forall x | x in again.active[uri] :: x in again.live)
  {
    var uri := m.owners[id].uri;
    DropIsExact(m, uri, {id});
    DropKeepsInv(m, uri, {id});
    var down := Apply(m, Error(id));
    var topics := ResolveSubscriptions(uri, decodable).value;
    assert down.(live := down.live - (set x | x in [])) == down;
    OpenAllStarted(down, uri, topics, [], [], decodable);
    assert ListIsUp(SubscribeStep(down, uri, decodable, []), uri);
  }

  /**
   With an error inside `subscribe` the promise of revival fails: the URI is
   active, nothing is live, and subscribing again does nothing.
   */
  lemma {:induction false} ErrorInsideSubscribeBlocksRevival(outcomes: seq<Outcome>)
    ensures var stuck := SubscribeStep(INITIAL, "unraid://live/ups", true, [ErrorsAtOnce]);
            && stuck.live == {} && "unraid://live/ups" in stuck.active
            && SubscribeStep(stuck, "unraid://live/ups", true, outcomes) == stuck
  {
    var topics := ["upsUpdates"];
    assert ResolveSubscriptions("unraid://live/ups", true) == Some(topics);
    var begun := Begin(INITIAL, "unraid://live/ups", topics[0], false);
    assert OutcomeAt([ErrorsAtOnce], 0) == ErrorsAtOnce;
    assert [] + [0] == [0];
    assert OpenAll(INITIAL, "unraid://live/ups", topics, [ErrorsAtOnce], [])
        == OpenAll(begun, "unraid://live/ups", topics, [ErrorsAtOnce], [0]);
  }

  // ---------------------------------------------------------------- what is active, and what is stopped

  ghost predicate NoThrow(topics: seq<Topic>, outcomes: seq<Outcome>, from: nat) {
    forall i | from <= i < |topics| :: !OutcomeAt(outcomes, i).Throws?
  }

  lemma {:induction false} OpenAllActivates(m: Machine, uri: Uri, topics: seq<Topic>, outcomes: seq<Outcome>,
                                            ids: seq<SubscriptionId>)
    requires |ids| <= |topics|
    ensures var after := OpenAll(m, uri, topics, outcomes, ids);
            && after.stopped == m.stopped
            && after.active.Keys == m.active.Keys + (if NoThrow(topics, outcomes, |ids|) then {uri} else {})
            && forall other | other in m.active && other != uri :: after.active[other] == m.active[other]
    decreases |topics| - |ids|
  {
    if |ids| < |topics| && !OutcomeAt(outcomes, |ids|).Throws? {
      var begun := Begin(m, uri, topics[|ids|], OutcomeAt(outcomes, |ids|).Started?);
      OpenAllActivates(begun, uri, topics, outcomes, ids + [m.next]);
    }
  }

  /** Whether a URI is active after a step, given whether it was before. */
  ghost predicate IsActiveNext(m: Machine, step: Step, uri: Uri, was: bool)
    requires Enabled(m, step)
  {
    match step
    case Subscribe(asked, decodable, outcomes) =>
      var topics := ResolveSubscriptions(asked, decodable);
      was || (asked == uri && topics.Some? && NoThrow(topics.value, outcomes, 0))
    case Unsubscribe(asked) => was && asked != uri
    case Error(id) => was && m.owners[id].uri != uri
    case Completes(_) => was
    case Close => false
  }

  ghost predicate IsActiveAfter(m: Machine, run: seq<Step>, uri: Uri, was: bool)
    requires IsRun(m, run)
    decreases |run|
  {
    if run == [] then was else IsActiveAfter(Apply(m, run[0]), run[1..], uri, IsActiveNext(m, run[0], uri, was))
  }

  lemma {:induction false} StepActivates(m: Machine, step: Step, uri: Uri)
    requires Enabled(m, step)
    ensures uri in Apply(m, step).active <==> IsActiveNext(m, step, uri, uri in m.active)
  {
    if step.Subscribe? {
      var topics := ResolveSubscriptions(step.uri, step.decodable);
      if step.uri !in m.active && topics.Some? { OpenAllActivates(m, step.uri, topics.value, step.outcomes, []); }
    }
  }

  /**
   Over every run, whatever the feed does: a URI is active exactly when it was
   subscribed to, the feed accepting every spec, and has since neither been
   unsubscribed, nor had an error, nor has the server closed.
   */
  lemma {:induction false} ActiveIffSubscribed(m: Machine, run: seq<Step>, uri: Uri)
    requires IsRun(m, run)
    ensures uri in After(m, run).active <==> IsActiveAfter(m, run, uri, uri in m.active)
    decreases |run|
  {
    if run != [] {
      StepActivates(m, run[0], uri);
      ActiveIffSubscribed(Apply(m, run[0]), run[1..], uri);
    }
  }

  /** A stop runs exactly when the URI that lists it stops being active, and then once. */
  lemma {:induction false} StopsRunIffDropped(m: Machine, step: Step, id: SubscriptionId)
    requires Inv(m) && Enabled(m, step)
    ensures Apply(m, step).stopped[id] == m.stopped[id]
            + (if exists uri :: uri in m.active && id in m.active[uri] && uri !in Apply(m, step).active then 1 else 0)
  {
    match step
    case Subscribe(uri, decodable, outcomes) =>
      var topics := ResolveSubscriptions(uri, decodable);
      if uri !in m.active && topics.Some? { OpenAllActivates(m, uri, topics.value, outcomes, []); }
    case Unsubscribe(uri) =>
      assert m.(live := m.live - {}) == m;
      DropIsExact(m, uri, {});
    case Error(failed) => DropIsExact(m, m.owners[failed].uri, {failed});
    case Completes(_) =>
    case Close => assert id in Listed(m.active, m.active.Keys) <==> exists uri :: uri in m.active && id in m.active[uri];
  }

  // ---------------------------------------------------------------- numbering

  /** No subscription is listed twice, in one list or in two. */
  ghost predicate NoSharedIds(active: map<Uri, seq<SubscriptionId>>) {
    && (forall uri | uri in active :: forall i, j | 0 <= i < j < |active[uri]| :: active[uri][i] < active[uri][j])
    && (forall u, v, id | u in active && v in active && id in active[u] && id in active[v] :: u == v)
  }

  /** Listed subscriptions are numbered below the next one. */
  ghost predicate Numbered(m: Machine) {
    NoSharedIds(m.active) && forall uri, id | uri in m.active && id in m.active[uri] :: id < m.next
  }

  /** `ids` were opened after everything in `active`. */
  ghost predicate Fresh(m: Machine, ids: seq<SubscriptionId>, first: nat) {
    && (forall i | 0 <= i < |ids| :: first <= ids[i] < m.next)
    && (forall i, j | 0 <= i < j < |ids| :: ids[i] < ids[j])
    && (forall uri, id | uri in m.active && id in m.active[uri] :: id < first)
    && first <= m.next
  }

  lemma {:induction false} OpenAllNumbers(m: Machine, uri: Uri, topics: seq<Topic>, outcomes: seq<Outcome>,
                                          ids: seq<SubscriptionId>, first: nat)
    requires NoSharedIds(m.active) && |ids| <= |topics| && uri !in m.active && Fresh(m, ids, first)
    ensures Numbered(OpenAll(m, uri, topics, outcomes, ids))
    decreases |topics| - |ids|
  {
    if |ids| == |topics| {
      var active := m.active[uri := ids];
      forall u, v, id | u in active && v in active && id in active[u] && id in active[v] ensures u == v {
        assert id in ids ==> first <= id;
      }
    } else {
      var outcome := OutcomeAt(outcomes, |ids|);
      var begun := Begin(m, uri, topics[|ids|], outcome.Started?);
      OpenAllNumbers(begun, uri, topics, outcomes, ids + [m.next], first);
    }
  }

  lemma {:induction false} SubscribeNumbers(m: Machine, uri: Uri, decodable: bool, outcomes: seq<Outcome>)
    requires Numbered(m)
    ensures Numbered(SubscribeStep(m, uri, decodable, outcomes))
  {
    var resolved := ResolveSubscriptions(uri, decodable);
    if uri !in m.active && resolved.Some? { OpenAllNumbers(m, uri, resolved.value, outcomes, [], m.next); }
  }

  /** Whatever the feed does, in every run no subscription is ever in two lists or twice in one. */
  lemma {:induction false} ListsNeverShare(m: Machine, run: seq<Step>)
    requires Numbered(m) && IsRun(m, run)
    ensures Numbered(After(m, run))
    decreases |run|
  {
    if run != [] {
      match run[0] {
        case Subscribe(uri, decodable, outcomes) => SubscribeNumbers(m, uri, decodable, outcomes);
        case _ =>
      }
      ListsNeverShare(Apply(m, run[0]), run[1..]);
    }
  }

  // ---------------------------------------------------------------- the class

  /** The handlers of one server; what the feed holds open is ghost. */
  class LiveSubscriptions {
    var active: map<Uri, seq<SubscriptionId>>
    var next: nat
    ghost var live: set<SubscriptionId>
    ghost var owners: map<SubscriptionId, Owner>
    ghost var stopped: multiset<SubscriptionId>

    ghost function State(): Machine
      reads this
    {
      Machine(active, live, owners, stopped, next)
    }

    ghost predicate Valid()
      reads this
    {
      Numbered(State())
    }

    constructor ()
      ensures Valid() && State() == INITIAL
    {
      active, live, owners, stopped, next := map[], {}, map[], multiset{}, 0;
    }

    /** `startLiveSubscription`; `ok` is false when it throws. */
    method StartLiveSubscription(uri: Uri, decodable: bool, outcomes: seq<Outcome>) returns (ok: bool)
      requires Valid()
      modifies this
      ensures Valid() && State() == SubscribeStep(old(State()), uri, decodable, outcomes)
      ensures ok <==> uri in active
    {
      SubscribeNumbers(State(), uri, decodable, outcomes);
      ok := OpenSpecs(uri, decodable, outcomes);
    }

    method OpenSpecs(uri: Uri, decodable: bool, outcomes: seq<Outcome>) returns (ok: bool)
      modifies this
      ensures State() == SubscribeStep(old(State()), uri, decodable, outcomes)
      ensures ok <==> uri in active
    {
      if uri in active {
        return true;
      }
      var resolved := ResolveSubscriptions(uri, decodable);
      if resolved.None? {
        return false;
      }
      var topics := resolved.value;
      var ids: seq<SubscriptionId> := [];
      while |ids| < |topics|
        invariant |ids| <= |topics|
        invariant OpenAll(State(), uri, topics, outcomes, ids) == OpenAll(old(State()), uri, topics, outcomes, [])
        invariant active == old(active)
      {
        var outcome := OutcomeAt(outcomes, |ids|);
        if outcome.Throws? {
          return false;
        }
        if outcome.Started? {
          live := live + {next};
        }
        owners := owners[next := Owner(uri, topics[|ids|])];
        ids := ids + [next];
        next := next + 1;
      }
      active := active[uri := ids];
      ok := true;
    }

    /** The stop function of one URI. */
    method Stop(ids: seq<SubscriptionId>)
      modifies this`live, this`stopped
      ensures State() == StopAll(old(State()), ids)
    {
      live := live - (set id | id in ids);
      stopped := stopped + multiset(ids);
    }

    method Unsubscribe(uri: Uri)
      requires Valid()
      modifies this
      ensures Valid() && State() == Drop(old(State()), uri)
    {
      if uri in active {
        Stop(active[uri]);
      }
      active := active - {uri};
      assert uri !in old(active) ==> active == old(active);
    }

    /** The error callback: forget the URI first, then stop its survivors. */
    method OnError(id: SubscriptionId, uri: Uri)
      requires Valid() && id in owners && owners[id].uri == uri
      modifies this
      ensures Valid() && State() == Apply(old(State()), Error(id))
    {
      live := live - {id};
      if uri in active {
        var ids := active[uri];
        active := active - {uri};
        Stop(ids);
      }
    }

    /** Each stop runs once; when the books were kept, nothing is left live. */
    method OnClose()
      requires Valid()
      modifies this
      ensures Valid() && State() == CloseStep(old(State()))
      ensures old(Inv(State())) ==> Inv(State()) && live == {}
    {
      if Inv(State()) { CloseKeepsInv(State()); }
      StopEverything();
    }

    method StopEverything()
      requires NoSharedIds(active)
      modifies this
      ensures State() == CloseStep(old(State()))
    {
      ghost var before := State();
      ghost var done: set<Uri> := {};
      var pending := active.Keys;
      NothingStopped(before);
      while pending != {}
        invariant pending <= before.active.Keys && done == before.active.Keys - pending
        invariant State() == StoppedSoFar(before, done)
        decreases pending
      {
        var uri :| uri in pending;
        StopOneMore(before, done, uri);
        Stop(active[uri]);
        pending, done := pending - {uri}, done + {uri};
      }
      assert done == before.active.Keys;
      active := map[];
    }
  }

  ghost function StoppedSoFar(m: Machine, uris: set<Uri>): Machine {
    var ids := Listed(m.active, uris);
    m.(live := m.live - ids, stopped := m.stopped + multiset(ids))
  }

  lemma {:induction false} NothingStopped(m: Machine)
    ensures StoppedSoFar(m, {}) == m
  {
    assert Listed(m.active, {}) == {};
    assert m.stopped + multiset(Listed(m.active, {})) == m.stopped;
  }

  lemma {:induction false} StopOneMore(m: Machine, uris: set<Uri>, uri: Uri)
    requires NoSharedIds(m.active) && uri in m.active && uri !in uris && uris <= m.active.Keys
    ensures StopAll(StoppedSoFar(m, uris), m.active[uri]) == StoppedSoFar(m, uris + {uri})
  {
    ListedGrows(m.active, uris, uri);
    var before, after := StopAll(StoppedSoFar(m, uris), m.active[uri]), StoppedSoFar(m, uris + {uri});
    assert before.live == after.live;
    assert before.stopped == after.stopped;
  }

  lemma {:induction false} ListedGrows(active: map<Uri, seq<SubscriptionId>>, uris: set<Uri>, uri: Uri)
    requires NoSharedIds(active) && uri in active && uri !in uris && uris <= active.Keys
    ensures Listed(active, uris + {uri}) == Listed(active, uris) + (set id | id in active[uri])
    ensures multiset(Listed(active, uris + {uri})) == multiset(Listed(active, uris)) + multiset(active[uri])
  {
    StopsOnce(active[uri]);
    assert forall id | id in active[uri] :: id !in Listed(active, uris);
  }
}
