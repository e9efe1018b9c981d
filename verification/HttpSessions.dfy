/**
 The HTTP session store: one transport/server pair per session, created by
 `initialize`, expired by DELETE or by the idle sweeper. Pairs and session ids
 are fresh names; every step is the stretch of a handler between two awaits.
 */
module HttpSessions {
  import opened Wrappers

  const SESSION_IDLE_EXPIRY_MS := 300_000

  type Pair = nat
  type SessionId = nat
  type RequestId = nat

  datatype Verb = Get | Post | Delete

  /** A session record; `openStreams` counts the GET responses that have not closed. */
  datatype Record = Record(lastSeenAt: int, streaming: bool, openStreams: nat)

  datatype Store = Store(
    sessions: map<SessionId, Pair>,
    records: map<Pair, Record>,           // record objects live on after their session is gone
    initializing: set<Pair>,              // connected; `handleRequest` of the initialize is pending
    deletes: map<RequestId, SessionId>,   // DELETE requests inside `handleRequest`
    closed: multiset<Pair>,               // one element per call of `closePair`
    created: set<Pair>,
    usedIds: set<SessionId>)

  const EMPTY := Store(map[], map[], {}, map[], multiset{}, {}, {})

  datatype Step =
    | Connect(pair: Pair)
    | Initialized(pair: Pair, id: SessionId, at: int)
    | CreateReturns(pair: Pair)
    | CreateThrows(pair: Pair)
    | Request(id: SessionId, verb: Verb, request: RequestId, at: int)
    | DeleteReturns(request: RequestId)
    | DeleteThrows(request: RequestId)
    | StreamCloses(pair: Pair, at: int)
    | Sweep(at: int)

  ghost predicate Enabled(s: Store, step: Step) {
    match step
    case Connect(pair) => pair !in s.created
    case Initialized(pair, id, _) => pair in s.initializing && id !in s.usedIds
    case CreateReturns(pair) => pair in s.initializing
    case CreateThrows(pair) => pair in s.initializing
    case Request(_, _, request, _) => request !in s.deletes
    case DeleteReturns(request) => request in s.deletes
    case DeleteThrows(request) => request in s.deletes
    case StreamCloses(pair, _) => pair in s.records && s.records[pair].openStreams > 0
    case Sweep(_) => true
  }

  function Remove(s: Store, id: SessionId): Store {
    if id in s.sessions then s.(sessions := s.sessions - {id}, closed := s.closed + multiset{s.sessions[id]}) else s
  }

  predicate Expired(r: Record, at: int) { !r.streaming && at - r.lastSeenAt > SESSION_IDLE_EXPIRY_MS }

  function ExpiredIds(s: Store, at: int): set<SessionId> {
    set id | id in s.sessions && s.sessions[id] in s.records && Expired(s.records[s.sessions[id]], at)
  }

  function PairsOf(sessions: map<SessionId, Pair>, ids: set<SessionId>): set<Pair> {
    set id | id in ids && id in sessions :: sessions[id]
  }

  /** Taking some sessions out of the map and closing their pairs. */
  function Drop(s: Store, ids: set<SessionId>): Store {
    s.(sessions := s.sessions - ids, closed := s.closed + multiset(PairsOf(s.sessions, ids)))
  }

  function SweepStep(s: Store, at: int): Store {
    Drop(s, ExpiredIds(s, at))
  }

  function Touch(r: Record, verb: Verb, at: int): Record {
    if verb.Get? then Record(at, true, r.openStreams + 1) else r.(lastSeenAt := at)
  }

  function RequestStep(s: Store, id: SessionId, verb: Verb, request: RequestId, at: int): Store {
    if id in s.sessions && s.sessions[id] in s.records then
      var pair := s.sessions[id];
      s.(records := s.records[pair := Touch(s.records[pair], verb, at)],
         deletes := if verb.Delete? then s.deletes[request := id] else s.deletes)
    else s
  }

  function CloseStream(r: Record, at: int): Record
    requires r.openStreams > 0
  {
    Record(at, false, r.openStreams - 1)
  }

  function Apply(s: Store, step: Step): Store
    requires step.DeleteReturns? ==> step.request in s.deletes
    requires step.StreamCloses? ==> step.pair in s.records && s.records[step.pair].openStreams > 0
  {
    match step
    case Connect(pair) => s.(created := s.created + {pair}, initializing := s.initializing + {pair})
    case Initialized(pair, id, at) =>
      s.(sessions := s.sessions[id := pair], records := s.records[pair := Record(at, false, 0)],
         initializing := s.initializing - {pair}, usedIds := s.usedIds + {id})
    case CreateReturns(pair) =>
      s.(initializing := s.initializing - {pair}, closed := s.closed + multiset{pair})
    case CreateThrows(pair) => s.(initializing := s.initializing - {pair})
    case Request(id, verb, request, at) => RequestStep(s, id, verb, request, at)
    case DeleteReturns(request) => Remove(s.(deletes := s.deletes - {request}), s.deletes[request])
    case DeleteThrows(request) => s.(deletes := s.deletes - {request})
    case StreamCloses(pair, at) => s.(records := s.records[pair := CloseStream(s.records[pair], at)])
    case Sweep(at) => SweepStep(s, at)
  }

  ghost predicate IsRun(s: Store, run: seq<Step>)
    decreases |run|
  {
    run != [] ==> Enabled(s, run[0]) && IsRun(Apply(s, run[0]), run[1..])
  }

  ghost function After(s: Store, run: seq<Step>): Store
    requires IsRun(s, run)
    decreases |run|
  {
    if run == [] then s else After(Apply(s, run[0]), run[1..])
  }

  // ---------------------------------------------------------------- conservation

  ghost function Stored(s: Store): set<Pair> { set id | id in s.sessions :: s.sessions[id] }

  ghost function Closed(s: Store): set<Pair> { set p | p in s.closed }

  /** Connected pairs that nothing in the store will ever close. */
  ghost function Leaked(s: Store): set<Pair> { s.created - s.initializing - Stored(s) - Closed(s) }

  ghost predicate OnePairPerSession(sessions: map<SessionId, Pair>) {
    forall a, b | a in sessions && b in sessions && sessions[a] == sessions[b] :: a == b
  }

  /** Every pair is in at most one place and is closed at most once. */
  ghost predicate Inv(s: Store) {
    && OnePairPerSession(s.sessions) && s.sessions.Keys <= s.usedIds
    && s.initializing <= s.created && Stored(s) <= s.created && Closed(s) <= s.created
    && s.initializing !! Stored(s) && s.initializing !! Closed(s) && Stored(s) !! Closed(s)
    && (forall p :: s.closed[p] <= 1)
    && Stored(s) <= s.records.Keys <= s.created && s.records.Keys !! s.initializing
  }

  function Thrown(run: seq<Step>): set<Pair> {
    if run == [] then {} else (if run[0].CreateThrows? then {run[0].pair} else {}) + Thrown(run[1..])
  }

  lemma {:induction false} DropUnstores(s: Store, ids: set<SessionId>)
    requires Inv(s)
    ensures Stored(Drop(s, ids)) == Stored(s) - PairsOf(s.sessions, ids)
  {
    var after := Drop(s, ids);
    forall p ensures p in Stored(after) <==> p in Stored(s) && p !in PairsOf(s.sessions, ids) {
      if p in Stored(s) && p !in PairsOf(s.sessions, ids) {
        var id :| id in s.sessions && s.sessions[id] == p;
        assert id in after.sessions;
      }
    }
  }

  lemma {:induction false} DropCloses(s: Store, ids: set<SessionId>)
    requires Inv(s)
    ensures var pairs := PairsOf(s.sessions, ids);
            && pairs <= Stored(s) && Closed(Drop(s, ids)) == Closed(s) + pairs
            && (forall p :: Drop(s, ids).closed[p] == s.closed[p] + (if p in pairs then 1 else 0))
            && (forall p :: Drop(s, ids).closed[p] <= 1)
  {
    var pairs := PairsOf(s.sessions, ids);
    forall p ensures Drop(s, ids).closed[p] == s.closed[p] + (if p in pairs then 1 else 0) {}
    assert pairs <= Stored(s);
    forall p | p in pairs ensures s.closed[p] == 0 { assert p !in Closed(s); }
  }

  lemma {:induction false} DropConserves(s: Store, ids: set<SessionId>)
    requires Inv(s)
    ensures Inv(Drop(s, ids)) && Leaked(Drop(s, ids)) == Leaked(s)
  {
    DropUnstores(s, ids);
    DropCloses(s, ids);
  }

  lemma {:induction false} RemoveConserves(s: Store, id: SessionId)
    requires Inv(s)
    ensures Inv(Remove(s, id)) && Leaked(Remove(s, id)) == Leaked(s)
  {
    if id in s.sessions {
      DropConserves(s, {id});
      assert PairsOf(s.sessions, {id}) == {s.sessions[id]};
      assert multiset({s.sessions[id]}) == multiset{s.sessions[id]};
    }
  }

  lemma {:induction false} InitializedConserves(s: Store, pair: Pair, id: SessionId, at: int)
    requires Inv(s) && Enabled(s, Initialized(pair, id, at))
    ensures Inv(Apply(s, Initialized(pair, id, at))) && Leaked(Apply(s, Initialized(pair, id, at))) == Leaked(s)
  {
    var after := Apply(s, Initialized(pair, id, at));
    assert id !in s.sessions;
    forall p ensures p in Stored(after) <==> p in Stored(s) || p == pair {
      if p in Stored(s) {
        var old' :| old' in s.sessions && s.sessions[old'] == p;
        assert after.sessions[old'] == p;
      }
      if p == pair { assert after.sessions[id] == p; }
    }
    assert forall x | x in s.sessions :: s.sessions[x] in Stored(s);
  }

  lemma {:induction false} StepConserves(s: Store, step: Step)
    requires Inv(s) && Enabled(s, step)
    ensures Inv(Apply(s, step))
    ensures Leaked(Apply(s, step)) == Leaked(s) + (if step.CreateThrows? then {step.pair} else {})
  {
    var after := Apply(s, step);
    match step
    case Initialized(pair, id, at) => InitializedConserves(s, pair, id, at);
    case DeleteReturns(request) =>
      var dropped := s.(deletes := s.deletes - {request});
      assert Stored(dropped) == Stored(s) && Closed(dropped) == Closed(s);
      RemoveConserves(dropped, s.deletes[request]);
    case Sweep(at) => DropConserves(s, ExpiredIds(s, at));
    case CreateReturns(pair) =>
      assert Stored(after) == Stored(s) && Closed(after) == Closed(s) + {pair};
    case Request(id, _, _, _) =>
      assert Stored(after) == Stored(s) && Closed(after) == Closed(s);
      assert id in s.sessions ==> s.sessions[id] in Stored(s);
    case _ => assert Stored(after) == Stored(s) && Closed(after) == Closed(s);
  }

  /**
   Conservation over every run: each connected pair is initializing, stored or
   closed, in exactly one of the three, and closed at most once, however
   DELETEs, sweeps and requests race. The pairs that escape are exactly those
   whose `handleRequest` threw before the session was initialized.
   */
  lemma {:induction false} PairsAreConserved(s: Store, run: seq<Step>)
    requires Inv(s) && IsRun(s, run)
    ensures Inv(After(s, run)) && Leaked(After(s, run)) == Leaked(s) + Thrown(run)
    decreases |run|
  {
    if run != [] {
      StepConserves(s, run[0]);
      PairsAreConserved(Apply(s, run[0]), run[1..]);
    }
  }

  lemma {:induction false} NothingLeaksIffNoInitializeThrows(run: seq<Step>)
    requires IsRun(EMPTY, run)
    ensures var s := After(EMPTY, run);
            && (s.created == s.initializing + Stored(s) + Closed(s) <==> forall i | 0 <= i < |run| :: !run[i].CreateThrows?)
            && (forall p :: s.closed[p] <= 1)
  {
    PairsAreConserved(EMPTY, run);
    ThrownAre(run);
    LeakedIsTheRest(After(EMPTY, run));
  }

  lemma {:induction false} LeakedIsTheRest(s: Store)
    requires Inv(s)
    ensures s.created == s.initializing + Stored(s) + Closed(s) <==> Leaked(s) == {}
  {
    forall p ensures p in s.created <==> p in s.initializing + Stored(s) + Closed(s) || p in Leaked(s) {}
    var kept := s.initializing + Stored(s) + Closed(s);
    assert Leaked(s) == s.created - kept && kept <= s.created;
  }

  lemma {:induction false} ThrownAre(run: seq<Step>)
    ensures Thrown(run) == {} <==> forall i | 0 <= i < |run| :: !run[i].CreateThrows?
  {
    if run != [] {
      ThrownAre(run[1..]);
      if run[0].CreateThrows? { assert run[0].pair in Thrown(run); }
      assert forall i | 0 < i < |run| :: run[i] == run[1..][i - 1];
    }
  }

  // ---------------------------------------------------------------- the open-stream exemption

  ghost predicate FlagsAgree(s: Store) {
    forall p | p in s.records :: s.records[p].streaming <==> s.records[p].openStreams > 0
  }

  /** The close of one of several open streams. */
  ghost predicate ClosesOneOfSeveral(s: Store, step: Step) {
    step.StreamCloses? && step.pair in s.records && s.records[step.pair].openStreams > 1
  }

  /** Of every record, stored or not: `streaming` keeps meaning "has an open stream" unless the step closes one of several. */
  lemma {:induction false} FlagSurvivesIffSingleStream(s: Store, step: Step)
    requires FlagsAgree(s) && Enabled(s, step)
    ensures FlagsAgree(Apply(s, step)) <==> !ClosesOneOfSeveral(s, step)
  {
    var after := Apply(s, step);
    if ClosesOneOfSeveral(s, step) {
      assert after.records[step.pair].openStreams > 0 && !after.records[step.pair].streaming;
    }
  }

  /** Every stored session with an open stream carries the flag that spares it. */
  ghost predicate Exempt(s: Store)
    requires Inv(s)
  {
    forall id | id in s.sessions && StoredRecord(s, id).openStreams > 0 :: StoredRecord(s, id).streaming
  }

  ghost function StoredRecord(s: Store, id: SessionId): Record
    requires Inv(s) && id in s.sessions
  {
    assert s.sessions[id] in Stored(s);
    s.records[s.sessions[id]]
  }

  /** The close of one of several open streams of a session that is still stored. */
  ghost predicate ExposesAStream(s: Store, step: Step) {
    ClosesOneOfSeveral(s, step) && step.pair in Stored(s)
  }

  /** A step takes no stored session's exemption away exactly when it does not close one of several of its streams. */
  lemma {:induction false} ExemptionSurvivesIff(s: Store, step: Step)
    requires Inv(s) && Exempt(s) && Enabled(s, step)
    ensures Inv(Apply(s, step)) && (Exempt(Apply(s, step)) <==> !ExposesAStream(s, step))
  {
    StepConserves(s, step);
    var after := Apply(s, step);
    if ExposesAStream(s, step) {
      var id :| id in s.sessions && s.sessions[id] == step.pair;
      assert StoredRecord(after, id).openStreams > 0 && !StoredRecord(after, id).streaming;
    } else {
      forall id | id in after.sessions && StoredRecord(after, id).openStreams > 0
        ensures StoredRecord(after, id).streaming
      {
        if id in s.sessions {
          assert s.sessions[id] in Stored(s) && after.sessions[id] == s.sessions[id];
          assert StoredRecord(s, id).openStreams > 0 ==> StoredRecord(s, id).streaming;
        }
      }
    }
  }

  ghost predicate EverExposesAStream(s: Store, run: seq<Step>)
    requires IsRun(s, run)
    decreases |run|
  {
    run != [] && (ExposesAStream(s, run[0]) || EverExposesAStream(Apply(s, run[0]), run[1..]))
  }

  ghost predicate AlwaysExempt(s: Store, run: seq<Step>)
    requires Inv(s) && IsRun(s, run)
    decreases |run|
  {
    Exempt(s) && (run == [] || (StepConserves(s, run[0]); AlwaysExempt(Apply(s, run[0]), run[1..])))
  }

  /**
   Over whole runs: sessions with an open stream are exempt from the sweep at
   every moment if and only if no stream of a stored session is ever closed
   while another one of that session is open.
   */
  lemma {:induction false} OpenStreamsAreExemptIff(s: Store, run: seq<Step>)
    requires Inv(s) && Exempt(s) && IsRun(s, run)
    ensures AlwaysExempt(s, run) <==> !EverExposesAStream(s, run)
    decreases |run|
  {
    if run != [] {
      ExemptionSurvivesIff(s, run[0]);
      if !ExposesAStream(s, run[0]) { OpenStreamsAreExemptIff(Apply(s, run[0]), run[1..]); }
    }
  }

  /** Being exempt is never being swept with a stream open, whenever the sweep comes. */
  lemma {:induction false} ExemptMeansNeverSwept(s: Store)
    requires Inv(s)
    ensures Exempt(s) <==>
            forall at, id | id in s.sessions && StoredRecord(s, id).openStreams > 0 :: id in SweepStep(s, at).sessions
  {
    if !Exempt(s) {
      var id :| id in s.sessions && StoredRecord(s, id).openStreams > 0 && !StoredRecord(s, id).streaming;
      var at := StoredRecord(s, id).lastSeenAt + SESSION_IDLE_EXPIRY_MS + 1;
      assert id in ExpiredIds(s, at);
      assert id !in SweepStep(s, at).sessions;
    }
  }

  /** A sweep keeps exactly the sessions that stream or were seen in the last 300 s and closes the others once each. */
  lemma {:induction false} SweepIsExact(s: Store, at: int, id: SessionId)
    requires Inv(s)
    ensures var after := SweepStep(s, at);
            && (id in after.sessions <==>
                id in s.sessions && (s.records[s.sessions[id]].streaming
                                     || at - s.records[s.sessions[id]].lastSeenAt <= SESSION_IDLE_EXPIRY_MS))
            && (id in s.sessions && id !in after.sessions ==> after.closed[s.sessions[id]] == 1)
            && (Exempt(s) && id in s.sessions && s.records[s.sessions[id]].openStreams > 0 ==> id in after.sessions)
  {
    if id in s.sessions {
      assert s.sessions[id] in Stored(s);
      DropCloses(s, ExpiredIds(s, at));
      if id in ExpiredIds(s, at) { assert s.sessions[id] in PairsOf(s.sessions, ExpiredIds(s, at)); }
      if Exempt(s) && StoredRecord(s, id).openStreams > 0 { assert StoredRecord(s, id).streaming; }
    }
  }

  // ---------------------------------------------------------------- what counts as activity

  /** The time at which a step shows a stored session to be in use: its start, a request of any kind, or the close of a stream. */
  function Touched(s: Store, step: Step, id: SessionId): Option<int> {
    match step
    case Initialized(_, started, at) => if started == id then Some(at) else None
    case Request(asked, _, _, at) => if asked == id && id in s.sessions then Some(at) else None
    case StreamCloses(pair, at) => if id in s.sessions && s.sessions[id] == pair then Some(at) else None
    case _ => None
  }

  /** The time of the last such step of the run. */
  ghost function LastTouch(s: Store, run: seq<Step>, id: SessionId): Option<int>
    requires IsRun(s, run)
    decreases |run|
  {
    if run == [] then None
    else
      var later := LastTouch(Apply(s, run[0]), run[1..], id);
      if later.Some? then later else Touched(s, run[0], id)
  }

  /** The streaming flag a step gives a session: a GET sets it, the session's start and any of its stream closes clear it. */
  function Flagged(s: Store, step: Step, id: SessionId): Option<bool> {
    match step
    case Initialized(_, started, _) => if started == id then Some(false) else None
    case Request(asked, verb, _, _) => if asked == id && id in s.sessions && verb == Get then Some(true) else None
    case StreamCloses(pair, _) => if id in s.sessions && s.sessions[id] == pair then Some(false) else None
    case _ => None
  }

  /** The flag given last in the run. */
  ghost function LastFlag(s: Store, run: seq<Step>, id: SessionId): Option<bool>
    requires IsRun(s, run)
    decreases |run|
  {
    if run == [] then None
    else
      var later := LastFlag(Apply(s, run[0]), run[1..], id);
      if later.Some? then later else Flagged(s, run[0], id)
  }

  lemma {:induction false} FlaggedAtLastFlag(s: Store, run: seq<Step>, id: SessionId)
    requires Inv(s) && IsRun(s, run) && Inv(After(s, run)) && id in After(s, run).sessions
    ensures id in s.sessions || LastFlag(s, run, id).Some?
    ensures StoredRecord(After(s, run), id).streaming
         == (match LastFlag(s, run, id) case Some(flag) => flag case None => StoredRecord(s, id).streaming)
    decreases |run|
  {
    if run != [] {
      StepConserves(s, run[0]);
      FlaggedAtLastFlag(Apply(s, run[0]), run[1..], id);
      if LastFlag(Apply(s, run[0]), run[1..], id) == None { StepFlags(s, run[0], id); }
    }
  }

  lemma {:induction false} StepFlags(s: Store, step: Step, id: SessionId)
    requires Inv(s) && Enabled(s, step) && Inv(Apply(s, step)) && id in Apply(s, step).sessions
    ensures id in s.sessions || Flagged(s, step, id).Some?
    ensures StoredRecord(Apply(s, step), id).streaming
         == (match Flagged(s, step, id) case Some(flag) => flag case None => StoredRecord(s, id).streaming)
  {
    if id in s.sessions {
      assert s.sessions[id] in Stored(s);
    }
  }

  /** Streams are opened by GETs of the session and closed by their closes, one at a time. */
  lemma {:induction false} StreamsAreCounted(s: Store, step: Step, id: SessionId)
    requires Inv(s) && Enabled(s, step) && id in s.sessions && Inv(Apply(s, step)) && id in Apply(s, step).sessions
    ensures StoredRecord(Apply(s, step), id).openStreams == StoredRecord(s, id).openStreams
            + (if step.Request? && step.id == id && step.verb == Get then 1 else 0)
            - (if step.StreamCloses? && step.pair == s.sessions[id] then 1 else 0)
  {
    assert s.sessions[id] in Stored(s);
  }

  lemma {:induction false} StepTouches(s: Store, step: Step, id: SessionId)
    requires Inv(s) && Enabled(s, step) && Inv(Apply(s, step)) && id in Apply(s, step).sessions
    ensures id in s.sessions || Touched(s, step, id).Some?
    ensures StoredRecord(Apply(s, step), id).lastSeenAt
         == (match Touched(s, step, id) case Some(at) => at case None => StoredRecord(s, id).lastSeenAt)
  {
    if id in s.sessions {
      assert s.sessions[id] in Stored(s);
    }
  }

  lemma {:induction false} SeenAtLastTouch(s: Store, run: seq<Step>, id: SessionId)
    requires Inv(s) && IsRun(s, run) && Inv(After(s, run)) && id in After(s, run).sessions
    ensures id in s.sessions || LastTouch(s, run, id).Some?
    ensures StoredRecord(After(s, run), id).lastSeenAt
         == (match LastTouch(s, run, id) case Some(at) => at case None => StoredRecord(s, id).lastSeenAt)
    decreases |run|
  {
    if run != [] {
      StepConserves(s, run[0]);
      var next := Apply(s, run[0]);
      SeenAtLastTouch(next, run[1..], id);
      if LastTouch(next, run[1..], id) == None { StepTouches(s, run[0], id); }
    }
  }

  /**
   Over whole runs: a sweep removes a stored session exactly when its start, its
   last request and its last stream close are all more than five minutes ago and
   no GET of it has come since its start or its last stream close.
   */
  lemma {:induction false} SweepRemovesIffUntouched(run: seq<Step>, at: int, id: SessionId)
    requires IsRun(EMPTY, run) && id in After(EMPTY, run).sessions
    ensures Inv(After(EMPTY, run))
    ensures var s := After(EMPTY, run);
            && LastTouch(EMPTY, run, id).Some?
            && LastFlag(EMPTY, run, id).Some?
            && (id !in Apply(s, Sweep(at)).sessions
                <==> !LastFlag(EMPTY, run, id).value && at - LastTouch(EMPTY, run, id).value > 300_000)
  {
    PairsAreConserved(EMPTY, run);
    SeenAtLastTouch(EMPTY, run, id);
    FlaggedAtLastFlag(EMPTY, run, id);
    SweepIsExact(After(EMPTY, run), at, id);
  }

  /** One step of it: whatever touches a session, no sweep within five minutes removes it. */
  lemma {:induction false} TouchedIsKept(s: Store, step: Step, id: SessionId, later: int)
    requires Inv(s) && Enabled(s, step) && Touched(s, step, id).Some?
    requires later <= Touched(s, step, id).value + 300_000
    ensures id in Apply(Apply(s, step), Sweep(later)).sessions
  {
    StepConserves(s, step);
    StepTouches(s, step, id);
    SweepIsExact(Apply(s, step), later, id);
  }

  /** A session leaves the store only by a sweep that finds it expired, or when a DELETE of it has been handled. */
  lemma {:induction false} SessionsLeaveIff(s: Store, step: Step, id: SessionId)
    requires Inv(s) && Enabled(s, step) && id in s.sessions
    ensures id !in Apply(s, step).sessions
       <==> || (step.Sweep? && Expired(StoredRecord(s, id), step.at))
            || (step.DeleteReturns? && s.deletes[step.request] == id)
    ensures id !in Apply(s, step).sessions ==> Apply(s, step).closed[s.sessions[id]] == 1
  {
    assert s.sessions[id] in Stored(s);
    if step.Sweep? { SweepIsExact(s, step.at, id); }
    if step.DeleteReturns? {
      assert s.sessions[id] !in Closed(s);
    }
  }

  /** A DELETE is being handled exactly when one was received for a stored session and has neither returned nor thrown. */
  lemma {:induction false} DeletesAreRequested(s: Store, step: Step, request: RequestId, id: SessionId)
    requires Inv(s) && Enabled(s, step)
    ensures request in Apply(s, step).deletes && Apply(s, step).deletes[request] == id
       <==> || (step.Request? && step.verb.Delete? && step.request == request && step.id == id && id in s.sessions)
            || (request in s.deletes && s.deletes[request] == id
                && !((step.DeleteReturns? || step.DeleteThrows?) && step.request == request))
  {
    if step.Request? && step.id in s.sessions {
      assert s.sessions[step.id] in Stored(s);
    }
  }

  lemma {:induction false} OneStep(s: Store, step: Step, rest: seq<Step>)
    requires Enabled(s, step) && IsRun(Apply(s, step), rest)
    ensures IsRun(s, [step] + rest) && After(s, [step] + rest) == After(Apply(s, step), rest)
  {
    assert ([step] + rest)[1..] == rest;
  }

  /** Two GETs, one closes: five minutes later the sweep closes a session whose other stream is still open. */
  lemma {:induction false} SecondStreamExposesTheFirst() returns (run: seq<Step>)
    ensures IsRun(EMPTY, run)
    ensures var s := After(EMPTY, run);
            s.sessions == map[] && s.closed[0] == 1 && 0 in s.records && s.records[0].openStreams == 1
  {
    var s1 := Apply(EMPTY, Connect(0));
    var s2 := Apply(s1, Initialized(0, 7, 0));
    var s3 := Apply(s2, Request(7, Get, 0, 0));
    var s4 := Apply(s3, Request(7, Get, 0, 0));
    var s5 := Apply(s4, StreamCloses(0, 0));
    assert s5.records[0] == Record(0, false, 1) && s5.sessions == map[7 := 0];
    assert ExpiredIds(s5, 300_001) == {7} && PairsOf(s5.sessions, {7}) == {0};
    OneStep(s5, Sweep(300_001), []);
    OneStep(s4, StreamCloses(0, 0), [Sweep(300_001)] + []);
    OneStep(s3, Request(7, Get, 0, 0), [StreamCloses(0, 0)] + ([Sweep(300_001)] + []));
    run := [Request(7, Get, 0, 0)] + ([StreamCloses(0, 0)] + ([Sweep(300_001)] + []));
    OneStep(s2, Request(7, Get, 0, 0), run);
    run := [Request(7, Get, 0, 0)] + run;
    OneStep(s1, Initialized(0, 7, 0), run);
    run := [Initialized(0, 7, 0)] + run;
    OneStep(EMPTY, Connect(0), run);
    run := [Connect(0)] + run;
  }

  // ---------------------------------------------------------------- the class

  /** One session's record; its close listeners keep writing it after the session is gone. */
  class SessionRecord {
    const pair: Pair
    var lastSeenAt: int
    var streaming: bool
    ghost var openStreams: nat

    constructor (pair: Pair, at: int)
      ensures this.pair == pair && lastSeenAt == at && !streaming && openStreams == 0
    {
      this.pair, lastSeenAt, streaming, openStreams := pair, at, false, 0;
    }

    ghost function View(): Record
      reads this
    {
      Record(lastSeenAt, streaming, openStreams)
    }
  }

  class SessionStore {
    var sessions: map<SessionId, SessionRecord>
    ghost var records: map<Pair, SessionRecord>
    ghost var initializing: set<Pair>
    ghost var deletes: map<RequestId, SessionId>
    ghost var closed: multiset<Pair>
    ghost var created: set<Pair>
    ghost var usedIds: set<SessionId>

    ghost predicate Linked()
      reads this
    {
      && (forall p | p in records :: records[p].pair == p)
      && (forall id | id in sessions :: sessions[id].pair in records && records[sessions[id].pair] == sessions[id])
    }

    ghost function State(): Store
      reads this, records.Values
    {
      Store(PairView(sessions), map p | p in records :: records[p].View(),
            initializing, deletes, closed, created, usedIds)
    }

    static ghost function PairView(sessions: map<SessionId, SessionRecord>): map<SessionId, Pair> {
      map id | id in sessions :: sessions[id].pair
    }

    static lemma {:induction false} PairViewWith(sessions: map<SessionId, SessionRecord>, id: SessionId, r: SessionRecord)
      ensures PairView(sessions[id := r]) == PairView(sessions)[id := r.pair]
    {
    }

    static lemma {:induction false} PairViewWithout(sessions: map<SessionId, SessionRecord>, ids: set<SessionId>)
      ensures PairView(sessions - ids) == PairView(sessions) - ids
    {
    }

    constructor ()
      ensures Linked() && State() == EMPTY
    {
      sessions, records, initializing, deletes := map[], map[], {}, map[];
      closed, created, usedIds := multiset{}, {}, {};
    }

    /** The transport reported its session id. */
    method OnInitialized(pair: Pair, id: SessionId, at: int)
      requires Linked() && Enabled(State(), Initialized(pair, id, at)) && pair !in records
      modifies this
      ensures Linked() && State() == Apply(old(State()), Initialized(pair, id, at))
    {
      var record := new SessionRecord(pair, at);
      sessions := sessions[id := record];
      records := records[pair := record];
      initializing := initializing - {pair};
      usedIds := usedIds + {id};
      PairViewWith(old(sessions), id, record);
      assert State().records == old(State()).records[pair := Record(at, false, 0)];
    }

    /** `handleRequest` of an initialize returned without a session: close the pair. */
    method CloseUninitialized(pair: Pair)
      requires Linked() && pair in initializing
      modifies this
      ensures Linked() && State() == Apply(old(State()), CreateReturns(pair))
    {
      initializing := initializing - {pair};
      closed := closed + multiset{pair};
    }

    /** `handleExisting` up to its await. */
    method HandleExisting(id: SessionId, verb: Verb, request: RequestId, at: int) returns (found: bool)
      requires Linked()
      modifies this, records.Values
      ensures Linked() && sessions == old(sessions) && records == old(records)
      ensures State() == Apply(old(State()), Request(id, verb, request, at))
      ensures found <==> id in sessions
    {
      if id !in sessions {
        return false;
      }
      var record := sessions[id];
      ghost var pair := record.pair;
      assert record in records.Values by { assert records[pair] == record; }
      record.lastSeenAt := at;
      if verb.Get? {
        record.streaming := true;
        record.openStreams := record.openStreams + 1;
      }
      if verb.Delete? {
        deletes := deletes[request := id];
      }
      assert State().records == old(State()).records[pair := Touch(old(State()).records[pair], verb, at)];
      return true;
    }

    /** The listener a GET installed on its response. */
    method OnStreamClose(record: SessionRecord, at: int)
      requires Linked() && record in records.Values && record.openStreams > 0
      modifies record
      ensures Linked()
      ensures record.pair in old(State()).records
      ensures State() == Apply(old(State()), StreamCloses(record.pair, at))
    {
      record.streaming := false;
      record.lastSeenAt := at;
      record.openStreams := record.openStreams - 1;
    }

    /** Forgets a session and closes its pair; a second caller finds nothing to do. */
    method Forget(id: SessionId)
      modifies this`sessions, this`closed
      ensures sessions == old(sessions) - {id}
      ensures closed == old(closed) + (if id in old(sessions) then multiset{old(sessions)[id].pair} else multiset{})
    {
      if id !in sessions {
        assert sessions == sessions - {id};
        return;
      }
      closed := closed + multiset{sessions[id].pair};
      sessions := sessions - {id};
    }

    method RemoveSession(id: SessionId)
      requires Linked()
      modifies this`sessions, this`closed
      ensures Linked() && State() == Remove(old(State()), id)
    {
      ghost var was := sessions;
      Forget(id);
      PairViewWithout(was, {id});
      assert was - {id} == if id in was then was - {id} else was;
    }

    method FinishDelete(request: RequestId, id: SessionId)
      requires Linked() && request in deletes && deletes[request] == id
      modifies this
      ensures Linked() && State() == Apply(old(State()), DeleteReturns(request))
    {
      deletes := deletes - {request};
      RemoveSession(id);
    }

    ghost function Stale(at: int): set<SessionId>
      reads this, sessions.Values
    {
      set id | id in sessions && Expired(sessions[id].View(), at)
    }

    static ghost function PairsIn(sessions: map<SessionId, SessionRecord>, ids: set<SessionId>): set<Pair> {
      set id | id in ids && id in sessions :: sessions[id].pair
    }

    /** The sweep loop: every stale session is forgotten and its pair closed, the rest stay. */
    method ForgetStale(at: int)
      requires forall a, b | a in sessions && b in sessions && sessions[a].pair == sessions[b].pair :: a == b
      modifies this`sessions, this`closed
      ensures sessions == old(sessions) - old(Stale(at))
      ensures closed == old(closed) + multiset(PairsIn(old(sessions), old(Stale(at))))
    {
      ghost var was, stale, gone := sessions, Stale(at), {};
      var pending := sessions.Keys;
      assert PairsIn(was, gone) == {} && was == was - gone;
      while pending != {}
        invariant pending <= was.Keys && forall id :: id in gone <==> id in stale && id !in pending
        invariant sessions == was - gone
        invariant closed == old(closed) + multiset(PairsIn(was, gone))
        decreases pending
      {
        var id :| id in pending;
        var record := sessions[id];
        if !record.streaming && at - record.lastSeenAt > SESSION_IDLE_EXPIRY_MS {
          ForgetOne(was, gone, id);
          gone := gone + {id};
        }
        pending := pending - {id};
      }
      assert gone == stale;
    }

    method ForgetOne(ghost was: map<SessionId, SessionRecord>, ghost gone: set<SessionId>, id: SessionId)
      requires forall a, b | a in was && b in was && was[a].pair == was[b].pair :: a == b
      requires sessions == was - gone && id in sessions
      modifies this`sessions, this`closed
      ensures sessions == was - (gone + {id})
      ensures forall before :: old(closed) == before + multiset(PairsIn(was, gone)) ==>
                               closed == before + multiset(PairsIn(was, gone + {id}))
    {
      MinusSteps(was, gone, id);
      PairsGrow(was, gone, id);
      Forget(id);
    }

    static lemma {:induction false} PairsGrow(m: map<SessionId, SessionRecord>, ids: set<SessionId>, id: SessionId)
      requires forall a, b | a in m && b in m && m[a].pair == m[b].pair :: a == b
      requires id in m && id !in ids
      ensures multiset(PairsIn(m, ids + {id})) == multiset(PairsIn(m, ids)) + multiset{m[id].pair}
    {
      assert PairsIn(m, ids + {id}) == PairsIn(m, ids) + {m[id].pair};
      assert m[id].pair !in PairsIn(m, ids);
    }

    method DoSweep(at: int)
      requires Linked() && OnePairPerSession(State().sessions)
      modifies this`sessions, this`closed
      ensures Linked() && State() == Apply(old(State()), Sweep(at))
    {
      ghost var before := State();
      assert forall id | id in sessions :: before.sessions[id] == sessions[id].pair;
      ghost var expired := ExpiredIds(before, at);
      assert Stale(at) == expired;
      assert PairsIn(sessions, expired) == PairsOf(before.sessions, expired);
      ghost var was := sessions;
      ForgetStale(at);
      PairViewWithout(was, expired);
      assert State().sessions == before.sessions - expired;
      assert State().records == before.records;
    }
  }

  lemma {:induction false} MinusSteps<V>(m: map<SessionId, V>, ids: set<SessionId>, id: SessionId)
    ensures m - {} == m && m - ids - {id} == m - (ids + {id})
  {
  }
}
