/**
 The snapshot cache: hot read documents are served from a short-lived entry,
 every returning mutation clears all entries, and fetches are asynchronous.
 The server is modelled by a version that grows with every applied write,
 whether by a mutation of this executor or by anyone else.
 */
module SnapshotCache {
  import opened Wrappers
  import opened Decimal

  /** A document is an object, known by identity; variables are their JSON text. */
  type Document = nat
  type ReadId = nat
  type MutationId = nat

  /** A payload: which read fetched it, what it answers, and the server version it shows. */
  datatype Payload = Payload(fetchedBy: ReadId, document: Document, variables: string, version: nat)

  datatype Entry = Entry(data: Payload, storedAtMs: int)

  datatype Fetch =
    | Sent(document: Document, variables: string)
    | Answered(document: Document, variables: string, version: nat)

  /** One completed hot read: the clock when it was decided and when its age was stamped. */
  datatype Serve = Serve(id: ReadId, document: Document, variables: string, data: Payload, fromCache: bool,
                         storedAtMs: int, atMs: int, stampedAtMs: int)

  datatype Cache = Cache(
    entries: map<string, Entry>,
    documentIds: map<Document, nat>,
    servedAges: map<ReadId, int>,    // by payload object
    version: nat,
    inFlight: map<ReadId, Fetch>,
    mutations: map<MutationId, Option<nat>>,    // not yet returned, each with the version its last write made
    started: set<ReadId>,
    served: seq<Serve>,
    now: int)

  const INITIAL := Cache(map[], map[], map[], 0, map[], map[], {}, [], 0)

  datatype Step =
    | HotRead(id: ReadId, document: Document, variables: string, at: int, stampAt: int)    // a hit reads the clock twice
    | ServerAnswers(id: ReadId)
    | FetchSettles(id: ReadId, at: int)
    | FetchFails(id: ReadId)
    | MutationStarts(mutation: MutationId)
    | WriteApplies(mutation: MutationId)
    | ForeignWrite
    | MutationReturns(mutation: MutationId)

  /** What the executor is configured with. */
  datatype Config = Config(cacheable: set<Document>, ttlMs: int)

  function DigitText(digits: seq<Digit>): string {
    seq(|digits|, i requires 0 <= i < |digits| => ('0' as int + digits[i]) as char)
  }

  function CacheKey(documentId: nat, variables: string): string {
    DigitText(Digits(documentId)) + ":" + variables
  }

  function IdentifyDocument(ids: map<Document, nat>, document: Document): map<Document, nat> {
    if document in ids then ids else ids[document := |ids|]
  }

  function KeyOf(ids: map<Document, nat>, document: Document, variables: string): string
    requires document in ids
  {
    CacheKey(ids[document], variables)
  }

  predicate IsHit(c: Config, entries: map<string, Entry>, key: string, at: int) {
    key in entries && at - entries[key].storedAtMs <= c.ttlMs
  }

  ghost predicate Enabled(c: Config, s: Cache, step: Step) {
    match step
    case HotRead(id, document, _, at, stampAt) =>
      id !in s.started && document in c.cacheable && s.now <= at <= stampAt
    case ServerAnswers(id) => id in s.inFlight && s.inFlight[id].Sent?
    case FetchSettles(id, at) => id in s.inFlight && s.inFlight[id].Answered? && at >= s.now
                                 && s.inFlight[id].document in s.documentIds
    case FetchFails(id) => id in s.inFlight
    case MutationStarts(mutation) => mutation !in s.mutations
    case WriteApplies(mutation) => mutation in s.mutations
    case ForeignWrite => true
    case MutationReturns(mutation) => mutation in s.mutations
  }

  function ServeHit(s: Cache, entry: Entry, id: ReadId, document: Document, variables: string, at: int, stampAt: int): Cache {
    s.(served := s.served + [Serve(id, document, variables, entry.data, true, entry.storedAtMs, at, stampAt)],
       servedAges := s.servedAges[entry.data.fetchedBy := stampAt - entry.storedAtMs],
       now := stampAt)
  }

  function ReadStep(c: Config, s: Cache, id: ReadId, document: Document, variables: string, at: int, stampAt: int): Cache {
    var ids := IdentifyDocument(s.documentIds, document);
    var key := KeyOf(ids, document, variables);
    var read := s.(documentIds := ids, started := s.started + {id}, now := at);
    if IsHit(c, s.entries, key, at) then
      ServeHit(read, s.entries[key], id, document, variables, at, stampAt)
    else
      read.(inFlight := s.inFlight[id := Sent(document, variables)])
  }

  function SettleStep(s: Cache, id: ReadId, at: int): Cache
    requires id in s.inFlight && s.inFlight[id].Answered? && s.inFlight[id].document in s.documentIds
  {
    var fetch := s.inFlight[id];
    var data := Payload(id, fetch.document, fetch.variables, fetch.version);
    s.(entries := s.entries[KeyOf(s.documentIds, fetch.document, fetch.variables) := Entry(data, at)],
       servedAges := s.servedAges[id := 0],
       inFlight := s.inFlight - {id},
       served := s.served + [Serve(id, fetch.document, fetch.variables, data, false, at, at, at)],
       now := at)
  }

  function Apply(c: Config, s: Cache, step: Step): Cache
    requires step.FetchSettles? || step.ServerAnswers? ==> step.id in s.inFlight
    requires step.FetchSettles? ==> s.inFlight[step.id].Answered? && s.inFlight[step.id].document in s.documentIds
  {
    match step
    case HotRead(id, document, variables, at, stampAt) => ReadStep(c, s, id, document, variables, at, stampAt)
    case ServerAnswers(id) =>
      var fetch := s.inFlight[id];
      s.(inFlight := s.inFlight[id := Answered(fetch.document, fetch.variables, s.version)])
    case FetchSettles(id, at) => SettleStep(s, id, at)
    case FetchFails(id) => s.(inFlight := s.inFlight - {id})
    case MutationStarts(mutation) => s.(mutations := s.mutations[mutation := None])
    case WriteApplies(mutation) => s.(version := s.version + 1, mutations := s.mutations[mutation := Some(s.version + 1)])
    case ForeignWrite => s.(version := s.version + 1)
    case MutationReturns(mutation) => s.(entries := map[], mutations := s.mutations - {mutation})
  }

  ghost predicate IsRun(c: Config, s: Cache, run: seq<Step>)
    decreases |run|
  {
    run != [] ==> Enabled(c, s, run[0]) && IsRun(c, Apply(c, s, run[0]), run[1..])
  }

  ghost function After(c: Config, s: Cache, run: seq<Step>): Cache
    requires IsRun(c, s, run)
    decreases |run|
  {
    if run == [] then s else After(c, Apply(c, s, run[0]), run[1..])
  }

  // ---------------------------------------------------------------- keys

  lemma {:induction false} DigitTextIsInjective(a: nat, b: nat)
    requires DigitText(Digits(a)) == DigitText(Digits(b))
    ensures a == b
  {
    var x, y := Digits(a), Digits(b);
    assert |DigitText(x)| == |x| && |DigitText(y)| == |y|;
    forall i | 0 <= i < |x| ensures x[i] == y[i] {
      assert DigitText(x)[i] == DigitText(y)[i];
    }
    assert x == y;
    NumberOfDigits(a);
    NumberOfDigits(b);
  }

  function FirstColon(s: string): nat { if s == [] || s[0] == ':' then 0 else 1 + FirstColon(s[1..]) }

  lemma {:induction false} FirstColonEndsTheId(a: string, v: string)
    requires ':' !in a
    ensures FirstColon(a + ":" + v) == |a|
  {
    var s := a + ":" + v;
    if a != [] {
      assert s[0] == a[0] && a[0] in a;
      assert s[1..] == a[1..] + ":" + v;
      FirstColonEndsTheId(a[1..], v);
    }
  }

  lemma {:induction false} KeyDeterminesItsParts(a: string, b: string, v: string, w: string)
    requires ':' !in a && ':' !in b && a + ":" + v == b + ":" + w
    ensures a == b && v == w
  {
    var s := a + ":" + v;
    FirstColonEndsTheId(a, v);
    FirstColonEndsTheId(b, w);
    assert s == b + ":" + w;
    assert a == s[..|a|] && b == s[..|b|] && v == s[|a| + 1..] && w == s[|b| + 1..];
  }

  /** Two calls share an entry exactly when they name the same document object and the same variables text. */
  lemma {:induction false} KeysAreExact(ids: map<Document, nat>, d: Document, v: string, e: Document, w: string)
    requires DistinctIds(ids) && d in ids && e in ids
    ensures KeyOf(ids, d, v) == KeyOf(ids, e, w) <==> d == e && v == w
  {
    if KeyOf(ids, d, v) == KeyOf(ids, e, w) {
      KeyDeterminesItsParts(DigitText(Digits(ids[d])), DigitText(Digits(ids[e])), v, w);
      DigitTextIsInjective(ids[d], ids[e]);
    }
  }

  ghost predicate DistinctIds(ids: map<Document, nat>) {
    && (forall d | d in ids :: ids[d] < |ids|)
    && (forall d, e | d in ids && e in ids && ids[d] == ids[e] :: d == e)
  }

  // ---------------------------------------------------------------- every serve is right and recent

  ghost predicate EntryMatches(s: Cache, key: string)
    requires key in s.entries
  {
    var entry := s.entries[key];
    && entry.storedAtMs <= s.now
    && entry.data.document in s.documentIds
    && key == KeyOf(s.documentIds, entry.data.document, entry.data.variables)
  }

  ghost predicate ServeIsRight(c: Config, serve: Serve) {
    && serve.data.document == serve.document && serve.data.variables == serve.variables
    && serve.storedAtMs <= serve.atMs <= serve.stampedAtMs
    && (if serve.fromCache then serve.atMs - serve.storedAtMs <= c.ttlMs
        else serve.data.fetchedBy == serve.id && serve.stampedAtMs == serve.storedAtMs)
  }

  /** The recorded age of a payload is how long it had been stored when some read of it was stamped. */
  ghost predicate AgeIsTrue(s: Cache, ref: ReadId)
    requires ref in s.servedAges
  {
    exists i :: 0 <= i < |s.served| && s.served[i].data.fetchedBy == ref
                && s.servedAges[ref] == s.served[i].stampedAtMs - s.served[i].storedAtMs
  }

  ghost predicate Inv(c: Config, s: Cache) {
    && DistinctIds(s.documentIds)
    && (forall key | key in s.entries :: EntryMatches(s, key))
    && (forall id | id in s.inFlight :: s.inFlight[id].document in s.documentIds && s.inFlight[id].document in c.cacheable)
    && s.inFlight.Keys <= s.started
    && (forall mutation | mutation in s.mutations && s.mutations[mutation].Some? :: s.mutations[mutation].value <= s.version)
    && (forall i | 0 <= i < |s.served| :: ServeIsRight(c, s.served[i]))
    && (forall ref | ref in s.servedAges :: AgeIsTrue(s, ref))
  }

  lemma {:induction false} IdentifyKeepsIds(ids: map<Document, nat>, d: Document)
    requires DistinctIds(ids)
    ensures DistinctIds(IdentifyDocument(ids, d)) && d in IdentifyDocument(ids, d)
    ensures forall e | e in ids :: e in IdentifyDocument(ids, d) && IdentifyDocument(ids, d)[e] == ids[e]
  {
    if d !in ids {
      assert IdentifyDocument(ids, d).Keys == ids.Keys + {d};
      assert |IdentifyDocument(ids, d)| == |ids| + 1;
    }
  }

  lemma {:induction false} EntriesStillMatch(s: Cache, after: Cache)
    requires forall key | key in s.entries :: EntryMatches(s, key)
    requires forall key | key in after.entries :: key in s.entries && after.entries[key] == s.entries[key]
    requires s.now <= after.now
    requires forall d | d in s.documentIds :: d in after.documentIds && after.documentIds[d] == s.documentIds[d]
    ensures forall key | key in after.entries :: EntryMatches(after, key)
  {
    forall key | key in after.entries ensures EntryMatches(after, key) { assert EntryMatches(s, key); }
  }

  lemma {:induction false} AgesStayTrue(s: Cache, after: Cache)
    requires forall ref | ref in s.servedAges :: AgeIsTrue(s, ref)
    requires after.served == s.served && after.servedAges == s.servedAges
    ensures forall ref | ref in after.servedAges :: AgeIsTrue(after, ref)
  {
    forall ref | ref in after.servedAges ensures AgeIsTrue(after, ref) { assert AgeIsTrue(s, ref); }
  }

  lemma {:induction false} StampIsTrue(s: Cache, after: Cache, serve: Serve)
    requires forall ref | ref in s.servedAges :: AgeIsTrue(s, ref)
    requires after.served == s.served + [serve]
    requires after.servedAges == s.servedAges[serve.data.fetchedBy := serve.stampedAtMs - serve.storedAtMs]
    ensures forall ref | ref in after.servedAges :: AgeIsTrue(after, ref)
  {
    forall ref | ref in after.servedAges ensures AgeIsTrue(after, ref) {
      if ref == serve.data.fetchedBy {
        assert after.served[|s.served|] == serve;
      } else {
        assert AgeIsTrue(s, ref);
        var i :| 0 <= i < |s.served| && s.served[i].data.fetchedBy == ref
                 && s.servedAges[ref] == s.served[i].stampedAtMs - s.served[i].storedAtMs;
        assert after.served[i] == s.served[i];
      }
    }
  }

  lemma {:induction false} HitIsRight(c: Config, s: Cache, id: ReadId, d: Document, v: string, at: int, stampAt: int)
    requires Inv(c, s) && s.now <= at <= stampAt && IsHit(c, s.entries, KeyOf(IdentifyDocument(s.documentIds, d), d, v), at)
    ensures var entry := s.entries[KeyOf(IdentifyDocument(s.documentIds, d), d, v)];
            ServeIsRight(c, Serve(id, d, v, entry.data, true, entry.storedAtMs, at, stampAt))
  {
    var ids := IdentifyDocument(s.documentIds, d);
    IdentifyKeepsIds(s.documentIds, d);
    var key := KeyOf(ids, d, v);
    assert EntryMatches(s, key);
    KeysAreExact(ids, d, v, s.entries[key].data.document, s.entries[key].data.variables);
  }

  lemma {:induction false} MissKeepsInv(c: Config, s: Cache, id: ReadId, d: Document, v: string, at: int, stampAt: int)
    requires Inv(c, s) && Enabled(c, s, HotRead(id, d, v, at, stampAt))
    requires !IsHit(c, s.entries, KeyOf(IdentifyDocument(s.documentIds, d), d, v), at)
    ensures Inv(c, ReadStep(c, s, id, d, v, at, stampAt))
  {
    var after := ReadStep(c, s, id, d, v, at, stampAt);
    IdentifyKeepsIds(s.documentIds, d);
    EntriesStillMatch(s, after);
    AgesStayTrue(s, after);
    assert after.inFlight == s.inFlight[id := Sent(d, v)] && after.served == s.served;
  }

  lemma {:induction false} HitKeepsInv(c: Config, s: Cache, id: ReadId, d: Document, v: string, at: int, stampAt: int)
    requires Inv(c, s) && Enabled(c, s, HotRead(id, d, v, at, stampAt))
    requires IsHit(c, s.entries, KeyOf(IdentifyDocument(s.documentIds, d), d, v), at)
    ensures Inv(c, ReadStep(c, s, id, d, v, at, stampAt))
  {
    var after := ReadStep(c, s, id, d, v, at, stampAt);
    IdentifyKeepsIds(s.documentIds, d);
    EntriesStillMatch(s, after);
    HitIsRight(c, s, id, d, v, at, stampAt);
    StampIsTrue(s, after, after.served[|s.served|]);
    forall i | 0 <= i < |after.served| ensures ServeIsRight(c, after.served[i]) {
      if i < |s.served| { assert after.served[i] == s.served[i]; }
    }
  }

  lemma {:induction false} ReadKeepsInv(c: Config, s: Cache, id: ReadId, d: Document, v: string, at: int, stampAt: int)
    requires Inv(c, s) && Enabled(c, s, HotRead(id, d, v, at, stampAt))
    ensures Inv(c, ReadStep(c, s, id, d, v, at, stampAt))
  {
    if IsHit(c, s.entries, KeyOf(IdentifyDocument(s.documentIds, d), d, v), at) {
      HitKeepsInv(c, s, id, d, v, at, stampAt);
    } else {
      MissKeepsInv(c, s, id, d, v, at, stampAt);
    }
  }

  lemma {:induction false} SettleKeepsInv(c: Config, s: Cache, id: ReadId, at: int)
    requires Inv(c, s) && Enabled(c, s, FetchSettles(id, at))
    ensures Inv(c, SettleStep(s, id, at))
  {
    var after := SettleStep(s, id, at);
    StampIsTrue(s, after, after.served[|s.served|]);
    forall k | k in after.entries ensures EntryMatches(after, k) {
      if k in s.entries { assert EntryMatches(s, k); }
    }
  }

  lemma {:induction false} OtherStepKeepsInv(c: Config, s: Cache, step: Step)
    requires Inv(c, s) && Enabled(c, s, step) && !step.HotRead? && !step.FetchSettles?
    ensures Inv(c, Apply(c, s, step))
  {
    var after := Apply(c, s, step);
    EntriesStillMatch(s, after);
    AgesStayTrue(s, after);
  }

  lemma {:induction false} StepKeepsInv(c: Config, s: Cache, step: Step)
    requires Inv(c, s) && Enabled(c, s, step)
    ensures Inv(c, Apply(c, s, step))
  {
    match step
    case HotRead(id, d, v, at, stampAt) => ReadKeepsInv(c, s, id, d, v, at, stampAt);
    case FetchSettles(id, at) => SettleKeepsInv(c, s, id, at);
    case _ => OtherStepKeepsInv(c, s, step);
  }

  /**
   In every run each read gets data fetched for its own document and variables,
   a cached one at most the TTL after it was stored, a fresh one its own fetch.
   */
  lemma {:induction false} EveryServeIsRightAndRecent(c: Config, s: Cache, run: seq<Step>)
    requires Inv(c, s) && IsRun(c, s, run)
    ensures Inv(c, After(c, s, run))
    decreases |run|
  {
    if run != [] {
      StepKeepsInv(c, s, run[0]);
      EveryServeIsRightAndRecent(c, Apply(c, s, run[0]), run[1..]);
    }
  }

  /** So, from a fresh process: nobody is ever served another call's data, or data stored more than the TTL ago. */
  lemma {:induction false} ServesAreRight(c: Config, run: seq<Step>, i: nat)
    requires IsRun(c, INITIAL, run) && i < |After(c, INITIAL, run).served|
    ensures var serve := After(c, INITIAL, run).served[i];
            && serve.data.document == serve.document && serve.data.variables == serve.variables
            && (serve.fromCache ==> 0 <= serve.atMs - serve.storedAtMs <= c.ttlMs)
            && (!serve.fromCache ==> serve.data.fetchedBy == serve.id)
            && forall ref | ref in After(c, INITIAL, run).servedAges :: AgeIsTrue(After(c, INITIAL, run), ref)
  {
    EveryServeIsRightAndRecent(c, INITIAL, run);
    assert ServeIsRight(c, After(c, INITIAL, run).served[i]);
  }

  // ---------------------------------------------------------------- what is going on

  /** A fetch is in flight from its miss until it settles or fails, once; a mutation from its start until it returns. */
  lemma {:induction false} StepsStartAndEnd(c: Config, s: Cache, step: Step, id: ReadId, mutation: MutationId)
    requires Enabled(c, s, step)
    ensures id in Apply(c, s, step).inFlight
       <==> || (id in s.inFlight && step != FetchFails(id) && !(step.FetchSettles? && step.id == id))
            || (step.HotRead? && step.id == id && Apply(c, s, step).served == s.served)
    ensures mutation in Apply(c, s, step).mutations
       <==> step == MutationStarts(mutation) || (mutation in s.mutations && step != MutationReturns(mutation))
    ensures Apply(c, s, step).version == s.version + if step.WriteApplies? || step.ForeignWrite? then 1 else 0
  {
  }

  // ---------------------------------------------------------------- what is served from the cache

  function EntryUnder(ids: map<Document, nat>, entries: map<string, Entry>, d: Document, v: string): Option<Entry> {
    if d in ids && KeyOf(ids, d, v) in entries then Some(entries[KeyOf(ids, d, v)]) else None
  }

  function StoredEntry(s: Cache, d: Document, v: string): Option<Entry> { EntryUnder(s.documentIds, s.entries, d, v) }

  /** What a step does to the payload last stored for a document and variables, told from the step alone. */
  function NextStored(s: Cache, step: Step, d: Document, v: string, known: Option<Entry>): Option<Entry> {
    match step
    case FetchSettles(id, at) =>
      if id in s.inFlight && s.inFlight[id].Answered? && s.inFlight[id].document == d && s.inFlight[id].variables == v
      then Some(Entry(Payload(id, d, v, s.inFlight[id].version), at)) else known
    case MutationReturns(_) => None
    case _ => known
  }

  /** The payload of the last fetch that settled for a document and variables after the last mutation returned. */
  ghost function LastStored(c: Config, s: Cache, run: seq<Step>, d: Document, v: string, known: Option<Entry>): Option<Entry>
    requires IsRun(c, s, run)
    decreases |run|
  {
    if run == [] then known else LastStored(c, Apply(c, s, run[0]), run[1..], d, v, NextStored(s, run[0], d, v, known))
  }

  lemma {:induction false} NewDocumentsHaveNoEntry(c: Config, s: Cache, d: Document, v: string)
    requires Inv(c, s) && d !in s.documentIds
    ensures KeyOf(IdentifyDocument(s.documentIds, d), d, v) !in s.entries
  {
    var ids := IdentifyDocument(s.documentIds, d);
    IdentifyKeepsIds(s.documentIds, d);
    var key := KeyOf(ids, d, v);
    if key in s.entries {
      assert EntryMatches(s, key);
      KeysAreExact(ids, d, v, s.entries[key].data.document, s.entries[key].data.variables);
    }
  }

  lemma {:induction false} SettleStores(c: Config, s: Cache, id: ReadId, at: int, d: Document, v: string)
    requires Inv(c, s) && Enabled(c, s, FetchSettles(id, at))
    ensures StoredEntry(SettleStep(s, id, at), d, v) == NextStored(s, FetchSettles(id, at), d, v, StoredEntry(s, d, v))
  {
    if d in s.documentIds { KeysAreExact(s.documentIds, d, v, s.inFlight[id].document, s.inFlight[id].variables); }
  }

  lemma {:induction false} ReadChangesNoEntry(c: Config, s: Cache, id: ReadId, d: Document, v: string, at: int, stampAt: int)
    ensures var after := ReadStep(c, s, id, d, v, at, stampAt);
            after.entries == s.entries && after.documentIds == IdentifyDocument(s.documentIds, d)
  {
  }

  lemma {:induction false} IdentifyStores(c: Config, s: Cache, identified: Document, d: Document, v: string)
    requires Inv(c, s)
    ensures EntryUnder(IdentifyDocument(s.documentIds, identified), s.entries, d, v) == EntryUnder(s.documentIds, s.entries, d, v)
  {
    IdentifyKeepsIds(s.documentIds, identified);
    if d == identified && d !in s.documentIds { NewDocumentsHaveNoEntry(c, s, d, v); }
  }

  lemma {:induction false} StepStores(c: Config, s: Cache, step: Step, d: Document, v: string)
    requires Inv(c, s) && Enabled(c, s, step)
    ensures StoredEntry(Apply(c, s, step), d, v) == NextStored(s, step, d, v, StoredEntry(s, d, v))
  {
    match step
    case FetchSettles(id, at) => SettleStores(c, s, id, at, d, v);
    case HotRead(id, document, variables, at, stampAt) =>
      ReadChangesNoEntry(c, s, id, document, variables, at, stampAt);
      IdentifyStores(c, s, document, d, v);
    case _ =>
  }

  lemma {:induction false} EntriesAreTheLastStored(c: Config, s: Cache, run: seq<Step>, d: Document, v: string)
    requires Inv(c, s) && IsRun(c, s, run)
    ensures StoredEntry(After(c, s, run), d, v) == LastStored(c, s, run, d, v, StoredEntry(s, d, v))
    decreases |run|
  {
    if run != [] {
      StepKeepsInv(c, s, run[0]);
      StepStores(c, s, run[0], d, v);
      EntriesAreTheLastStored(c, Apply(c, s, run[0]), run[1..], d, v);
    }
  }

  lemma {:induction false} ReadDecides(c: Config, s: Cache, id: ReadId, d: Document, v: string, at: int, stampAt: int)
    requires Inv(c, s) && Enabled(c, s, HotRead(id, d, v, at, stampAt))
    ensures var stored, after := StoredEntry(s, d, v), Apply(c, s, HotRead(id, d, v, at, stampAt));
            && after.entries == s.entries && after.started == s.started + {id}
            && if stored.Some? && at - stored.value.storedAtMs <= c.ttlMs then
                 && after.inFlight == s.inFlight
                 && after.served == s.served + [Serve(id, d, v, stored.value.data, true, stored.value.storedAtMs, at, stampAt)]
                 && stored.value.data.fetchedBy in after.servedAges
                 && after.servedAges[stored.value.data.fetchedBy] == stampAt - stored.value.storedAtMs
               else after.inFlight == s.inFlight[id := Sent(d, v)] && after.served == s.served
  {
    if d !in s.documentIds { NewDocumentsHaveNoEntry(c, s, d, v); }
  }

  /**
   Over whole runs: a hot read is served from the cache, and with which payload,
   exactly when the last fetch that settled for its document and variables did so
   within the TTL and no mutation has returned since; otherwise it fetches.
   */
  lemma {:induction false} CacheHitsIffRecentlyStored(c: Config, run: seq<Step>, id: ReadId, d: Document, v: string,
                                                      at: int, stampAt: int)
    requires IsRun(c, INITIAL, run) && Enabled(c, After(c, INITIAL, run), HotRead(id, d, v, at, stampAt))
    ensures var s := After(c, INITIAL, run);
            var after, stored := Apply(c, s, HotRead(id, d, v, at, stampAt)), LastStored(c, INITIAL, run, d, v, None);
            if stored.Some? && at - stored.value.storedAtMs <= c.ttlMs then
              && after.inFlight == s.inFlight
              && after.served == s.served + [Serve(id, d, v, stored.value.data, true, stored.value.storedAtMs, at, stampAt)]
            else after.inFlight == s.inFlight[id := Sent(d, v)] && after.served == s.served
  {
    EveryServeIsRightAndRecent(c, INITIAL, run);
    EntriesAreTheLastStored(c, INITIAL, run, d, v);
    ReadDecides(c, After(c, INITIAL, run), id, d, v, at, stampAt);
  }

  // ---------------------------------------------------------------- reads after a mutation

  /** A straddling fetch: the server answered it before the write, and the answer has not been stored yet. */
  ghost predicate StaleAnswerInFlight(s: Cache, version: nat) {
    exists id :: id in s.inFlight && s.inFlight[id].Answered? && s.inFlight[id].version < version
  }

  ghost predicate AllAtLeast(s: Cache, version: nat) {
    && s.version >= version
    && (forall key | key in s.entries :: s.entries[key].data.version >= version)
    && !StaleAnswerInFlight(s, version)
  }

  /** Reads started after `from` that were served data older than `version`. */
  ghost predicate ServedStale(from: Cache, later: Cache, version: nat) {
    exists i :: |from.served| <= i < |later.served| && later.served[i].id !in from.started
                && later.served[i].data.version < version
  }

  lemma {:induction false} StepKeepsFresh(c: Config, s: Cache, step: Step, version: nat)
    requires AllAtLeast(s, version) && Enabled(c, s, step)
    ensures var after := Apply(c, s, step);
            && AllAtLeast(after, version)
            && |s.served| <= |after.served| && after.served[..|s.served|] == s.served
            && (forall i | |s.served| <= i < |after.served| :: after.served[i].data.version >= version)
  {
    var after := Apply(c, s, step);
    forall id | id in after.inFlight && after.inFlight[id].Answered? ensures after.inFlight[id].version >= version {
      if id in s.inFlight && s.inFlight[id].Answered? {
        assert !(s.inFlight[id].version < version);
      }
    }
  }

  lemma {:induction false} FreshRun(c: Config, s: Cache, run: seq<Step>, version: nat)
    requires AllAtLeast(s, version) && IsRun(c, s, run)
    ensures var after := After(c, s, run);
            && |s.served| <= |after.served| && after.served[..|s.served|] == s.served
            && (forall i | |s.served| <= i < |after.served| :: after.served[i].data.version >= version)
    decreases |run|
  {
    if run != [] {
      var next := Apply(c, s, run[0]);
      var after := After(c, s, run);
      StepKeepsFresh(c, s, run[0], version);
      FreshRun(c, next, run[1..], version);
      forall i | |s.served| <= i < |after.served| ensures after.served[i].data.version >= version {
        if i < |next.served| {
          assert after.served[i] == after.served[..|next.served|][i];
        }
      }
      assert after.served[..|s.served|] == after.served[..|next.served|][..|s.served|];
    }
  }

  /** Settle the straddling fetch, then read the same thing: the read is served the old answer. */
  ghost function StaleTrace(s: Cache, id: ReadId, reader: ReadId): seq<Step>
    requires id in s.inFlight
  {
    [FetchSettles(id, s.now), HotRead(reader, s.inFlight[id].document, s.inFlight[id].variables, s.now, s.now)]
  }

  lemma {:induction false} StraddlingFetchIsServed(c: Config, s: Cache, id: ReadId, reader: ReadId, version: nat)
    requires Inv(c, s) && c.ttlMs >= 0 && reader !in s.started
    requires id in s.inFlight && s.inFlight[id].Answered? && s.inFlight[id].version < version
    ensures IsRun(c, s, StaleTrace(s, id, reader))
    ensures ServedStale(s, After(c, s, StaleTrace(s, id, reader)), version)
  {
    var trace := StaleTrace(s, id, reader);
    var stored := Apply(c, s, trace[0]);
    var read := Apply(c, stored, trace[1]);
    assert trace[1..] == [trace[1]] && trace[1..][1..] == [];
    assert Enabled(c, stored, trace[1]);
    assert IsRun(c, read, []) && After(c, read, []) == read;
    assert IsRun(c, stored, [trace[1]]) && After(c, stored, [trace[1]]) == read;
    var last := read.served[|s.served| + 1];
    assert last.id == reader && last.data.version == s.inFlight[id].version;
  }

  /** No read that starts after the mutation returned is ever served data older than version `w`. */
  ghost predicate WriteIsVisible(c: Config, s: Cache, mutation: MutationId, w: nat)
    requires mutation in s.mutations
  {
    var cleared := Apply(c, s, MutationReturns(mutation));
    forall run :: IsRun(c, cleared, run) ==> !ServedStale(cleared, After(c, cleared, run), w)
  }

  /**
   Clear-on-mutation, for any write up to now: it is visible to every read
   started after the mutation returns if and only if no hot fetch in flight at
   that moment already holds an answer from before that write.
   */
  lemma {:induction false} WriteIsVisibleIffNoFetchStraddles(c: Config, s: Cache, mutation: MutationId, w: nat)
    requires Inv(c, s) && c.ttlMs >= 0 && mutation in s.mutations && w <= s.version
    ensures WriteIsVisible(c, s, mutation, w) <==> !StaleAnswerInFlight(s, w)
  {
    var cleared := Apply(c, s, MutationReturns(mutation));
    if StaleAnswerInFlight(s, w) {
      StepKeepsInv(c, s, MutationReturns(mutation));
      assert StaleAnswerInFlight(cleared, w);
      var run := StaleRun(c, cleared, w);
    } else {
      forall run | IsRun(c, cleared, run) ensures !ServedStale(cleared, After(c, cleared, run), w) {
        FreshRun(c, cleared, run, w);
      }
    }
  }

  lemma {:induction false} StaleRun(c: Config, s: Cache, w: nat) returns (run: seq<Step>)
    requires Inv(c, s) && c.ttlMs >= 0 && StaleAnswerInFlight(s, w)
    ensures IsRun(c, s, run) && ServedStale(s, After(c, s, run), w)
  {
    var id :| id in s.inFlight && s.inFlight[id].Answered? && s.inFlight[id].version < w;
    var reader := UnusedAbove(s.started, 0);
    StraddlingFetchIsServed(c, s, id, reader, w);
    run := StaleTrace(s, id, reader);
  }

  /**
   The promise to the caller of a mutation, at any moment it may return in any
   run: later reads show its own write, whatever else was written since, if and
   only if no hot fetch was answered before that write and is still unsettled.
   */
  lemma {:induction false} MutationIsVisibleIffNoFetchStraddles(c: Config, run: seq<Step>, mutation: MutationId)
    requires IsRun(c, INITIAL, run) && c.ttlMs >= 0
    requires var s := After(c, INITIAL, run); mutation in s.mutations && s.mutations[mutation].Some?
    ensures var s := After(c, INITIAL, run);
            var own := s.mutations[mutation].value;
            WriteIsVisible(c, s, mutation, own) <==> !StaleAnswerInFlight(s, own)
  {
    EveryServeIsRightAndRecent(c, INITIAL, run);
    var s := After(c, INITIAL, run);
    WriteIsVisibleIffNoFetchStraddles(c, s, mutation, s.mutations[mutation].value);
  }

  lemma {:induction false} UnusedAbove(used: set<ReadId>, from: nat) returns (id: ReadId)
    ensures id !in used && id >= from
    decreases used
  {
    if from !in used {
      id := from;
    } else {
      id := UnusedAbove(used - {from}, from + 1);
      assert id !in used - {from} && id != from;
    }
  }

  ghost function Raced(d: Document): Cache {
    Cache(map[], map[d := 0], map[], 1, map[0 := Answered(d, "null", 0)], map[0 := Some(1)], {0}, [], 0)
  }

  /** A read is answered, then a mutation's own write is applied. */
  lemma {:induction false} RaceIsReachable(c: Config, d: Document)
    requires d in c.cacheable
    ensures var run := [HotRead(0, d, "null", 0, 0)] + ([ServerAnswers(0)] + ([MutationStarts(0)] + ([WriteApplies(0)] + [])));
            IsRun(c, INITIAL, run) && After(c, INITIAL, run) == Raced(d)
  {
    var s1 := Apply(c, INITIAL, HotRead(0, d, "null", 0, 0));
    var s2 := Apply(c, s1, ServerAnswers(0));
    var s3 := Apply(c, s2, MutationStarts(0));
    assert Apply(c, s3, WriteApplies(0)) == Raced(d);
    OneStep(c, s3, WriteApplies(0), []);
    OneStep(c, s2, MutationStarts(0), [WriteApplies(0)] + []);
    OneStep(c, s1, ServerAnswers(0), [MutationStarts(0)] + ([WriteApplies(0)] + []));
    OneStep(c, INITIAL, HotRead(0, d, "null", 0, 0), [ServerAnswers(0)] + ([MutationStarts(0)] + ([WriteApplies(0)] + [])));
  }

  /** The race is reachable from a fresh process, and then the mutation's own write is not visible. */
  lemma {:induction false} StaleReadIsReachable(c: Config, d: Document) returns (run: seq<Step>)
    requires d in c.cacheable && c.ttlMs >= 0
    ensures IsRun(c, INITIAL, run)
    ensures var s := After(c, INITIAL, run);
            0 in s.mutations && s.mutations[0] == Some(1) && StaleAnswerInFlight(s, 1) && !WriteIsVisible(c, s, 0, 1)
  {
    run := [HotRead(0, d, "null", 0, 0)] + ([ServerAnswers(0)] + ([MutationStarts(0)] + ([WriteApplies(0)] + [])));
    RaceIsReachable(c, d);
    assert 0 in Raced(d).inFlight && Raced(d).inFlight[0].version < 1;
    MutationIsVisibleIffNoFetchStraddles(c, run, 0);
  }

  lemma {:induction false} OneStep(c: Config, s: Cache, step: Step, rest: seq<Step>)
    requires Enabled(c, s, step) && IsRun(c, Apply(c, s, step), rest)
    ensures IsRun(c, s, [step] + rest) && After(c, s, [step] + rest) == After(c, Apply(c, s, step), rest)
  {
    assert ([step] + rest)[1..] == rest;
  }

  // ---------------------------------------------------------------- the class

  /**
   The executor's maps. What the server holds, the fetches in flight and the
   log of serves are ghost. Each method is one stretch between awaits.
   */
  class CachingExecutor {
    const config: Config
    var cache: map<string, Entry>
    var documentIds: map<Document, nat>
    var servedAges: map<ReadId, int>
    ghost var version: nat
    ghost var inFlight: map<ReadId, Fetch>
    ghost var mutations: map<MutationId, Option<nat>>
    ghost var started: set<ReadId>
    ghost var served: seq<Serve>
    ghost var now: int

    ghost function State(): Cache
      reads this
    {
      Cache(cache, documentIds, servedAges, version, inFlight, mutations, started, served, now)
    }

    ghost predicate Valid()
      reads this
    {
      Inv(config, State())
    }

    constructor (config: Config)
      ensures this.config == config && State() == INITIAL && Valid()
    {
      this.config := config;
      cache, documentIds, servedAges := map[], map[], map[];
      version, inFlight, mutations, started, served, now := 0, map[], map[], {}, [], 0;
    }

    /** The key of a call; a document seen for the first time gets the next id. */
    method KeyFor(document: Document, variables: string) returns (key: string)
      modifies this`documentIds
      ensures documentIds == IdentifyDocument(old(documentIds), document)
      ensures key == KeyOf(documentIds, document, variables)
    {
      if document !in documentIds {
        documentIds := documentIds[document := |documentIds|];
      }
      key := CacheKey(documentIds[document], variables);
    }

    /** `execute` of an allow-listed document up to its await: a hit is returned, a miss starts a fetch. */
    method Execute(id: ReadId, document: Document, variables: string, at: int, stampAt: int) returns (hit: Option<Payload>)
      requires Valid() && Enabled(config, State(), HotRead(id, document, variables, at, stampAt))
      modifies this
      ensures Valid() && State() == Apply(config, old(State()), HotRead(id, document, variables, at, stampAt))
      ensures hit.Some? ==> |served| == old(|served|) + 1 && served[|served| - 1].data == hit.value
      ensures hit.None? ==> served == old(served)
    {
      ReadKeepsInv(config, State(), id, document, variables, at, stampAt);
      hit := ServeOrFetch(id, document, variables, at, stampAt);
    }

    method ServeOrFetch(id: ReadId, document: Document, variables: string, at: int, stampAt: int)
      returns (hit: Option<Payload>)
      modifies this
      ensures State() == ReadStep(config, old(State()), id, document, variables, at, stampAt)
      ensures hit.Some? ==> |served| == old(|served|) + 1 && served[|served| - 1].data == hit.value
      ensures hit.None? ==> served == old(served)
    {
      ghost var before := State();
      var key := KeyFor(document, variables);
      started := started + {id};
      now := at;
      ghost var mid := State();
      if key in cache && at - cache[key].storedAtMs <= config.ttlMs {
        var entry := cache[key];
        assert IsHit(config, before.entries, key, at);
        servedAges := servedAges[entry.data.fetchedBy := stampAt - entry.storedAtMs];
        served := served + [Serve(id, document, variables, entry.data, true, entry.storedAtMs, at, stampAt)];
        now := stampAt;
        assert State() == ServeHit(mid, entry, id, document, variables, at, stampAt);
        return Some(entry.data);
      }
      assert !IsHit(config, before.entries, key, at);
      inFlight := inFlight[id := Sent(document, variables)];
      hit := None;
    }

    /** The rest of `execute` once the inner executor resolved: store, stamp, return. */
    method Store(id: ReadId, key: string, data: Payload, at: int)
      requires Valid() && Enabled(config, State(), FetchSettles(id, at))
      requires data == Payload(id, inFlight[id].document, inFlight[id].variables, inFlight[id].version)
      requires key == KeyOf(documentIds, data.document, data.variables)
      modifies this
      ensures Valid() && State() == Apply(config, old(State()), FetchSettles(id, at))
    {
      SettleKeepsInv(config, State(), id, at);
      cache := cache[key := Entry(data, at)];
      servedAges := servedAges[id := 0];
      inFlight := inFlight - {id};
      served := served + [Serve(id, data.document, data.variables, data, false, at, at, at)];
      now := at;
    }

    /** `executeUncached` up to its await. */
    method StartUncached(isMutation: bool, ghost mutation: MutationId)
      requires Valid() && mutation !in mutations
      modifies this`mutations
      ensures Valid()
      ensures State() == if isMutation then Apply(config, old(State()), MutationStarts(mutation)) else old(State())
    {
      StepKeepsInv(config, State(), MutationStarts(mutation));
      ghost var started := mutations[mutation := None];
      mutations := if isMutation then started else mutations;
    }

    /** The `finally` of an uncached operation: a mutation clears every entry, whether it succeeded or not. */
    method AfterUncached(isMutation: bool, ghost mutation: MutationId)
      requires Valid() && (isMutation ==> mutation in mutations)
      modifies this
      ensures Valid()
      ensures State() == if isMutation then Apply(config, old(State()), MutationReturns(mutation)) else old(State())
    {
      if isMutation {
        StepKeepsInv(config, State(), MutationReturns(mutation));
        cache := map[];
        mutations := mutations - {mutation};
      }
    }
  }
}
