/**
 The SSH executor: one shared connection, at most four channels, FIFO waiters
 that inherit a slot, and an idle timer that closes an unused connection.

 JavaScript runs a call until its next real `await`, so the executor is a
 transition system whose steps are the stretches between awaits. Steps that
 are separate microtasks stay separate here; a step that needs an event
 (a settled connect, a deadline, a close, a timer) is enabled only once no
 microtask is pending, because the event loop drains those first.
 */
module SshExecutor {
  import opened Wrappers

  const MAX_CONCURRENT_CHANNELS := 4

  type CallerId = nat
  type ConnectionId = nat
  type TimerId = nat

  /** Where one `execute` call is suspended. */
  datatype Phase =
    | Connecting                          // awaits the shared connect
    | Ready(connection: ConnectionId)     // has a connection; asks for a channel in a microtask
    | Queued(connection: ConnectionId)    // sits in `waiters`
    | Granted(connection: ConnectionId)   // owns a slot; resumes in a microtask
    | Running(connection: ConnectionId)   // awaits the remote command
    | Done                                // returned or threw

  datatype Machine = Machine(
    connection: Option<ConnectionId>,
    connecting: bool,
    idleTimer: Option<TimerId>,    // the field; it goes on naming a timer that has fired
    pending: set<TimerId>,         // timers set and neither cleared nor fired
    timers: nat,                   // timers set so far, numbered from 0
    activeChannels: int,
    waiters: seq<CallerId>,
    callers: map<CallerId, Phase>,
    established: nat,      // connections opened so far, numbered from 0
    connects: nat,    // factory calls that have not settled
    ended: set<ConnectionId>)

  datatype Step =
    | Call(id: CallerId)
    | ConnectSucceeds
    | ConnectFails
    | ConnectDeadline(id: CallerId)
    | AcquireChannel(id: CallerId)
    | StartExec(id: CallerId)
    | Release(id: CallerId)
    | ConnectionCloses(connection: ConnectionId)
    | IdleTimerFires(timer: TimerId)

  const INITIAL := Machine(None, false, None, {}, 0, 0, [], map[], 0, 0, {})

  /** Owns a channel slot: running, or woken but not resumed. */
  predicate HoldsSlot(p: Phase) { p.Granted? || p.Running? }

  /** Has a connection it will still use. */
  predicate HoldsConnection(p: Phase) { p.Ready? || p.Queued? || HoldsSlot(p) }

  predicate MicrotaskPending(p: Phase) { p.Ready? || p.Granted? }

  ghost predicate Drained(m: Machine) {
    forall id | id in m.callers :: !MicrotaskPending(m.callers[id])
  }

  function SettleConnecting(callers: map<CallerId, Phase>, next: Phase): map<CallerId, Phase> {
    map id | id in callers :: if callers[id].Connecting? then next else callers[id]
  }

  ghost predicate Enabled(m: Machine, step: Step) {
    match step
    case Call(id) => id !in m.callers
    case ConnectSucceeds => m.connects > 0 && Drained(m)
    case ConnectFails => m.connects > 0 && Drained(m)
    case ConnectDeadline(id) => id in m.callers && m.callers[id].Connecting? && Drained(m)
    case AcquireChannel(id) => id in m.callers && m.callers[id].Ready?
    case StartExec(id) => id in m.callers && m.callers[id].Granted?
    case Release(id) => id in m.callers && m.callers[id].Running?
    case ConnectionCloses(c) => c < m.established && Drained(m)
    case IdleTimerFires(timer) => timer in m.pending && Drained(m)
  }

  function CallStep(m: Machine, id: CallerId): Machine {
    match m.connection
    case Some(c) => m.(callers := m.callers[id := Ready(c)])
    case None =>
      m.(callers := m.callers[id := Connecting],
         connecting := true,
         connects := if m.connecting then m.connects else m.connects + 1)
  }

  function ClearTimer(m: Machine): Machine {
    match m.idleTimer
    case Some(timer) => m.(idleTimer := None, pending := m.pending - {timer})
    case None => m
  }

  function ScheduleTimer(m: Machine): Machine {
    var cleared := ClearTimer(m);
    cleared.(idleTimer := Some(m.timers), pending := cleared.pending + {m.timers}, timers := m.timers + 1)
  }

  function AcquireStep(m: Machine, id: CallerId): Machine
    requires id in m.callers && m.callers[id].Ready?
  {
    var c := m.callers[id].connection;
    var disarmed := ClearTimer(m);
    if m.activeChannels < MAX_CONCURRENT_CHANNELS then
      disarmed.(activeChannels := m.activeChannels + 1, callers := m.callers[id := Granted(c)])
    else
      disarmed.(waiters := m.waiters + [id], callers := m.callers[id := Queued(c)])
  }

  /** Wakes the first waiter, which inherits the slot, or frees the slot. */
  function ReleaseStep(m: Machine, id: CallerId): Machine {
    var callers := m.callers[id := Done];
    if m.waiters != [] then
      var next := m.waiters[0];
      var woken := if next in callers && callers[next].Queued? then callers[next := Granted(callers[next].connection)]
                   else callers;
      m.(waiters := m.waiters[1..], callers := woken)
    else
      var freed := m.(activeChannels := m.activeChannels - 1, callers := callers);
      if freed.activeChannels == 0 then ScheduleTimer(freed) else freed
  }

  function Apply(m: Machine, step: Step): Machine
    requires step.AcquireChannel? ==> step.id in m.callers && m.callers[step.id].Ready?
    requires step.StartExec? ==> step.id in m.callers && m.callers[step.id].Granted?
    requires step.ConnectSucceeds? || step.ConnectFails? ==> m.connects > 0
  {
    match step
    case Call(id) => CallStep(m, id)
    case ConnectSucceeds =>
      m.(connection := Some(m.established), connecting := false, established := m.established + 1, connects := m.connects - 1,
         callers := SettleConnecting(m.callers, Ready(m.established)))
    case ConnectFails =>
      m.(connecting := false, connects := m.connects - 1, callers := SettleConnecting(m.callers, Done))
    case ConnectDeadline(id) => m.(callers := m.callers[id := Done])
    case AcquireChannel(id) => AcquireStep(m, id)
    case StartExec(id) => m.(callers := m.callers[id := Running(m.callers[id].connection)])
    case Release(id) => ReleaseStep(m, id)
    case ConnectionCloses(c) => if m.connection == Some(c) then m.(connection := None) else m
    case IdleTimerFires(timer) =>
      m.(connection := None, pending := m.pending - {timer},
         ended := if m.connection.Some? then m.ended + {m.connection.value} else m.ended)
  }

  ghost predicate IsRun(m: Machine, run: seq<Step>)
    decreases |run|
  {
    run != [] ==> Enabled(m, run[0]) && IsRun(Apply(m, run[0]), run[1..])
  }

  ghost function After(m: Machine, run: seq<Step>): Machine
    requires IsRun(m, run)
    decreases |run|
  {
    if run == [] then m else After(Apply(m, run[0]), run[1..])
  }

  // ---------------------------------------------------------------- safety

  ghost function SlotHolders(m: Machine): set<CallerId> {
    set id | id in m.callers && HoldsSlot(m.callers[id])
  }

  ghost predicate Distinct(s: seq<CallerId>) {
    forall i, j | 0 <= i < j < |s| :: s[i] != s[j]
  }

  ghost predicate Channels(m: Machine) {
    && |SlotHolders(m)| == m.activeChannels <= MAX_CONCURRENT_CHANNELS
    && (m.waiters != [] ==> m.activeChannels == MAX_CONCURRENT_CHANNELS)
  }

  ghost predicate Queue(m: Machine) {
    && Distinct(m.waiters)
    && (forall id :: id in m.waiters <==> id in m.callers && m.callers[id].Queued?)
  }

  ghost predicate Connects(m: Machine) {
    && m.connects == (if m.connecting then 1 else 0)
    && (m.connecting ==> m.connection.None?)
    && (m.connection.Some? ==> m.connection.value < m.established)
    && (forall id | id in m.callers :: m.callers[id].Connecting? ==> m.connecting)
    && (forall id | id in m.callers :: HoldsConnection(m.callers[id]) ==> m.callers[id].connection < m.established)
  }

  ghost predicate Inv(m: Machine) {
    Channels(m) && Queue(m) && Connects(m) && Timers(m)
  }

  /** Only the timer the field names can be pending, and only while no slot is held. */
  ghost predicate Timers(m: Machine) {
    && (forall timer | timer in m.pending :: m.idleTimer == Some(timer))
    && (m.idleTimer.Some? ==> m.idleTimer.value < m.timers)
    && (m.pending != {} ==> m.activeChannels == 0)
  }

  /** One caller enters, leaves or keeps the holder set when only its phase changes. */
  lemma {:induction false} HoldersAfter(m: Machine, id: CallerId, p: Phase, after: Machine)
    requires after.callers == m.callers[id := p]
    ensures SlotHolders(after) == if HoldsSlot(p) then SlotHolders(m) + {id} else SlotHolders(m) - {id}
    ensures id in SlotHolders(m) <==> id in m.callers && HoldsSlot(m.callers[id])
    ensures |SlotHolders(after)| == |SlotHolders(m)|
                                    + (if HoldsSlot(p) then 1 else 0) - (if id in SlotHolders(m) then 1 else 0)
  {
    var before := SlotHolders(m);
    assert SlotHolders(after) == if HoldsSlot(p) then before + {id} else before - {id};
    if id in before {
      assert before == (before - {id}) + {id};
    }
  }

  lemma {:induction false} AcquireKeepsChannels(m: Machine, id: CallerId)
    requires Inv(m) && Enabled(m, AcquireChannel(id))
    ensures Channels(AcquireStep(m, id))
  {
    var after := AcquireStep(m, id);
    HoldersAfter(m, id, after.callers[id], after);
  }

  lemma {:induction false} AcquireKeepsQueue(m: Machine, id: CallerId)
    requires Inv(m) && Enabled(m, AcquireChannel(id))
    ensures Queue(AcquireStep(m, id))
  {
    var after := AcquireStep(m, id);
    assert id !in m.waiters;
    if m.activeChannels >= MAX_CONCURRENT_CHANNELS {
      forall x ensures x in after.waiters <==> x in after.callers && after.callers[x].Queued? {
        assert x in after.waiters <==> x in m.waiters || x == id;
      }
    }
  }

  lemma {:induction false} AcquireKeeps(m: Machine, id: CallerId)
    requires Inv(m) && Enabled(m, AcquireChannel(id))
    ensures Inv(AcquireStep(m, id))
  {
    AcquireKeepsChannels(m, id);
    AcquireKeepsQueue(m, id);
    assert AcquireStep(m, id).pending == {};
    assert Connects(AcquireStep(m, id));
  }

  lemma {:induction false} HandOffKeeps(m: Machine, id: CallerId)
    requires Inv(m) && Enabled(m, Release(id)) && m.waiters != []
    ensures Inv(ReleaseStep(m, id))
  {
    HandOffKeepsChannels(m, id);
    HandOffKeepsQueue(m, id);
    assert m.waiters[0] in m.waiters;
    assert Connects(ReleaseStep(m, id));
  }

  lemma {:induction false} HandOffKeepsChannels(m: Machine, id: CallerId)
    requires Inv(m) && Enabled(m, Release(id)) && m.waiters != []
    ensures Channels(ReleaseStep(m, id))
  {
    var after := ReleaseStep(m, id);
    var next := m.waiters[0];
    var freed := m.(callers := m.callers[id := Done]);
    assert next in m.waiters && next != id;
    HoldersAfter(m, id, Done, freed);
    HoldersAfter(freed, next, after.callers[next], after);
  }

  lemma {:induction false} HandOffKeepsQueue(m: Machine, id: CallerId)
    requires Inv(m) && Enabled(m, Release(id)) && m.waiters != []
    ensures Queue(ReleaseStep(m, id))
  {
    assert m.waiters[0] in m.waiters;
    TailMembers(m.waiters);
  }

  lemma {:induction false} TailMembers(s: seq<CallerId>)
    requires s != [] && Distinct(s)
    ensures Distinct(s[1..]) && forall x :: x in s[1..] <==> x in s && x != s[0]
  {
    assert s == [s[0]] + s[1..];
  }

  lemma {:induction false} ReleaseKeeps(m: Machine, id: CallerId)
    requires Inv(m) && Enabled(m, Release(id))
    ensures Inv(ReleaseStep(m, id))
  {
    if m.waiters != [] {
      HandOffKeeps(m, id);
    } else {
      HoldersAfter(m, id, Done, ReleaseStep(m, id));
    }
  }

  lemma {:induction false} SettleKeeps(m: Machine, step: Step)
    requires Inv(m) && Enabled(m, step) && (step.ConnectSucceeds? || step.ConnectFails?)
    ensures Inv(Apply(m, step))
  {
    var after := Apply(m, step);
    assert SlotHolders(after) == SlotHolders(m);
  }

  lemma {:induction false} CallKeeps(m: Machine, id: CallerId)
    requires Inv(m) && Enabled(m, Call(id))
    ensures Inv(CallStep(m, id))
  {
    HoldersAfter(m, id, CallStep(m, id).callers[id], CallStep(m, id));
  }

  lemma {:induction false} PhaseChangeKeeps(m: Machine, step: Step)
    requires Inv(m) && Enabled(m, step) && (step.ConnectDeadline? || step.StartExec?)
    ensures Inv(Apply(m, step))
  {
    HoldersAfter(m, step.id, Apply(m, step).callers[step.id], Apply(m, step));
  }

  lemma {:induction false} ForgettingKeeps(m: Machine, step: Step)
    requires Inv(m) && Enabled(m, step) && (step.ConnectionCloses? || step.IdleTimerFires?)
    ensures Inv(Apply(m, step))
  {
    assert SlotHolders(Apply(m, step)) == SlotHolders(m);
  }

  /** Every step of every caller and every event keeps the invariant. */
  lemma {:induction false} StepKeepsInv(m: Machine, step: Step)
    requires Inv(m) && Enabled(m, step)
    ensures Inv(Apply(m, step))
  {
    match step
    case Call(id) => CallKeeps(m, id);
    case ConnectSucceeds => SettleKeeps(m, step);
    case ConnectFails => SettleKeeps(m, step);
    case ConnectDeadline(id) => PhaseChangeKeeps(m, step);
    case AcquireChannel(id) => AcquireKeeps(m, id);
    case StartExec(id) => PhaseChangeKeeps(m, step);
    case Release(id) => ReleaseKeeps(m, id);
    case ConnectionCloses(c) => ForgettingKeeps(m, step);
    case IdleTimerFires(_) => ForgettingKeeps(m, step);
  }

  /**
   In every interleaving: the counter is exactly the number of slot holders and
   at most four, a non-empty queue means all four are taken, at most one
   connect is outstanding, none while a connection is live, and at most one idle
   timer is pending.
   */
  lemma {:induction false} RunsAreSafe(m: Machine, run: seq<Step>)
    requires Inv(m) && IsRun(m, run)
    ensures Inv(After(m, run))
    decreases |run|
  {
    if run != [] {
      StepKeepsInv(m, run[0]);
      RunsAreSafe(Apply(m, run[0]), run[1..]);
    }
  }

  lemma {:induction false} ReachableIsSafe(run: seq<Step>)
    requires IsRun(INITIAL, run)
    ensures var m := After(INITIAL, run);
            && m.activeChannels == |SlotHolders(m)| <= 4
            && (m.waiters != [] ==> m.activeChannels == 4)
            && m.connects <= 1 && (m.connection.Some? ==> m.connects == 0)
            && |m.pending| <= 1 && (m.pending != {} ==> m.activeChannels == 0 && m.waiters == [])
  {
    assert SlotHolders(INITIAL) == {};
    RunsAreSafe(INITIAL, run);
    OnePending(After(INITIAL, run));
  }

  lemma {:induction false} OnePending(m: Machine)
    requires Timers(m)
    ensures |m.pending| <= 1
  {
    match m.idleTimer
    case Some(timer) =>
      assert m.pending <= {timer};
      assert m.pending == {} || m.pending == {timer};
    case None => assert m.pending == {};
  }

  /** Whenever the idle timer fires, no call that is queued, woken, running or about to ask holds any connection. */
  lemma {:induction false} IdleTimerEndsOnlyUnusedConnections(run: seq<Step>, id: CallerId, timer: TimerId)
    requires IsRun(INITIAL, run) && Enabled(After(INITIAL, run), IdleTimerFires(timer))
    ensures var m := After(INITIAL, run);
            m.waiters == [] && !(id in m.callers && HoldsConnection(m.callers[id]))
  {
    var m := After(INITIAL, run);
    assert SlotHolders(INITIAL) == {};
    RunsAreSafe(INITIAL, run);
    assert SlotHolders(m) == {};
    assert id in m.callers && HoldsSlot(m.callers[id]) <==> id in SlotHolders(m);
    assert id in m.callers && m.callers[id].Queued? <==> id in m.waiters;
  }

  /** A late close of an old connection leaves the whole executor as it was; a close of the live one forgets only it. */
  lemma {:induction false} OnlyTheLiveConnectionIsForgotten(m: Machine, c: ConnectionId)
    requires Inv(m) && Enabled(m, ConnectionCloses(c))
    ensures m.connection != Some(c) ==> Apply(m, ConnectionCloses(c)) == m
    ensures Apply(m, ConnectionCloses(c)).connection != m.connection <==> m.connection == Some(c)
    ensures Apply(m, ConnectionCloses(c)).callers == m.callers
  {
  }

  // ---------------------------------------------------------------- which connection a call gets

  ghost predicate Holds(m: Machine, id: CallerId, c: ConnectionId) {
    id in m.callers && HoldsConnection(m.callers[id]) && m.callers[id].connection == c
  }

  /** A call gets the connection that is current when it gets it, and keeps that one. */
  lemma {:induction false} StepGivesTheCurrentConnection(m: Machine, step: Step, id: CallerId, c: ConnectionId)
    requires Inv(m) && Enabled(m, step)
    ensures Holds(Apply(m, step), id, c) ==> Holds(m, id, c) || Apply(m, step).connection == Some(c)
    ensures Holds(m, id, c) ==> Holds(Apply(m, step), id, c) || Apply(m, step).callers[id].Done?
  {
    assert id in m.waiters ==> id in m.callers && m.callers[id].Queued?;
  }

  /** At some moment of the run the call holds `c` and `c` is the current connection. */
  ghost predicate HeldWhileCurrent(m: Machine, run: seq<Step>, id: CallerId, c: ConnectionId)
    requires IsRun(m, run)
    decreases |run|
  {
    || (Holds(m, id, c) && m.connection == Some(c))
    || (run != [] && HeldWhileCurrent(Apply(m, run[0]), run[1..], id, c))
  }

  lemma {:induction false} HeldIsOldOrWasCurrent(m: Machine, run: seq<Step>, id: CallerId, c: ConnectionId)
    requires Inv(m) && IsRun(m, run) && Holds(After(m, run), id, c)
    ensures Holds(m, id, c) || HeldWhileCurrent(m, run, id, c)
    decreases |run|
  {
    if run != [] {
      StepKeepsInv(m, run[0]);
      StepGivesTheCurrentConnection(m, run[0], id, c);
      HeldIsOldOrWasCurrent(Apply(m, run[0]), run[1..], id, c);
    }
  }

  /** So no call ever runs on a connection that was not the current one when the call got it. */
  lemma {:induction false} CallsRunOnTheConnectionTheyGot(run: seq<Step>, id: CallerId, c: ConnectionId)
    requires IsRun(INITIAL, run) && Holds(After(INITIAL, run), id, c)
    ensures HeldWhileCurrent(INITIAL, run, id, c)
  {
    assert SlotHolders(INITIAL) == {};
    HeldIsOldOrWasCurrent(INITIAL, run, id, c);
  }

  /** A connection that is no longer current, closed or ended, never becomes current again: the next one is new. */
  lemma {:induction false} ForgottenForGood(m: Machine, run: seq<Step>, c: ConnectionId)
    requires Inv(m) && IsRun(m, run) && c < m.established && m.connection != Some(c)
    ensures After(m, run).connection != Some(c)
    decreases |run|
  {
    if run != [] {
      StepKeepsInv(m, run[0]);
      ForgottenForGood(Apply(m, run[0]), run[1..], c);
    }
  }

  /** A connection is ended by the executor exactly when the idle timer fires while it is current, and it is then forgotten. */
  lemma {:induction false} OnlyTheIdleTimerEnds(m: Machine, step: Step, c: ConnectionId)
    requires Enabled(m, step) && c !in m.ended
    ensures c in Apply(m, step).ended <==> step.IdleTimerFires? && m.connection == Some(c)
    ensures step.IdleTimerFires? ==> Apply(m, step).connection == None && step.timer !in Apply(m, step).pending
  {
  }

  // ---------------------------------------------------------------- fairness

  function Releases(run: seq<Step>): nat {
    if run == [] then 0 else (if run[0].Release? then 1 else 0) + Releases(run[1..])
  }

  /** A call that asks for a channel gets a slot when fewer than four are held, and else the end of the queue; the idle timer is off. */
  lemma {:induction false} AskingDecides(m: Machine, id: CallerId)
    requires Inv(m) && Enabled(m, Step.AcquireChannel(id))
    ensures var after, c := Apply(m, Step.AcquireChannel(id)), m.callers[id].connection;
            && after.callers[id] == (if |SlotHolders(m)| < 4 then Granted(c) else Queued(c))
            && after.waiters == (if |SlotHolders(m)| < 4 then m.waiters else m.waiters + [id])
            && after.pending == {}
  {
  }

  /** A call ends with its own command, its own deadline, or the failure of the connect it waits for. */
  lemma {:induction false} CallsEndIff(m: Machine, step: Step, id: CallerId)
    requires Inv(m) && Enabled(m, step) && id in m.callers && !m.callers[id].Done?
    ensures id in Apply(m, step).callers
    ensures Apply(m, step).callers[id].Done?
       <==> step == Release(id) || step == ConnectDeadline(id) || (step.ConnectFails? && m.callers[id].Connecting?)
  {
  }

  /** A command runs from the moment its call resumes with a slot until it releases that slot. */
  lemma {:induction false} CommandsRunIff(m: Machine, step: Step, id: CallerId)
    requires Inv(m) && Enabled(m, step) && id in m.callers
    ensures id in Apply(m, step).callers
    ensures Apply(m, step).callers[id].Running?
       <==> step == StartExec(id) || (m.callers[id].Running? && step != Release(id))
  {
  }

  function Rank(p: Phase): nat {
    match p
    case Connecting => 0
    case Ready(_) => 1
    case Queued(_) => 2
    case Granted(_) => 3
    case Running(_) => 4
    case Done => 5
  }

  lemma {:induction false} PhaseAdvances(m: Machine, step: Step, id: CallerId)
    requires Inv(m) && Enabled(m, step) && id in m.callers
    ensures id in Apply(m, step).callers && Rank(m.callers[id]) <= Rank(Apply(m, step).callers[id])
  {
  }

  /** No step sends a call back to an earlier phase. */
  lemma {:induction false} PhasesAdvance(m: Machine, run: seq<Step>, id: CallerId)
    requires Inv(m) && IsRun(m, run) && id in m.callers
    ensures id in After(m, run).callers
    ensures Rank(m.callers[id]) <= Rank(After(m, run).callers[id])
    decreases |run|
  {
    if run != [] {
      StepKeepsInv(m, run[0]);
      PhaseAdvances(m, run[0], id);
      PhasesAdvance(Apply(m, run[0]), run[1..], id);
    }
  }

  lemma {:induction false} QueueMovesOne(m: Machine, step: Step, k: nat)
    requires Inv(m) && Enabled(m, step) && k < |m.waiters|
    ensures var after := Apply(m, step);
            if !step.Release? then k < |after.waiters| && after.waiters[k] == m.waiters[k]
            else if k > 0 then k - 1 < |after.waiters| && after.waiters[k - 1] == m.waiters[k]
            else m.waiters[0] in after.callers && after.callers[m.waiters[0]].Granted?
  {
    assert m.waiters[0] in m.waiters;
  }

  /**
   Strict FIFO: a caller at position k of the queue is still queued, at position
   k - r, after any run with r <= k releases, and is out of the queue for good
   after more.
   */
  lemma {:induction false} QueueIsFifo(m: Machine, run: seq<Step>, k: nat)
    requires Inv(m) && IsRun(m, run) && k < |m.waiters|
    ensures var after := After(m, run);
            var r := Releases(run);
            if r <= k then k - r < |after.waiters| && after.waiters[k - r] == m.waiters[k]
            else m.waiters[k] !in after.waiters
    decreases |run|
  {
    if run != [] {
      var next := Apply(m, run[0]);
      StepKeepsInv(m, run[0]);
      QueueMovesOne(m, run[0], k);
      if !run[0].Release? {
        QueueIsFifo(next, run[1..], k);
      } else if k > 0 {
        QueueIsFifo(next, run[1..], k - 1);
      } else {
        PhasesAdvance(next, run[1..], m.waiters[0]);
        RunsAreSafe(next, run[1..]);
      }
    }
  }

  /** The caller at position k is woken, and given the slot, by exactly the (k+1)-th release. */
  lemma {:induction false} WokenByItsOwnRelease(m: Machine, run: seq<Step>, k: nat, releaser: CallerId)
    requires Inv(m) && IsRun(m, run) && k < |m.waiters| && Releases(run) == k
    requires Enabled(After(m, run), Release(releaser))
    ensures var before := After(m, run);
            var after := Apply(before, Release(releaser));
            var id := m.waiters[k];
            && id in before.callers && before.callers[id].Queued?
            && id in after.callers && after.callers[id] == Granted(before.callers[id].connection)
            && after.activeChannels == before.activeChannels == MAX_CONCURRENT_CHANNELS
  {
    RunsAreSafe(m, run);
    QueueIsFifo(m, run, k);
    var before := After(m, run);
    assert before.waiters[0] in before.waiters;
  }

  // ---------------------------------------------------------------- idle disconnect

  /** An open connection has a caller that will use it or a timer that will close it. */
  ghost predicate WillBeClosed(m: Machine) {
    m.connection.Some? ==> m.pending != {} || exists id :: id in m.callers && HoldsConnection(m.callers[id])
  }

  /** The connect completes when every call that wanted it has given up and nothing else is going on. */
  ghost predicate Orphans(m: Machine, step: Step) {
    && step.ConnectSucceeds?
    && m.pending == {}
    && forall id | id in m.callers :: m.callers[id].Done?
  }

  /** A step leaves an open connection that nothing will close exactly when it is a connect nobody waits for. */
  lemma {:induction false} IdleCloseIsLostOnlyByOrphanedConnects(m: Machine, step: Step)
    requires Inv(m) && Enabled(m, step) && WillBeClosed(m)
    ensures WillBeClosed(Apply(m, step)) <==> !Orphans(m, step)
  {
    var after := Apply(m, step);
    match step
    case Call(id) =>
      if m.connection.Some? { assert id in after.callers && HoldsConnection(after.callers[id]); }
    case ConnectSucceeds =>
      if m.pending == {} && exists id :: id in m.callers && !m.callers[id].Done? {
        var id :| id in m.callers && !m.callers[id].Done?;
        assert id in after.callers && HoldsConnection(after.callers[id]);
      }
    case ConnectFails =>
    case ConnectDeadline(id) =>
    case AcquireChannel(id) => assert id in after.callers && HoldsConnection(after.callers[id]);
    case StartExec(id) => assert id in after.callers && HoldsConnection(after.callers[id]);
    case Release(id) => ReleaseKeepsAnOwner(m, id);
    case ConnectionCloses(c) => KeepsOwners(m, after);
    case IdleTimerFires(_) =>
  }

  lemma {:induction false} KeepsOwners(m: Machine, after: Machine)
    requires WillBeClosed(m) && after.callers == m.callers && after.pending == m.pending
    requires after.connection.Some? ==> m.connection.Some?
    ensures WillBeClosed(after)
  {
  }

  lemma {:induction false} ReleaseKeepsAnOwner(m: Machine, id: CallerId)
    requires Inv(m) && Enabled(m, Release(id)) && WillBeClosed(m)
    ensures WillBeClosed(ReleaseStep(m, id))
  {
    var after := ReleaseStep(m, id);
    if m.waiters != [] {
      var next := m.waiters[0];
      assert next in m.waiters;
      assert next in after.callers && HoldsConnection(after.callers[next]);
    } else if m.activeChannels != 1 {
      ReleaseKeeps(m, id);
      assert id in SlotHolders(m) && m.activeChannels > 1;
      assert |SlotHolders(after)| == after.activeChannels > 0;
      var other :| other in SlotHolders(after);
      assert other in after.callers && HoldsConnection(after.callers[other]);
    }
  }

  ghost predicate AnyOrphaned(m: Machine, run: seq<Step>)
    requires IsRun(m, run)
    decreases |run|
  {
    run != [] && (Orphans(m, run[0]) || AnyOrphaned(Apply(m, run[0]), run[1..]))
  }

  ghost predicate AlwaysWillBeClosed(m: Machine, run: seq<Step>)
    requires IsRun(m, run)
    decreases |run|
  {
    WillBeClosed(m) && (run == [] || AlwaysWillBeClosed(Apply(m, run[0]), run[1..]))
  }

  /** Over whole runs: no open connection is ever left without an owner or a timer iff no connect is orphaned. */
  lemma {:induction false} IdleDisconnectIsCompleteIff(m: Machine, run: seq<Step>)
    requires Inv(m) && WillBeClosed(m) && IsRun(m, run)
    ensures AlwaysWillBeClosed(m, run) <==> !AnyOrphaned(m, run)
    decreases |run|
  {
    if run != [] {
      StepKeepsInv(m, run[0]);
      IdleCloseIsLostOnlyByOrphanedConnects(m, run[0]);
      if !Orphans(m, run[0]) {
        IdleDisconnectIsCompleteIff(Apply(m, run[0]), run[1..]);
      }
    }
  }

  /** The shortest such run: one call, its deadline, then the connect completes. */
  lemma {:induction false} OrphanedConnectTrace()
    ensures var run := [Call(0), ConnectDeadline(0), ConnectSucceeds];
            && IsRun(INITIAL, run)
            && After(INITIAL, run).connection.Some?
            && After(INITIAL, run).pending == {}
            && !WillBeClosed(After(INITIAL, run))
  {
    var called := Apply(INITIAL, Call(0));
    var expired := Apply(called, ConnectDeadline(0));
    assert called.callers[0].Connecting? && Drained(called);
    assert expired.callers[0].Done? && Drained(expired) && expired.connects == 1;
    var settled := Apply(expired, ConnectSucceeds);
    OneStep(expired, ConnectSucceeds, []);
    OneStep(called, ConnectDeadline(0), [ConnectSucceeds]);
    OneStep(INITIAL, Call(0), [ConnectDeadline(0), ConnectSucceeds]);
    assert [Call(0)] + [ConnectDeadline(0), ConnectSucceeds] == [Call(0), ConnectDeadline(0), ConnectSucceeds];
    assert [ConnectDeadline(0)] + [ConnectSucceeds] == [ConnectDeadline(0), ConnectSucceeds];
    assert [ConnectSucceeds] + [] == [ConnectSucceeds];
    assert forall id | id in settled.callers :: settled.callers[id] == Done;
  }

  lemma {:induction false} OneStep(m: Machine, step: Step, rest: seq<Step>)
    requires Enabled(m, step) && IsRun(Apply(m, step), rest)
    ensures IsRun(m, [step] + rest) && After(m, [step] + rest) == After(Apply(m, step), rest)
  {
    assert ([step] + rest)[1..] == rest;
  }

  // ---------------------------------------------------------------- the class

  /**
   The executor's fields. The calls suspended in it (their phase and captured
   connection), the outstanding factory calls and the ended connections are
   ghost: the source keeps them in promises and in the ssh2 library.
   Each method is one atomic stretch of code and equals one step.
   */
  class SshShellExecutor {
    var connection: Option<ConnectionId>
    var connecting: bool
    var idleTimer: Option<TimerId>
    var timers: nat
    var activeChannels: int
    var waiters: seq<CallerId>
    ghost var pending: set<TimerId>
    ghost var callers: map<CallerId, Phase>
    ghost var established: nat
    ghost var connects: nat
    ghost var ended: set<ConnectionId>

    ghost function State(): Machine
      reads this
    {
      Machine(connection, connecting, idleTimer, pending, timers, activeChannels, waiters, callers, established, connects, ended)
    }

    ghost predicate Valid()
      reads this
    {
      Inv(State())
    }

    constructor ()
      ensures State() == INITIAL && Valid()
    {
      connection, connecting, idleTimer, timers, activeChannels, waiters := None, false, None, 0, 0, [];
      pending := {};
      callers, established, connects, ended := map[], 0, 0, {};
      new;
      assert SlotHolders(INITIAL) == {};
    }

    /** The synchronous start of `execute`: reuse the connection or join (or begin) the one connect. */
    method AcquireConnection(id: CallerId)
      requires Valid() && Enabled(State(), Call(id))
      modifies this
      ensures Valid() && State() == Apply(old(State()), Call(id))
    {
      StepKeepsInv(State(), Call(id));
      if connection.Some? {
        callers := callers[id := Ready(connection.value)];
      } else {
        if !connecting {
          connecting := true;
          connects := connects + 1;
        }
        callers := callers[id := Connecting];
      }
    }

    /** The factory resolved with a fresh connection: every waiting call resumes with it. */
    method OpenConnection(settled: ConnectionId)
      requires Valid() && Enabled(State(), ConnectSucceeds) && settled == established
      modifies this
      ensures Valid() && State() == Apply(old(State()), ConnectSucceeds)
    {
      StepKeepsInv(State(), ConnectSucceeds);
      connection := Some(settled);
      callers := SettleConnecting(callers, Ready(settled));
      established, connects := established + 1, connects - 1;
      connecting := false;
    }

    method FailConnection()
      requires Valid() && Enabled(State(), ConnectFails)
      modifies this
      ensures Valid() && State() == Apply(old(State()), ConnectFails)
    {
      StepKeepsInv(State(), ConnectFails);
      connecting := false;
      connects := connects - 1;
      callers := SettleConnecting(callers, Done);
    }

    method DropConnection(dropped: ConnectionId)
      requires Valid() && Enabled(State(), ConnectionCloses(dropped))
      modifies this
      ensures Valid() && State() == Apply(old(State()), ConnectionCloses(dropped))
    {
      StepKeepsInv(State(), ConnectionCloses(dropped));
      if connection == Some(dropped) {
        connection := None;
      }
    }

    method AcquireChannel(id: CallerId)
      requires Valid() && Enabled(State(), Step.AcquireChannel(id))
      modifies this
      ensures Valid() && State() == Apply(old(State()), Step.AcquireChannel(id))
    {
      StepKeepsInv(State(), Step.AcquireChannel(id));
      ClearIdleTimer();
      if activeChannels < MAX_CONCURRENT_CHANNELS {
        activeChannels := activeChannels + 1;
        callers := callers[id := Granted(callers[id].connection)];
      } else {
        waiters := waiters + [id];
        callers := callers[id := Queued(callers[id].connection)];
      }
    }

    method ReleaseChannel(id: CallerId)
      requires Valid() && Enabled(State(), Release(id))
      modifies this
      ensures Valid() && State() == Apply(old(State()), Release(id))
    {
      StepKeepsInv(State(), Release(id));
      assert waiters != [] ==> waiters[0] in waiters;
      HandOverOrFree(id);
    }

    method HandOverOrFree(id: CallerId)
      requires waiters != [] ==> waiters[0] in callers && callers[waiters[0]].Queued? && waiters[0] != id
      modifies this
      ensures State() == ReleaseStep(old(State()), id)
    {
      callers := callers[id := Done];
      if waiters != [] {
        var next := waiters[0];
        waiters := waiters[1..];
        callers := callers[next := Granted(callers[next].connection)];
        return;
      }
      activeChannels := activeChannels - 1;
      if activeChannels == 0 {
        ScheduleIdleDisconnect();
      }
    }

    /** Leaves one new timer pending in place of the one the field named, if that still was. */
    method ScheduleIdleDisconnect()
      modifies this`idleTimer, this`pending, this`timers
      ensures State() == ScheduleTimer(old(State()))
      ensures old(Timers(State())) ==> pending == {timers - 1} && idleTimer == Some(timers - 1)
    {
      ghost var before := State();
      ClearIdleTimer();
      idleTimer := Some(timers);
      pending := pending + {timers};
      timers := timers + 1;
      if Timers(before) { assert ClearTimer(before).pending == {}; }
    }

    method DisconnectIdle(ghost timer: TimerId)
      requires Valid() && Enabled(State(), IdleTimerFires(timer))
      modifies this
      ensures Valid() && State() == Apply(old(State()), IdleTimerFires(timer))
    {
      StepKeepsInv(State(), IdleTimerFires(timer));
      pending := pending - {timer};
      if connection.Some? {
        ended := ended + {connection.value};
      }
      connection := None;
    }

    method ClearIdleTimer()
      modifies this`idleTimer, this`pending
      ensures State() == ClearTimer(old(State()))
    {
      if idleTimer.Some? {
        pending := pending - {idleTimer.value};
        idleTimer := None;
      }
    }
  }
}
