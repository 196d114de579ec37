/** Every interleaving of the indexer's threads: the transport's callbacks, start_live, the delivery thread, the
    reconciliation thread and stop. One step is one critical section; the long work between two sections is a
    program counter. A ledger follows every live log the current generation accepted. */
module LiveProtocol {
  import opened Wrappers
  import opened Arithmetic
  import opened EvmLogs
  import opened CursorStore
  import opened LiveSections

  datatype Config = Config(startBlock: nat, confirmations: nat, lookback: nat)

  /** handle_live_log between its two critical sections. */
  datatype Arrival = Arrival(log: Log, generation: nat)

  datatype Delivery = Idle | Calling(job: Job) | Threw(job: Job)

  datatype Reconciler =
    | Waiting
    | Working(head: nat, generation: nat, refresh: bool, recover: bool)
    | Finishing

  /** Where one call of start_live stands. */
  datatype Starter =
    | Subscribing(generation: nat)
    | CatchingUp(generation: nat)
    | Draining(generation: nat)
    | Recovering(generation: nat)
    | AnnouncingHead(generation: nat, head: nat)
    | Concluding(generation: nat)

  /** Ghost account of the logs the current generation accepted. settled: the callback returned, or the log was a
      duplicate, or a completed HTTP recovery scanned its block, which presumes that delivery has not ended (Recovery
      makes that condition explicit). lost: dropped, and no recovery has begun since.
      drainRepair and workerRepair: dropped before the recovery that is now running began. outside: dropped, and
      the recovery that should have repaired it completed without scanning its block. */
  datatype Ledger = Ledger(
    accepted: seq<Log>, settled: seq<Log>,
    lost: seq<Log>, drainRepair: seq<Log>, workerRepair: seq<Log>, outside: seq<Log>)

  const EMPTY_LEDGER := Ledger([], [], [], [], [], [])

  /** closing: the destructor has begun. failures: the generations in which an overlap recovery has failed. */
  datatype Machine = Machine(
    s: Shared, arriving: seq<Arrival>, delivery: Delivery, reconciler: Reconciler,
    starters: map<nat, Starter>, closing: bool, failures: set<nat>, book: Ledger)

  const INITIAL := Machine(FRESH, [], Idle, Waiting, map[], false, {}, EMPTY_LEDGER)

  datatype Step =
    | LiveLog(log: Log, generation: nat)
    | Dispatch(index: nat)
    | LiveHead(block: nat, generation: nat)
    | LiveError(streamGap: bool, generation: nat)
    | StartLive(caller: nat)
    | HeadFetched(caller: nat, head: nat)
    | CaughtUp(caller: nat)
    | Drain(caller: nat)
    | GapRecovered(caller: nat, head: nat)
    | AnnounceHead(caller: nat)
    | Conclude(caller: nat)
    | AbortStart(caller: nat)
    | Historical(log: Log, generation: nat)
    | Pop
    | Returned
    | CallbackThrew
    | ScheduleRecovery
    | Take
    | Reconciled(latest: nat)
    | ReconcileFailed
    | Release
    | Stop
    | Close
    | ShutdownWorker
    | ShutdownDelivery

  // ----- the recovery window of reconcile_gap -----

  predicate InWindow(c: Config, target: nat, log: Log) {
    WindowStart(target, c.lookback, c.startBlock) <= BlockOf(log) <= target
  }

  function Scanned(c: Config, target: nat, logs: seq<Log>): seq<Log> {
    if logs == [] then []
    else if InWindow(c, target, logs[0]) then [logs[0]] + Scanned(c, target, logs[1..])
    else Scanned(c, target, logs[1..])
  }

  function Unscanned(c: Config, target: nat, logs: seq<Log>): seq<Log> {
    if logs == [] then []
    else if InWindow(c, target, logs[0]) then Unscanned(c, target, logs[1..])
    else [logs[0]] + Unscanned(c, target, logs[1..])
  }

  /** How often a log occurs in a list. */
  function Times(logs: seq<Log>, log: Log): nat {
    multiset(logs)[log]
  }

  lemma TimesAppend(a: seq<Log>, b: seq<Log>, log: Log)
    ensures Times(a + b, log) == Times(a, log) + Times(b, log)
  {
    assert multiset(a + b) == multiset(a) + multiset(b);
  }

  lemma {:induction false} SplitByWindow(c: Config, target: nat, logs: seq<Log>, log: Log)
    ensures Times(Scanned(c, target, logs), log) + Times(Unscanned(c, target, logs), log) == Times(logs, log)
  {
    if logs != [] {
      var first, rest := [logs[0]], logs[1..];
      SplitByWindow(c, target, rest, log);
      assert logs == first + rest;
      TimesAppend(first, rest, log);
      TimesAppend(first, if InWindow(c, target, logs[0]) then Scanned(c, target, rest) else Unscanned(c, target, rest),
                  log);
    }
  }

  lemma {:induction false} UnscannedIsOutside(c: Config, target: nat, logs: seq<Log>)
    ensures forall log :: log in Unscanned(c, target, logs) <==> log in logs && !InWindow(c, target, log)
  {
    if logs != [] {
      UnscannedIsOutside(c, target, logs[1..]);
    }
  }

  // ----- where the accepted logs are -----

  function LiveLogs(jobs: seq<Job>, generation: nat): seq<Log> {
    if jobs == [] then []
    else if jobs[0].live && jobs[0].generation == generation then [jobs[0].log] + LiveLogs(jobs[1..], generation)
    else LiveLogs(jobs[1..], generation)
  }

  function Arriving(arrivals: seq<Arrival>, generation: nat): seq<Log> {
    if arrivals == [] then []
    else if arrivals[0].generation == generation then [arrivals[0].log] + Arriving(arrivals[1..], generation)
    else Arriving(arrivals[1..], generation)
  }

  function InHand(delivery: Delivery, generation: nat): seq<Log> {
    if delivery.Calling? && delivery.job.live && delivery.job.generation == generation then [delivery.job.log] else []
  }

  /** How many copies of a log are still on their way to the callback. */
  function InPipeline(m: Machine, log: Log): nat {
    var g := m.s.generation;
    Times(Arriving(m.arriving, g), log) + Times(m.s.buffered, log) + Times(LiveLogs(m.s.historical, g), log)
    + Times(LiveLogs(m.s.live, g), log) + Times(InHand(m.delivery, g), log)
  }

  function Dropped(b: Ledger, log: Log): nat {
    Times(b.lost, log) + Times(b.drainRepair, log) + Times(b.workerRepair, log) + Times(b.outside, log)
  }

  /** Every copy that was accepted is in exactly one place. */
  ghost predicate Balanced(m: Machine) {
    forall log :: BalancedFor(m, log)
  }

  predicate BalancedFor(m: Machine, log: Log) {
    Times(m.book.accepted, log) == InPipeline(m, log) + Times(m.book.settled, log) + Dropped(m.book, log)
  }

  // ----- steps -----

  predicate Enabled(m: Machine, step: Step) {
    match step
    case LiveLog(_, g) => g <= m.s.generation
    case Dispatch(i) => i < |m.arriving|
    case LiveHead(_, g) => g <= m.s.generation
    case LiveError(_, g) => g <= m.s.generation
    case StartLive(t) => t !in m.starters && !m.s.started
    case HeadFetched(t, _) => t in m.starters && m.starters[t].Subscribing?
    case CaughtUp(t) => t in m.starters && m.starters[t].CatchingUp?
    case Drain(t) => t in m.starters && m.starters[t].Draining?
    case GapRecovered(t, _) => t in m.starters && m.starters[t].Recovering?
    case AnnounceHead(t) => t in m.starters && m.starters[t].AnnouncingHead?
    case Conclude(t) => t in m.starters && m.starters[t].Concluding?
    case AbortStart(t) => t in m.starters && !m.starters[t].Concluding?
    case Historical(_, g) => g <= m.s.generation
    case Pop => m.delivery.Idle? && CanPop(m.s)
    case Returned => m.delivery.Calling?
    case CallbackThrew => m.delivery.Calling?
    case ScheduleRecovery => m.delivery.Threw?
    case Take => m.reconciler.Waiting? && CanTake(m.s)
    case Reconciled(_) => m.reconciler.Working?
    case ReconcileFailed => m.reconciler.Working?
    case Release => m.reconciler.Finishing?
    case Stop => true
    case Close => true
    case ShutdownWorker => m.closing
    case ShutdownDelivery => m.closing
  }

  /** A new generation starts with a clean account: nothing of an older one is owed to it. */
  function Renewed(m: Machine, s: Shared): Machine {
    m.(s := s, book := EMPTY_LEDGER)
  }

  function AcceptLog(m: Machine, log: Log, g: nat): Machine {
    var s := OnLiveLog(m.s, log, g);
    if !Current(m.s, g) then m
    else
      var kept := !m.s.buffering || s.buffered == m.s.buffered + [log];
      m.(s := s,
         arriving := if m.s.buffering then m.arriving else m.arriving + [Arrival(log, g)],
         book := m.book.(accepted := m.book.accepted + [log],
                         lost := if kept then m.book.lost else m.book.lost + m.s.buffered + [log]))
  }

  /** The second section of handle_live_log; an overflow drops the whole live queue and the log itself. */
  function DispatchArrival(m: Machine, i: nat): Machine
    requires i < |m.arriving|
  {
    var a := m.arriving[i];
    var dropped := if a.generation != m.s.generation then []
                   else if m.s.deliveryShutdown then [a.log]
                   else if |m.s.live| < LIVE_LOG_QUEUE_LIMIT then []
                   else LiveLogs(m.s.live, m.s.generation) + [a.log];
    m.(arriving := m.arriving[..i] + m.arriving[i + 1..],
       s := OnDispatchLive(m.s, a.log, a.generation),
       book := m.book.(lost := m.book.lost + dropped))
  }

  /** An error while buffering empties the buffer. */
  function DropBuffer(m: Machine, g: nat): Ledger {
    m.book.(lost := if Current(m.s, g) && m.s.buffering then m.book.lost + m.s.buffered else m.book.lost)
  }

  function AfterDrain(s: Shared, g: nat): Starter {
    match DrainOutcome(s)
    case RecoverGap => Recovering(g)
    case AwaitDelivery => Draining(g)
    case Finished(head) => if head.Some? then AnnouncingHead(g, head.value) else Concluding(g)
  }

  /** A drain of the current generation hands its losses to the recovery it starts; a stale one stamps the
      buffered logs with a dead generation, which the delivery thread discards. */
  function DrainOnce(m: Machine, t: nat): Machine
    requires t in m.starters && m.starters[t].Draining?
  {
    var g := m.starters[t].generation;
    var stale := g != m.s.generation;
    var repair := DrainOutcome(m.s).RecoverGap? && !stale;
    m.(s := OnDrain(m.s, g),
       starters := m.starters[t := AfterDrain(m.s, g)],
       book := m.book.(
       lost := if repair then [] else if stale then m.book.lost + m.s.buffered else m.book.lost,
       drainRepair := if repair then m.book.drainRepair + m.book.lost else m.book.drainRepair))
  }

  function FinishGapRecovery(c: Config, m: Machine, t: nat, head: nat): Machine
    requires t in m.starters && m.starters[t].Recovering?
  {
    var g := m.starters[t].generation;
    m.(s := OnDrainRecovered(m.s, Confirmed(head, c.confirmations), g),
       starters := m.starters[t := Draining(g)],
       book := if g == m.s.generation then RepairDrain(c, m.book, head) else m.book)
  }

  /** A completed recovery settles what it scanned; the rest of what it was to repair stays outside. */
  function RepairDrain(c: Config, book: Ledger, target: nat): Ledger {
    book.(settled := book.settled + Scanned(c, target, book.drainRepair),
          outside := book.outside + Unscanned(c, target, book.drainRepair), drainRepair := [])
  }

  function RepairWork(c: Config, book: Ledger, target: nat): Ledger {
    book.(settled := book.settled + Scanned(c, target, book.workerRepair),
          outside := book.outside + Unscanned(c, target, book.workerRepair), workerRepair := [])
  }

  function Abandon(m: Machine, t: nat): Machine
    requires t in m.starters
  {
    var unrepaired := if m.starters[t].generation == m.s.generation then m.book.drainRepair else [];
    var repairing := if m.starters[t].generation == m.s.generation then [] else m.book.drainRepair;
    m.(s := OnAbortStart(m.s), starters := m.starters - {t},
       book := m.book.(lost := m.book.lost + m.s.buffered + unrepaired, drainRepair := repairing))
  }

  function FinishCallback(m: Machine): Machine
    requires m.delivery.Calling?
  {
    m.(delivery := Idle, book := m.book.(settled := m.book.settled + InHand(m.delivery, m.s.generation)))
  }

  function TakeWork(m: Machine): Machine {
    var recover := m.s.overlapRecovery;
    var m' := m.(s := OnTake(m.s),
                 reconciler := Working(m.s.pendingHead, m.s.pendingGeneration, m.s.refreshHead, recover));
    if !recover then m'
    else m'.(book := m.book.(lost := [], workerRepair := m.book.workerRepair + m.book.lost))
  }

  /** The head a reconciliation works on, and the last block it scans. */
  function WorkHead(w: Reconciler, latest: nat): nat
    requires w.Working?
  {
    if w.refresh then Max(w.head, latest) else w.head
  }

  function WorkTarget(c: Config, w: Reconciler, latest: nat): nat
    requires w.Working?
  {
    if w.refresh then WorkHead(w, latest) else Confirmed(WorkHead(w, latest), c.confirmations)
  }

  function FinishWork(c: Config, m: Machine, latest: nat): Machine
    requires m.reconciler.Working?
  {
    var w := m.reconciler;
    m.(s := OnReconciled(m.s, Confirmed(WorkHead(w, latest), c.confirmations), w.generation),
       reconciler := Finishing,
       book := if w.generation != m.s.generation then m.book
               else if m.s.accepting then RepairWork(c, m.book, WorkTarget(c, w, latest))
               else GiveUpWork(m.book))
  }

  function GiveUpWork(book: Ledger): Ledger {
    book.(lost := book.lost + book.workerRepair, workerRepair := [])
  }

  function FailWork(m: Machine): Machine
    requires m.reconciler.Working?
  {
    var w := m.reconciler;
    m.(s := OnReconcileFailed(m.s, w.recover, w.generation),
       reconciler := Finishing,
       failures := if Current(m.s, w.generation) && w.recover then m.failures + {w.generation} else m.failures,
       book := if w.generation == m.s.generation then GiveUpWork(m.book) else m.book)
  }

  function BreakStream(m: Machine, streamGap: bool, g: nat): Machine {
    m.(s := OnLiveError(m.s, streamGap, g), book := DropBuffer(m, g))
  }

  function StartCall(m: Machine, t: nat): Machine {
    Renewed(m, OnStartLive(m.s)).(starters := m.starters[t := Subscribing(m.s.generation + 1)])
  }

  /** start_live has its subscription and learned the head; it records the durable block unconditionally. */
  function BeginCatchUp(c: Config, m: Machine, t: nat, head: nat): Machine
    requires t in m.starters
  {
    m.(s := OnHeadFetched(m.s, Confirmed(head, c.confirmations)),
       starters := m.starters[t := CatchingUp(m.starters[t].generation)])
  }

  function EndCatchUp(m: Machine, t: nat): Machine
    requires t in m.starters
  {
    m.(starters := if m.starters[t].generation == m.s.generation then m.starters[t := Draining(m.s.generation)]
                   else m.starters - {t})
  }

  function ReplayHead(m: Machine, t: nat): Machine
    requires t in m.starters && m.starters[t].AnnouncingHead?
  {
    var g := m.starters[t].generation;
    m.(s := OnLiveHead(m.s, m.starters[t].head, g), starters := m.starters[t := Concluding(g)])
  }

  function EndStart(m: Machine, t: nat): Machine
    requires t in m.starters
  {
    m.(s := OnConclude(m.s, m.starters[t].generation), starters := m.starters - {t})
  }

  function TakeJob(m: Machine): Machine
    requires CanPop(m.s)
  {
    m.(s := OnPop(m.s), delivery := Calling(Popped(m.s)))
  }

  function FailCallback(m: Machine): Machine
    requires m.delivery.Calling?
  {
    m.(delivery := Threw(m.delivery.job),
       book := m.book.(lost := m.book.lost + InHand(m.delivery, m.s.generation)))
  }

  function OweRecovery(m: Machine): Machine
    requires m.delivery.Threw?
  {
    var g := m.delivery.job.generation;
    m.(s := OnScheduleRecovery(m.s, g), delivery := Idle, book := DropBuffer(m, g))
  }

  function CancelDeliveries(m: Machine): Machine {
    m.(s := OnShutdownDelivery(m.s),
       book := m.book.(lost := m.book.lost + LiveLogs(m.s.historical, m.s.generation)
                               + LiveLogs(m.s.live, m.s.generation)))
  }

  function Next(c: Config, m: Machine, step: Step): Machine
    requires Enabled(m, step)
  {
    match step
    case LiveLog(log, g) => AcceptLog(m, log, g)
    case Dispatch(i) => DispatchArrival(m, i)
    case LiveHead(block, g) => m.(s := OnLiveHead(m.s, block, g))
    case LiveError(gap, g) => BreakStream(m, gap, g)
    case StartLive(t) => StartCall(m, t)
    case HeadFetched(t, head) => BeginCatchUp(c, m, t, head)
    case CaughtUp(t) => EndCatchUp(m, t)
    case Drain(t) => DrainOnce(m, t)
    case GapRecovered(t, head) => FinishGapRecovery(c, m, t, head)
    case AnnounceHead(t) => ReplayHead(m, t)
    case Conclude(t) => EndStart(m, t)
    case AbortStart(t) => Abandon(m, t)
    case Historical(log, g) => m.(s := OnDispatchHistorical(m.s, log, g))
    case Pop => TakeJob(m)
    case Returned => FinishCallback(m)
    case CallbackThrew => FailCallback(m)
    case ScheduleRecovery => OweRecovery(m)
    case Take => TakeWork(m)
    case Reconciled(latest) => FinishWork(c, m, latest)
    case ReconcileFailed => FailWork(m)
    case Release => m.(s := OnRelease(m.s), reconciler := Waiting)
    case Stop => Renewed(m, OnStop(m.s))
    case Close => Renewed(m, OnStop(m.s)).(closing := true)
    case ShutdownWorker => m.(s := OnShutdownWorker(m.s))
    case ShutdownDelivery => CancelDeliveries(m)
  }

  function Execute(c: Config, m: Machine, steps: seq<Step>): Machine
    decreases |steps|
  {
    if steps == [] then m
    else Execute(c, if Enabled(m, steps[0]) then Next(c, m, steps[0]) else m, steps[1..])
  }

  // ----- what every reachable state keeps -----

  /** A callback of the current generation threw, and the delivery thread is about to schedule a recovery. */
  predicate CallbackFailed(m: Machine) {
    m.delivery.Threw? && m.delivery.job.generation == m.s.generation
  }

  /** A repair of what was dropped is scheduled, or the delivery thread is about to schedule one. */
  predicate RecoveryOwed(m: Machine) {
    m.s.handoffGap || m.s.overlapRecovery || CallbackFailed(m)
  }

  predicate DrainRecoveryRunning(m: Machine) {
    exists t :: t in m.starters && m.starters[t] == Recovering(m.s.generation)
  }

  predicate WorkerRecoveryRunning(m: Machine) {
    m.reconciler.Working? && m.reconciler.generation == m.s.generation && m.reconciler.recover
  }

  /** What a recovery has taken over stays with it while it runs. */
  ghost predicate RepairsRun(m: Machine) {
    && (m.book.workerRepair != [] ==> WorkerRecoveryRunning(m))
    && (m.book.drainRepair != [] ==> DrainRecoveryRunning(m))
  }

  /** Until the worker is shut down: while an overlap recovery is owed, the delivery thread cannot take a live
      job. */
  predicate LiveGate(s: Shared) {
    s.overlapRecovery && !s.workerShutdown ==> s.refreshHead || s.reconciliationActive
  }

  predicate HandoffDiscipline(s: Shared) {
    && (s.handoffGap ==> s.buffered == [] && s.buffering)
    && (s.buffered != [] ==> s.buffering)
    && (s.buffering ==> s.accepting && !s.refreshHead && !s.overlapRecovery)
    && (s.refreshHead || s.overlapRecovery ==> s.pendingGeneration == s.generation)
  }

  predicate JobsUpTo(jobs: seq<Job>, generation: nat) {
    forall i :: 0 <= i < |jobs| ==> jobs[i].generation <= generation
  }

  predicate ArrivalsUpTo(arrivals: seq<Arrival>, generation: nat) {
    forall i :: 0 <= i < |arrivals| ==> arrivals[i].generation <= generation
  }

  predicate StartersUpTo(starters: map<nat, Starter>, generation: nat) {
    forall t :: t in starters ==> starters[t].generation <= generation
  }

  /** No log on its way and no thread at work is ahead of the current generation. */
  predicate GenerationsBounded(m: Machine) {
    var g := m.s.generation;
    && m.s.pendingGeneration <= g
    && ArrivalsUpTo(m.arriving, g)
    && JobsUpTo(m.s.historical, g)
    && JobsUpTo(m.s.live, g)
    && StartersUpTo(m.starters, g)
    && (!m.delivery.Idle? ==> m.delivery.job.generation <= g)
    && (m.reconciler.Working? ==> m.reconciler.generation <= g)
  }

  /** Facts about the threads' program counters. */
  ghost predicate ThreadDiscipline(m: Machine) {
    && (!m.reconciler.Waiting? ==> m.s.reconciliationActive)
    && (m.s.buffering ==> Arriving(m.arriving, m.s.generation) == [])
    && (WorkerRecoveryRunning(m) ==> !m.s.buffering && m.s.pendingGeneration == m.s.generation)
    && (m.s.deliveryShutdown || m.s.workerShutdown ==> m.closing)
  }

  /** A recovery that does not refresh the head is the retry of one that failed. */
  ghost predicate RetriesFollowFailures(m: Machine) {
    && (m.s.overlapRecovery && !m.s.refreshHead ==> m.s.generation in m.failures)
    && (m.reconciler.Working? && m.reconciler.recover && !m.reconciler.refresh ==>
          m.reconciler.generation in m.failures)
  }

  /** The call of start_live is at a point where it will still drain the buffer of the generation. */
  predicate Owns(starter: Starter, generation: nat) {
    starter.generation == generation && !starter.AnnouncingHead? && !starter.Concluding?
  }

  /** While live logs are buffered, the start_live call that must drain them is still running. */
  ghost predicate BufferHasOwner(m: Machine) {
    m.s.buffering ==> exists t :: t in m.starters && Owns(m.starters[t], m.s.generation)
  }

  /** What every interleaving keeps, however calls of start_live and the destructor overlap. */
  ghost predicate Discipline(m: Machine) {
    && RepairsRun(m)
    && LiveGate(m.s)
    && HandoffDiscipline(m.s)
    && ThreadDiscipline(m)
    && RetriesFollowFailures(m)
  }

  ghost predicate Inv(m: Machine) {
    Balanced(m) && Discipline(m) && GenerationsBounded(m) && BufferHasOwner(m)
  }

  // ----- losses and the recoveries owed for them -----

  ghost predicate LossesAreOwed(m: Machine) {
    m.s.accepting && m.book.lost != [] ==> RecoveryOwed(m)
  }

  /** The step cannot leave a loss without an owed recovery. Only four steps can: the drain of an older generation,
      a log that arrives when delivery has ended, and the two shutdowns of the destructor. */
  predicate Safe(m: Machine, step: Step)
    requires Enabled(m, step)
  {
    !m.s.accepting
    || match step
       case Drain(t) =>
         || m.starters[t].generation == m.s.generation
         || CallbackFailed(m) || m.s.overlapRecovery
         || (m.s.buffered == [] && (m.s.handoffGap ==> m.book.lost == []))
       case Dispatch(i) =>
         !m.s.deliveryShutdown || m.arriving[i].generation != m.s.generation || RecoveryOwed(m)
       case ShutdownWorker => m.book.lost == [] || m.s.handoffGap || CallbackFailed(m)
       case ShutdownDelivery =>
         || RecoveryOwed(m)
         || (LiveLogs(m.s.historical, m.s.generation) == [] && LiveLogs(m.s.live, m.s.generation) == [])
       case _ => true
  }

  /** Every step of the run that is taken is safe where it is taken. */
  ghost predicate AllSafe(c: Config, m: Machine, steps: seq<Step>)
    decreases |steps|
  {
    steps == []
    || var m' := if Enabled(m, steps[0]) then Next(c, m, steps[0]) else m;
       (Enabled(m, steps[0]) ==> Safe(m, steps[0])) && AllSafe(c, m', steps[1..])
  }

  /** In every state of the run a recovery is owed for every loss. */
  ghost predicate AlwaysOwed(c: Config, m: Machine, steps: seq<Step>)
    decreases |steps|
  {
    LossesAreOwed(m)
    && (steps == []
        || AlwaysOwed(c, if Enabled(m, steps[0]) then Next(c, m, steps[0]) else m, steps[1..]))
  }

  // ----- runs whose calls of start_live follow one another -----

  ghost predicate StartersCurrent(m: Machine) {
    && (m.s.accepting ==> forall t :: t in m.starters ==> m.starters[t].generation == m.s.generation)
    && (forall t, u :: t in m.starters && u in m.starters ==> t == u)
  }

  /** Nothing is accepted once the destructor has begun. */
  predicate ClosedIsQuiet(m: Machine) {
    m.closing ==> !m.s.accepting
  }

  ghost predicate SerialDiscipline(m: Machine) {
    StartersCurrent(m) && ClosedIsQuiet(m)
  }

  /** What a run may ask of its calls of start_live. alone: none begins while an earlier call still runs. early: none
      begins after the destructor has begun. */
  datatype Rule = Rule(alone: bool, early: bool)

  const ANY := Rule(false, false)
  const ALONE := Rule(true, false)
  const EARLY := Rule(false, true)
  const IN_TURN := Rule(true, true)

  predicate Permitted(rule: Rule, m: Machine, step: Step) {
    step.StartLive? ==> (rule.alone ==> m.starters == map[]) && (rule.early ==> !m.closing)
  }

  ghost predicate Obeys(rule: Rule, c: Config, m: Machine, steps: seq<Step>)
    decreases |steps|
  {
    steps == []
    || var m' := if Enabled(m, steps[0]) then Next(c, m, steps[0]) else m;
       (Enabled(m, steps[0]) ==> Permitted(rule, m, steps[0])) && Obeys(rule, c, m', steps[1..])
  }
}
