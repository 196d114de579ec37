/** Proofs that every step of the live protocol keeps its invariants. */
module LiveProofs {
  import opened Wrappers
  import opened EvmLogs
  import opened LiveSections
  import opened LiveProtocol

  // ----- queues seen as multisets of accepted logs -----

  lemma {:induction false} LiveLogsAppend(a: seq<Job>, b: seq<Job>, g: nat)
    ensures LiveLogs(a + b, g) == LiveLogs(a, g) + LiveLogs(b, g)
  {
    if a == [] {
      assert a + b == b;
    } else {
      assert (a + b)[1..] == a[1..] + b;
      LiveLogsAppend(a[1..], b, g);
    }
  }

  lemma {:induction false} LiveLogsOfStamped(logs: seq<Log>, stamp: nat, g: nat)
    ensures LiveLogs(Stamped(logs, stamp), g) == if stamp == g then logs else []
  {
    if logs != [] {
      assert Stamped(logs, stamp)[1..] == Stamped(logs[1..], stamp);
      LiveLogsOfStamped(logs[1..], stamp, g);
      assert logs == [logs[0]] + logs[1..];
    }
  }

  lemma {:induction false} NoJobOfNewGeneration(jobs: seq<Job>, g: nat)
    requires forall i :: 0 <= i < |jobs| ==> jobs[i].generation < g
    ensures LiveLogs(jobs, g) == []
  {
    if jobs != [] {
      NoJobOfNewGeneration(jobs[1..], g);
    }
  }

  lemma {:induction false} ArrivingAppend(a: seq<Arrival>, b: seq<Arrival>, g: nat)
    ensures Arriving(a + b, g) == Arriving(a, g) + Arriving(b, g)
  {
    if a == [] {
      assert a + b == b;
    } else {
      assert (a + b)[1..] == a[1..] + b;
      ArrivingAppend(a[1..], b, g);
    }
  }

  lemma ArrivingWithout(a: seq<Arrival>, i: nat, g: nat, log: Log)
    requires i < |a|
    ensures Times(Arriving(a, g), log)
         == Times(Arriving(a[..i] + a[i + 1..], g), log)
            + (if a[i].generation == g && a[i].log == log then 1 else 0)
  {
    var front, back := a[..i], a[i + 1..];
    assert a == front + ([a[i]] + back);
    ArrivingAppend(front, [a[i]] + back, g);
    ArrivingAppend([a[i]], back, g);
    ArrivingAppend(front, back, g);
    ArrivingOne(a[i], g);
    hide Arriving;
    TimesAppend(Arriving(front, g), Arriving([a[i]] + back, g), log);
    TimesAppend(Arriving([a[i]], g), Arriving(back, g), log);
    TimesAppend(Arriving(front, g), Arriving(back, g), log);
  }

  lemma ArrivingOne(arrival: Arrival, g: nat)
    ensures Arriving([arrival], g) == if arrival.generation == g then [arrival.log] else []
  {
  }

  lemma {:induction false} NoArrivalOfNewGeneration(a: seq<Arrival>, g: nat)
    requires forall i :: 0 <= i < |a| ==> a[i].generation < g
    ensures Arriving(a, g) == []
  {
    if a != [] {
      NoArrivalOfNewGeneration(a[1..], g);
    }
  }

  /** Nothing in the pipeline belongs to a generation that has not begun. */
  lemma NewGenerationIsEmpty(m: Machine)
    requires GenerationsBounded(m)
    ensures Arriving(m.arriving, m.s.generation + 1) == []
    ensures LiveLogs(m.s.historical, m.s.generation + 1) == []
    ensures LiveLogs(m.s.live, m.s.generation + 1) == []
    ensures InHand(m.delivery, m.s.generation + 1) == []
  {
    NoArrivalOfNewGeneration(m.arriving, m.s.generation + 1);
    NoJobOfNewGeneration(m.s.historical, m.s.generation + 1);
    NoJobOfNewGeneration(m.s.live, m.s.generation + 1);
  }

  lemma ArrivalIsSeen(a: seq<Arrival>, i: nat, g: nat)
    requires i < |a|
    ensures a[i].generation == g ==> Arriving(a, g) != []
    ensures Arriving(a, g) == [] ==> Arriving(a[..i] + a[i + 1..], g) == []
  {
    ArrivingAppend(a[..i], a[i + 1..], g);
    assert a == a[..i] + ([a[i]] + a[i + 1..]);
    ArrivingAppend(a[..i], [a[i]] + a[i + 1..], g);
    ArrivingAppend([a[i]], a[i + 1..], g);
  }

  // ----- every step keeps the discipline -----

  lemma KeepLiveLog(m: Machine, log: Log, g: nat)
    requires Discipline(m)
    ensures Discipline(AcceptLog(m, log, g))
  {
    var m' := AcceptLog(m, log, g);
    ArrivingAppend(m.arriving, [Arrival(log, g)], m.s.generation);
    assert RepairsRun(m');
  }

  lemma KeepDispatch(m: Machine, i: nat)
    requires Discipline(m) && i < |m.arriving|
    ensures Discipline(DispatchArrival(m, i))
  {
    ArrivalIsSeen(m.arriving, i, m.s.generation);
    DispatchKeepsFlags(m.s, m.arriving[i].log, m.arriving[i].generation);
    hide OnDispatchLive, HandoffDiscipline, LiveGate, Arriving, LiveLogs;
    var m' := DispatchArrival(m, i);
    assert m'.starters == m.starters && m'.reconciler == m.reconciler && m'.delivery == m.delivery;
    assert RepairsRun(m');
  }

  lemma DispatchKeepsFlags(s: Shared, log: Log, g: nat)
    requires HandoffDiscipline(s) && LiveGate(s) && (g == s.generation ==> !s.buffering)
    ensures HandoffDiscipline(OnDispatchLive(s, log, g)) && LiveGate(OnDispatchLive(s, log, g))
    ensures OnDispatchLive(s, log, g).buffering == s.buffering
    ensures var s' := OnDispatchLive(s, log, g);
      && s'.buffering == s.buffering && s'.generation == s.generation
      && s'.deliveryShutdown == s.deliveryShutdown && s'.workerShutdown == s.workerShutdown
      && s'.reconciliationActive == s.reconciliationActive
      && (s'.pendingGeneration == s.pendingGeneration || s'.pendingGeneration == s.generation)
      && (s'.overlapRecovery && !s'.refreshHead ==> s.overlapRecovery && !s.refreshHead)
  {
  }

  lemma KeepLiveHead(m: Machine, block: nat, g: nat)
    requires Discipline(m)
    ensures Discipline(m.(s := OnLiveHead(m.s, block, g)))
  {
  }

  lemma KeepBreakStream(m: Machine, gap: bool, g: nat)
    requires Discipline(m)
    ensures Discipline(BreakStream(m, gap, g))
  {
  }

  lemma KeepHistorical(m: Machine, log: Log, g: nat)
    requires Discipline(m)
    ensures Discipline(m.(s := OnDispatchHistorical(m.s, log, g)))
  {
  }

  lemma KeepStart(m: Machine, t: nat)
    requires Discipline(m) && GenerationsBounded(m) && Enabled(m, StartLive(t))
    ensures Discipline(StartCall(m, t))
  {
    NewGenerationIsEmpty(m);
  }

  lemma KeepStop(m: Machine, close: bool)
    requires Discipline(m) && GenerationsBounded(m)
    ensures Discipline(Renewed(m, OnStop(m.s)).(closing := close || m.closing))
  {
    NewGenerationIsEmpty(m);
  }

  lemma KeepShutdown(m: Machine)
    requires Discipline(m) && m.closing
    ensures Discipline(m.(s := OnShutdownWorker(m.s)))
    ensures Discipline(CancelDeliveries(m))
  {
  }

  lemma KeepAbort(m: Machine, t: nat)
    requires Discipline(m) && t in m.starters
    ensures Discipline(Abandon(m, t))
  {
    var m' := Abandon(m, t);
    if m'.book.drainRepair != [] {
      var u :| u in m.starters && m.starters[u] == Recovering(m.s.generation);
      assert u in m'.starters && m'.starters[u] == Recovering(m.s.generation);
    }
  }

  lemma KeepBeginCatchUp(c: Config, m: Machine, t: nat, head: nat)
    requires Discipline(m) && Enabled(m, HeadFetched(t, head))
    ensures Discipline(BeginCatchUp(c, m, t, head))
  {
    OthersStillRecover(m, BeginCatchUp(c, m, t, head), t);
  }

  /** A starter that is not recovering may move without disturbing the one that is. */
  lemma OthersStillRecover(m: Machine, m': Machine, t: nat)
    requires DrainRecoveryRunning(m) ==> t !in m.starters || m.starters[t] != Recovering(m.s.generation)
    requires forall u :: u in m.starters && u != t ==> u in m'.starters && m'.starters[u] == m.starters[u]
    requires m'.s.generation == m.s.generation
    ensures DrainRecoveryRunning(m) ==> DrainRecoveryRunning(m')
  {
    if DrainRecoveryRunning(m) {
      var u :| u in m.starters && m.starters[u] == Recovering(m.s.generation);
      assert u in m'.starters && m'.starters[u] == Recovering(m'.s.generation);
    }
  }

  lemma KeepEndCatchUp(m: Machine, t: nat)
    requires Discipline(m) && Enabled(m, CaughtUp(t))
    ensures Discipline(EndCatchUp(m, t))
  {
    OthersStillRecover(m, EndCatchUp(m, t), t);
  }

  lemma DrainKeepsFlags(s: Shared, g: nat)
    requires HandoffDiscipline(s) && LiveGate(s)
    ensures HandoffDiscipline(OnDrain(s, g)) && LiveGate(OnDrain(s, g))
    ensures OnDrain(s, g)
         == s.(handoffGap := OnDrain(s, g).handoffGap, buffered := [], historical := OnDrain(s, g).historical,
               buffering := OnDrain(s, g).buffering, hasBufferedHead := OnDrain(s, g).hasBufferedHead)
    ensures OnDrain(s, g).buffering ==> s.buffering
  {
  }

  lemma KeepDrain(m: Machine, t: nat)
    requires Discipline(m) && Enabled(m, Drain(t))
    ensures Discipline(DrainOnce(m, t))
  {
    DrainKeepsFlags(m.s, m.starters[t].generation);
    hide OnDrain, HandoffDiscipline, LiveGate, Arriving;
    var m' := DrainOnce(m, t);
    assert t in m'.starters;
    assert RepairsRun(m') by {
      OthersStillRecover(m, m', t);
    }
  }

  lemma KeepGapRecovered(c: Config, m: Machine, t: nat, head: nat)
    requires Discipline(m) && Enabled(m, GapRecovered(t, head))
    ensures Discipline(FinishGapRecovery(c, m, t, head))
  {
    var m' := FinishGapRecovery(c, m, t, head);
    if m.starters[t].generation != m.s.generation {
      OthersStillRecover(m, m', t);
    }
  }

  lemma KeepReplayHead(m: Machine, t: nat)
    requires Discipline(m) && Enabled(m, AnnounceHead(t))
    ensures Discipline(ReplayHead(m, t))
  {
    OthersStillRecover(m, ReplayHead(m, t), t);
  }

  lemma KeepEndStart(m: Machine, t: nat)
    requires Discipline(m) && Enabled(m, Conclude(t))
    ensures Discipline(EndStart(m, t))
  {
    OthersStillRecover(m, EndStart(m, t), t);
  }

  lemma KeepTakeJob(m: Machine)
    requires Discipline(m) && m.delivery.Idle? && CanPop(m.s)
    ensures Discipline(TakeJob(m))
  {
  }

  lemma KeepCallback(m: Machine)
    requires Discipline(m) && m.delivery.Calling?
    ensures Discipline(FinishCallback(m))
    ensures Discipline(FailCallback(m))
  {
  }

  lemma KeepOweRecovery(m: Machine)
    requires Discipline(m) && m.delivery.Threw?
    ensures Discipline(OweRecovery(m))
  {
  }

  lemma KeepTakeWork(m: Machine)
    requires Discipline(m) && m.reconciler.Waiting? && CanTake(m.s)
    ensures Discipline(TakeWork(m))
  {
  }

  lemma KeepFinishWork(c: Config, m: Machine, latest: nat)
    requires Discipline(m) && m.reconciler.Working?
    ensures Discipline(FinishWork(c, m, latest))
  {
  }

  lemma KeepFailWork(m: Machine)
    requires Discipline(m) && m.reconciler.Working?
    ensures Discipline(FailWork(m))
  {
  }

  lemma KeepRelease(m: Machine)
    requires Discipline(m) && m.reconciler.Finishing?
    ensures Discipline(m.(s := OnRelease(m.s), reconciler := Waiting))
  {
  }

  // ----- every step keeps the account balanced, log by log -----

  lemma BalanceLiveLog(m: Machine, log: Log, g: nat, x: Log)
    requires BalancedFor(m, x) && HandoffDiscipline(m.s)
    ensures BalancedFor(AcceptLog(m, log, g), x)
  {
    TimesAppend(m.book.accepted, [log], x);
    TimesAppend(m.s.buffered, [log], x);
    TimesAppend(m.book.lost, m.s.buffered, x);
    TimesAppend(m.book.lost + m.s.buffered, [log], x);
    ArrivingAppend(m.arriving, [Arrival(log, g)], m.s.generation);
    TimesAppend(Arriving(m.arriving, m.s.generation), Arriving([Arrival(log, g)], m.s.generation), x);
  }

  lemma BalanceDispatch(m: Machine, i: nat, x: Log)
    requires BalancedFor(m, x) && i < |m.arriving|
    ensures BalancedFor(DispatchArrival(m, i), x)
  {
    var a, g := m.arriving[i], m.s.generation;
    var job := Job(a.log, true, a.generation);
    var queued := LiveLogs(m.s.live, g);
    ArrivingWithout(m.arriving, i, g, x);
    LiveLogsAppend(m.s.live, [job], g);
    TimesAppend(queued, LiveLogs([job], g), x);
    TimesAppend(queued, [a.log], x);
    TimesAppend(m.book.lost, DispatchArrival(m, i).book.lost[|m.book.lost|..], x);
  }

  lemma BalanceBreakStream(m: Machine, gap: bool, g: nat, x: Log)
    requires BalancedFor(m, x)
    ensures BalancedFor(BreakStream(m, gap, g), x)
  {
    TimesAppend(m.book.lost, m.s.buffered, x);
  }

  lemma BalanceHistorical(m: Machine, log: Log, g: nat, x: Log)
    requires BalancedFor(m, x)
    ensures BalancedFor(m.(s := OnDispatchHistorical(m.s, log, g)), x)
  {
    LiveLogsAppend(m.s.historical, [Job(log, false, g)], m.s.generation);
  }

  lemma BalanceRestart(m: Machine, s: Shared, x: Log)
    requires GenerationsBounded(m) && s.buffered == [] && s.generation == m.s.generation + 1
    requires s.historical == m.s.historical && s.live == m.s.live
    ensures BalancedFor(Renewed(m, s), x)
  {
    NewGenerationIsEmpty(m);
  }

  lemma BalanceDrain(m: Machine, t: nat, x: Log)
    requires BalancedFor(m, x) && HandoffDiscipline(m.s) && Enabled(m, Drain(t))
    ensures BalancedFor(DrainOnce(m, t), x)
  {
    var stamp, g := m.starters[t].generation, m.s.generation;
    LiveLogsOfStamped(m.s.buffered, stamp, g);
    LiveLogsAppend(m.s.historical, Stamped(m.s.buffered, stamp), g);
    TimesAppend(LiveLogs(m.s.historical, g), LiveLogs(Stamped(m.s.buffered, stamp), g), x);
    TimesAppend(m.book.lost, m.s.buffered, x);
    TimesAppend(m.book.drainRepair, m.book.lost, x);
  }

  lemma BalanceGapRecovered(c: Config, m: Machine, t: nat, head: nat, x: Log)
    requires BalancedFor(m, x) && Enabled(m, GapRecovered(t, head))
    ensures BalancedFor(FinishGapRecovery(c, m, t, head), x)
  {
    SplitByWindow(c, head, m.book.drainRepair, x);
    TimesAppend(m.book.settled, Scanned(c, head, m.book.drainRepair), x);
    TimesAppend(m.book.outside, Unscanned(c, head, m.book.drainRepair), x);
  }

  lemma BalanceAbort(m: Machine, t: nat, x: Log)
    requires BalancedFor(m, x) && t in m.starters
    ensures BalancedFor(Abandon(m, t), x)
  {
    TimesAppend(m.book.lost + m.s.buffered, [], x);
    TimesAppend(m.book.lost, m.s.buffered, x);
    TimesAppend(m.book.lost + m.s.buffered, m.book.drainRepair, x);
  }

  lemma BalanceTakeJob(m: Machine, x: Log)
    requires BalancedFor(m, x) && m.delivery.Idle? && CanPop(m.s)
    ensures BalancedFor(TakeJob(m), x)
  {
    var g := m.s.generation;
    var jobs := if m.s.historical != [] then m.s.historical else m.s.live;
    TimesAppend([jobs[0].log], LiveLogs(jobs[1..], g), x);
  }

  lemma BalanceCallback(m: Machine, x: Log)
    requires BalancedFor(m, x) && m.delivery.Calling?
    ensures BalancedFor(FinishCallback(m), x)
    ensures BalancedFor(FailCallback(m), x)
  {
    TimesAppend(m.book.settled, InHand(m.delivery, m.s.generation), x);
    TimesAppend(m.book.lost, InHand(m.delivery, m.s.generation), x);
  }

  lemma BalanceOweRecovery(m: Machine, x: Log)
    requires BalancedFor(m, x) && m.delivery.Threw?
    ensures BalancedFor(OweRecovery(m), x)
  {
    TimesAppend(m.book.lost, m.s.buffered, x);
  }

  lemma BalanceTakeWork(m: Machine, x: Log)
    requires BalancedFor(m, x)
    ensures BalancedFor(TakeWork(m), x)
  {
    TimesAppend(m.book.workerRepair, m.book.lost, x);
  }

  lemma BalanceFinishWork(c: Config, m: Machine, latest: nat, x: Log)
    requires BalancedFor(m, x) && m.reconciler.Working?
    ensures BalancedFor(FinishWork(c, m, latest), x)
  {
    var target := WorkTarget(c, m.reconciler, latest);
    var m' := FinishWork(c, m, latest);
    assert InPipeline(m', x) == InPipeline(m, x);
    if m'.book != m.book {
      SplitByWindow(c, target, m.book.workerRepair, x);
      TimesAppend(m.book.lost, m.book.workerRepair, x);
      TimesAppend(m.book.settled, Scanned(c, target, m.book.workerRepair), x);
      TimesAppend(m.book.outside, Unscanned(c, target, m.book.workerRepair), x);
    }
  }

  lemma BalanceFailWork(m: Machine, x: Log)
    requires BalancedFor(m, x) && m.reconciler.Working?
    ensures BalancedFor(FailWork(m), x)
  {
    assert InPipeline(FailWork(m), x) == InPipeline(m, x);
    TimesAppend(m.book.lost, m.book.workerRepair, x);
  }

  lemma BalanceCancel(m: Machine, x: Log)
    requires BalancedFor(m, x)
    ensures BalancedFor(CancelDeliveries(m), x)
  {
    var g := m.s.generation;
    TimesAppend(m.book.lost, LiveLogs(m.s.historical, g), x);
    TimesAppend(m.book.lost + LiveLogs(m.s.historical, g), LiveLogs(m.s.live, g), x);
  }

  predicate OfDelivery(step: Step) {
    step.Pop? || step.Returned? || step.CallbackThrew? || step.ScheduleRecovery? || step.ShutdownDelivery?
  }

  predicate OfReconciler(step: Step) {
    step.Take? || step.Reconciled? || step.ReconcileFailed? || step.Release? || step.ShutdownWorker?
  }

  predicate OfStarter(step: Step) {
    || step.StartLive? || step.HeadFetched? || step.CaughtUp? || step.Drain? || step.GapRecovered?
    || step.AnnounceHead? || step.Conclude? || step.AbortStart?
  }

  lemma BalanceDeliveryStep(c: Config, m: Machine, step: Step, x: Log)
    requires BalancedFor(m, x) && Enabled(m, step) && OfDelivery(step)
    ensures BalancedFor(Next(c, m, step), x)
  {
    match step
    case Pop => BalanceTakeJob(m, x);
    case Returned => BalanceCallback(m, x);
    case CallbackThrew => BalanceCallback(m, x);
    case ScheduleRecovery => BalanceOweRecovery(m, x);
    case ShutdownDelivery => BalanceCancel(m, x);
  }

  lemma BalanceReconcilerStep(c: Config, m: Machine, step: Step, x: Log)
    requires BalancedFor(m, x) && Enabled(m, step) && OfReconciler(step)
    ensures BalancedFor(Next(c, m, step), x)
  {
    match step
    case Take => BalanceTakeWork(m, x);
    case Reconciled(latest) => BalanceFinishWork(c, m, latest, x);
    case ReconcileFailed => BalanceFailWork(m, x);
    case Release =>
    case ShutdownWorker =>
  }

  lemma BalanceSameQueues(m: Machine, m': Machine, x: Log)
    requires BalancedFor(m, x) && m'.book == m.book && m'.arriving == m.arriving && m'.delivery == m.delivery
    requires m'.s.generation == m.s.generation && m'.s.buffered == m.s.buffered
    requires m'.s.historical == m.s.historical && m'.s.live == m.s.live
    ensures BalancedFor(m', x)
  {
  }

  lemma BalanceStart(m: Machine, t: nat, x: Log)
    requires GenerationsBounded(m) && Enabled(m, StartLive(t))
    ensures BalancedFor(StartCall(m, t), x)
  {
    BalanceRestart(m, OnStartLive(m.s), x);
  }

  lemma BalanceStarterStep(c: Config, m: Machine, step: Step, x: Log)
    requires BalancedFor(m, x) && HandoffDiscipline(m.s) && GenerationsBounded(m) && Enabled(m, step)
    requires OfStarter(step)
    ensures BalancedFor(Next(c, m, step), x)
  {
    hide BalancedFor, HandoffDiscipline, GenerationsBounded;
    match step
    case StartLive(t) => BalanceStart(m, t, x);
    case HeadFetched(t, head) => BalanceSameQueues(m, BeginCatchUp(c, m, t, head), x);
    case CaughtUp(t) => BalanceSameQueues(m, EndCatchUp(m, t), x);
    case Drain(t) => BalanceDrain(m, t, x);
    case GapRecovered(t, head) => BalanceGapRecovered(c, m, t, head, x);
    case AnnounceHead(t) => BalanceSameQueues(m, ReplayHead(m, t), x);
    case Conclude(t) => BalanceSameQueues(m, EndStart(m, t), x);
    case AbortStart(t) => BalanceAbort(m, t, x);
  }

  lemma BalanceStep(c: Config, m: Machine, step: Step, x: Log)
    requires BalancedFor(m, x) && HandoffDiscipline(m.s) && GenerationsBounded(m) && Enabled(m, step)
    ensures BalancedFor(Next(c, m, step), x)
  {
    hide BalancedFor, HandoffDiscipline, GenerationsBounded;
    if OfDelivery(step) {
      BalanceDeliveryStep(c, m, step, x);
    } else if OfReconciler(step) {
      BalanceReconcilerStep(c, m, step, x);
    } else if OfStarter(step) {
      BalanceStarterStep(c, m, step, x);
    } else {
      match step
      case LiveLog(log, g) => BalanceLiveLog(m, log, g, x);
      case Dispatch(i) => BalanceDispatch(m, i, x);
      case LiveHead(block, g) => BalanceSameQueues(m, m.(s := OnLiveHead(m.s, block, g)), x);
      case LiveError(gap, g) => BalanceBreakStream(m, gap, g, x);
      case Historical(log, g) => BalanceHistorical(m, log, g, x);
      case Stop => BalanceRestart(m, OnStop(m.s), x);
      case Close => BalanceClose(m, x);
    }
  }

  lemma BalanceClose(m: Machine, x: Log)
    requires GenerationsBounded(m)
    ensures BalancedFor(Renewed(m, OnStop(m.s)).(closing := true), x)
  {
    BalanceRestart(m, OnStop(m.s), x);
  }

  lemma BoundAccept(m: Machine, log: Log, g: nat)
    requires GenerationsBounded(m)
    ensures GenerationsBounded(AcceptLog(m, log, g))
  {
  }

  lemma BoundDispatch(m: Machine, i: nat)
    requires GenerationsBounded(m) && i < |m.arriving|
    ensures GenerationsBounded(DispatchArrival(m, i))
  {
    var m' := DispatchArrival(m, i);
    assert JobsUpTo(m'.s.live, m.s.generation);
    assert ArrivalsUpTo(m'.arriving, m.s.generation);
  }

  lemma BoundDrain(m: Machine, t: nat)
    requires GenerationsBounded(m) && Enabled(m, Drain(t))
    ensures GenerationsBounded(DrainOnce(m, t))
  {
    var m' := DrainOnce(m, t);
    DrainedJobs(m.s, m.starters[t].generation);
    hide JobsUpTo, ArrivalsUpTo, Stamped;
    BoundElsewhere(m, m');
  }

  lemma DrainedJobs(s: Shared, g: nat)
    requires JobsUpTo(s.historical, s.generation) && g <= s.generation
    ensures JobsUpTo(OnDrain(s, g).historical, s.generation)
  {
    var jobs := Stamped(s.buffered, g);
    StampedUpTo(s.buffered, g, s.generation);
    JobsUpToJoin(s.historical, jobs, s.generation);
    hide JobsUpTo, Stamped;
  }

  lemma StampedUpTo(logs: seq<Log>, stamp: nat, g: nat)
    requires stamp <= g
    ensures JobsUpTo(Stamped(logs, stamp), g)
  {
    hide Stamped;
  }

  lemma JobsUpToJoin(a: seq<Job>, b: seq<Job>, g: nat)
    requires JobsUpTo(a, g) && JobsUpTo(b, g)
    ensures JobsUpTo(a + b, g)
  {
  }

  lemma BoundHistorical(m: Machine, log: Log, g: nat)
    requires GenerationsBounded(m)
    ensures GenerationsBounded(m.(s := OnDispatchHistorical(m.s, log, g)))
  {
    hide OnDispatchHistorical, JobsUpTo, ArrivalsUpTo;
    var next := OnDispatchHistorical(m.s, log, g);
    HistoricalQueues(m.s, log, g);
    BoundElsewhere(m, m.(s := next));
  }

  lemma HistoricalQueues(s: Shared, log: Log, g: nat)
    requires JobsUpTo(s.historical, s.generation)
    ensures OnDispatchHistorical(s, log, g) == s.(historical := OnDispatchHistorical(s, log, g).historical)
    ensures JobsUpTo(OnDispatchHistorical(s, log, g).historical, s.generation)
  {
  }

  lemma BoundTakeJob(m: Machine)
    requires GenerationsBounded(m) && CanPop(m.s)
    ensures GenerationsBounded(TakeJob(m))
  {
    assert JobsUpTo(OnPop(m.s).historical, m.s.generation);
    assert JobsUpTo(OnPop(m.s).live, m.s.generation);
  }

  lemma BoundElsewhere(m: Machine, m': Machine)
    requires GenerationsBounded(m)
    requires ArrivalsUpTo(m'.arriving, m.s.generation)
    requires JobsUpTo(m'.s.historical, m.s.generation)
    requires JobsUpTo(m'.s.live, m.s.generation)
    requires StartersUpTo(m'.starters, m'.s.generation)
    requires m.s.generation <= m'.s.generation && m'.s.pendingGeneration <= m'.s.generation
    requires m'.delivery.Idle? || (!m.delivery.Idle? && m'.delivery.job == m.delivery.job)
    requires m'.reconciler.Working? ==> m'.reconciler.generation <= m'.s.generation
    ensures GenerationsBounded(m')
  {
  }

  lemma BoundReconcilerStep(c: Config, m: Machine, step: Step)
    requires GenerationsBounded(m) && Enabled(m, step) && OfReconciler(step)
    ensures GenerationsBounded(Next(c, m, step))
  {
    match step
    case Take => BoundElsewhere(m, TakeWork(m));
    case Reconciled(latest) => BoundElsewhere(m, FinishWork(c, m, latest));
    case ReconcileFailed => BoundElsewhere(m, FailWork(m));
    case Release => BoundElsewhere(m, m.(s := OnRelease(m.s), reconciler := Waiting));
    case ShutdownWorker => BoundElsewhere(m, m.(s := OnShutdownWorker(m.s)));
  }

  lemma BoundDeliveryStep(c: Config, m: Machine, step: Step)
    requires GenerationsBounded(m) && Enabled(m, step) && OfDelivery(step)
    ensures GenerationsBounded(Next(c, m, step))
  {
    match step
    case Pop => BoundTakeJob(m);
    case Returned => BoundElsewhere(m, FinishCallback(m));
    case CallbackThrew => BoundElsewhere(m, FailCallback(m));
    case ScheduleRecovery => BoundElsewhere(m, OweRecovery(m));
    case ShutdownDelivery => BoundElsewhere(m, CancelDeliveries(m));
  }

  lemma BoundStarterStep(c: Config, m: Machine, step: Step)
    requires GenerationsBounded(m) && Enabled(m, step) && OfStarter(step)
    ensures GenerationsBounded(Next(c, m, step))
  {
    match step
    case StartLive(t) => BoundElsewhere(m, StartCall(m, t));
    case HeadFetched(t, head) => BoundElsewhere(m, BeginCatchUp(c, m, t, head));
    case CaughtUp(t) => BoundElsewhere(m, EndCatchUp(m, t));
    case Drain(t) => BoundDrain(m, t);
    case GapRecovered(t, head) => BoundElsewhere(m, FinishGapRecovery(c, m, t, head));
    case AnnounceHead(t) => BoundElsewhere(m, ReplayHead(m, t));
    case Conclude(t) => BoundElsewhere(m, EndStart(m, t));
    case AbortStart(t) => BoundElsewhere(m, Abandon(m, t));
  }

  lemma BoundStep(c: Config, m: Machine, step: Step)
    requires GenerationsBounded(m) && Enabled(m, step)
    ensures GenerationsBounded(Next(c, m, step))
  {
    if OfDelivery(step) {
      BoundDeliveryStep(c, m, step);
    } else if OfReconciler(step) {
      BoundReconcilerStep(c, m, step);
    } else if OfStarter(step) {
      BoundStarterStep(c, m, step);
    } else {
      match step
      case LiveLog(log, g) => BoundAccept(m, log, g);
      case Dispatch(i) => BoundDispatch(m, i);
      case LiveHead(block, g) => BoundElsewhere(m, m.(s := OnLiveHead(m.s, block, g)));
      case LiveError(gap, g) => BoundElsewhere(m, BreakStream(m, gap, g));
      case Historical(log, g) => BoundHistorical(m, log, g);
      case Stop => BoundElsewhere(m, Renewed(m, OnStop(m.s)));
      case Close => BoundElsewhere(m, Renewed(m, OnStop(m.s)).(closing := true));
    }
  }

  lemma DisciplineStep(c: Config, m: Machine, step: Step)
    requires Discipline(m) && GenerationsBounded(m) && Enabled(m, step)
    ensures Discipline(Next(c, m, step))
  {
    match step
    case LiveLog(log, g) => KeepLiveLog(m, log, g);
    case Dispatch(i) => KeepDispatch(m, i);
    case LiveHead(block, g) => KeepLiveHead(m, block, g);
    case LiveError(gap, g) => KeepBreakStream(m, gap, g);
    case StartLive(t) => KeepStart(m, t);
    case HeadFetched(t, head) => KeepBeginCatchUp(c, m, t, head);
    case CaughtUp(t) => KeepEndCatchUp(m, t);
    case Drain(t) => KeepDrain(m, t);
    case GapRecovered(t, head) => KeepGapRecovered(c, m, t, head);
    case AnnounceHead(t) => KeepReplayHead(m, t);
    case Conclude(t) => KeepEndStart(m, t);
    case AbortStart(t) => KeepAbort(m, t);
    case Historical(log, g) => KeepHistorical(m, log, g);
    case Pop => KeepTakeJob(m);
    case Returned => KeepCallback(m);
    case CallbackThrew => KeepCallback(m);
    case ScheduleRecovery => KeepOweRecovery(m);
    case Take => KeepTakeWork(m);
    case Reconciled(latest) => KeepFinishWork(c, m, latest);
    case ReconcileFailed => KeepFailWork(m);
    case Release => KeepRelease(m);
    case Stop => KeepStop(m, false);
    case Close => KeepStop(m, true);
    case ShutdownWorker => KeepShutdown(m);
    case ShutdownDelivery => KeepShutdown(m);
  }

  // ----- every step keeps an owner for the buffer -----

  lemma OwnerStays(m: Machine, m': Machine)
    requires BufferHasOwner(m) && m'.starters == m.starters
    requires m'.s.buffering ==> m.s.buffering && m'.s.generation == m.s.generation
    ensures BufferHasOwner(m')
  {
    if m'.s.buffering {
      var t :| t in m.starters && Owns(m.starters[t], m.s.generation);
      assert t in m'.starters && Owns(m'.starters[t], m'.s.generation);
    }
  }

  /** One call moves; if it owned the buffer it still does, or buffering has ended. */
  lemma OwnerMoves(m: Machine, m': Machine, t: nat)
    requires BufferHasOwner(m) && t in m.starters && m'.s.generation == m.s.generation
    requires forall u :: u in m.starters && u != t ==> u in m'.starters && m'.starters[u] == m.starters[u]
    requires m'.s.buffering ==> m.s.buffering
    requires m'.s.buffering && Owns(m.starters[t], m.s.generation) ==>
      t in m'.starters && Owns(m'.starters[t], m.s.generation)
    ensures BufferHasOwner(m')
  {
    if m'.s.buffering {
      var u :| u in m.starters && Owns(m.starters[u], m.s.generation);
      assert u in m'.starters && Owns(m'.starters[u], m'.s.generation);
    }
  }

  lemma OwnerBegins(m: Machine, t: nat)
    requires !m.s.started
    ensures BufferHasOwner(StartCall(m, t))
  {
    var m' := StartCall(m, t);
    assert t in m'.starters && Owns(m'.starters[t], m'.s.generation);
  }

  lemma OwnerAborts(m: Machine, t: nat)
    requires t in m.starters
    ensures BufferHasOwner(Abandon(m, t))
  {
  }

  lemma OwnerOfStarter(c: Config, m: Machine, step: Step)
    requires BufferHasOwner(m) && Enabled(m, step) && OfStarter(step)
    ensures BufferHasOwner(Next(c, m, step))
  {
    hide BufferHasOwner, RepairDrain, Stamped;
    match step
    case StartLive(t) => OwnerBegins(m, t);
    case HeadFetched(t, head) => OwnerMoves(m, BeginCatchUp(c, m, t, head), t);
    case CaughtUp(t) => OwnerMoves(m, EndCatchUp(m, t), t);
    case Drain(t) => OwnerMoves(m, DrainOnce(m, t), t);
    case GapRecovered(t, head) => OwnerMoves(m, FinishGapRecovery(c, m, t, head), t);
    case AnnounceHead(t) => OwnerMoves(m, ReplayHead(m, t), t);
    case Conclude(t) => OwnerMoves(m, EndStart(m, t), t);
    case AbortStart(t) => OwnerAborts(m, t);
  }

  /** The step leaves the calls of start_live as they are, and neither begins nor restarts an intake. */
  predicate LeavesStarters(m: Machine, m': Machine) {
    && m'.starters == m.starters
    && (m'.s.buffering ==> m.s.buffering && m'.s.generation == m.s.generation)
    && (m'.s.accepting ==> m.s.accepting && m'.s.generation == m.s.generation && m'.closing == m.closing)
  }

  predicate OfTransport(step: Step) {
    step.LiveLog? || step.Dispatch? || step.LiveHead? || step.LiveError? || step.Historical?
  }

  lemma AcceptLeaves(m: Machine, log: Log, g: nat)
    ensures LeavesStarters(m, AcceptLog(m, log, g))
  {
  }

  lemma DispatchLeaves(m: Machine, i: nat)
    requires i < |m.arriving|
    ensures LeavesStarters(m, DispatchArrival(m, i))
  {
    hide LiveLogs;
  }

  lemma TransportLeaves(c: Config, m: Machine, step: Step)
    requires Enabled(m, step) && OfTransport(step)
    ensures LeavesStarters(m, Next(c, m, step))
  {
    hide AcceptLog, DispatchArrival, DropBuffer;
    match step
    case LiveLog(log, g) => AcceptLeaves(m, log, g);
    case Dispatch(i) => DispatchLeaves(m, i);
    case LiveHead(block, g) => assert LeavesStarters(m, m.(s := OnLiveHead(m.s, block, g)));
    case LiveError(gap, g) => assert LeavesStarters(m, BreakStream(m, gap, g));
    case Historical(log, g) => assert LeavesStarters(m, m.(s := OnDispatchHistorical(m.s, log, g)));
  }

  lemma DeliveryLeaves(c: Config, m: Machine, step: Step)
    requires Enabled(m, step) && OfDelivery(step)
    ensures LeavesStarters(m, Next(c, m, step))
  {
    hide LiveLogs;
    match step
    case Pop => assert LeavesStarters(m, TakeJob(m));
    case Returned => assert LeavesStarters(m, FinishCallback(m));
    case CallbackThrew => assert LeavesStarters(m, FailCallback(m));
    case ScheduleRecovery => assert LeavesStarters(m, OweRecovery(m));
    case ShutdownDelivery => assert LeavesStarters(m, CancelDeliveries(m));
  }

  lemma ReconcilerLeaves(c: Config, m: Machine, step: Step)
    requires Enabled(m, step) && OfReconciler(step)
    ensures LeavesStarters(m, Next(c, m, step))
  {
    hide RepairWork, GiveUpWork, WorkTarget;
    match step
    case Take => assert LeavesStarters(m, TakeWork(m));
    case Reconciled(latest) => assert LeavesStarters(m, FinishWork(c, m, latest));
    case ReconcileFailed => assert LeavesStarters(m, FailWork(m));
    case Release => assert LeavesStarters(m, m.(s := OnRelease(m.s), reconciler := Waiting));
    case ShutdownWorker => assert LeavesStarters(m, m.(s := OnShutdownWorker(m.s)));
  }

  lemma OthersLeave(c: Config, m: Machine, step: Step)
    requires Enabled(m, step) && !OfStarter(step)
    ensures LeavesStarters(m, Next(c, m, step))
  {
    if OfTransport(step) {
      TransportLeaves(c, m, step);
    } else if OfDelivery(step) {
      DeliveryLeaves(c, m, step);
    } else if OfReconciler(step) {
      ReconcilerLeaves(c, m, step);
    } else {
      assert step.Stop? || step.Close?;
      assert LeavesStarters(m, Renewed(m, OnStop(m.s)));
    }
  }

  lemma OwnerStep(c: Config, m: Machine, step: Step)
    requires BufferHasOwner(m) && Enabled(m, step)
    ensures BufferHasOwner(Next(c, m, step))
  {
    hide BufferHasOwner, Next, Enabled;
    if OfStarter(step) {
      OwnerOfStarter(c, m, step);
    } else {
      OthersLeave(c, m, step);
      OwnerStays(m, Next(c, m, step));
    }
  }

  // ----- whole runs -----

  /** Every state of every run, however its calls overlap, accounts for every accepted live log, holds the live queue
      while a recovery is owed, and bounds what every thread carries. */
  lemma {:induction false} EveryRunKeepsEveryLog(c: Config, m: Machine, steps: seq<Step>)
    requires Inv(m)
    ensures Inv(Execute(c, m, steps))
    decreases |steps|
  {
    if steps != [] {
      var m' := if Enabled(m, steps[0]) then Next(c, m, steps[0]) else m;
      if Enabled(m, steps[0]) {
        InvStep(c, m, steps[0]);
      }
      EveryRunKeepsEveryLog(c, m', steps[1..]);
    }
  }

  lemma InvStep(c: Config, m: Machine, step: Step)
    requires Inv(m) && Enabled(m, step)
    ensures Inv(Next(c, m, step))
  {
    DisciplineStep(c, m, step);
    BoundStep(c, m, step);
    OwnerStep(c, m, step);
    forall x ensures BalancedFor(Next(c, m, step), x) { BalanceStep(c, m, step, x); }
  }
}
