/** What the subscription's other callbacks lead to, over whole runs: every announced head reaches the reconciliation
    thread, the durable block follows the recorded heads, a gap in the stream stays owed until a recovery takes it over,
    and stop silences all callbacks (src/evm_event_indexer.cpp, src/evm_live_handoff.cpp,
    src/evm_reorg_reconciliation.cpp). */
module LiveSignals {
  import opened Wrappers
  import opened Arithmetic
  import opened EvmLogs
  import opened CursorStore
  import opened LiveSections
  import opened LiveProtocol
  import opened LiveProofs

  // ----- heads -----

  /** The heads announced while the logs were buffered, and those announced since the reconciliation thread last took
      its work, told from the steps of a run. */
  datatype Heads = Heads(buffered: set<nat>, pending: set<nat>)

  const NO_HEADS := Heads({}, {})

  function Announced(m: Machine, block: nat, g: nat, h: Heads): Heads {
    if !m.s.accepting || g != m.s.generation then h
    else if m.s.buffering then h.(buffered := h.buffered + {block})
    else h.(pending := h.pending + {block})
  }

  function Heard(m: Machine, step: Step, h: Heads): Heads
    requires Enabled(m, step)
  {
    match step
    case LiveHead(block, g) => Announced(m, block, g, h)
    case AnnounceHead(t) => Announced(m, m.starters[t].head, m.starters[t].generation, h)
    case Drain(_) => if !m.s.handoffGap && m.s.buffered == [] then h.(buffered := {}) else h
    case StartLive(_) => h.(buffered := {})
    case Stop => NO_HEADS
    case Close => NO_HEADS
    case AbortStart(_) => NO_HEADS
    case Take => h.(pending := {})
    case ShutdownWorker => h.(pending := {})
    case _ => h
  }

  function HeardAll(c: Config, m: Machine, steps: seq<Step>, h: Heads): Heads
    decreases |steps|
  {
    if steps == [] then h
    else if !Enabled(m, steps[0]) then HeardAll(c, m, steps[1..], h)
    else HeardAll(c, Next(c, m, steps[0]), steps[1..], Heard(m, steps[0], h))
  }

  predicate IsHighest(block: nat, blocks: set<nat>) {
    block in blocks && forall b :: b in blocks ==> b <= block
  }

  /** The state keeps the highest of the heads announced while buffering, and, until the worker is shut down, the
      highest of those that wait for it. */
  predicate HeadsKept(s: Shared, h: Heads) {
    && (s.hasBufferedHead <==> h.buffered != {}) && (s.hasBufferedHead ==> IsHighest(s.bufferedHead, h.buffered))
    && (s.hasPendingHead <==> h.pending != {})
    && (s.hasPendingHead && !s.workerShutdown ==> IsHighest(s.pendingHead, h.pending))
    && (s.hasBufferedHead ==> s.buffering)
    && (s.buffering && !s.hasBufferedHead ==> s.bufferedHead == 0)
    && (!s.hasPendingHead && !s.workerShutdown ==> s.pendingHead == 0)
  }

  lemma AnnounceKeepsHeads(m: Machine, block: nat, g: nat, h: Heads)
    requires HeadsKept(m.s, h)
    ensures HeadsKept(OnLiveHead(m.s, block, g), Announced(m, block, g, h))
  {
  }

  /** The steps that leave the heads alone. */
  predicate LeavesHeads(step: Step) {
    || step.LiveLog? || step.Dispatch? || step.LiveError? || step.HeadFetched? || step.CaughtUp? || step.GapRecovered?
    || step.Conclude? || step.Historical? || step.Pop? || step.Returned? || step.CallbackThrew?
    || step.ScheduleRecovery? || step.Reconciled? || step.ReconcileFailed? || step.Release? || step.ShutdownDelivery?
  }

  predicate SameHeads(s: Shared, s': Shared) {
    && s'.hasBufferedHead == s.hasBufferedHead && s'.bufferedHead == s.bufferedHead && s'.buffering == s.buffering
    && s'.hasPendingHead == s.hasPendingHead && s'.pendingHead == s.pendingHead
    && s'.workerShutdown == s.workerShutdown
  }

  lemma StarterLeavesHeads(c: Config, m: Machine, step: Step)
    requires Enabled(m, step) && LeavesHeads(step) && OfStarter(step)
    ensures SameHeads(m.s, Next(c, m, step).s)
  {
    hide RepairDrain;
    match step
    case HeadFetched(t, head) => assert SameHeads(m.s, BeginCatchUp(c, m, t, head).s);
    case CaughtUp(t) => assert SameHeads(m.s, EndCatchUp(m, t).s);
    case GapRecovered(t, head) => assert SameHeads(m.s, FinishGapRecovery(c, m, t, head).s);
    case Conclude(t) => assert SameHeads(m.s, EndStart(m, t).s);
  }

  lemma TransportLeavesHeads(c: Config, m: Machine, step: Step)
    requires Enabled(m, step) && LeavesHeads(step) && OfTransport(step)
    ensures SameHeads(m.s, Next(c, m, step).s)
  {
    match step
    case LiveLog(log, g) => assert SameHeads(m.s, AcceptLog(m, log, g).s);
    case Dispatch(i) => assert SameHeads(m.s, DispatchArrival(m, i).s);
    case LiveError(gap, g) => assert SameHeads(m.s, BreakStream(m, gap, g).s);
    case Historical(log, g) => assert SameHeads(m.s, OnDispatchHistorical(m.s, log, g));
  }

  lemma WorkerLeavesHeads(c: Config, m: Machine, step: Step)
    requires Enabled(m, step) && LeavesHeads(step) && (OfDelivery(step) || OfReconciler(step))
    ensures SameHeads(m.s, Next(c, m, step).s)
  {
    hide RepairWork, WorkTarget;
    match step
    case Pop => assert SameHeads(m.s, TakeJob(m).s);
    case Returned => assert SameHeads(m.s, FinishCallback(m).s);
    case CallbackThrew => assert SameHeads(m.s, FailCallback(m).s);
    case ScheduleRecovery => assert SameHeads(m.s, OweRecovery(m).s);
    case ShutdownDelivery => assert SameHeads(m.s, CancelDeliveries(m).s);
    case Reconciled(latest) => assert SameHeads(m.s, FinishWork(c, m, latest).s);
    case ReconcileFailed => assert SameHeads(m.s, FailWork(m).s);
    case Release => assert SameHeads(m.s, OnRelease(m.s));
  }

  lemma QuietKeepsHeads(c: Config, m: Machine, step: Step, h: Heads)
    requires HeadsKept(m.s, h) && Enabled(m, step) && LeavesHeads(step)
    ensures HeadsKept(Next(c, m, step).s, h)
  {
    hide Enabled, Next, IsHighest;
    if OfStarter(step) {
      StarterLeavesHeads(c, m, step);
    } else if OfTransport(step) {
      TransportLeavesHeads(c, m, step);
    } else {
      WorkerLeavesHeads(c, m, step);
    }
  }

  lemma DrainKeepsHeads(m: Machine, t: nat, h: Heads)
    requires HeadsKept(m.s, h) && Enabled(m, Drain(t))
    ensures HeadsKept(DrainOnce(m, t).s, Heard(m, Drain(t), h))
  {
    assert DrainOnce(m, t).s == OnDrain(m.s, m.starters[t].generation);
  }

  lemma StartKeepsHeads(m: Machine, t: nat, h: Heads)
    requires HeadsKept(m.s, h) && !m.s.started
    ensures HeadsKept(StartCall(m, t).s, h.(buffered := {}))
  {
  }

  lemma EndKeepsHeads(m: Machine)
    ensures HeadsKept(OnAbortStart(m.s), NO_HEADS) && HeadsKept(OnStop(m.s), NO_HEADS)
  {
  }

  lemma TakeKeepsHeads(m: Machine, h: Heads)
    requires HeadsKept(m.s, h)
    ensures HeadsKept(TakeWork(m).s, h.(pending := {})) && HeadsKept(OnShutdownWorker(m.s), h.(pending := {}))
  {
  }

  lemma HeadsStep(c: Config, m: Machine, step: Step, h: Heads)
    requires HeadsKept(m.s, h) && Enabled(m, step)
    ensures HeadsKept(Next(c, m, step).s, Heard(m, step, h))
  {
    hide HeadsKept;
    if LeavesHeads(step) {
      QuietKeepsHeads(c, m, step, h);
    } else {
      match step
      case LiveHead(block, g) => AnnounceKeepsHeads(m, block, g, h);
      case AnnounceHead(t) => AnnounceKeepsHeads(m, m.starters[t].head, m.starters[t].generation, h);
      case Drain(t) => DrainKeepsHeads(m, t, h);
      case StartLive(t) => StartKeepsHeads(m, t, h);
      case Stop => EndKeepsHeads(m);
      case Close => EndKeepsHeads(m);
      case AbortStart(t) => EndKeepsHeads(m);
      case Take => TakeKeepsHeads(m, h);
      case ShutdownWorker => TakeKeepsHeads(m, h);
    }
  }

  /** In every run the highest head announced while buffering, and the highest one that waits for the worker, are
      known. */
  lemma {:induction false} HeadsAreKept(c: Config, m: Machine, steps: seq<Step>, h: Heads)
    requires HeadsKept(m.s, h)
    ensures HeadsKept(Execute(c, m, steps).s, HeardAll(c, m, steps, h))
    decreases |steps|
  {
    hide Next, Heard, HeadsKept;
    if steps != [] {
      if Enabled(m, steps[0]) {
        HeadsStep(c, m, steps[0], h);
        HeadsAreKept(c, Next(c, m, steps[0]), steps[1..], Heard(m, steps[0], h));
      } else {
        HeadsAreKept(c, m, steps[1..], h);
      }
    }
  }

  /** The drain ends buffering exactly when it finds neither a gap nor a buffered log; its call then announces the
      highest head that was announced meanwhile, if there was one. A gap sends it into a recovery. */
  lemma DrainReleasesHead(c: Config, m: Machine, t: nat, h: Heads)
    requires HeadsKept(m.s, h) && Enabled(m, Drain(t))
    ensures var m', g := Next(c, m, Drain(t)), m.starters[t].generation;
      if m.s.handoffGap then m'.starters[t] == Recovering(g) && m'.s.buffering == m.s.buffering && !m'.s.handoffGap
      else if m.s.buffered != [] then m'.starters[t] == Draining(g) && m'.s.buffering == m.s.buffering
      else !m'.s.buffering
           && if h.buffered == {} then m'.starters[t] == Concluding(g)
              else m'.starters[t].AnnouncingHead? && m'.starters[t].generation == g
                   && IsHighest(m'.starters[t].head, h.buffered)
  {
    assert Next(c, m, Drain(t)) == DrainOnce(m, t);
  }

  /** The worker can take work exactly when a head waits, or a refresh while nothing is being buffered; it works on the
      highest of the heads that wait, with the refresh and the recovery that are pending. */
  lemma TakeWorksOnHighest(c: Config, m: Machine, h: Heads)
    requires HeadsKept(m.s, h) && m.reconciler.Waiting?
    ensures Enabled(m, Take) <==>
      !m.s.workerShutdown && (h.pending != {} || (m.s.refreshHead && !m.s.buffering))
    ensures Enabled(m, Take) ==>
      var m' := Next(c, m, Take);
      && m'.reconciler.Working? && m'.s.reconciliationActive
      && (if h.pending == {} then m'.reconciler.head == 0 else IsHighest(m'.reconciler.head, h.pending))
      && m'.reconciler.refresh == m.s.refreshHead && m'.reconciler.recover == m.s.overlapRecovery
      && m'.reconciler.generation == m.s.pendingGeneration
      && !m'.s.hasPendingHead && !m'.s.refreshHead && !m'.s.overlapRecovery
  {
    TakeIs(c, m);
    hide Next, Enabled;
  }

  lemma TakeIs(c: Config, m: Machine)
    requires m.reconciler.Waiting?
    ensures Enabled(m, Take) <==> CanTake(m.s)
    ensures Enabled(m, Take) ==> Next(c, m, Take) == TakeWork(m)
  {
  }

  // ----- the durable block -----

  /** The head that was recorded last: the one start_live learned, whichever generation is current, the one of a gap
      recovery of the current generation, and the one the worker reached for the current subscription. */
  function Recorded(m: Machine, step: Step, head: nat): nat
    requires Enabled(m, step)
  {
    match step
    case HeadFetched(_, fetched) => fetched
    case GapRecovered(t, fetched) => if m.starters[t].generation == m.s.generation then fetched else head
    case Reconciled(latest) =>
      var w := m.reconciler;
      if !m.s.accepting || w.generation != m.s.generation then head
      else if w.refresh && w.head < latest then latest else w.head
    case _ => head
  }

  function RecordedAll(c: Config, m: Machine, steps: seq<Step>, head: nat): nat
    decreases |steps|
  {
    if steps == [] then head
    else if !Enabled(m, steps[0]) then RecordedAll(c, m, steps[1..], head)
    else RecordedAll(c, Next(c, m, steps[0]), steps[1..], Recorded(m, steps[0], head))
  }

  /** The last block that has all its confirmations under a head. */
  predicate IsDurable(c: Config, durable: nat, head: nat) {
    if head <= c.confirmations then durable == 0 else durable + c.confirmations == head
  }

  predicate RecordsHead(step: Step) {
    step.HeadFetched? || step.GapRecovered? || step.Reconciled?
  }

  lemma RecordOfStarter(c: Config, m: Machine, step: Step)
    requires Enabled(m, step) && OfStarter(step) && !RecordsHead(step)
    ensures Next(c, m, step).s.durableThrough == m.s.durableThrough
  {
    match step
    case StartLive(t) => assert StartCall(m, t).s.durableThrough == m.s.durableThrough;
    case CaughtUp(t) => assert EndCatchUp(m, t).s.durableThrough == m.s.durableThrough;
    case Drain(t) => assert DrainOnce(m, t).s.durableThrough == m.s.durableThrough;
    case AnnounceHead(t) => assert ReplayHead(m, t).s.durableThrough == m.s.durableThrough;
    case Conclude(t) => assert EndStart(m, t).s.durableThrough == m.s.durableThrough;
    case AbortStart(t) => assert Abandon(m, t).s.durableThrough == m.s.durableThrough;
  }

  lemma RecordOfTransport(c: Config, m: Machine, step: Step)
    requires Enabled(m, step) && (OfTransport(step) || step.Stop? || step.Close?)
    ensures Next(c, m, step).s.durableThrough == m.s.durableThrough
  {
    match step
    case LiveLog(log, g) => assert AcceptLog(m, log, g).s.durableThrough == m.s.durableThrough;
    case Dispatch(i) => assert DispatchArrival(m, i).s.durableThrough == m.s.durableThrough;
    case LiveHead(block, g) => assert OnLiveHead(m.s, block, g).durableThrough == m.s.durableThrough;
    case LiveError(gap, g) => assert BreakStream(m, gap, g).s.durableThrough == m.s.durableThrough;
    case Historical(log, g) => assert OnDispatchHistorical(m.s, log, g).durableThrough == m.s.durableThrough;
    case Stop => assert OnStop(m.s).durableThrough == m.s.durableThrough;
    case Close => assert OnStop(m.s).durableThrough == m.s.durableThrough;
  }

  lemma RecordOfWorkers(c: Config, m: Machine, step: Step)
    requires Enabled(m, step) && (OfDelivery(step) || OfReconciler(step)) && !RecordsHead(step)
    ensures Next(c, m, step).s.durableThrough == m.s.durableThrough
  {
    match step
    case Pop => assert TakeJob(m).s.durableThrough == m.s.durableThrough;
    case Returned => assert FinishCallback(m).s.durableThrough == m.s.durableThrough;
    case CallbackThrew => assert FailCallback(m).s.durableThrough == m.s.durableThrough;
    case ScheduleRecovery => assert OweRecovery(m).s.durableThrough == m.s.durableThrough;
    case ShutdownDelivery => assert CancelDeliveries(m).s.durableThrough == m.s.durableThrough;
    case Take => assert TakeWork(m).s.durableThrough == m.s.durableThrough;
    case ReconcileFailed => assert FailWork(m).s.durableThrough == m.s.durableThrough;
    case Release => assert OnRelease(m.s).durableThrough == m.s.durableThrough;
    case ShutdownWorker => assert OnShutdownWorker(m.s).durableThrough == m.s.durableThrough;
  }

  lemma RecordIsDurable(c: Config, m: Machine, step: Step, head: nat)
    requires IsDurable(c, m.s.durableThrough, head) && Enabled(m, step) && RecordsHead(step)
    ensures IsDurable(c, Next(c, m, step).s.durableThrough, Recorded(m, step, head))
  {
    hide RepairWork, RepairDrain, WorkTarget;
    match step
    case HeadFetched(t, fetched) => assert Next(c, m, step) == BeginCatchUp(c, m, t, fetched);
    case GapRecovered(t, fetched) => assert Next(c, m, step) == FinishGapRecovery(c, m, t, fetched);
    case Reconciled(latest) => assert Next(c, m, step) == FinishWork(c, m, latest);
  }

  lemma DurableStep(c: Config, m: Machine, step: Step, head: nat)
    requires IsDurable(c, m.s.durableThrough, head) && Enabled(m, step)
    ensures IsDurable(c, Next(c, m, step).s.durableThrough, Recorded(m, step, head))
  {
    hide Next, Enabled, IsDurable;
    if RecordsHead(step) {
      RecordIsDurable(c, m, step, head);
    } else if OfStarter(step) {
      RecordOfStarter(c, m, step);
    } else if OfDelivery(step) || OfReconciler(step) {
      RecordOfWorkers(c, m, step);
    } else {
      RecordOfTransport(c, m, step);
    }
  }

  /** In every run the durable block is the last one with its confirmations under the head that was recorded last. */
  lemma {:induction false} DurableFollowsHead(c: Config, m: Machine, steps: seq<Step>, head: nat)
    requires IsDurable(c, m.s.durableThrough, head)
    ensures IsDurable(c, Execute(c, m, steps).s.durableThrough, RecordedAll(c, m, steps, head))
    decreases |steps|
  {
    hide Next, Enabled, IsDurable, Recorded;
    if steps != [] {
      if Enabled(m, steps[0]) {
        DurableStep(c, m, steps[0], head);
        DurableFollowsHead(c, Next(c, m, steps[0]), steps[1..], Recorded(m, steps[0], head));
      } else {
        DurableFollowsHead(c, m, steps[1..], head);
      }
    }
  }

  // ----- gaps in the stream -----

  predicate FlagsOwe(s: Shared) {
    s.handoffGap || s.overlapRecovery
  }

  /** An error of the current subscription empties the buffer and owes a recovery to the handoff, or, when live, a
      refresh of the head; a gap in the stream owes the whole recovery. Errors of older ones do nothing. */
  lemma StreamGapIsOwed(c: Config, m: Machine, gap: bool, g: nat)
    requires g <= m.s.generation
    ensures var s' := Next(c, m, LiveError(gap, g)).s;
      if !m.s.accepting || g != m.s.generation then s' == m.s
      else if m.s.buffering then s'.handoffGap && s'.buffered == []
      else s'.refreshHead && (gap ==> s'.overlapRecovery) && s'.pendingGeneration == g
  {
    assert Next(c, m, LiveError(gap, g)) == BreakStream(m, gap, g);
  }

  /** Who may take an owed recovery off the state: its call of start_live, the worker, or an end of the
      subscription. */
  ghost predicate TakesOver(c: Config, m: Machine, step: Step)
    requires Enabled(m, step)
  {
    match step
    case Drain(t) => m.s.handoffGap && Next(c, m, step).starters[t] == Recovering(m.starters[t].generation)
    case Take =>
      var w := Next(c, m, step).reconciler;
      m.s.overlapRecovery && w.Working? && w.recover && w.generation == m.s.generation
    case StartLive(_) => true
    case AbortStart(_) => true
    case Stop => true
    case Close => true
    case ShutdownWorker => true
    case _ => false
  }

  lemma OwedByTransport(c: Config, m: Machine, step: Step)
    requires HandoffDiscipline(m.s) && FlagsOwe(m.s) && Enabled(m, step) && OfTransport(step)
    ensures FlagsOwe(Next(c, m, step).s)
  {
    match step
    case LiveLog(log, g) => assert FlagsOwe(AcceptLog(m, log, g).s);
    case Dispatch(i) => assert FlagsOwe(DispatchArrival(m, i).s);
    case LiveHead(block, g) => assert FlagsOwe(OnLiveHead(m.s, block, g));
    case LiveError(gap, g) => assert FlagsOwe(BreakStream(m, gap, g).s);
    case Historical(log, g) => assert FlagsOwe(OnDispatchHistorical(m.s, log, g));
  }

  lemma OwedByStarter(c: Config, m: Machine, step: Step)
    requires HandoffDiscipline(m.s) && FlagsOwe(m.s) && Enabled(m, step) && OfStarter(step)
    ensures FlagsOwe(Next(c, m, step).s) || TakesOver(c, m, step)
  {
    hide RepairDrain;
    match step
    case StartLive(t) =>
    case HeadFetched(t, head) => assert FlagsOwe(BeginCatchUp(c, m, t, head).s);
    case CaughtUp(t) => assert FlagsOwe(EndCatchUp(m, t).s);
    case Drain(t) => OwedByDrain(c, m, t);
    case GapRecovered(t, head) => assert FlagsOwe(FinishGapRecovery(c, m, t, head).s);
    case AnnounceHead(t) => assert FlagsOwe(ReplayHead(m, t).s);
    case Conclude(t) => assert FlagsOwe(EndStart(m, t).s);
    case AbortStart(t) =>
  }

  lemma OwedByDrain(c: Config, m: Machine, t: nat)
    requires FlagsOwe(m.s) && Enabled(m, Drain(t))
    ensures FlagsOwe(Next(c, m, Drain(t)).s) || TakesOver(c, m, Drain(t))
  {
    assert Next(c, m, Drain(t)) == DrainOnce(m, t);
  }

  lemma OwedByWorkers(c: Config, m: Machine, step: Step)
    requires HandoffDiscipline(m.s) && FlagsOwe(m.s) && Enabled(m, step) && (OfDelivery(step) || OfReconciler(step))
    ensures FlagsOwe(Next(c, m, step).s) || TakesOver(c, m, step)
  {
    hide RepairWork, WorkTarget;
    match step
    case Pop => assert FlagsOwe(TakeJob(m).s);
    case Returned => assert FlagsOwe(FinishCallback(m).s);
    case CallbackThrew => assert FlagsOwe(FailCallback(m).s);
    case ScheduleRecovery => assert FlagsOwe(OweRecovery(m).s);
    case ShutdownDelivery => assert FlagsOwe(CancelDeliveries(m).s);
    case Take => TakeIs(c, m);
    case Reconciled(latest) => assert FlagsOwe(FinishWork(c, m, latest).s);
    case ReconcileFailed => assert FlagsOwe(FailWork(m).s);
    case Release => assert FlagsOwe(OnRelease(m.s));
    case ShutdownWorker =>
  }

  /** In every run: a recovery that the state owes stays owed until a drain or the worker takes it over, or the
      subscription ends. */
  lemma OwedUntilTaken(c: Config, m: Machine, step: Step)
    requires HandoffDiscipline(m.s) && FlagsOwe(m.s) && Enabled(m, step)
    ensures FlagsOwe(Next(c, m, step).s) || TakesOver(c, m, step)
  {
    if OfTransport(step) {
      OwedByTransport(c, m, step);
    } else if OfStarter(step) {
      OwedByStarter(c, m, step);
    } else if OfDelivery(step) || OfReconciler(step) {
      OwedByWorkers(c, m, step);
    }
  }

  /** The worker's recovery of the current subscription is owed again when it fails; a failed catch-up is not. */
  lemma FailedRecoveryIsOwedAgain(c: Config, m: Machine)
    requires m.reconciler.Working?
    ensures var m' := Next(c, m, ReconcileFailed);
      && m'.reconciler.Finishing?
      && (m'.s.overlapRecovery <==>
            || m.s.overlapRecovery
            || (m.s.accepting && m.reconciler.generation == m.s.generation && m.reconciler.recover))
  {
    assert Next(c, m, ReconcileFailed) == FailWork(m);
  }

  // ----- stop -----

  /** No subscription: nothing is accepted, buffered, owed or waiting. */
  predicate Silent(s: Shared) {
    && !s.accepting && !s.buffering && !s.started && s.buffered == []
    && !s.handoffGap && !s.overlapRecovery && !s.refreshHead
    && !s.hasBufferedHead && !s.hasPendingHead
  }

  /** Nor is a log of the current generation on its way. */
  predicate Silenced(m: Machine) {
    Silent(m.s) && forall i :: 0 <= i < |m.arriving| ==> m.arriving[i].generation < m.s.generation
  }

  lemma StopSilences(c: Config, m: Machine, step: Step)
    requires GenerationsBounded(m) && (step.Stop? || step.Close?)
    ensures Silenced(Next(c, m, step)) && Next(c, m, step).s.generation == m.s.generation + 1
  {
    assert Next(c, m, step).s == OnStop(m.s);
  }

  lemma SilentTransport(c: Config, m: Machine, step: Step)
    requires Silenced(m) && Enabled(m, step) && OfTransport(step)
    ensures Silenced(Next(c, m, step))
    ensures !step.Historical? ==> Next(c, m, step).s == m.s
  {
    match step
    case LiveLog(log, g) => assert AcceptLog(m, log, g) == m;
    case Dispatch(i) => assert DispatchArrival(m, i).s == m.s;
    case LiveHead(block, g) => assert OnLiveHead(m.s, block, g) == m.s;
    case LiveError(gap, g) => assert BreakStream(m, gap, g).s == m.s;
    case Historical(log, g) => assert Silent(OnDispatchHistorical(m.s, log, g));
  }

  lemma SilentStarter(c: Config, m: Machine, step: Step)
    requires Silenced(m) && Enabled(m, step) && OfStarter(step) && !step.StartLive?
    ensures Silenced(Next(c, m, step))
  {
    hide RepairDrain;
    match step
    case HeadFetched(t, head) => assert Silenced(BeginCatchUp(c, m, t, head));
    case CaughtUp(t) => assert Silenced(EndCatchUp(m, t));
    case Drain(t) => assert Silenced(DrainOnce(m, t));
    case GapRecovered(t, head) => assert Silenced(FinishGapRecovery(c, m, t, head));
    case AnnounceHead(t) => assert Silenced(ReplayHead(m, t));
    case Conclude(t) => assert Silenced(EndStart(m, t));
    case AbortStart(t) => assert Silenced(Abandon(m, t));
  }

  lemma SilentWorkers(c: Config, m: Machine, step: Step)
    requires Silenced(m) && Enabled(m, step) && (OfDelivery(step) || OfReconciler(step))
    ensures Silenced(Next(c, m, step)) && !step.Take?
  {
    hide RepairWork, WorkTarget;
    match step
    case Pop => assert Silenced(TakeJob(m));
    case Returned => assert Silenced(FinishCallback(m));
    case CallbackThrew => assert Silenced(FailCallback(m));
    case ScheduleRecovery => assert Silenced(OweRecovery(m));
    case ShutdownDelivery => assert Silenced(CancelDeliveries(m));
    case Take =>
    case Reconciled(latest) => assert Silenced(FinishWork(c, m, latest));
    case ReconcileFailed => assert Silenced(FailWork(m));
    case Release => assert Silent(OnRelease(m.s));
    case ShutdownWorker => assert Silent(OnShutdownWorker(m.s));
  }

  lemma SilentStop(c: Config, m: Machine, step: Step)
    requires Silenced(m) && (step.Stop? || step.Close?)
    ensures Silenced(Next(c, m, step))
  {
    assert Next(c, m, step).s == OnStop(m.s);
  }

  predicate NoStart(steps: seq<Step>) {
    forall i :: 0 <= i < |steps| ==> !steps[i].StartLive?
  }

  /** After stop, until the next start_live, no callback of the subscription has any effect, no recovery is owed and
      the worker takes no work, however the steps of all threads interleave. */
  lemma {:induction false} StoppedStaysSilent(c: Config, m: Machine, steps: seq<Step>)
    requires Silenced(m) && NoStart(steps)
    ensures Silenced(Execute(c, m, steps))
    decreases |steps|
  {
    hide Next, Enabled, Silenced;
    if steps != [] {
      var step := steps[0];
      if !Enabled(m, step) {
        StoppedStaysSilent(c, m, steps[1..]);
      } else {
        if OfTransport(step) {
          SilentTransport(c, m, step);
        } else if OfStarter(step) {
          SilentStarter(c, m, step);
        } else if OfDelivery(step) || OfReconciler(step) {
          SilentWorkers(c, m, step);
        } else {
          SilentStop(c, m, step);
        }
        StoppedStaysSilent(c, Next(c, m, step), steps[1..]);
      }
    }
  }

  // ----- success of start_live -----

  /** A call of start_live past its drain, and one that reported success, left nothing buffering behind. */
  predicate StartedIsLive(m: Machine) {
    && (m.s.started ==> m.s.accepting && !m.s.buffering)
    && (m.s.buffering ==> forall t :: t in m.starters && m.starters[t].generation == m.s.generation ==>
          !PastDrain(m.starters[t]))
  }

  predicate PastDrain(starter: Starter) {
    starter.AnnouncingHead? || starter.Concluding?
  }

  /** start_live reports success exactly when its generation is still current and accepting. */
  lemma ConcludeReports(c: Config, m: Machine, t: nat)
    requires Enabled(m, Conclude(t))
    ensures var m' := Next(c, m, Conclude(t));
      && t !in m'.starters
      && (m'.s.started <==> m.s.started || (m.s.accepting && m.starters[t].generation == m.s.generation))
  {
    assert Next(c, m, Conclude(t)) == EndStart(m, t);
  }

  lemma LiveByTransport(c: Config, m: Machine, step: Step)
    requires StartedIsLive(m) && Enabled(m, step) && OfTransport(step)
    ensures StartedIsLive(Next(c, m, step))
  {
    match step
    case LiveLog(log, g) => assert StartedIsLive(AcceptLog(m, log, g));
    case Dispatch(i) => assert StartedIsLive(DispatchArrival(m, i));
    case LiveHead(block, g) => assert StartedIsLive(m.(s := OnLiveHead(m.s, block, g)));
    case LiveError(gap, g) => assert StartedIsLive(BreakStream(m, gap, g));
    case Historical(log, g) => assert StartedIsLive(m.(s := OnDispatchHistorical(m.s, log, g)));
  }

  /** The call begins its own generation. */
  lemma LiveByStart(m: Machine, t: nat)
    requires GenerationsBounded(m) && !m.s.started
    ensures StartedIsLive(StartCall(m, t))
  {
  }

  lemma LiveByDrain(m: Machine, t: nat)
    requires StartedIsLive(m) && Enabled(m, Drain(t))
    ensures StartedIsLive(DrainOnce(m, t))
  {
    var m' := DrainOnce(m, t);
    assert m'.s.started == m.s.started && m'.s.accepting == m.s.accepting && m'.s.generation == m.s.generation;
    assert m'.s.buffering ==> m.s.buffering && !PastDrain(m'.starters[t]);
    assert forall u :: u in m'.starters && u != t ==> u in m.starters && m'.starters[u] == m.starters[u];
  }

  lemma LiveByEnd(m: Machine, t: nat)
    requires StartedIsLive(m) && t in m.starters
    ensures StartedIsLive(EndCatchUp(m, t)) && StartedIsLive(Abandon(m, t))
    ensures m.starters[t].Concluding? ==> StartedIsLive(EndStart(m, t))
  {
  }

  lemma LiveByStarter(c: Config, m: Machine, step: Step)
    requires StartedIsLive(m) && GenerationsBounded(m) && Enabled(m, step) && OfStarter(step)
    ensures StartedIsLive(Next(c, m, step))
  {
    hide GenerationsBounded, RepairDrain;
    match step
    case StartLive(t) => LiveByStart(m, t);
    case HeadFetched(t, head) => assert StartedIsLive(BeginCatchUp(c, m, t, head));
    case CaughtUp(t) => LiveByEnd(m, t);
    case Drain(t) => LiveByDrain(m, t);
    case GapRecovered(t, head) => assert StartedIsLive(FinishGapRecovery(c, m, t, head));
    case AnnounceHead(t) => LiveByReplay(m, t);
    case Conclude(t) => LiveByEnd(m, t);
    case AbortStart(t) => LiveByEnd(m, t);
  }

  lemma LiveByReplay(m: Machine, t: nat)
    requires StartedIsLive(m) && Enabled(m, AnnounceHead(t))
    ensures StartedIsLive(ReplayHead(m, t))
  {
  }

  lemma LiveByDelivery(c: Config, m: Machine, step: Step)
    requires StartedIsLive(m) && Enabled(m, step) && OfDelivery(step)
    ensures StartedIsLive(Next(c, m, step))
  {
    match step
    case Pop => assert StartedIsLive(TakeJob(m));
    case Returned => assert StartedIsLive(FinishCallback(m));
    case CallbackThrew => assert StartedIsLive(FailCallback(m));
    case ScheduleRecovery => assert StartedIsLive(OweRecovery(m));
    case ShutdownDelivery => assert StartedIsLive(CancelDeliveries(m));
  }

  lemma LiveByReconciler(c: Config, m: Machine, step: Step)
    requires StartedIsLive(m) && Enabled(m, step) && OfReconciler(step)
    ensures StartedIsLive(Next(c, m, step))
  {
    hide RepairWork, WorkTarget;
    match step
    case Take => assert StartedIsLive(TakeWork(m));
    case Reconciled(latest) => assert StartedIsLive(FinishWork(c, m, latest));
    case ReconcileFailed => assert StartedIsLive(FailWork(m));
    case Release => assert StartedIsLive(m.(s := OnRelease(m.s), reconciler := Waiting));
    case ShutdownWorker => assert StartedIsLive(m.(s := OnShutdownWorker(m.s)));
  }

  lemma LiveByStop(c: Config, m: Machine, step: Step)
    requires StartedIsLive(m) && (step.Stop? || step.Close?)
    ensures StartedIsLive(Next(c, m, step))
  {
    assert Next(c, m, step).s == OnStop(m.s);
  }

  /** In every run: a subscription that start_live reported as started accepts callbacks and buffers no longer. */
  lemma {:induction false} StartedRunsLive(c: Config, m: Machine, steps: seq<Step>)
    requires Inv(m) && StartedIsLive(m)
    ensures StartedIsLive(Execute(c, m, steps))
    decreases |steps|
  {
    hide Next, Enabled, Balanced, Discipline, GenerationsBounded, BufferHasOwner, StartedIsLive;
    if steps != [] {
      var step := steps[0];
      if !Enabled(m, step) {
        StartedRunsLive(c, m, steps[1..]);
      } else {
        if OfTransport(step) {
          LiveByTransport(c, m, step);
        } else if OfStarter(step) {
          LiveByStarter(c, m, step);
        } else if OfDelivery(step) {
          LiveByDelivery(c, m, step);
        } else if OfReconciler(step) {
          LiveByReconciler(c, m, step);
        } else {
          LiveByStop(c, m, step);
        }
        InvStep(c, m, step);
        StartedRunsLive(c, Next(c, m, step), steps[1..]);
      }
    }
  }
}
