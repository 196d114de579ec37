/** The mutable state behind the mutex, with one method per critical section, each proved to have the effect that
    LiveSections gives it; and the threads of LiveProtocol performed on it, whole runs included. */
module LiveStates {
  import opened Wrappers
  import opened Arithmetic
  import opened EvmLogs
  import opened CursorStore
  import opened LiveSections
  import opened LiveProtocol
  import opened LiveProofs
  import opened LiveOrder
  import opened LiveTheorems

  class LiveState {
    var buffering: bool
    var started: bool
    var acceptingLive: bool
    var hasBufferedHead: bool
    var hasPendingHead: bool
    var refreshHeadPending: bool
    var overlapRecoveryPending: bool
    var handoffGapPending: bool
    var workerShutdown: bool
    var deliveryShutdown: bool
    var reconciliationActive: bool
    var generation: nat
    var durableThrough: nat
    var bufferedHead: nat
    var pendingHead: nat
    var pendingGeneration: nat
    var bufferedLogs: seq<Log>
    var historicalDeliveries: seq<Job>
    var liveDeliveries: seq<Job>

    function View(): Shared
      reads this
    {
      Shared(buffering, started, acceptingLive, hasBufferedHead, hasPendingHead, refreshHeadPending,
             overlapRecoveryPending, handoffGapPending, workerShutdown, deliveryShutdown, reconciliationActive,
             generation, durableThrough, bufferedHead, pendingHead, pendingGeneration,
             bufferedLogs, historicalDeliveries, liveDeliveries)
    }

    constructor ()
      ensures View() == FRESH
    {
      buffering, started, acceptingLive, hasBufferedHead, hasPendingHead := false, false, false, false, false;
      refreshHeadPending, overlapRecoveryPending, handoffGapPending := false, false, false;
      workerShutdown, deliveryShutdown, reconciliationActive := false, false, false;
      generation, durableThrough, bufferedHead, pendingHead, pendingGeneration := 0, 0, 0, 0, 0;
      bufferedLogs, historicalDeliveries, liveDeliveries := [], [], [];
    }

    /** Nothing of an earlier subscription stays buffered. */
    method ClearBuffer()
      modifies this`bufferedLogs, this`hasBufferedHead, this`bufferedHead
      ensures View() == old(View()).(buffered := [], hasBufferedHead := false, bufferedHead := 0)
    {
      bufferedLogs := [];
      hasBufferedHead := false;
      bufferedHead := 0;
    }

    /** Nothing of an earlier subscription stays owed. */
    method ClearOwed()
      modifies this`refreshHeadPending, this`overlapRecoveryPending, this`handoffGapPending
      ensures View() == old(View()).(refreshHead := false, overlapRecovery := false, handoffGap := false)
    {
      refreshHeadPending := false;
      overlapRecoveryPending := false;
      handoffGapPending := false;
    }

    /** The live callbacks of the subscription are refused from now on. */
    method CloseIntake()
      modifies this`acceptingLive, this`buffering, this`started
      ensures View() == old(View()).(accepting := false, buffering := false, started := false)
    {
      acceptingLive, buffering, started := false, false, false;
    }

    method OweOverlapRecovery(from: nat)
      modifies this
      ensures View() == old(View()).(refreshHead := true, overlapRecovery := true, pendingGeneration := from)
    {
      refreshHeadPending := true;
      overlapRecoveryPending := true;
      pendingGeneration := from;
    }

    /** First section of handle_live_log; the caller goes on to DispatchLog exactly when forward is set. */
    method HandleLiveLog(log: Log, from: nat) returns (forward: bool)
      modifies this
      ensures View() == OnLiveLog(old(View()), log, from)
      ensures forward <==> Current(old(View()), from) && !old(buffering)
    {
      if !acceptingLive || from != generation {
        return false;
      }
      if !buffering {
        return true;
      }
      if !handoffGapPending && |bufferedLogs| < LIVE_LOG_QUEUE_LIMIT {
        bufferedLogs := bufferedLogs + [log];
      } else if !handoffGapPending {
        bufferedLogs := [];
        handoffGapPending := true;
      }
      return false;
    }

    /** The queueing section of dispatch_log. */
    method DispatchLog(log: Log, live: bool, from: nat) returns (queued: bool)
      modifies this
      ensures View() == if live then OnDispatchLive(old(View()), log, from)
                        else OnDispatchHistorical(old(View()), log, from)
      ensures queued <==> || (live && liveDeliveries == old(liveDeliveries) + [Job(log, true, from)])
                          || (!live && historicalDeliveries == old(historicalDeliveries) + [Job(log, false, from)])
    {
      if deliveryShutdown || from != generation {
        return false;
      }
      if live && |liveDeliveries| >= LIVE_LOG_QUEUE_LIMIT {
        liveDeliveries := [];
        OweOverlapRecovery(from);
        return false;
      }
      if live {
        liveDeliveries := liveDeliveries + [Job(log, live, from)];
      } else {
        historicalDeliveries := historicalDeliveries + [Job(log, live, from)];
      }
      return true;
    }

    method HandleLiveHead(block: nat, from: nat)
      modifies this
      ensures View() == OnLiveHead(old(View()), block, from)
    {
      if !acceptingLive || from != generation {
        return;
      }
      if buffering {
        hasBufferedHead := true;
        bufferedHead := Max(bufferedHead, block);
        return;
      }
      hasPendingHead := true;
      pendingHead := Max(pendingHead, block);
      pendingGeneration := from;
    }

    method HandleLiveError(streamGap: bool, from: nat)
      modifies this
      ensures View() == OnLiveError(old(View()), streamGap, from)
    {
      if !acceptingLive || from != generation {
        return;
      }
      if buffering {
        bufferedLogs := [];
        handoffGapPending := true;
      } else {
        refreshHeadPending := true;
        if streamGap {
          overlapRecoveryPending := true;
        }
      }
      pendingGeneration := from;
    }

    method BeginStartLive() returns (begun: Option<nat>)
      modifies this
      ensures View() == OnStartLive(old(View()))
      ensures begun == if old(started) then None else Some(old(generation) + 1)
    {
      if started {
        return None;
      }
      generation := generation + 1;
      acceptingLive := true;
      buffering := true;
      ClearBuffer();
      ClearOwed();
      return Some(generation);
    }

    /** start_live records the durable block of the head it learned, whichever generation is current. */
    method RecordHead(durable: nat)
      modifies this`durableThrough
      ensures View() == OnHeadFetched(old(View()), durable)
    {
      durableThrough := durable;
    }

    method ConcludeStart(from: nat) returns (live: bool)
      modifies this
      ensures View() == OnConclude(old(View()), from)
      ensures live <==> Current(old(View()), from)
    {
      if !acceptingLive || from != generation {
        return false;
      }
      started := true;
      return true;
    }

    method AbortStart()
      modifies this
      ensures View() == OnAbortStart(old(View()))
    {
      CloseIntake();
      ClearBuffer();
      ClearOwed();
      hasPendingHead, pendingHead := false, 0;
    }

    method Stop()
      modifies this
      ensures View() == OnStop(old(View()))
    {
      generation := generation + 1;
      AbortStart();
    }

    /** The buffered logs move one by one onto the historical queue. */
    method QueueBuffered(from: nat)
      modifies this`historicalDeliveries, this`bufferedLogs
      ensures View() == old(View()).(historical := old(historicalDeliveries) + Stamped(old(bufferedLogs), from),
                                     buffered := [])
    {
      for i := 0 to |bufferedLogs|
        modifies this`historicalDeliveries
        invariant historicalDeliveries == old(historicalDeliveries) + Stamped(old(bufferedLogs)[..i], from)
      {
        historicalDeliveries := historicalDeliveries + [Job(bufferedLogs[i], true, from)];
      }
      assert old(bufferedLogs)[..|bufferedLogs|] == old(bufferedLogs);
      bufferedLogs := [];
    }

    /** One round of drain_live_buffer. */
    method DrainLiveBuffer(from: nat) returns (outcome: Drained)
      modifies this`historicalDeliveries, this`bufferedLogs, this`handoffGapPending
      modifies this`buffering, this`hasBufferedHead
      ensures View() == OnDrain(old(View()), from)
      ensures outcome == DrainOutcome(old(View()))
    {
      hide Stamped;
      if handoffGapPending {
        handoffGapPending := false;
        bufferedLogs := [];
        return RecoverGap;
      }
      if bufferedLogs != [] {
        QueueBuffered(from);
        return AwaitDelivery;
      }
      outcome := EndBuffering();
    }

    /** Live logs go straight to their queue from now on; the buffered head is released. */
    method EndBuffering() returns (outcome: Drained)
      requires bufferedLogs == [] && !handoffGapPending
      modifies this`buffering, this`hasBufferedHead
      ensures View() == old(View()).(buffering := false, hasBufferedHead := false)
      ensures outcome == DrainOutcome(old(View()))
    {
      buffering := false;
      if hasBufferedHead {
        hasBufferedHead := false;
        return Finished(Some(bufferedHead));
      }
      return Finished(None);
    }

    /** The delivery thread's choice: historical jobs first; live jobs only while no reconciliation is pending. */
    method PopDelivery() returns (job: Option<Job>)
      modifies this
      ensures job.Some? <==> CanPop(old(View()))
      ensures job.Some? ==> job.value == Popped(old(View())) && View() == OnPop(old(View()))
      ensures job.None? ==> View() == old(View())
      ensures !old(deliveryShutdown) && old(historicalDeliveries) != [] ==>
        && job.Some? && [job.value] + historicalDeliveries == old(historicalDeliveries)
        && liveDeliveries == old(liveDeliveries)
      ensures !old(deliveryShutdown) && old(historicalDeliveries) == [] && old(liveDeliveries) != [] ==>
        if old(reconciliationActive) || old(refreshHeadPending) then job.None?
        else job.Some? && [job.value] + liveDeliveries == old(liveDeliveries) && historicalDeliveries == []
      ensures old(deliveryShutdown) || (old(historicalDeliveries) == [] && old(liveDeliveries) == []) ==> job.None?
    {
      if deliveryShutdown {
        return None;
      }
      if historicalDeliveries != [] {
        job := Some(historicalDeliveries[0]);
        historicalDeliveries := historicalDeliveries[1..];
      } else if !reconciliationActive && !refreshHeadPending && liveDeliveries != [] {
        job := Some(liveDeliveries[0]);
        liveDeliveries := liveDeliveries[1..];
      } else {
        job := None;
      }
    }

    method ScheduleOverlapRecovery(from: nat) returns (scheduled: bool)
      modifies this
      ensures View() == OnScheduleRecovery(old(View()), from)
      ensures scheduled <==> Current(old(View()), from) && !old(buffering)
    {
      if !acceptingLive || from != generation {
        return false;
      }
      if buffering {
        bufferedLogs := [];
        handoffGapPending := true;
        return false;
      }
      OweOverlapRecovery(from);
      return true;
    }

    /** The reconciliation thread takes what is pending: the head, its generation, and the two flags. */
    method TakeReconciliation() returns (head: nat, from: nat, refresh: bool, recover: bool)
      modifies this
      ensures View() == OnTake(old(View()))
      ensures head == old(pendingHead) && from == old(pendingGeneration)
      ensures refresh == old(refreshHeadPending) && recover == old(overlapRecoveryPending)
    {
      head, from := pendingHead, pendingGeneration;
      refresh, recover := refreshHeadPending, overlapRecoveryPending;
      hasPendingHead, refreshHeadPending, overlapRecoveryPending := false, false, false;
      pendingHead := 0;
      reconciliationActive := true;
    }

    method RecordDurable(durable: nat, from: nat)
      modifies this
      ensures View() == OnReconciled(old(View()), durable, from)
    {
      if acceptingLive && from == generation {
        durableThrough := durable;
      }
    }

    /** The durable block after a gap recovery of the handoff. */
    method RecordDrained(durable: nat, from: nat)
      modifies this
      ensures View() == OnDrainRecovered(old(View()), durable, from)
    {
      if from == generation {
        durableThrough := durable;
      }
    }

    method ReportReconciliationFailure(from: nat, recoverOverlap: bool) returns (active: bool)
      modifies this
      ensures View() == OnReconcileFailed(old(View()), recoverOverlap, from)
      ensures active <==> Current(old(View()), from)
    {
      active := acceptingLive && from == generation;
      if active && recoverOverlap {
        overlapRecoveryPending := true;
      }
    }

    method ReleaseReconciliation() returns (released: bool)
      modifies this
      ensures View() == OnRelease(old(View()))
      ensures released ==> !reconciliationActive
      ensures !released ==> View() == old(View()) && (hasPendingHead || refreshHeadPending || overlapRecoveryPending)
    {
      released := false;
      if workerShutdown {
        reconciliationActive := false;
        released := true;
      } else if !hasPendingHead && !refreshHeadPending && !overlapRecoveryPending {
        reconciliationActive := false;
        released := true;
      }
    }

    method ShutdownReconciliationWorker()
      modifies this`workerShutdown, this`hasPendingHead, this`refreshHeadPending, this`overlapRecoveryPending
      ensures View() == OnShutdownWorker(old(View()))
    {
      workerShutdown := true;
      hasPendingHead, refreshHeadPending, overlapRecoveryPending := false, false, false;
    }

    /** Every job still queued is cancelled, in order. */
    method ShutdownDeliveryWorker() returns (cancelled: seq<Job>)
      modifies this
      ensures View() == OnShutdownDelivery(old(View()))
      ensures cancelled == old(historicalDeliveries) + old(liveDeliveries)
    {
      deliveryShutdown := true;
      cancelled := historicalDeliveries;
      historicalDeliveries := [];
      cancelled := cancelled + liveDeliveries;
      liveDeliveries := [];
    }
  }

  // ----- the threads at work on the state -----

  /** A step of the transport, or of stop and the destructor. */
  method PerformOutside(live: LiveState, m: Machine, c: Config, step: Step)
    requires live.View() == m.s && Enabled(m, step)
    requires !OfDelivery(step) && !OfReconciler(step) && !OfStarter(step)
    modifies live
    ensures live.View() == Next(c, m, step).s
  {
    match step
    case LiveLog(log, g) => var forward := live.HandleLiveLog(log, g);
    case Dispatch(i) => var queued := live.DispatchLog(m.arriving[i].log, true, m.arriving[i].generation);
    case LiveHead(block, g) => live.HandleLiveHead(block, g);
    case LiveError(gap, g) => live.HandleLiveError(gap, g);
    case Historical(log, g) => var queued := live.DispatchLog(log, false, g);
    case Stop => live.Stop();
    case Close => live.Stop();
  }

  method PerformStarter(live: LiveState, m: Machine, c: Config, step: Step)
    requires live.View() == m.s && Enabled(m, step) && OfStarter(step)
    modifies live
    ensures live.View() == Next(c, m, step).s
  {
    match step
    case StartLive(_) => var begun := live.BeginStartLive();
    case HeadFetched(_, head) => live.RecordHead(Confirmed(head, c.confirmations));
    case CaughtUp(_) =>
    case Drain(t) => var outcome := live.DrainLiveBuffer(m.starters[t].generation);
    case GapRecovered(t, head) => live.RecordDrained(Confirmed(head, c.confirmations), m.starters[t].generation);
    case AnnounceHead(t) => live.HandleLiveHead(m.starters[t].head, m.starters[t].generation);
    case Conclude(t) => var started := live.ConcludeStart(m.starters[t].generation);
    case AbortStart(_) => live.AbortStart();
  }

  /** A step of one of the two worker threads, and the job the delivery thread took in it. */
  method PerformWorkers(live: LiveState, m: Machine, c: Config, step: Step) returns (taken: seq<Job>)
    requires live.View() == m.s && Enabled(m, step) && (OfDelivery(step) || OfReconciler(step))
    modifies live
    ensures live.View() == Next(c, m, step).s
    ensures taken == if step.Pop? then [Next(c, m, step).delivery.job] else []
  {
    taken := [];
    match step
    case Pop =>
      var job := live.PopDelivery();
      taken := [job.value];
    case Returned =>
    case CallbackThrew =>
    case ScheduleRecovery => var scheduled := live.ScheduleOverlapRecovery(m.delivery.job.generation);
    case ShutdownDelivery => var cancelled := live.ShutdownDeliveryWorker();
    case Take => var head, from, refresh, recover := live.TakeReconciliation();
    case Reconciled(latest) =>
      live.RecordDurable(Confirmed(WorkHead(m.reconciler, latest), c.confirmations), m.reconciler.generation);
    case ReconcileFailed =>
      var active := live.ReportReconciliationFailure(m.reconciler.generation, m.reconciler.recover);
    case Release => var released := live.ReleaseReconciliation();
    case ShutdownWorker => live.ShutdownReconciliationWorker();
  }

  /** The class refines the protocol: the methods the threads call, in any interleaving, take the shared state
      through the states of that run, and what every run keeps holds of the object at its end: the gate, the handoff
      rules, and the order of both queues. handed lists the jobs the delivery thread took. */
  method RunThreads(c: Config, steps: seq<Step>) returns (live: LiveState, handed: seq<Job>)
    ensures fresh(live)
    ensures live.View() == Execute(c, INITIAL, steps).s
    ensures LiveGate(live.View()) && HandoffDiscipline(live.View())
    ensures live.overlapRecoveryPending && !live.workerShutdown && live.historicalDeliveries == [] ==>
      !CanPop(live.View())
    ensures var q := NotedAll(c, INITIAL, steps, NO_JOBS);
      && handed == q.handed
      && q.historicalIn == q.historicalOut + live.historicalDeliveries
      && q.liveIn == q.liveOut + live.liveDeliveries
  {
    hide Next, Enabled, LiveGate, HandoffDiscipline, Inv, Noted;
    live := new LiveState();
    handed := [];
    var m := INITIAL;
    ghost var q := NO_JOBS;
    for i := 0 to |steps|
      invariant fresh(live) && live.View() == m.s && m == Execute(c, INITIAL, steps[..i])
      invariant q == NotedAll(c, INITIAL, steps[..i], NO_JOBS) && handed == q.handed
    {
      var step := steps[i];
      assert steps[..i + 1] == steps[..i] + [step];
      RunAndStep(c, INITIAL, steps[..i], step, ANY);
      NotedAndStep(c, INITIAL, steps[..i], step, NO_JOBS);
      if Enabled(m, step) {
        var taken := [];
        if OfStarter(step) {
          PerformStarter(live, m, c, step);
        } else if OfDelivery(step) || OfReconciler(step) {
          taken := PerformWorkers(live, m, c, step);
        } else {
          PerformOutside(live, m, c, step);
        }
        NotedHands(c, m, step, q);
        handed := handed + taken;
        q := Noted(c, m, step, q);
        m := Next(c, m, step);
      }
    }
    assert steps[..|steps|] == steps;
    RunKeeps(c, steps);
    QueuesAreFirstInFirstOut(c, INITIAL, steps, NO_JOBS);
  }

  lemma RunKeeps(c: Config, steps: seq<Step>)
    ensures var s := Execute(c, INITIAL, steps).s;
      && LiveGate(s) && HandoffDiscipline(s)
      && (s.overlapRecovery && !s.workerShutdown && s.historical == [] ==> !CanPop(s))
  {
    InitialInv();
    EveryRunKeepsEveryLog(c, INITIAL, steps);
  }
}
