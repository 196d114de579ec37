/** What the live protocol guarantees over whole runs, and where a guarantee ends: a drain that outlives its
    generation, a start behind the destructor, a recovery retried on a confirmed head only; each with the run that
    shows it and the condition under which the step is safe. */
module LiveTheorems {
  import opened Wrappers
  import opened EvmLogs
  import opened CursorStore
  import opened Chain
  import opened Deliveries
  import opened GapWindow
  import opened LiveSections
  import opened LiveProtocol
  import opened LiveProofs
  import opened LiveLosses
  import opened LiveOrder

  /** The log left the pipeline unsettled, and nothing is scheduled or running that would repair it. */
  ghost predicate Unowed(m: Machine, log: Log) {
    && m.s.accepting
    && InPipeline(m, log) == 0
    && log !in m.book.settled
    && log in m.book.accepted
    && !RecoveryOwed(m)
    && m.book.drainRepair == [] && m.book.workerRepair == []
  }

  /** The states of all runs that obey the rule. */
  ghost predicate Reachable(c: Config, m: Machine, rule: Rule) {
    exists steps :: Obeys(rule, c, INITIAL, steps) && Execute(c, INITIAL, steps) == m
  }

  lemma {:induction false} RunAndStep(c: Config, m: Machine, steps: seq<Step>, step: Step, rule: Rule)
    ensures var end := Execute(c, m, steps);
      && Execute(c, m, steps + [step]) == (if Enabled(end, step) then Next(c, end, step) else end)
      && (Obeys(rule, c, m, steps) && Permitted(rule, end, step) ==> Obeys(rule, c, m, steps + [step]))
    decreases |steps|
  {
    hide Enabled, Next, Permitted;
    if steps == [] {
      assert steps + [step] == [step];
      assert [step][1..] == [];
    } else {
      assert (steps + [step])[1..] == steps[1..] + [step];
      RunAndStep(c, if Enabled(m, steps[0]) then Next(c, m, steps[0]) else m, steps[1..], step, rule);
    }
  }

  lemma ReachNext(c: Config, m: Machine, rule: Rule, step: Step)
    requires Reachable(c, m, rule) && Enabled(m, step) && Permitted(rule, m, step)
    ensures Reachable(c, Next(c, m, step), rule)
  {
    hide Enabled, Next, Permitted;
    var steps :| Obeys(rule, c, INITIAL, steps) && Execute(c, INITIAL, steps) == m;
    RunAndStep(c, INITIAL, steps, step, rule);
  }

  // one lemma for each step that the runs below take

  lemma ReachStartLive(c: Config, m: Machine, rule: Rule, t: nat)
    requires Reachable(c, m, rule) && t !in m.starters && !m.s.started && Permitted(rule, m, StartLive(t))
    ensures Reachable(c, StartCall(m, t), rule)
  {
    ReachNext(c, m, rule, StartLive(t));
  }

  lemma ReachHeadFetched(c: Config, m: Machine, rule: Rule, t: nat, head: nat)
    requires Reachable(c, m, rule) && t in m.starters && m.starters[t].Subscribing?
    ensures Reachable(c, BeginCatchUp(c, m, t, head), rule)
  {
    ReachNext(c, m, rule, HeadFetched(t, head));
  }

  lemma ReachCaughtUp(c: Config, m: Machine, rule: Rule, t: nat)
    requires Reachable(c, m, rule) && t in m.starters && m.starters[t].CatchingUp?
    ensures Reachable(c, EndCatchUp(m, t), rule)
  {
    ReachNext(c, m, rule, CaughtUp(t));
  }

  lemma ReachDrain(c: Config, m: Machine, rule: Rule, t: nat)
    requires Reachable(c, m, rule) && t in m.starters && m.starters[t].Draining?
    ensures Reachable(c, DrainOnce(m, t), rule)
  {
    ReachNext(c, m, rule, Drain(t));
  }

  lemma ReachConclude(c: Config, m: Machine, rule: Rule, t: nat)
    requires Reachable(c, m, rule) && t in m.starters && m.starters[t].Concluding?
    ensures Reachable(c, EndStart(m, t), rule)
  {
    ReachNext(c, m, rule, Conclude(t));
  }

  lemma ReachStop(c: Config, m: Machine, rule: Rule)
    requires Reachable(c, m, rule)
    ensures Reachable(c, Renewed(m, OnStop(m.s)), rule)
  {
    ReachNext(c, m, rule, Stop);
  }

  lemma ReachClose(c: Config, m: Machine, rule: Rule)
    requires Reachable(c, m, rule)
    ensures Reachable(c, Renewed(m, OnStop(m.s)).(closing := true), rule)
  {
    ReachNext(c, m, rule, Close);
  }

  lemma ReachLiveLog(c: Config, m: Machine, rule: Rule, log: Log, g: nat)
    requires Reachable(c, m, rule) && g <= m.s.generation
    ensures Reachable(c, AcceptLog(m, log, g), rule)
  {
    ReachNext(c, m, rule, LiveLog(log, g));
  }

  lemma ReachLiveHead(c: Config, m: Machine, rule: Rule, block: nat, g: nat)
    requires Reachable(c, m, rule) && g <= m.s.generation
    ensures Reachable(c, m.(s := OnLiveHead(m.s, block, g)), rule)
  {
    ReachNext(c, m, rule, LiveHead(block, g));
  }

  lemma ReachDispatch(c: Config, m: Machine, rule: Rule, i: nat)
    requires Reachable(c, m, rule) && i < |m.arriving|
    ensures Reachable(c, DispatchArrival(m, i), rule)
  {
    ReachNext(c, m, rule, Dispatch(i));
  }

  lemma ReachPop(c: Config, m: Machine, rule: Rule)
    requires Reachable(c, m, rule) && m.delivery.Idle? && CanPop(m.s)
    ensures Reachable(c, TakeJob(m), rule)
  {
    ReachNext(c, m, rule, Pop);
  }

  lemma ReachReturned(c: Config, m: Machine, rule: Rule)
    requires Reachable(c, m, rule) && m.delivery.Calling?
    ensures Reachable(c, FinishCallback(m), rule)
  {
    ReachNext(c, m, rule, Returned);
  }

  lemma ReachCallbackThrew(c: Config, m: Machine, rule: Rule)
    requires Reachable(c, m, rule) && m.delivery.Calling?
    ensures Reachable(c, FailCallback(m), rule)
  {
    ReachNext(c, m, rule, CallbackThrew);
  }

  lemma ReachScheduleRecovery(c: Config, m: Machine, rule: Rule)
    requires Reachable(c, m, rule) && m.delivery.Threw?
    ensures Reachable(c, OweRecovery(m), rule)
  {
    ReachNext(c, m, rule, ScheduleRecovery);
  }

  lemma ReachTake(c: Config, m: Machine, rule: Rule)
    requires Reachable(c, m, rule) && m.reconciler.Waiting? && CanTake(m.s)
    ensures Reachable(c, TakeWork(m), rule)
  {
    ReachNext(c, m, rule, Take);
  }

  lemma ReachReconciled(c: Config, m: Machine, rule: Rule, latest: nat)
    requires Reachable(c, m, rule) && m.reconciler.Working?
    ensures Reachable(c, FinishWork(c, m, latest), rule)
  {
    ReachNext(c, m, rule, Reconciled(latest));
  }

  lemma ReachReconcileFailed(c: Config, m: Machine, rule: Rule)
    requires Reachable(c, m, rule) && m.reconciler.Working?
    ensures Reachable(c, FailWork(m), rule)
  {
    ReachNext(c, m, rule, ReconcileFailed);
  }

  lemma ReachRelease(c: Config, m: Machine, rule: Rule)
    requires Reachable(c, m, rule) && m.reconciler.Finishing?
    ensures Reachable(c, m.(s := OnRelease(m.s), reconciler := Waiting), rule)
  {
    ReachNext(c, m, rule, Release);
  }

  lemma ReachShutdownDelivery(c: Config, m: Machine, rule: Rule)
    requires Reachable(c, m, rule) && m.closing
    ensures Reachable(c, CancelDeliveries(m), rule)
  {
    ReachNext(c, m, rule, ShutdownDelivery);
  }

  lemma ReachShutdownWorker(c: Config, m: Machine, rule: Rule)
    requires Reachable(c, m, rule) && m.closing
    ensures Reachable(c, m.(s := OnShutdownWorker(m.s)), rule)
  {
    ReachNext(c, m, rule, ShutdownWorker);
  }

  lemma InitialReachable(c: Config, rule: Rule)
    ensures Reachable(c, INITIAL, rule)
  {
    assert Obeys(rule, c, INITIAL, []) && Execute(c, INITIAL, []) == INITIAL;
  }

  lemma InitialInv()
    ensures Inv(INITIAL) && SerialDiscipline(INITIAL) && LossesAreOwed(INITIAL)
  {
  }

  lemma ReachableInv(c: Config, m: Machine, rule: Rule)
    requires Reachable(c, m, rule)
    ensures Inv(m)
  {
    InitialInv();
    hide Inv;
    var steps :| Obeys(rule, c, INITIAL, steps) && Execute(c, INITIAL, steps) == m;
    EveryRunKeepsEveryLog(c, INITIAL, steps);
  }

  /** Every run, however its calls overlap, accounts for every copy of every accepted log: on its way, settled,
      lost, in the hands of a running recovery, or outside the blocks a completed recovery scanned. */
  lemma AcceptedLogsAreAccountedFor(c: Config, m: Machine, log: Log)
    requires Reachable(c, m, ANY)
    ensures Times(m.book.accepted, log) == InPipeline(m, log) + Times(m.book.settled, log) + Dropped(m.book, log)
    ensures log in m.book.drainRepair ==> DrainRecoveryRunning(m)
    ensures log in m.book.workerRepair ==> WorkerRecoveryRunning(m)
  {
    ReachableInv(c, m, ANY);
    assert BalancedFor(m, log);
  }

  /** No silent loss, for every run: a recovery is owed for every lost log in all its states exactly when all its
      steps are safe, which they are when calls of start_live follow one another and none begins after the destructor;
      a log that is then neither on its way nor settled nor owed is outside the blocks a completed recovery
      scanned. */
  lemma LostLogsAreOwed(c: Config, steps: seq<Step>, log: Log)
    ensures AlwaysOwed(c, INITIAL, steps) <==> AllSafe(c, INITIAL, steps)
    ensures Obeys(IN_TURN, c, INITIAL, steps) ==> AllSafe(c, INITIAL, steps)
    ensures var m := Execute(c, INITIAL, steps);
      AllSafe(c, INITIAL, steps) ==>
        && (m.s.accepting && log in m.book.lost ==> RecoveryOwed(m))
        && (Unowed(m, log) ==> log in m.book.outside)
  {
    InitialInv();
    RunKeepsLossesOwedIff(c, INITIAL, steps);
    var m := Execute(c, INITIAL, steps);
    if Obeys(IN_TURN, c, INITIAL, steps) {
      SerialRunsAreSafe(c, INITIAL, steps);
    }
    if AllSafe(c, INITIAL, steps) {
      OwedAtTheEnd(c, INITIAL, steps);
      EveryRunKeepsEveryLog(c, INITIAL, steps);
      assert BalancedFor(m, log);
    }
  }

  /** In every run: while an overlap recovery is owed no live job reaches the callback, whatever failed before; a
      pending handoff gap means an empty buffer; and a buffer that took a log or lost one belongs to a call of
      start_live that is still running and will drain it. */
  lemma LiveJobsWaitForRecovery(c: Config, m: Machine)
    requires Reachable(c, m, ANY)
    ensures m.s.overlapRecovery && !m.s.workerShutdown && Enabled(m, Pop) ==>
      var m' := Next(c, m, Pop);
      [m'.delivery.job] + m'.s.historical == m.s.historical && m'.s.live == m.s.live
    ensures m.s.handoffGap ==> m.s.buffered == [] && m.s.buffering
    ensures m.s.buffered != [] || m.s.handoffGap ==> m.s.buffering && BufferHasOwner(m)
    ensures m.s.overlapRecovery ==> m.s.pendingGeneration == m.s.generation && !m.s.buffering
  {
    ReachableInv(c, m, ANY);
    if m.delivery.Idle? {
      PopTakesFirst(c, m);
    }
    hide Next, Reachable;
  }

  // ----- a drain that outlives its generation -----

  /** One round of drain_live_buffer keeps the losses owed exactly when it drains its own generation, or finds
      neither a buffered log nor a gap to repair, or a failed callback is about to schedule a recovery. */
  lemma DrainKeepsLossesOwedIff(c: Config, m: Machine, t: nat)
    requires LossesAreOwed(m) && HandoffDiscipline(m.s) && Enabled(m, Drain(t)) && m.s.buffering
    ensures var m' := DrainOnce(m, t);
      (m'.book.lost != [] ==> RecoveryOwed(m'))
      <==>
      (|| m.starters[t].generation == m.s.generation
       || (m.s.buffered == [] && (m.s.handoffGap ==> m.book.lost == []))
       || CallbackFailed(m))
  {
    StarterLosses(c, m, Drain(t));
  }

  const SAMPLE_CONFIG := Config(0, 12, 64)
  const SAMPLE_LOG := Log(Some(100), "0xb", "0xt", Some(0), Some(0), false, "")

  const STOLEN := [Job(SAMPLE_LOG, true, 1)]
  const LOST_ONE := EMPTY_LEDGER.(accepted := [SAMPLE_LOG], lost := [SAMPLE_LOG])

  /** A call of start_live that has caught up to block 99, with the given rule and before or behind the destructor. */
  lemma StartDraining(g: nat, closing: bool, rule: Rule) returns (m: Machine)
    requires Reachable(SAMPLE_CONFIG, INITIAL.(s := FRESH.(generation := g), closing := closing), rule)
    requires rule.early ==> !closing
    ensures Reachable(SAMPLE_CONFIG, m, rule)
    ensures m == INITIAL.(s := FRESH.(generation := g + 1, accepting := true, buffering := true, durableThrough := 87),
                          starters := map[0 := Draining(g + 1)], closing := closing)
  {
    var c := SAMPLE_CONFIG;
    var idle := INITIAL.(s := FRESH.(generation := g), closing := closing);
    ReachStartLive(c, idle, rule, 0);
    var m0 := StartCall(idle, 0);
    ReachHeadFetched(c, m0, rule, 0, 99);
    var m1 := BeginCatchUp(c, m0, 0, 99);
    ReachCaughtUp(c, m1, rule, 0);
    m := EndCatchUp(m1, 0);
  }

  /** The call goes through; nothing was buffered. */
  lemma QuietStart(g: nat, closing: bool, rule: Rule) returns (m: Machine)
    requires Reachable(SAMPLE_CONFIG, INITIAL.(s := FRESH.(generation := g), closing := closing), rule)
    requires rule.early ==> !closing
    ensures Reachable(SAMPLE_CONFIG, m, rule)
    ensures m == INITIAL.(s := FRESH.(generation := g + 1, accepting := true, started := true, durableThrough := 87),
                          closing := closing)
  {
    var c := SAMPLE_CONFIG;
    var m2 := StartDraining(g, closing, rule);
    ReachDrain(c, m2, rule, 0);
    var m3 := DrainOnce(m2, 0);
    ReachConclude(c, m3, rule, 0);
    m := EndStart(m3, 0);
    assert m.starters == map[];
  }

  /** The first call of start_live is about to drain when stop and a second call of start_live run. */
  lemma SecondStartWhileDraining() returns (m: Machine)
    ensures Reachable(SAMPLE_CONFIG, m, EARLY)
    ensures m == INITIAL.(s := FRESH.(generation := 3, accepting := true, buffering := true, durableThrough := 87),
                          starters := map[0 := Draining(1), 1 := Subscribing(3)])
  {
    var c := SAMPLE_CONFIG;
    InitialReachable(c, EARLY);
    var m2 := StartDraining(0, false, EARLY);
    ReachStop(c, m2, EARLY);
    var m3 := Renewed(m2, OnStop(m2.s));
    ReachStartLive(c, m3, EARLY, 1);
    m := StartCall(m3, 1);
  }

  /** The stale drain takes the log the new generation buffered and stamps it with its own generation. */
  lemma StaleDrainStealsBuffer() returns (m: Machine)
    ensures Reachable(SAMPLE_CONFIG, m, EARLY)
    ensures m == INITIAL.(s := FRESH.(generation := 3, accepting := true, buffering := true, durableThrough := 87,
                                      historical := STOLEN),
                          starters := map[0 := Draining(1), 1 := Subscribing(3)], book := LOST_ONE)
  {
    var c := SAMPLE_CONFIG;
    var m4 := SecondStartWhileDraining();
    ReachLiveLog(c, m4, EARLY, SAMPLE_LOG, 3);
    var m5 := AcceptLog(m4, SAMPLE_LOG, 3);
    assert m5.s.buffered == [SAMPLE_LOG];
    ReachDrain(c, m5, EARLY, 0);
    m := DrainOnce(m5, 0);
    assert Stamped([SAMPLE_LOG], 1) == STOLEN;
  }

  lemma StolenLogIsPopped() returns (m: Machine)
    ensures Reachable(SAMPLE_CONFIG, m, EARLY)
    ensures m == INITIAL.(s := FRESH.(generation := 3, accepting := true, buffering := true, durableThrough := 87),
                          starters := map[0 := Draining(1), 1 := Subscribing(3)], book := LOST_ONE)
  {
    var c := SAMPLE_CONFIG;
    var m6 := StaleDrainStealsBuffer();
    ReachPop(c, m6, EARLY);
    var m7 := TakeJob(m6);
    ReachReturned(c, m7, EARLY);
    m := FinishCallback(m7);
    assert m.s.historical == [] && m.book == LOST_ONE;
  }

  lemma StolenLogIsDiscarded() returns (m: Machine)
    ensures Reachable(SAMPLE_CONFIG, m, EARLY)
    ensures m == INITIAL.(s := FRESH.(generation := 3, accepting := true, durableThrough := 87),
                          starters := map[1 := Subscribing(3)], book := LOST_ONE)
  {
    var c := SAMPLE_CONFIG;
    var m8 := StolenLogIsPopped();
    ReachDrain(c, m8, EARLY, 0);
    var m9 := DrainOnce(m8, 0);
    ReachConclude(c, m9, EARLY, 0);
    m := EndStart(m9, 0);
    assert m.starters == map[1 := Subscribing(3)];
  }

  /** start_live, stop and a second start_live while the first call still drains: the log that the new generation
      buffered is discarded, no recovery is owed for it, and the second start_live reports success. The log is late,
      not gone: it lies above the head the second call caught up to and above the durable block, and the confirmed
      catch-up of a later head scans it (Processes.LaterHeads). */
  lemma OverlappingStartsOweNothing() returns (m: Machine)
    ensures Reachable(SAMPLE_CONFIG, m, EARLY)
    ensures m.s.started && m.starters == map[] && Unowed(m, SAMPLE_LOG) && m.book.outside == []
    ensures m.s.durableThrough == 87 < BlockOf(SAMPLE_LOG)
  {
    var c := SAMPLE_CONFIG;
    var m10 := StolenLogIsDiscarded();
    ReachHeadFetched(c, m10, EARLY, 1, 99);
    var m11 := BeginCatchUp(c, m10, 1, 99);
    ReachCaughtUp(c, m11, EARLY, 1);
    var m12 := EndCatchUp(m11, 1);
    ReachDrain(c, m12, EARLY, 1);
    var m13 := DrainOnce(m12, 1);
    ReachConclude(c, m13, EARLY, 1);
    m := EndStart(m13, 1);
    assert m.starters == map[];
  }

  // ----- a start_live that reaches its first section behind the destructor -----

  const LATE_LOG := SAMPLE_LOG.(logIndex := Some(1))
  const LATE_START := FRESH.(generation := 2, accepting := true, started := true, durableThrough := 87)

  /** The destructor has stopped the indexer when start_live begins; it goes through all the same. */
  lemma StartBehindDestructor() returns (m: Machine)
    ensures Reachable(SAMPLE_CONFIG, m, ALONE)
    ensures m == INITIAL.(s := LATE_START, closing := true)
  {
    var c := SAMPLE_CONFIG;
    InitialReachable(c, ALONE);
    ReachClose(c, INITIAL, ALONE);
    m := QuietStart(1, true, ALONE);
  }

  /** A start_live behind the destructor, with no other call: delivery has ended when the live log arrives, the log is
      dropped, and no recovery is owed for it. */
  lemma LateStartOwesNothing() returns (m: Machine)
    ensures Reachable(SAMPLE_CONFIG, m, ALONE)
    ensures m.starters == map[] && Unowed(m, SAMPLE_LOG) && m.book.outside == []
    ensures m.s.durableThrough == 87 < BlockOf(SAMPLE_LOG)
  {
    var c := SAMPLE_CONFIG;
    var m5 := StartBehindDestructor();
    ReachShutdownDelivery(c, m5, ALONE);
    var m6 := CancelDeliveries(m5);
    ReachLiveLog(c, m6, ALONE, SAMPLE_LOG, 2);
    var m7 := AcceptLog(m6, SAMPLE_LOG, 2);
    ReachDispatch(c, m7, ALONE, 0);
    m := DispatchArrival(m7, 0);
    assert m.arriving == [] && m.book.lost == [SAMPLE_LOG];
  }

  lemma TwoLateLogsQueued() returns (m: Machine)
    ensures Reachable(SAMPLE_CONFIG, m, ALONE)
    ensures m == INITIAL.(s := LATE_START.(live := [Job(SAMPLE_LOG, true, 2), Job(LATE_LOG, true, 2)]), closing := true,
                          book := EMPTY_LEDGER.(accepted := [SAMPLE_LOG, LATE_LOG]))
  {
    var c := SAMPLE_CONFIG;
    var m5 := StartBehindDestructor();
    ReachLiveLog(c, m5, ALONE, SAMPLE_LOG, 2);
    var m6 := AcceptLog(m5, SAMPLE_LOG, 2);
    ReachLiveLog(c, m6, ALONE, LATE_LOG, 2);
    var m7 := AcceptLog(m6, LATE_LOG, 2);
    assert m7.arriving == [Arrival(SAMPLE_LOG, 2), Arrival(LATE_LOG, 2)];
    ReachDispatch(c, m7, ALONE, 0);
    var m8 := DispatchArrival(m7, 0);
    assert m8.arriving == [Arrival(LATE_LOG, 2)];
    ReachDispatch(c, m8, ALONE, 0);
    m := DispatchArrival(m8, 0);
    assert m.s.live == [Job(SAMPLE_LOG, true, 2), Job(LATE_LOG, true, 2)] && m.arriving == [];
    assert m.book.lost == [] && m.book.accepted == [SAMPLE_LOG, LATE_LOG];
  }

  /** Two live logs arrive and the callback throws on the first. */
  lemma LateCallbackThrows() returns (m: Machine)
    ensures Reachable(SAMPLE_CONFIG, m, ALONE)
    ensures m.s == LATE_START.(live := [Job(LATE_LOG, true, 2)]) && m.delivery == Threw(Job(SAMPLE_LOG, true, 2))
    ensures m.reconciler == Waiting && m.closing
  {
    var c := SAMPLE_CONFIG;
    var m9 := TwoLateLogsQueued();
    ReachPop(c, m9, ALONE);
    var m10 := TakeJob(m9);
    assert m10.s.live == [Job(LATE_LOG, true, 2)];
    ReachCallbackThrew(c, m10, ALONE);
    m := FailCallback(m10);
  }

  const LATE_LIVE := LATE_START.(live := [Job(LATE_LOG, true, 2)], pendingGeneration := 2, reconciliationActive := true)

  lemma LateRecoveryTaken() returns (m: Machine)
    ensures Reachable(SAMPLE_CONFIG, m, ALONE)
    ensures m.s == LATE_LIVE && m.reconciler == Working(0, 2, true, true) && m.closing && m.delivery.Idle?
  {
    var c := SAMPLE_CONFIG;
    var m11 := LateCallbackThrows();
    ReachScheduleRecovery(c, m11, ALONE);
    var m12 := OweRecovery(m11);
    ReachTake(c, m12, ALONE);
    m := TakeWork(m12);
  }

  /** The worker is shut down while it works. */
  lemma ShutdownWhileRecovering() returns (m: Machine)
    ensures Reachable(SAMPLE_CONFIG, m, ALONE)
    ensures m.s == LATE_LIVE.(workerShutdown := true) && m.reconciler == Working(0, 2, true, true)
    ensures m.delivery.Idle?
  {
    var m13 := LateRecoveryTaken();
    ReachShutdownWorker(SAMPLE_CONFIG, m13, ALONE);
    m := m13.(s := OnShutdownWorker(m13.s));
  }

  /** The gate holds until the worker is shut down and no longer: its recovery fails after the shutdown, the worker
      releases the deliveries on its way out, and a live job leaves the queue although the recovery is owed. */
  lemma WorkerShutdownOpensGate() returns (m: Machine)
    ensures Reachable(SAMPLE_CONFIG, m, ALONE)
    ensures m.s.accepting && m.s.overlapRecovery && m.s.workerShutdown
    ensures Enabled(m, Pop) && Next(SAMPLE_CONFIG, m, Pop).delivery.job == Job(LATE_LOG, true, 2)
  {
    var c := SAMPLE_CONFIG;
    var m14 := ShutdownWhileRecovering();
    ReachReconcileFailed(c, m14, ALONE);
    var m15 := FailWork(m14);
    ReachRelease(c, m15, ALONE);
    m := m15.(s := OnRelease(m15.s), reconciler := Waiting);
  }

  // ----- a recovery that is retried on a confirmed head only -----

  /** The i-th step of the run fails an overlap recovery of the generation. */
  ghost predicate FailsAt(c: Config, steps: seq<Step>, i: nat, generation: nat) {
    && i < |steps| && steps[i].ReconcileFailed?
    && var m := Execute(c, INITIAL, steps[..i]);
       m.reconciler.Working? && m.reconciler.generation == generation && m.reconciler.recover
  }

  lemma {:induction false} FailuresHappened(c: Config, steps: seq<Step>, generation: nat)
    requires generation in Execute(c, INITIAL, steps).failures
    ensures exists i: nat :: FailsAt(c, steps, i, generation)
    decreases |steps|
  {
    if steps != [] {
      var front, last := steps[..|steps| - 1], steps[|steps| - 1];
      assert steps == front + [last];
      RunAndStep(c, INITIAL, front, last, ANY);
      var m := Execute(c, INITIAL, front);
      if generation in m.failures {
        FailuresHappened(c, front, generation);
        var i: nat :| FailsAt(c, front, i, generation);
        assert front[..i] == steps[..i];
        assert FailsAt(c, steps, i, generation);
      } else {
        FailureIsNew(c, m, last, generation);
        assert FailsAt(c, steps, |front|, generation);
      }
    }
  }

  lemma FailureIsNew(c: Config, m: Machine, step: Step, generation: nat)
    requires generation !in m.failures && Enabled(m, step) && generation in Next(c, m, step).failures
    ensures step.ReconcileFailed? && m.reconciler.generation == generation && m.reconciler.recover
  {
  }

  /** In every run, an overlap recovery that does not refresh the head is the retry of one that failed in the same
      generation. */
  lemma ConfirmedRetryFollowsFailure(c: Config, steps: seq<Step>)
    ensures var w := Execute(c, INITIAL, steps).reconciler;
      w.Working? && w.recover && !w.refresh ==> exists i: nat :: FailsAt(c, steps, i, w.generation)
  {
    var m := Execute(c, INITIAL, steps);
    InitialInv();
    EveryRunKeepsEveryLog(c, INITIAL, steps);
    if m.reconciler.Working? && m.reconciler.recover && !m.reconciler.refresh {
      FailuresHappened(c, steps, m.reconciler.generation);
    }
  }

  lemma {:induction false} ScannedTimes(c: Config, target: nat, logs: seq<Log>, log: Log)
    ensures Times(Scanned(c, target, logs), log) == if InWindow(c, target, log) then Times(logs, log) else 0
  {
    if logs != [] {
      ScannedTimes(c, target, logs[1..], log);
      assert logs == [logs[0]] + logs[1..];
      TimesAppend([logs[0]], logs[1..], log);
      TimesAppend([logs[0]], Scanned(c, target, logs[1..]), log);
    }
  }

  /** How many copies of the log a step settles. */
  function Settles(before: Machine, after: Machine, log: Log): int {
    Times(after.book.settled, log) - Times(before.book.settled, log)
  }

  lemma WorkSettles(c: Config, m: Machine, latest: nat, log: Log)
    requires WorkerRecoveryRunning(m) && m.s.accepting
    ensures Settles(m, FinishWork(c, m, latest), log)
            == if InWindow(c, WorkTarget(c, m.reconciler, latest), log) then Times(m.book.workerRepair, log) else 0
  {
    var target := WorkTarget(c, m.reconciler, latest);
    ScannedTimes(c, target, m.book.workerRepair, log);
    TimesAppend(m.book.settled, Scanned(c, target, m.book.workerRepair), log);
  }

  /** A completed overlap recovery, with what its gap reconciliation leaves (Indexing.Indexer.ReconcileGap): a
      dropped canonical log counts as settled exactly when the reconciliation handed it to the consumer, and that is
      when its block lies in the window that ends at the later of the announced and the fetched head after a refresh,
      and at the last confirmed block of the announced head without one. For a log that is not yet confirmed, within
      the recovery window of the head, that is so exactly when the recovery refreshed the head. */
  lemma RecoverySettlesIff(c: Config, m: Machine, latest: nat, log: Log, chain: Blocks, numberOf: string -> nat,
                           held: set<Identity>, start: seq<Event>, now: set<Identity>, trace: seq<Event>)
    requires WorkerRecoveryRunning(m) && m.s.accepting && log in m.book.workerRepair
    requires WellFormed(chain, numberOf) && log in chain(BlockOf(log)) && IdsOf(log) !! held
    requires var target := WorkTarget(c, m.reconciler, latest);
      GapRepaired(held, start, now, trace, chain, numberOf, WindowStart(target, c.lookback, c.startBlock), target)
    ensures var settled := Settles(m, FinishWork(c, m, latest), log) > 0;
      var head := WorkHead(m.reconciler, latest);
      && (settled <==> NetOf(trace, log) == NetOf(start, log) + 1)
      && (!settled <==> NetOf(trace, log) == NetOf(start, log))
      && (WindowStart(head, c.lookback, c.startBlock) <= BlockOf(log) <= head
          && Confirmed(head, c.confirmations) < BlockOf(log) ==>
            (settled <==> m.reconciler.refresh))
    ensures var w := m.reconciler;
      var reach := if !w.refresh then Confirmed(w.head, c.confirmations)
                   else if w.head < latest then latest else w.head;
      Settles(m, FinishWork(c, m, latest), log) > 0
      <==> WindowStart(reach, c.lookback, c.startBlock) <= BlockOf(log) <= reach
  {
    var target := WorkTarget(c, m.reconciler, latest);
    WorkSettles(c, m, latest, log);
    assert Times(m.book.workerRepair, log) > 0;
    RepairReaches(held, start, now, trace, chain, numberOf, WindowStart(target, c.lookback, c.startBlock), target, log);
  }

  /** The recovery inside the handoff always goes up to the head: it settles a dropped canonical log exactly when it
      hands it to the consumer, which is when the head has reached its block and the window has not left it. */
  lemma HandoffRecoverySettlesIff(c: Config, m: Machine, t: nat, head: nat, log: Log, chain: Blocks,
                                  numberOf: string -> nat, held: set<Identity>, start: seq<Event>,
                                  now: set<Identity>, trace: seq<Event>)
    requires Enabled(m, GapRecovered(t, head)) && m.starters[t].generation == m.s.generation
    requires log in m.book.drainRepair && WellFormed(chain, numberOf) && log in chain(BlockOf(log))
    requires IdsOf(log) !! held
    requires GapRepaired(held, start, now, trace, chain, numberOf, WindowStart(head, c.lookback, c.startBlock), head)
    ensures var settled := Settles(m, FinishGapRecovery(c, m, t, head), log) > 0;
      && (settled <==> NetOf(trace, log) == NetOf(start, log) + 1)
      && (!settled <==> NetOf(trace, log) == NetOf(start, log))
      && (settled <==> WindowStart(head, c.lookback, c.startBlock) <= BlockOf(log) <= head)
  {
    ScannedTimes(c, head, m.book.drainRepair, log);
    TimesAppend(m.book.settled, Scanned(c, head, m.book.drainRepair), log);
    assert Times(m.book.drainRepair, log) > 0;
    RepairReaches(held, start, now, trace, chain, numberOf, WindowStart(head, c.lookback, c.startBlock), head, log);
  }

  lemma LiveAfterStart() returns (m: Machine)
    ensures Reachable(SAMPLE_CONFIG, m, IN_TURN)
    ensures m == INITIAL.(s := FRESH.(generation := 1, accepting := true, started := true, durableThrough := 87))
  {
    InitialReachable(SAMPLE_CONFIG, IN_TURN);
    m := QuietStart(0, false, IN_TURN);
  }

  lemma UnconfirmedLogQueued() returns (m: Machine)
    ensures Reachable(SAMPLE_CONFIG, m, IN_TURN)
    ensures m == INITIAL.(s := FRESH.(generation := 1, accepting := true, started := true, durableThrough := 87,
                                      live := [Job(SAMPLE_LOG, true, 1)]),
                          book := EMPTY_LEDGER.(accepted := [SAMPLE_LOG]))
  {
    var c := SAMPLE_CONFIG;
    var m4 := LiveAfterStart();
    ReachLiveLog(c, m4, IN_TURN, SAMPLE_LOG, 1);
    var m5 := AcceptLog(m4, SAMPLE_LOG, 1);
    ReachDispatch(c, m5, IN_TURN, 0);
    m := DispatchArrival(m5, 0);
    assert m.arriving == [] && m.s.live == [Job(SAMPLE_LOG, true, 1)] && m.book.lost == [];
  }

  lemma CallbackFailsOnUnconfirmedLog() returns (m: Machine)
    ensures Reachable(SAMPLE_CONFIG, m, IN_TURN)
    ensures m == INITIAL.(s := FRESH.(generation := 1, accepting := true, started := true, durableThrough := 87),
                          delivery := Threw(Job(SAMPLE_LOG, true, 1)), book := LOST_ONE)
  {
    var c := SAMPLE_CONFIG;
    var m6 := UnconfirmedLogQueued();
    ReachPop(c, m6, IN_TURN);
    var m7 := TakeJob(m6);
    assert m7.s.live == [];
    ReachCallbackThrew(c, m7, IN_TURN);
    m := FailCallback(m7);
    assert m.book.lost == [SAMPLE_LOG];
  }

  /** The failure report restores the overlap flag but not the head refresh. */
  lemma FailedRecoveryKeepsGateShut() returns (m: Machine)
    ensures Reachable(SAMPLE_CONFIG, m, IN_TURN)
    ensures m == INITIAL.(s := FRESH.(generation := 1, accepting := true, started := true, durableThrough := 87,
                                      pendingGeneration := 1,
                                      overlapRecovery := true, reconciliationActive := true),
                          failures := {1}, book := LOST_ONE)
  {
    var c := SAMPLE_CONFIG;
    var m8 := CallbackFailsOnUnconfirmedLog();
    ReachScheduleRecovery(c, m8, IN_TURN);
    var m9 := OweRecovery(m8);
    ReachTake(c, m9, IN_TURN);
    var m10 := TakeWork(m9);
    assert m10.book.workerRepair == [SAMPLE_LOG];
    ReachReconcileFailed(c, m10, IN_TURN);
    var m11 := FailWork(m10);
    assert m11.book.lost == [SAMPLE_LOG];
    ReachRelease(c, m11, IN_TURN);
    m := m11.(s := OnRelease(m11.s), reconciler := Waiting);
  }

  /** A plain new head takes the repair over, without a refresh. */
  lemma PlainHeadTakesRetry() returns (m: Machine)
    ensures Reachable(SAMPLE_CONFIG, m, IN_TURN)
    ensures m == INITIAL.(s := FRESH.(generation := 1, accepting := true, started := true, durableThrough := 87,
                                      pendingGeneration := 1,
                                      reconciliationActive := true),
                          reconciler := Working(100, 1, false, true), failures := {1},
                          book := LOST_ONE.(lost := [], workerRepair := [SAMPLE_LOG]))
  {
    var c := SAMPLE_CONFIG;
    var m12 := FailedRecoveryKeepsGateShut();
    ReachLiveHead(c, m12, IN_TURN, 100, 1);
    var m13 := m12.(s := OnLiveHead(m12.s, 100, 1));
    ReachTake(c, m13, IN_TURN);
    m := TakeWork(m13);
    assert m.book.workerRepair == [SAMPLE_LOG];
  }

  /** The callback throws on an unconfirmed log, the recovery it schedules fails, and a new head retries it: the
      retry scans confirmed blocks only and ends, leaving the log behind with nothing owed. It is not gone for
      good: its block is still above the durable frontier, which the catch-up of later heads has to cross. */
  lemma ConfirmedRetryLeavesALog() returns (m: Machine)
    ensures Reachable(SAMPLE_CONFIG, m, IN_TURN)
    ensures Unowed(m, SAMPLE_LOG) && m.book.outside == [SAMPLE_LOG]
    ensures !m.s.reconciliationActive && m.s.durableThrough == 88 < BlockOf(SAMPLE_LOG)
  {
    var c := SAMPLE_CONFIG;
    var m14 := PlainHeadTakesRetry();
    ReachReconciled(c, m14, IN_TURN, 100);
    var m15 := FinishWork(c, m14, 100);
    assert Unscanned(c, 88, [SAMPLE_LOG]) == [SAMPLE_LOG] && Scanned(c, 88, [SAMPLE_LOG]) == [];
    ReachRelease(c, m15, IN_TURN);
    m := m15.(s := OnRelease(m15.s), reconciler := Waiting);
  }

  // ----- a gate that stays closed -----

  /** In every run: a live job that waits, with both threads at rest, can move neither itself nor by work of the
      reconciliation thread exactly when the gate is closed and nothing asks that thread to open it. */
  lemma LiveJobStaysIff(c: Config, m: Machine)
    requires Reachable(c, m, ANY) && m.s.live != [] && m.s.historical == [] && !m.s.deliveryShutdown
    requires m.delivery.Idle? && m.reconciler.Waiting?
    ensures !Enabled(m, Pop) && !Enabled(m, Take) <==>
      if m.s.workerShutdown then m.s.reconciliationActive || m.s.refreshHead
      else m.s.reconciliationActive && !m.s.refreshHead && !m.s.hasPendingHead
  {
    ReachableInv(c, m, ANY);
    assert HandoffDiscipline(m.s);
    hide Reachable, Inv, Next;
  }

  const CLOSED := FRESH.(durableThrough := 87, reconciliationActive := true, pendingGeneration := 1)

  /** The worker has finished a head while another one waits; the gate stays closed for that one. */
  lemma SecondHeadWaits() returns (m: Machine)
    ensures Reachable(SAMPLE_CONFIG, m, IN_TURN)
    ensures m == INITIAL.(s := CLOSED.(generation := 1, accepting := true, started := true, durableThrough := 88,
                                       hasPendingHead := true, pendingHead := 101))
  {
    var c := SAMPLE_CONFIG;
    InitialReachable(c, IN_TURN);
    var m0 := QuietStart(0, false, IN_TURN);
    ReachLiveHead(c, m0, IN_TURN, 100, 1);
    var m1 := m0.(s := OnLiveHead(m0.s, 100, 1));
    ReachTake(c, m1, IN_TURN);
    var m2 := TakeWork(m1);
    ReachLiveHead(c, m2, IN_TURN, 101, 1);
    var m3 := m2.(s := OnLiveHead(m2.s, 101, 1));
    ReachReconciled(c, m3, IN_TURN, 0);
    var m4 := FinishWork(c, m3, 0);
    ReachRelease(c, m4, IN_TURN);
    m := m4.(s := OnRelease(m4.s), reconciler := Waiting);
    assert m.book == EMPTY_LEDGER;
  }

  lemma StoppedWithGateClosed() returns (m: Machine)
    ensures Reachable(SAMPLE_CONFIG, m, IN_TURN)
    ensures m == INITIAL.(s := CLOSED.(generation := 3, accepting := true, buffering := true),
                          starters := map[0 := Draining(3)])
  {
    var c := SAMPLE_CONFIG;
    var m5 := SecondHeadWaits();
    ReachStop(c, m5, IN_TURN);
    var m6 := Renewed(m5, OnStop(m5.s));
    ReachStartLive(c, m6, IN_TURN, 0);
    var m7 := StartCall(m6, 0);
    ReachHeadFetched(c, m7, IN_TURN, 0, 99);
    var m8 := BeginCatchUp(c, m7, 0, 99);
    ReachCaughtUp(c, m8, IN_TURN, 0);
    m := EndCatchUp(m8, 0);
  }

  lemma RestartedWithGateClosed() returns (m: Machine)
    ensures Reachable(SAMPLE_CONFIG, m, IN_TURN)
    ensures m == INITIAL.(s := CLOSED.(generation := 3, accepting := true, started := true))
  {
    var c := SAMPLE_CONFIG;
    var m9 := StoppedWithGateClosed();
    ReachDrain(c, m9, IN_TURN, 0);
    var m10 := DrainOnce(m9, 0);
    ReachConclude(c, m10, IN_TURN, 0);
    m := EndStart(m10, 0);
    assert m.starters == map[];
  }

  lemma LogBehindClosedGate() returns (m: Machine)
    ensures Reachable(SAMPLE_CONFIG, m, IN_TURN)
    ensures m == INITIAL.(s := CLOSED.(generation := 3, accepting := true, started := true,
                                       live := [Job(SAMPLE_LOG, true, 3)]),
                          book := EMPTY_LEDGER.(accepted := [SAMPLE_LOG]))
  {
    var c := SAMPLE_CONFIG;
    var m11 := RestartedWithGateClosed();
    ReachLiveLog(c, m11, IN_TURN, SAMPLE_LOG, 3);
    var m12 := AcceptLog(m11, SAMPLE_LOG, 3);
    ReachDispatch(c, m12, IN_TURN, 0);
    m := DispatchArrival(m12, 0);
    assert m.s.live == [Job(SAMPLE_LOG, true, 3)] && m.arriving == [] && m.book.lost == [];
  }

  /** stop while a head waits, and start_live again: the head is forgotten, but the gate it kept closed stays closed.
      A live log of the new subscription waits, with no recovery owed, until the next head is announced. */
  lemma GateStaysClosed() returns (m: Machine)
    ensures Reachable(SAMPLE_CONFIG, m, IN_TURN)
    ensures m.s.started && m.starters == map[] && m.s.live == [Job(SAMPLE_LOG, true, 3)] && m.book.lost == []
    ensures m.delivery.Idle? && m.reconciler.Waiting? && !RecoveryOwed(m)
    ensures !Enabled(m, Pop) && !Enabled(m, Take)
  {
    hide Reachable, Obeys;
    m := LogBehindClosedGate();
  }
}
