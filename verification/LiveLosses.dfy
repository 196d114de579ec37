/** When a lost live log has a recovery owed: exactly which steps can break that, exactly which runs keep it, and that
    the runs whose calls of start_live follow one another and end before the destructor begins are among them. */
module LiveLosses {
  import opened Wrappers
  import opened EvmLogs
  import opened LiveSections
  import opened LiveProtocol
  import opened LiveProofs

  // ----- one step -----

  lemma TransportLosses(c: Config, m: Machine, step: Step)
    requires HandoffDiscipline(m.s) && LossesAreOwed(m) && Enabled(m, step) && OfTransport(step)
    ensures LossesAreOwed(Next(c, m, step)) <==> Safe(m, step)
  {
    match step
    case LiveLog(log, g) => assert LossesAreOwed(AcceptLog(m, log, g));
    case Dispatch(i) => DispatchLosses(m, i);
    case LiveHead(block, g) => assert LossesAreOwed(m.(s := OnLiveHead(m.s, block, g)));
    case LiveError(gap, g) => assert LossesAreOwed(BreakStream(m, gap, g));
    case Historical(log, g) => assert LossesAreOwed(m.(s := OnDispatchHistorical(m.s, log, g)));
  }

  lemma DispatchLosses(m: Machine, i: nat)
    requires HandoffDiscipline(m.s) && LossesAreOwed(m) && i < |m.arriving|
    ensures LossesAreOwed(DispatchArrival(m, i)) <==> Safe(m, Dispatch(i))
  {
    hide LiveLogs;
  }

  lemma DrainLosses(m: Machine, t: nat)
    requires HandoffDiscipline(m.s) && LossesAreOwed(m) && Enabled(m, Drain(t))
    ensures LossesAreOwed(DrainOnce(m, t)) <==> Safe(m, Drain(t))
  {
    hide Stamped, LiveLogs;
    assert DrainOnce(m, t).s.accepting == m.s.accepting;
  }

  lemma StarterLosses(c: Config, m: Machine, step: Step)
    requires HandoffDiscipline(m.s) && LossesAreOwed(m) && Enabled(m, step) && OfStarter(step)
    ensures LossesAreOwed(Next(c, m, step)) <==> Safe(m, step)
  {
    hide Stamped, LiveLogs, RepairDrain;
    match step
    case StartLive(t) => assert LossesAreOwed(StartCall(m, t));
    case HeadFetched(t, head) => assert LossesAreOwed(BeginCatchUp(c, m, t, head));
    case CaughtUp(t) => assert LossesAreOwed(EndCatchUp(m, t));
    case Drain(t) => DrainLosses(m, t);
    case GapRecovered(t, head) => RecoveredLosses(c, m, t, head);
    case AnnounceHead(t) => assert LossesAreOwed(ReplayHead(m, t));
    case Conclude(t) => assert LossesAreOwed(EndStart(m, t));
    case AbortStart(t) => assert LossesAreOwed(Abandon(m, t));
  }

  lemma RecoveredLosses(c: Config, m: Machine, t: nat, head: nat)
    requires LossesAreOwed(m) && Enabled(m, GapRecovered(t, head))
    ensures LossesAreOwed(FinishGapRecovery(c, m, t, head))
  {
    hide Scanned, Unscanned;
  }

  lemma DeliveryLosses(c: Config, m: Machine, step: Step)
    requires HandoffDiscipline(m.s) && LossesAreOwed(m) && Enabled(m, step) && OfDelivery(step)
    ensures LossesAreOwed(Next(c, m, step)) <==> Safe(m, step)
  {
    match step
    case Pop => assert LossesAreOwed(TakeJob(m));
    case Returned => assert LossesAreOwed(FinishCallback(m));
    case CallbackThrew => assert LossesAreOwed(FailCallback(m));
    case ScheduleRecovery => assert LossesAreOwed(OweRecovery(m));
    case ShutdownDelivery => CancelledLosses(m);
  }

  lemma CancelledLosses(m: Machine)
    requires LossesAreOwed(m) && m.closing
    ensures LossesAreOwed(CancelDeliveries(m)) <==> Safe(m, ShutdownDelivery)
  {
    hide LiveLogs;
  }

  lemma ReconcilerLosses(c: Config, m: Machine, step: Step)
    requires RepairsRun(m) && HandoffDiscipline(m.s) && LossesAreOwed(m) && Enabled(m, step) && OfReconciler(step)
    ensures LossesAreOwed(Next(c, m, step)) <==> Safe(m, step)
  {
    hide Scanned, Unscanned, WorkTarget;
    match step
    case Take => assert LossesAreOwed(TakeWork(m));
    case Reconciled(latest) => assert LossesAreOwed(FinishWork(c, m, latest));
    case ReconcileFailed => assert LossesAreOwed(FailWork(m));
    case Release => assert LossesAreOwed(m.(s := OnRelease(m.s), reconciler := Waiting));
    case ShutdownWorker =>
      assert LossesAreOwed(m.(s := OnShutdownWorker(m.s))) <==> Safe(m, step);
  }

  /** In every run: a step from a state in which every loss is owed leads to such a state exactly when it is safe. */
  lemma StepKeepsLossesOwedIff(c: Config, m: Machine, step: Step)
    requires Discipline(m) && LossesAreOwed(m) && Enabled(m, step)
    ensures LossesAreOwed(Next(c, m, step)) <==> Safe(m, step)
  {
    hide RepairsRun, HandoffDiscipline, LiveGate, ThreadDiscipline, RetriesFollowFailures, RecoveryOwed;
    if OfTransport(step) {
      TransportLosses(c, m, step);
    } else if OfStarter(step) {
      StarterLosses(c, m, step);
    } else if OfDelivery(step) {
      DeliveryLosses(c, m, step);
    } else if OfReconciler(step) {
      ReconcilerLosses(c, m, step);
    }
  }

  /** Until the destructor begins only the drain of an older generation can be unsafe. */
  lemma OnlyStaleDrainsAreUnsafe(m: Machine, step: Step)
    requires Discipline(m) && Enabled(m, step) && !m.closing
    ensures !Safe(m, step) ==> step.Drain? && m.starters[step.caller].generation != m.s.generation
  {
  }

  // ----- whole runs -----

  /** A run owes a recovery for every loss in all its states exactly when all its steps are safe. */
  lemma {:induction false} RunKeepsLossesOwedIff(c: Config, m: Machine, steps: seq<Step>)
    requires Inv(m) && LossesAreOwed(m)
    ensures AlwaysOwed(c, m, steps) <==> AllSafe(c, m, steps)
    decreases |steps|
  {
    hide Balanced, Discipline, GenerationsBounded, BufferHasOwner, LossesAreOwed, Safe, Next;
    if steps != [] {
      var step := steps[0];
      if !Enabled(m, step) {
        RunKeepsLossesOwedIff(c, m, steps[1..]);
      } else {
        StepKeepsLossesOwedIff(c, m, step);
        InvStep(c, m, step);
        if LossesAreOwed(Next(c, m, step)) {
          RunKeepsLossesOwedIff(c, Next(c, m, step), steps[1..]);
        } else {
          NotOwedAtOnce(c, Next(c, m, step), steps[1..]);
        }
      }
    }
  }

  lemma NotOwedAtOnce(c: Config, m: Machine, steps: seq<Step>)
    requires !LossesAreOwed(m)
    ensures !AlwaysOwed(c, m, steps)
  {
  }

  lemma {:induction false} OwedAtTheEnd(c: Config, m: Machine, steps: seq<Step>)
    requires AlwaysOwed(c, m, steps)
    ensures LossesAreOwed(Execute(c, m, steps))
    decreases |steps|
  {
    hide LossesAreOwed, Next;
    if steps != [] {
      OwedAtTheEnd(c, if Enabled(m, steps[0]) then Next(c, m, steps[0]) else m, steps[1..]);
    }
  }

  // ----- calls of start_live that follow one another -----

  /** No call of start_live begins: the calls that run are among those that ran, of the same generation. */
  lemma SerialStays(m: Machine, m': Machine)
    requires SerialDiscipline(m)
    requires forall t :: t in m'.starters ==>
      t in m.starters && m'.starters[t].generation == m.starters[t].generation
    requires m'.s.accepting ==> m.s.accepting && m'.s.generation == m.s.generation && m'.closing == m.closing
    ensures SerialDiscipline(m')
  {
  }

  lemma SerialStart(m: Machine, t: nat)
    requires m.starters == map[] && !m.closing && !m.s.started
    ensures SerialDiscipline(StartCall(m, t))
  {
  }

  lemma StarterStays(c: Config, m: Machine, step: Step)
    requires Enabled(m, step) && OfStarter(step) && !step.StartLive?
    ensures var m' := Next(c, m, step);
      && (forall t :: t in m'.starters ==> t in m.starters && m'.starters[t].generation == m.starters[t].generation)
      && (m'.s.accepting ==> m.s.accepting && m'.s.generation == m.s.generation) && m'.closing == m.closing
  {
    hide Stamped, RepairDrain;
    match step
    case HeadFetched(t, head) =>
    case CaughtUp(t) =>
    case Drain(t) => assert DrainOnce(m, t).s.accepting == m.s.accepting;
    case GapRecovered(t, head) =>
    case AnnounceHead(t) =>
    case Conclude(t) =>
    case AbortStart(t) =>
  }

  /** A start_live in turn never meets an older call, and nothing is accepted behind the destructor. */
  lemma SerialStep(c: Config, m: Machine, step: Step)
    requires SerialDiscipline(m) && Enabled(m, step) && Permitted(IN_TURN, m, step)
    ensures SerialDiscipline(Next(c, m, step))
  {
    if step.StartLive? {
      SerialStart(m, step.caller);
    } else {
      hide SerialDiscipline, Next, Enabled;
      if OfStarter(step) {
        StarterStays(c, m, step);
      } else {
        OthersLeave(c, m, step);
      }
      SerialStays(m, Next(c, m, step));
    }
  }

  lemma SerialIsSafe(m: Machine, step: Step)
    requires SerialDiscipline(m) && Discipline(m) && Enabled(m, step)
    ensures Safe(m, step)
  {
  }

  lemma {:induction false} SerialRunsAreSafe(c: Config, m: Machine, steps: seq<Step>)
    requires Inv(m) && SerialDiscipline(m) && Obeys(IN_TURN, c, m, steps)
    ensures AllSafe(c, m, steps) && SerialDiscipline(Execute(c, m, steps))
    decreases |steps|
  {
    hide Balanced, Discipline, GenerationsBounded, BufferHasOwner, SerialDiscipline, Safe, Next, Permitted;
    if steps != [] {
      var m' := if Enabled(m, steps[0]) then Next(c, m, steps[0]) else m;
      if Enabled(m, steps[0]) {
        SerialIsSafe(m, steps[0]);
        SerialStep(c, m, steps[0]);
        InvStep(c, m, steps[0]);
      }
      SerialRunsAreSafe(c, m', steps[1..]);
    }
  }
}
