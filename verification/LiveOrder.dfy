/** The order in which jobs and live logs go through the queues, and what becomes of the heads, over whole runs: told
    from the steps of a run and from what each of them hands over, not from what the sections do to the queues
    (src/evm_event_dispatch.cpp, src/evm_live_handoff.cpp). */
module LiveOrder {
  import opened Wrappers
  import opened Arithmetic
  import opened EvmLogs
  import opened LiveSections
  import opened LiveProtocol
  import opened LiveProofs

  // ----- the two delivery queues -----

  /** What was appended to each queue and taken from it so far, and everything taken, in order. Jobs that an overflow
      or the end of delivery dropped do not count as appended any more. */
  datatype Queues = Queues(historicalIn: seq<Job>, historicalOut: seq<Job>, liveIn: seq<Job>, liveOut: seq<Job>,
                           handed: seq<Job>)

  const NO_JOBS := Queues([], [], [], [], [])

  function LiveJobs(logs: seq<Log>, generation: nat): seq<Job> {
    if logs == [] then []
    else LiveJobs(logs[..|logs| - 1], generation) + [Job(logs[|logs| - 1], true, generation)]
  }

  /** A scan's log goes to the historical queue while delivery lasts and the generation is current, a buffered log when
      a drain finds no gap; a live log goes to the live queue, which a log beyond the limit empties. */
  function Noted(c: Config, m: Machine, step: Step, q: Queues): Queues
    requires Enabled(m, step)
  {
    match step
    case Historical(log, g) =>
      if m.s.deliveryShutdown || g != m.s.generation then q
      else q.(historicalIn := q.historicalIn + [Job(log, false, g)])
    case Drain(t) =>
      if m.s.handoffGap then q
      else q.(historicalIn := q.historicalIn + LiveJobs(m.s.buffered, m.starters[t].generation))
    case Dispatch(i) =>
      var a := m.arriving[i];
      if m.s.deliveryShutdown || a.generation != m.s.generation then q
      else if |m.s.live| >= 1024 then q.(liveIn := q.liveOut)
      else q.(liveIn := q.liveIn + [Job(a.log, true, a.generation)])
    case Pop =>
      var job := Next(c, m, step).delivery.job;
      var q' := q.(handed := q.handed + [job]);
      if m.s.historical != [] then q'.(historicalOut := q.historicalOut + [job])
      else q'.(liveOut := q.liveOut + [job])
    case ShutdownDelivery => q.(historicalIn := q.historicalOut, liveIn := q.liveOut)
    case _ => q
  }

  function NotedAll(c: Config, m: Machine, steps: seq<Step>, q: Queues): Queues
    decreases |steps|
  {
    if steps == [] then q
    else if !Enabled(m, steps[0]) then NotedAll(c, m, steps[1..], q)
    else NotedAll(c, Next(c, m, steps[0]), steps[1..], Noted(c, m, steps[0], q))
  }

  /** Each queue is what was appended to it after what was taken from it. */
  predicate FirstInFirstOut(m: Machine, q: Queues) {
    q.historicalIn == q.historicalOut + m.s.historical && q.liveIn == q.liveOut + m.s.live
  }

  lemma {:induction false} LiveJobsAre(logs: seq<Log>, generation: nat)
    ensures LiveJobs(logs, generation) == Stamped(logs, generation)
  {
    if logs != [] {
      LiveJobsAre(logs[..|logs| - 1], generation);
    }
  }

  /** The steps that move no job. */
  predicate MovesNoJob(step: Step) {
    !step.Historical? && !step.Drain? && !step.Dispatch? && !step.Pop? && !step.ShutdownDelivery?
  }

  predicate SameQueues(m: Machine, m': Machine) {
    m'.s.historical == m.s.historical && m'.s.live == m.s.live
  }

  lemma StarterMovesNoJob(c: Config, m: Machine, step: Step)
    requires Enabled(m, step) && MovesNoJob(step) && OfStarter(step)
    ensures SameQueues(m, Next(c, m, step))
  {
    hide RepairDrain;
    match step
    case StartLive(t) => assert SameQueues(m, StartCall(m, t));
    case HeadFetched(t, head) => assert SameQueues(m, BeginCatchUp(c, m, t, head));
    case CaughtUp(t) => assert SameQueues(m, EndCatchUp(m, t));
    case GapRecovered(t, head) => assert SameQueues(m, FinishGapRecovery(c, m, t, head));
    case AnnounceHead(t) => assert SameQueues(m, ReplayHead(m, t));
    case Conclude(t) => assert SameQueues(m, EndStart(m, t));
    case AbortStart(t) => assert SameQueues(m, Abandon(m, t));
  }

  lemma WorkerMovesNoJob(c: Config, m: Machine, step: Step)
    requires Enabled(m, step) && MovesNoJob(step) && (OfReconciler(step) || OfDelivery(step))
    ensures SameQueues(m, Next(c, m, step))
  {
    hide RepairWork, WorkTarget;
    match step
    case Returned => assert SameQueues(m, FinishCallback(m));
    case CallbackThrew => assert SameQueues(m, FailCallback(m));
    case ScheduleRecovery => assert SameQueues(m, OweRecovery(m));
    case Take => assert SameQueues(m, TakeWork(m));
    case Reconciled(latest) => assert SameQueues(m, FinishWork(c, m, latest));
    case ReconcileFailed => assert SameQueues(m, FailWork(m));
    case Release => assert SameQueues(m, m.(s := OnRelease(m.s), reconciler := Waiting));
    case ShutdownWorker => assert SameQueues(m, m.(s := OnShutdownWorker(m.s)));
  }

  lemma OutsideMovesNoJob(c: Config, m: Machine, step: Step)
    requires Enabled(m, step) && MovesNoJob(step) && !OfStarter(step) && !OfReconciler(step) && !OfDelivery(step)
    ensures SameQueues(m, Next(c, m, step))
  {
    match step
    case LiveLog(log, g) => assert SameQueues(m, AcceptLog(m, log, g));
    case LiveHead(block, g) => assert SameQueues(m, m.(s := OnLiveHead(m.s, block, g)));
    case LiveError(gap, g) => assert SameQueues(m, BreakStream(m, gap, g));
    case Stop => assert SameQueues(m, Renewed(m, OnStop(m.s)));
    case Close => assert SameQueues(m, Renewed(m, OnStop(m.s)).(closing := true));
  }

  lemma PopFollows(c: Config, m: Machine, q: Queues)
    requires m.delivery.Idle? && CanPop(m.s) && FirstInFirstOut(m, q)
    ensures FirstInFirstOut(Next(c, m, Pop), Noted(c, m, Pop, q))
  {
    assert Next(c, m, Pop) == TakeJob(m);
  }

  lemma DrainMovesBuffer(m: Machine, t: nat)
    requires Enabled(m, Drain(t))
    ensures var s := DrainOnce(m, t).s;
      && s.live == m.s.live
      && s.historical == if m.s.handoffGap then m.s.historical
                         else m.s.historical + LiveJobs(m.s.buffered, m.starters[t].generation)
  {
    hide Stamped;
    LiveJobsAre(m.s.buffered, m.starters[t].generation);
    assert m.s.buffered == [] ==> LiveJobs(m.s.buffered, m.starters[t].generation) == [];
  }

  lemma NotedDrain(c: Config, m: Machine, t: nat, q: Queues)
    requires Enabled(m, Drain(t))
    ensures Noted(c, m, Drain(t), q)
         == if m.s.handoffGap then q
            else q.(historicalIn := q.historicalIn + LiveJobs(m.s.buffered, m.starters[t].generation))
  {
  }

  lemma AppendBehind(before: seq<Job>, out: seq<Job>, queue: seq<Job>, jobs: seq<Job>)
    requires before == out + queue
    ensures before + jobs == out + (queue + jobs)
  {
  }

  lemma DrainFollows(c: Config, m: Machine, t: nat, q: Queues)
    requires Enabled(m, Drain(t)) && FirstInFirstOut(m, q)
    ensures FirstInFirstOut(DrainOnce(m, t), Noted(c, m, Drain(t), q))
  {
    DrainMovesBuffer(m, t);
    NotedDrain(c, m, t, q);
    AppendBehind(q.historicalIn, q.historicalOut, m.s.historical, LiveJobs(m.s.buffered, m.starters[t].generation));
    hide LiveJobs, DrainOnce, Next, Noted, Enabled;
  }

  lemma QueuesStep(c: Config, m: Machine, step: Step, q: Queues)
    requires Enabled(m, step) && FirstInFirstOut(m, q)
    ensures FirstInFirstOut(Next(c, m, step), Noted(c, m, step, q))
  {
    if step.Historical? {
      assert Next(c, m, step).s == OnDispatchHistorical(m.s, step.log, step.generation);
    } else if step.Drain? {
      DrainFollows(c, m, step.caller, q);
    } else if step.Dispatch? {
      assert Next(c, m, step) == DispatchArrival(m, step.index);
    } else if step.Pop? {
      PopFollows(c, m, q);
    } else if step.ShutdownDelivery? {
      assert Next(c, m, step) == CancelDeliveries(m);
    } else {
      hide Next, Enabled;
      if OfStarter(step) {
        StarterMovesNoJob(c, m, step);
      } else if OfReconciler(step) || OfDelivery(step) {
        WorkerMovesNoJob(c, m, step);
      } else {
        OutsideMovesNoJob(c, m, step);
      }
    }
  }

  /** In every run each queue is first in, first out: the jobs taken from it, followed by those that still wait, are the
      jobs appended to it, in order; and no job of the live queue is taken while a historical one waits. */
  lemma {:induction false} QueuesAreFirstInFirstOut(c: Config, m: Machine, steps: seq<Step>, q: Queues)
    requires FirstInFirstOut(m, q)
    ensures FirstInFirstOut(Execute(c, m, steps), NotedAll(c, m, steps, q))
    decreases |steps|
  {
    hide Next, Noted, FirstInFirstOut;
    if steps != [] {
      if Enabled(m, steps[0]) {
        QueuesStep(c, m, steps[0], q);
        QueuesAreFirstInFirstOut(c, Next(c, m, steps[0]), steps[1..], Noted(c, m, steps[0], q));
      } else {
        QueuesAreFirstInFirstOut(c, m, steps[1..], q);
      }
    }
  }

  lemma {:induction false} NotedAndStep(c: Config, m: Machine, steps: seq<Step>, step: Step, q: Queues)
    ensures var end, noted := Execute(c, m, steps), NotedAll(c, m, steps, q);
      NotedAll(c, m, steps + [step], q) == if Enabled(end, step) then Noted(c, end, step, noted) else noted
    decreases |steps|
  {
    hide Enabled, Next, Noted;
    if steps == [] {
      assert steps + [step] == [step];
      assert [step][1..] == [];
    } else {
      assert (steps + [step])[1..] == steps[1..] + [step];
      if Enabled(m, steps[0]) {
        NotedAndStep(c, Next(c, m, steps[0]), steps[1..], step, Noted(c, m, steps[0], q));
      } else {
        NotedAndStep(c, m, steps[1..], step, q);
      }
    }
  }

  lemma NotedHands(c: Config, m: Machine, step: Step, q: Queues)
    requires Enabled(m, step)
    ensures Noted(c, m, step, q).handed == q.handed + if step.Pop? then [Next(c, m, step).delivery.job] else []
  {
  }

  lemma PopIs(c: Config, m: Machine)
    requires m.delivery.Idle?
    ensures Enabled(m, Pop) <==> CanPop(m.s)
    ensures Enabled(m, Pop) ==> Next(c, m, Pop) == TakeJob(m)
  {
  }

  /** The delivery thread can take a job exactly when one may be taken: a historical one always, a live one while no
      historical job waits and no reconciliation is pending or active; and then it takes the first. */
  lemma PopTakesFirst(c: Config, m: Machine)
    requires m.delivery.Idle?
    ensures Enabled(m, Pop) <==>
      !m.s.deliveryShutdown
      && (|m.s.historical| > 0 || (|m.s.live| > 0 && !m.s.reconciliationActive && !m.s.refreshHead))
    ensures Enabled(m, Pop) ==>
      var m', job := Next(c, m, Pop), Next(c, m, Pop).delivery.job;
      if |m.s.historical| > 0 then [job] + m'.s.historical == m.s.historical && m'.s.live == m.s.live
      else [job] + m'.s.live == m.s.live && m'.s.historical == []
  {
    PopIs(c, m);
    hide Next, Enabled;
  }

  // ----- live logs across the handoff -----

  /** The live logs of the current generation that were buffered or queued, and those the delivery thread took. */
  datatype Order = Order(entered: seq<Log>, taken: seq<Log>)

  const NO_LOGS := Order([], [])

  function Ordered(c: Config, m: Machine, step: Step, o: Order): Order
    requires Enabled(m, step)
  {
    match step
    case LiveLog(log, g) =>
      if m.s.accepting && g == m.s.generation && m.s.buffering && !m.s.handoffGap
         && |m.s.buffered| < 1024
      then o.(entered := o.entered + [log]) else o
    case Dispatch(i) =>
      if m.arriving[i].generation == m.s.generation && !m.s.deliveryShutdown && |m.s.live| < 1024
      then o.(entered := o.entered + [m.arriving[i].log]) else o
    case Pop => o.(taken := o.taken + InHand(Next(c, m, step).delivery, m.s.generation))
    case StartLive(_) => NO_LOGS
    case Stop => NO_LOGS
    case Close => NO_LOGS
    case _ => o
  }

  function OrderedAll(c: Config, m: Machine, steps: seq<Step>, o: Order): Order
    decreases |steps|
  {
    if steps == [] then o
    else if !Enabled(m, steps[0]) then OrderedAll(c, m, steps[1..], o)
    else OrderedAll(c, Next(c, m, steps[0]), steps[1..], Ordered(c, m, steps[0], o))
  }

  /** The live logs of the current generation that wait for the delivery thread, in the order in which it will come to
      them. */
  function Queued(m: Machine): seq<Log> {
    LiveLogs(m.s.historical, m.s.generation) + m.s.buffered + LiveLogs(m.s.live, m.s.generation)
  }

  /** One list is another with some elements left out. */
  predicate PartOf(part: seq<Log>, whole: seq<Log>) {
    part == []
    || (whole != []
        && ((part[|part| - 1] == whole[|whole| - 1] && PartOf(part[..|part| - 1], whole[..|whole| - 1]))
            || PartOf(part, whole[..|whole| - 1])))
  }

  predicate KeepsOrder(m: Machine, o: Order) {
    && PartOf(o.taken + Queued(m), o.entered)
    && (m.s.buffering ==> LiveLogs(m.s.live, m.s.generation) == [])
  }

  lemma {:induction false} PartOfSelf(a: seq<Log>)
    ensures PartOf(a, a)
  {
    if a != [] {
      PartOfSelf(a[..|a| - 1]);
    }
  }

  lemma PartOfMore(part: seq<Log>, whole: seq<Log>, log: Log)
    requires PartOf(part, whole)
    ensures PartOf(part, whole + [log]) && PartOf(part + [log], whole + [log])
  {
    assert (whole + [log])[..|whole|] == whole && (part + [log])[..|part|] == part;
  }

  /** Leaving out more. */
  lemma {:induction false} PartWithout(a: seq<Log>, out: seq<Log>, b: seq<Log>, whole: seq<Log>)
    requires PartOf(a + out + b, whole)
    ensures PartOf(a + b, whole)
    decreases |whole|
  {
    var part := a + out + b;
    if a + b != [] {
      var shorter := whole[..|whole| - 1];
      if PartOf(part, shorter) {
        PartWithout(a, out, b, shorter);
      } else if b != [] {
        assert part[..|part| - 1] == a + out + b[..|b| - 1];
        PartWithout(a, out, b[..|b| - 1], shorter);
        assert (a + b)[..|a + b| - 1] == a + b[..|b| - 1];
      } else if out != [] {
        assert part[..|part| - 1] == a + out[..|out| - 1] + b;
        PartWithout(a, out[..|out| - 1], b, shorter);
      } else {
        assert part == a + b;
      }
    }
  }

  lemma {:induction false} LiveLogsJoin(a: seq<Job>, b: seq<Job>, g: nat)
    ensures LiveLogs(a + b, g) == LiveLogs(a, g) + LiveLogs(b, g)
  {
    if a == [] {
      assert a + b == b;
    } else {
      assert (a + b)[1..] == a[1..] + b;
      LiveLogsJoin(a[1..], b, g);
    }
  }

  lemma {:induction false} LiveLogsOfStamped(logs: seq<Log>, from: nat, g: nat)
    ensures LiveLogs(Stamped(logs, from), g) == if from == g then logs else []
  {
    if logs != [] {
      assert Stamped(logs, from)[1..] == Stamped(logs[1..], from);
      LiveLogsOfStamped(logs[1..], from, g);
    }
  }

  // ----- one step -----

  lemma NothingLeft(m: Machine)
    requires JobsUpTo(m.s.historical, m.s.generation) && JobsUpTo(m.s.live, m.s.generation)
    ensures LiveLogs(m.s.historical, m.s.generation + 1) == [] && LiveLogs(m.s.live, m.s.generation + 1) == []
  {
    NoLiveLogs(m.s.historical, m.s.generation);
    NoLiveLogs(m.s.live, m.s.generation);
  }

  lemma {:induction false} NoLiveLogs(jobs: seq<Job>, g: nat)
    requires JobsUpTo(jobs, g)
    ensures LiveLogs(jobs, g + 1) == []
  {
    if jobs != [] {
      NoLiveLogs(jobs[1..], g);
    }
  }

  /** A new generation has nothing queued. */
  lemma RenewedKeepsOrder(m: Machine, s: Shared)
    requires GenerationsBounded(m) && s.generation == m.s.generation + 1 && s.buffered == []
    requires s.historical == m.s.historical && s.live == m.s.live
    ensures KeepsOrder(Renewed(m, s), NO_LOGS)
  {
    NothingLeft(m);
  }

  lemma AcceptKeepsOrder(c: Config, m: Machine, log: Log, g: nat, o: Order)
    requires Discipline(m) && KeepsOrder(m, o) && Enabled(m, LiveLog(log, g))
    ensures KeepsOrder(AcceptLog(m, log, g), Ordered(c, m, LiveLog(log, g), o))
  {
    hide LiveLogs, PartOf;
    var before := o.taken + LiveLogs(m.s.historical, m.s.generation);
    if Current(m.s, g) && m.s.buffering && !m.s.handoffGap {
      assert o.taken + Queued(m) == before + m.s.buffered;
      assert before + (m.s.buffered + [log]) == before + m.s.buffered + [log];
      PartOfMore(before + m.s.buffered, o.entered, log);
      assert before + m.s.buffered + [] == before + m.s.buffered;
      PartWithout(before, m.s.buffered, [], o.entered);
      assert o.taken + (LiveLogs(m.s.historical, m.s.generation) + [] + []) == before + [];
      assert o.taken + (LiveLogs(m.s.historical, m.s.generation) + (m.s.buffered + [log]) + [])
          == before + (m.s.buffered + [log]);
    }
  }

  lemma {:induction false} ArrivingHas(arrivals: seq<Arrival>, i: nat, g: nat)
    requires i < |arrivals| && arrivals[i].generation == g
    ensures Arriving(arrivals, g) != []
  {
    if i > 0 && arrivals[0].generation != g {
      ArrivingHas(arrivals[1..], i - 1, g);
    }
  }

  lemma OrderedDispatch(c: Config, m: Machine, i: nat, o: Order)
    requires i < |m.arriving|
    ensures var a := m.arriving[i];
      Ordered(c, m, Dispatch(i), o)
      == if a.generation == m.s.generation && !m.s.deliveryShutdown && |m.s.live| < LIVE_LOG_QUEUE_LIMIT
         then o.(entered := o.entered + [a.log]) else o
  {
  }

  lemma DispatchMoves(m: Machine, i: nat)
    requires Discipline(m) && i < |m.arriving|
    ensures var a, s := m.arriving[i], DispatchArrival(m, i).s;
      && s.historical == m.s.historical && s.buffered == m.s.buffered && s.generation == m.s.generation
      && s.buffering == m.s.buffering
      && (if a.generation != m.s.generation || m.s.deliveryShutdown then s.live == m.s.live
          else !m.s.buffering
               && s.live == if |m.s.live| >= LIVE_LOG_QUEUE_LIMIT then []
                            else m.s.live + [Job(a.log, true, a.generation)])
  {
    if m.arriving[i].generation == m.s.generation {
      ArrivingHas(m.arriving, i, m.s.generation);
    }
  }

  predicate SameBehind(m: Machine, m': Machine) {
    && m'.s.historical == m.s.historical && m'.s.buffered == m.s.buffered && m'.s.generation == m.s.generation
    && m'.s.buffering == m.s.buffering
  }

  lemma AppendKeepsOrder(m: Machine, m': Machine, log: Log, o: Order)
    requires KeepsOrder(m, o) && SameBehind(m, m') && !m.s.buffering
    requires LiveLogs(m'.s.live, m.s.generation) == LiveLogs(m.s.live, m.s.generation) + [log]
    ensures KeepsOrder(m', o.(entered := o.entered + [log]))
  {
    hide LiveLogs, PartOf;
    PartOfMore(o.taken + Queued(m), o.entered, log);
    assert o.taken + Queued(m') == o.taken + Queued(m) + [log];
  }

  lemma OverflowKeepsOrder(m: Machine, m': Machine, o: Order)
    requires KeepsOrder(m, o) && SameBehind(m, m') && m'.s.live == []
    ensures KeepsOrder(m', o)
  {
    NoJobsNoLogs(m.s.generation);
    hide LiveLogs, PartOf;
    var before, live := o.taken + LiveLogs(m.s.historical, m.s.generation) + m.s.buffered,
                        LiveLogs(m.s.live, m.s.generation);
    assert o.taken + Queued(m) == before + live == before + live + [];
    PartWithout(before, live, [], o.entered);
    assert o.taken + Queued(m') == before + [];
  }

  lemma DispatchKeepsOrder(c: Config, m: Machine, i: nat, o: Order)
    requires Discipline(m) && KeepsOrder(m, o) && i < |m.arriving|
    ensures KeepsOrder(DispatchArrival(m, i), Ordered(c, m, Dispatch(i), o))
  {
    DispatchMoves(m, i);
    OrderedDispatch(c, m, i, o);
    var a, m' := m.arriving[i], DispatchArrival(m, i);
    hide LiveLogs, PartOf, DispatchArrival, Ordered, Discipline;
    if a.generation != m.s.generation || m.s.deliveryShutdown {
      assert Queued(m') == Queued(m);
    } else if |m.s.live| < LIVE_LOG_QUEUE_LIMIT {
      OneLiveLog(m.s.live, a.log, m.s.generation);
      AppendKeepsOrder(m, m', a.log, o);
    } else {
      OverflowKeepsOrder(m, m', o);
    }
  }

  lemma NoJobsNoLogs(g: nat)
    ensures LiveLogs([], g) == []
  {
  }

  lemma OneLiveLog(jobs: seq<Job>, log: Log, g: nat)
    ensures LiveLogs(jobs + [Job(log, true, g)], g) == LiveLogs(jobs, g) + [log]
    ensures LiveLogs(jobs + [Job(log, false, g)], g) == LiveLogs(jobs, g)
  {
    LiveLogsJoin(jobs, [Job(log, true, g)], g);
    LiveLogsJoin(jobs, [Job(log, false, g)], g);
    assert [Job(log, true, g)][1..] == [] && [Job(log, false, g)][1..] == [];
  }

  /** The buffer is dropped. */
  lemma DropKeepsOrder(m: Machine, m': Machine, o: Order)
    requires KeepsOrder(m, o) && SameQueues(m, m') && m'.s.generation == m.s.generation
    requires m'.s.buffered == [] && (m'.s.buffering ==> m.s.buffering)
    ensures KeepsOrder(m', o)
  {
    hide LiveLogs, PartOf;
    var g := m.s.generation;
    var before, after := o.taken + LiveLogs(m.s.historical, g), LiveLogs(m.s.live, g);
    assert o.taken + Queued(m) == before + m.s.buffered + after;
    PartWithout(before, m.s.buffered, after, o.entered);
    assert o.taken + Queued(m') == before + after;
  }

  lemma DrainKeepsOrder(m: Machine, t: nat, o: Order)
    requires Discipline(m) && KeepsOrder(m, o) && Enabled(m, Drain(t))
    ensures KeepsOrder(DrainOnce(m, t), o)
  {
    var g, from := m.s.generation, m.starters[t].generation;
    DrainMovesBuffer(m, t);
    var m' := DrainOnce(m, t);
    assert m'.s.generation == g && m'.s.buffered == [] && (m'.s.buffering ==> m.s.buffering);
    hide LiveLogs, PartOf, Stamped, DrainOnce, Enabled, Discipline, LiveJobs;
    LiveJobsAre(m.s.buffered, from);
    LiveLogsJoin(m.s.historical, Stamped(m.s.buffered, from), g);
    LiveLogsOfStamped(m.s.buffered, from, g);
    var stays := m.(s := m.s.(buffered := []));
    DropKeepsOrder(m, stays, o);
    if !m.s.handoffGap && from == g {
      assert Queued(m') == Queued(m);
    } else {
      assert Queued(m') == Queued(stays);
    }
  }

  /** The delivery thread takes the first of the live logs that wait, or a job that is none of them. */
  lemma PopTakesNext(m: Machine)
    requires HandoffDiscipline(m.s) && (m.s.buffering ==> LiveLogs(m.s.live, m.s.generation) == [])
    requires m.delivery.Idle? && CanPop(m.s)
    ensures Queued(m) == InHand(TakeJob(m).delivery, m.s.generation) + Queued(TakeJob(m))
  {
    var g, m' := m.s.generation, TakeJob(m);
    var hand, first := InHand(m'.delivery, g), |m.s.historical| > 0;
    FirstLiveLog(if first then m.s.historical else m.s.live, g);
    assert hand == FirstOf(if first then m.s.historical else m.s.live, g);
    NoJobsNoLogs(g);
    assert if first then m'.s.historical == m.s.historical[1..] && m'.s.live == m.s.live
           else m'.s.live == m.s.live[1..] && m'.s.historical == m.s.historical == [];
    assert !first && hand != [] ==> m.s.buffered == [];
    assert m'.s.buffered == m.s.buffered && m'.s.generation == g;
    QueuedMoves(m, m', hand, first);
  }

  lemma QueuedMoves(m: Machine, m': Machine, hand: seq<Log>, first: bool)
    requires m'.s.generation == m.s.generation && m'.s.buffered == m.s.buffered
    requires var g := m.s.generation;
      if first then LiveLogs(m.s.historical, g) == hand + LiveLogs(m'.s.historical, g) && m'.s.live == m.s.live
      else LiveLogs(m.s.live, g) == hand + LiveLogs(m'.s.live, g) && LiveLogs(m.s.historical, g) == []
           && m'.s.historical == m.s.historical && (hand != [] ==> m.s.buffered == [])
    ensures Queued(m) == hand + Queued(m')
  {
    hide LiveLogs;
  }

  function FirstOf(jobs: seq<Job>, g: nat): seq<Log>
    requires jobs != []
  {
    if jobs[0].live && jobs[0].generation == g then [jobs[0].log] else []
  }

  lemma FirstLiveLog(jobs: seq<Job>, g: nat)
    requires jobs != []
    ensures LiveLogs(jobs, g) == FirstOf(jobs, g) + LiveLogs(jobs[1..], g)
  {
  }

  lemma PopKeepsOrder(c: Config, m: Machine, o: Order)
    requires HandoffDiscipline(m.s) && KeepsOrder(m, o) && m.delivery.Idle? && CanPop(m.s)
    ensures KeepsOrder(TakeJob(m), Ordered(c, m, Pop, o))
  {
    PopIs(c, m);
    PopTakesNext(m);
    var m' := TakeJob(m);
    var hand := InHand(m'.delivery, m.s.generation);
    assert m'.s.generation == m.s.generation && m'.s.buffering == m.s.buffering;
    LiveStaysEmpty(m);
    hide LiveLogs, PartOf, TakeJob, InHand, Next;
    assert o.taken + Queued(m) == o.taken + hand + Queued(m');
  }

  lemma LiveStaysEmpty(m: Machine)
    requires CanPop(m.s)
    ensures var g := m.s.generation; LiveLogs(m.s.live, g) == [] ==> LiveLogs(OnPop(m.s).live, g) == []
  {
  }

  lemma CancelKeepsOrder(m: Machine, o: Order)
    requires KeepsOrder(m, o)
    ensures KeepsOrder(CancelDeliveries(m), o)
  {
    var g := m.s.generation;
    NoJobsNoLogs(g);
    hide LiveLogs, PartOf;
    var h, b, l := LiveLogs(m.s.historical, g), m.s.buffered, LiveLogs(m.s.live, g);
    assert o.taken + Queued(m) == o.taken + h + (b + l);
    PartWithout(o.taken, h, b + l, o.entered);
    assert o.taken + (b + l) == o.taken + b + l;
    assert o.taken + b + l + [] == o.taken + b + l;
    PartWithout(o.taken + b, l, [], o.entered);
    assert o.taken + Queued(CancelDeliveries(m)) == o.taken + b + [];
  }

  /** Steps that touch neither a queue nor the buffer nor the generation. */
  predicate LeavesLogs(step: Step) {
    || step.HeadFetched? || step.CaughtUp? || step.GapRecovered? || step.AnnounceHead? || step.Conclude?
    || step.LiveHead? || step.Returned? || step.CallbackThrew? || step.Take? || step.Reconciled?
    || step.ReconcileFailed? || step.Release? || step.ShutdownWorker?
  }

  predicate SameLogs(m: Machine, m': Machine) {
    && SameQueues(m, m') && m'.s.buffered == m.s.buffered && m'.s.generation == m.s.generation
    && m'.s.buffering == m.s.buffering
  }

  lemma StarterLeavesLogs(c: Config, m: Machine, step: Step)
    requires Enabled(m, step) && LeavesLogs(step) && OfStarter(step)
    ensures SameLogs(m, Next(c, m, step))
  {
    hide RepairDrain;
    match step
    case HeadFetched(t, head) => assert SameLogs(m, BeginCatchUp(c, m, t, head));
    case CaughtUp(t) => assert SameLogs(m, EndCatchUp(m, t));
    case GapRecovered(t, head) => assert SameLogs(m, FinishGapRecovery(c, m, t, head));
    case AnnounceHead(t) => assert SameLogs(m, ReplayHead(m, t));
    case Conclude(t) => assert SameLogs(m, EndStart(m, t));
  }

  lemma OtherLeavesLogs(c: Config, m: Machine, step: Step)
    requires Enabled(m, step) && LeavesLogs(step) && !OfStarter(step)
    ensures SameLogs(m, Next(c, m, step))
  {
    hide RepairWork, WorkTarget;
    match step
    case LiveHead(block, g) => assert SameLogs(m, m.(s := OnLiveHead(m.s, block, g)));
    case Returned => assert SameLogs(m, FinishCallback(m));
    case CallbackThrew => assert SameLogs(m, FailCallback(m));
    case Take => assert SameLogs(m, TakeWork(m));
    case Reconciled(latest) => assert SameLogs(m, FinishWork(c, m, latest));
    case ReconcileFailed => assert SameLogs(m, FailWork(m));
    case Release => assert SameLogs(m, m.(s := OnRelease(m.s), reconciler := Waiting));
    case ShutdownWorker => assert SameLogs(m, m.(s := OnShutdownWorker(m.s)));
  }

  lemma ErrorKeepsOrder(m: Machine, gap: bool, g: nat, o: Order)
    requires KeepsOrder(m, o)
    ensures KeepsOrder(BreakStream(m, gap, g), o)
  {
    if Current(m.s, g) && m.s.buffering {
      DropKeepsOrder(m, BreakStream(m, gap, g), o);
    }
  }

  lemma OweKeepsOrder(m: Machine, o: Order)
    requires KeepsOrder(m, o) && m.delivery.Threw?
    ensures KeepsOrder(OweRecovery(m), o)
  {
    if Current(m.s, m.delivery.job.generation) && m.s.buffering {
      DropKeepsOrder(m, OweRecovery(m), o);
    }
  }

  lemma HistoricalKeepsOrder(m: Machine, log: Log, g: nat, o: Order)
    requires KeepsOrder(m, o)
    ensures KeepsOrder(m.(s := OnDispatchHistorical(m.s, log, g)), o)
  {
    OneLiveLog(m.s.historical, log, g);
  }

  lemma OrderStep(c: Config, m: Machine, step: Step, o: Order)
    requires Discipline(m) && GenerationsBounded(m) && KeepsOrder(m, o) && Enabled(m, step)
    ensures KeepsOrder(Next(c, m, step), Ordered(c, m, step, o))
  {
    hide KeepsOrder, Discipline, GenerationsBounded, HandoffDiscipline;
    if LeavesLogs(step) {
      QuietKeepsOrder(c, m, step, o);
    } else {
      match step
      case LiveLog(log, g) => AcceptKeepsOrder(c, m, log, g, o);
      case Dispatch(i) => DispatchKeepsOrder(c, m, i, o);
      case LiveError(gap, g) => ErrorKeepsOrder(m, gap, g, o);
      case StartLive(t) => StartKeepsOrder(m, t);
      case Drain(t) => DrainKeepsOrder(m, t, o);
      case AbortStart(t) => DropKeepsOrder(m, Abandon(m, t), o);
      case Historical(log, g) => HistoricalKeepsOrder(m, log, g, o);
      case Pop => PopOfRunKeepsOrder(c, m, o);
      case ScheduleRecovery => OweKeepsOrder(m, o);
      case Stop => StopKeepsOrder(m);
      case Close => StopKeepsOrder(m);
      case ShutdownDelivery => CancelKeepsOrder(m, o);
    }
  }

  lemma PopOfRunKeepsOrder(c: Config, m: Machine, o: Order)
    requires Discipline(m) && KeepsOrder(m, o) && Enabled(m, Pop)
    ensures KeepsOrder(Next(c, m, Pop), Ordered(c, m, Pop, o))
  {
    PopKeepsOrder(c, m, o);
  }

  lemma StartKeepsOrder(m: Machine, t: nat)
    requires GenerationsBounded(m) && !m.s.started
    ensures KeepsOrder(StartCall(m, t), NO_LOGS)
  {
    RenewedKeepsOrder(m, OnStartLive(m.s));
  }

  lemma StopKeepsOrder(m: Machine)
    requires GenerationsBounded(m)
    ensures KeepsOrder(Renewed(m, OnStop(m.s)), NO_LOGS)
    ensures KeepsOrder(Renewed(m, OnStop(m.s)).(closing := true), NO_LOGS)
  {
    RenewedKeepsOrder(m, OnStop(m.s));
  }

  lemma QuietKeepsOrder(c: Config, m: Machine, step: Step, o: Order)
    requires KeepsOrder(m, o) && Enabled(m, step) && LeavesLogs(step)
    ensures KeepsOrder(Next(c, m, step), Ordered(c, m, step, o))
  {
    hide Enabled, Next, LiveLogs, PartOf;
    if OfStarter(step) {
      StarterLeavesLogs(c, m, step);
    } else {
      OtherLeavesLogs(c, m, step);
    }
  }

  /** In every run the live logs of a generation come to the delivery thread in the order in which they were buffered
      or queued, across the end of buffering too: those taken, followed by those that wait, are the ones that entered,
      with the dropped ones left out. */
  lemma {:induction false} LiveLogsKeepTheirOrder(c: Config, m: Machine, steps: seq<Step>, o: Order)
    requires Inv(m) && KeepsOrder(m, o)
    ensures KeepsOrder(Execute(c, m, steps), OrderedAll(c, m, steps, o))
    decreases |steps|
  {
    hide Next, Ordered, KeepsOrder, Balanced, Discipline, GenerationsBounded, BufferHasOwner;
    if steps != [] {
      if Enabled(m, steps[0]) {
        OrderStep(c, m, steps[0], o);
        InvStep(c, m, steps[0]);
        LiveLogsKeepTheirOrder(c, Next(c, m, steps[0]), steps[1..], Ordered(c, m, steps[0], o));
      } else {
        LiveLogsKeepTheirOrder(c, m, steps[1..], o);
      }
    }
  }
}
