/** The state the indexer's threads share under one mutex, and the effect of each critical section on it
    (src/evm_indexer_transport.hpp, src/evm_live_handoff.cpp, src/evm_event_dispatch.cpp). */
module LiveSections {
  import opened Wrappers
  import opened Arithmetic
  import opened EvmLogs

  const LIVE_LOG_QUEUE_LIMIT: nat := 1024

  datatype Job = Job(log: Log, live: bool, generation: nat)

  datatype Shared = Shared(
    buffering: bool, started: bool, accepting: bool,
    hasBufferedHead: bool, hasPendingHead: bool,
    refreshHead: bool, overlapRecovery: bool, handoffGap: bool,
    workerShutdown: bool, deliveryShutdown: bool, reconciliationActive: bool,
    generation: nat, durableThrough: nat,
    bufferedHead: nat, pendingHead: nat, pendingGeneration: nat,
    buffered: seq<Log>, historical: seq<Job>, live: seq<Job>)

  const FRESH := Shared(false, false, false, false, false, false, false, false, false, false, false,
                        0, 0, 0, 0, 0, [], [], [])

  /** A live callback acts only for the subscription generation that is still accepting. */
  predicate Current(s: Shared, generation: nat) {
    s.accepting && generation == s.generation
  }

  function Stamped(logs: seq<Log>, generation: nat): (jobs: seq<Job>)
    ensures |jobs| == |logs|
    ensures forall i :: 0 <= i < |logs| ==> jobs[i] == Job(logs[i], true, generation)
  {
    seq(|logs|, i requires 0 <= i < |logs| => Job(logs[i], true, generation))
  }

  // ----- live callbacks -----

  function OnLiveLog(s: Shared, log: Log, generation: nat): Shared {
    if !Current(s, generation) || !s.buffering || s.handoffGap then s
    else
      var overflow := |s.buffered| >= LIVE_LOG_QUEUE_LIMIT;
      s.(buffered := if overflow then [] else s.buffered + [log], handoffGap := overflow)
  }

  function OnDispatchLive(s: Shared, log: Log, generation: nat): Shared {
    if s.deliveryShutdown || generation != s.generation then s
    else
      var overflow := |s.live| >= LIVE_LOG_QUEUE_LIMIT;
      s.(live := if overflow then [] else s.live + [Job(log, true, generation)],
         refreshHead := s.refreshHead || overflow,
         overlapRecovery := s.overlapRecovery || overflow,
         pendingGeneration := if overflow then generation else s.pendingGeneration)
  }

  function OnDispatchHistorical(s: Shared, log: Log, generation: nat): Shared {
    s.(historical := if s.deliveryShutdown || generation != s.generation then s.historical
                     else s.historical + [Job(log, false, generation)])
  }

  function OnLiveHead(s: Shared, block: nat, generation: nat): Shared {
    if !Current(s, generation) then s
    else s.(hasBufferedHead := s.hasBufferedHead || s.buffering,
            bufferedHead := if s.buffering then Max(s.bufferedHead, block) else s.bufferedHead,
            hasPendingHead := s.hasPendingHead || !s.buffering,
            pendingHead := if s.buffering then s.pendingHead else Max(s.pendingHead, block),
            pendingGeneration := if s.buffering then s.pendingGeneration else generation)
  }

  function OnLiveError(s: Shared, streamGap: bool, generation: nat): Shared {
    if !Current(s, generation) then s
    else s.(buffered := if s.buffering then [] else s.buffered,
            handoffGap := s.handoffGap || s.buffering,
            refreshHead := s.refreshHead || !s.buffering,
            overlapRecovery := s.overlapRecovery || (!s.buffering && streamGap),
            pendingGeneration := generation)
  }

  // ----- start and stop -----

  function OnStartLive(s: Shared): Shared {
    if s.started then s
    else s.(generation := s.generation + 1, accepting := true, buffering := true, buffered := [],
            hasBufferedHead := false, refreshHead := false, overlapRecovery := false, handoffGap := false,
            bufferedHead := 0)
  }

  /** What both failure exits of start_live reset; the generation is not advanced. */
  function OnAbortStart(s: Shared): Shared {
    s.(accepting := false, buffering := false, started := false, buffered := [],
       hasBufferedHead := false, hasPendingHead := false, refreshHead := false, overlapRecovery := false,
       handoffGap := false, bufferedHead := 0, pendingHead := 0)
  }

  function OnStop(s: Shared): Shared {
    OnAbortStart(s).(generation := s.generation + 1)
  }

  function OnConclude(s: Shared, generation: nat): Shared {
    if Current(s, generation) then s.(started := true) else s
  }

  function OnHeadFetched(s: Shared, durable: nat): Shared {
    s.(durableThrough := durable)
  }

  // ----- handoff -----

  datatype Drained = RecoverGap | AwaitDelivery | Finished(head: Option<nat>)

  function DrainOutcome(s: Shared): Drained {
    if s.handoffGap then RecoverGap
    else if s.buffered != [] then AwaitDelivery
    else Finished(if s.hasBufferedHead then Some(s.bufferedHead) else None)
  }

  /** One round of drain_live_buffer. It never compares its own generation with the current one. */
  function OnDrain(s: Shared, generation: nat): Shared {
    var outcome := DrainOutcome(s);
    s.(handoffGap := false, buffered := [],
       historical := if outcome.AwaitDelivery? then s.historical + Stamped(s.buffered, generation) else s.historical,
       buffering := s.buffering && !outcome.Finished?,
       hasBufferedHead := s.hasBufferedHead && !outcome.Finished?)
  }

  // ----- delivery thread -----

  predicate CanPop(s: Shared) {
    && !s.deliveryShutdown
    && (s.historical != [] || (!s.reconciliationActive && !s.refreshHead && s.live != []))
  }

  function Popped(s: Shared): Job
    requires CanPop(s)
  {
    if s.historical != [] then s.historical[0] else s.live[0]
  }

  function OnPop(s: Shared): Shared
    requires CanPop(s)
  {
    if s.historical != [] then s.(historical := s.historical[1..]) else s.(live := s.live[1..])
  }

  function OnScheduleRecovery(s: Shared, generation: nat): Shared {
    if !Current(s, generation) then s
    else s.(buffered := if s.buffering then [] else s.buffered,
            handoffGap := s.handoffGap || s.buffering,
            refreshHead := s.refreshHead || !s.buffering,
            overlapRecovery := s.overlapRecovery || !s.buffering,
            pendingGeneration := if s.buffering then s.pendingGeneration else generation)
  }

  // ----- reconciliation thread -----

  predicate CanTake(s: Shared) {
    !s.workerShutdown && (s.hasPendingHead || (s.refreshHead && !s.buffering))
  }

  function OnTake(s: Shared): Shared {
    s.(hasPendingHead := false, refreshHead := false, overlapRecovery := false, pendingHead := 0,
       reconciliationActive := true)
  }

  function OnReconciled(s: Shared, durable: nat, generation: nat): Shared {
    if Current(s, generation) then s.(durableThrough := durable) else s
  }

  function OnDrainRecovered(s: Shared, durable: nat, generation: nat): Shared {
    if generation == s.generation then s.(durableThrough := durable) else s
  }

  function OnReconcileFailed(s: Shared, recoverOverlap: bool, generation: nat): Shared {
    if Current(s, generation) && recoverOverlap then s.(overlapRecovery := true) else s
  }

  function OnRelease(s: Shared): Shared {
    if s.workerShutdown || (!s.hasPendingHead && !s.refreshHead && !s.overlapRecovery) then
      s.(reconciliationActive := false)
    else s
  }

  function OnShutdownWorker(s: Shared): Shared {
    s.(workerShutdown := true, hasPendingHead := false, refreshHead := false, overlapRecovery := false)
  }

  function OnShutdownDelivery(s: Shared): Shared {
    s.(deliveryShutdown := true, historical := [], live := [])
  }
}
