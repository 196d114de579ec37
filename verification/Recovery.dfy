/** The recoveries of the live protocol carried out by the indexer: what the ledger counts as settled when a recovery
    completes is what its gap reconciliation handed to the consumer (src/evm_live_handoff.cpp,
    src/evm_reorg_reconciliation.cpp). */
module Recovery {
  import opened Wrappers
  import opened Arithmetic
  import opened EvmLogs
  import opened CursorStore
  import opened Chain
  import opened DeliveredTable
  import opened Deliveries
  import opened Lifecycle
  import opened GapWindow
  import opened Indexing
  import LiveProtocol
  import LiveTheorems

  /** The log was dropped although it is canonical, and the table does not hold it. */
  ghost predicate Missed(log: Log, repair: seq<Log>, chain: Blocks, held: set<Identity>) {
    log in repair && log in chain(BlockOf(log)) && IdsOf(log) !! held
  }

  /** The log's block is on the chain but has not its confirmations yet, and lies in the window of the head. */
  predicate Unconfirmed(c: LiveProtocol.Config, head: nat, log: Log) {
    && WindowStart(head, c.lookback, c.startBlock) <= BlockOf(log) <= head
    && Confirmed(head, c.confirmations) < BlockOf(log)
  }

  /** The log's block lies in the window of the worker's recovery: up to the later of the announced and the fetched head
      after a refresh, up to the last confirmed block of the announced head without one. */
  predicate InReach(c: LiveProtocol.Config, w: LiveProtocol.Reconciler, latest: nat, log: Log)
    requires w.Working?
  {
    var reach := if !w.refresh then Confirmed(w.head, c.confirmations) else if w.head < latest then latest else w.head;
    WindowStart(reach, c.lookback, c.startBlock) <= BlockOf(log) <= reach
  }

  ghost predicate Configured(indexer: Indexer, c: LiveProtocol.Config) {
    && indexer.startBlock == c.startBlock && indexer.confirmations == c.confirmations
    && indexer.lookback == c.lookback > 0
    && indexer.startBlock <= UINT64_MAX && indexer.batchSize <= UINT64_MAX
  }

  /** reconcile_confirmed for an owed recovery. When it completes, each missed log is settled in the ledger exactly
      when it reached the consumer, and a log without its confirmations exactly when the worker refreshed the head. */
  method RecoverOverlap(indexer: Indexer, c: LiveProtocol.Config, m: LiveProtocol.Machine, latest: nat, chain: Blocks,
                        ghost numberOf: string -> nat)
    returns (completed: bool)
    requires Configured(indexer, c) && indexer.Valid() && indexer.Anchored(numberOf) && WellFormed(chain, numberOf)
    requires LiveProtocol.WorkerRecoveryRunning(m) && m.s.accepting && m.s.generation == indexer.gate.generation
    requires LiveProtocol.WorkHead(m.reconciler, latest) <= UINT64_MAX
    modifies indexer`delivered, indexer`trace, indexer`gate, indexer.store
    ensures completed && !old(indexer.gate).closing ==>
      forall log :: Missed(log, m.book.workerRepair, chain, old(indexer.delivered).Keys) ==>
        var settled := LiveTheorems.Settles(m, LiveProtocol.FinishWork(c, m, latest), log) > 0;
        && (settled <==> NetOf(indexer.trace, log) == NetOf(old(indexer.trace), log) + 1)
        && (!settled <==> NetOf(indexer.trace, log) == NetOf(old(indexer.trace), log))
        && (Unconfirmed(c, LiveProtocol.WorkHead(m.reconciler, latest), log) ==> (settled <==> m.reconciler.refresh))
        && (settled <==> InReach(c, m.reconciler, latest, log))
  {
    hide WellFormed, Consistent, GapRepaired, InStep, GapTrace, EntryAfterGap;
    var w := m.reconciler;
    var head := w.head;
    if w.refresh {
      head := Max(head, latest);
    }
    var durable := Confirmed(head, c.confirmations);
    var target := if w.refresh then head else durable;
    ghost var held, start, gate := indexer.delivered.Keys, indexer.trace, indexer.gate;
    ghost var ranges, parts;
    completed, ranges, parts := indexer.ReconcileGap(chain, target, durable, m.reconciler.generation, numberOf);
    if completed && !gate.closing {
      forall log | Missed(log, m.book.workerRepair, chain, held)
        ensures var settled := LiveTheorems.Settles(m, LiveProtocol.FinishWork(c, m, latest), log) > 0;
          && (settled <==> NetOf(indexer.trace, log) == NetOf(start, log) + 1)
          && (!settled <==> NetOf(indexer.trace, log) == NetOf(start, log))
          && (Unconfirmed(c, LiveProtocol.WorkHead(m.reconciler, latest), log) ==> (settled <==> m.reconciler.refresh))
          && (settled <==> InReach(c, m.reconciler, latest, log))
      {
        LiveTheorems.RecoverySettlesIff(c, m, latest, log, chain, numberOf, held, start, indexer.delivered.Keys,
                                        indexer.trace);
      }
    }
  }

  /** The recovery of drain_live_buffer: each missed log reaches the consumer exactly when its block lies in the
      recovery window of the head, and those are the ones the ledger settles. */
  method RecoverHandoff(indexer: Indexer, c: LiveProtocol.Config, m: LiveProtocol.Machine, caller: nat, head: nat,
                        chain: Blocks, ghost numberOf: string -> nat)
    returns (completed: bool)
    requires Configured(indexer, c) && indexer.Valid() && indexer.Anchored(numberOf) && WellFormed(chain, numberOf)
    requires LiveProtocol.Enabled(m, LiveProtocol.GapRecovered(caller, head))
    requires m.starters[caller].generation == m.s.generation == indexer.gate.generation && head <= UINT64_MAX
    modifies indexer`delivered, indexer`trace, indexer`gate, indexer.store
    ensures completed && !old(indexer.gate).closing ==>
      forall log :: Missed(log, m.book.drainRepair, chain, old(indexer.delivered).Keys) ==>
        var settled := LiveTheorems.Settles(m, LiveProtocol.FinishGapRecovery(c, m, caller, head), log) > 0;
        && (settled <==> NetOf(indexer.trace, log) == NetOf(old(indexer.trace), log) + 1)
        && (!settled <==> NetOf(indexer.trace, log) == NetOf(old(indexer.trace), log))
        && (settled <==> WindowStart(head, c.lookback, c.startBlock) <= BlockOf(log) <= head)
  {
    hide WellFormed, Consistent, GapRepaired, InStep, GapTrace, EntryAfterGap;
    var durable := Confirmed(head, c.confirmations);
    ghost var held, start, gate := indexer.delivered.Keys, indexer.trace, indexer.gate;
    ghost var ranges, parts;
    completed, ranges, parts := indexer.ReconcileGap(chain, head, durable, m.starters[caller].generation, numberOf);
    if completed && !gate.closing {
      forall log | Missed(log, m.book.drainRepair, chain, held)
        ensures var settled := LiveTheorems.Settles(m, LiveProtocol.FinishGapRecovery(c, m, caller, head), log) > 0;
          && (settled <==> NetOf(indexer.trace, log) == NetOf(start, log) + 1)
          && (!settled <==> NetOf(indexer.trace, log) == NetOf(start, log))
          && (settled <==> WindowStart(head, c.lookback, c.startBlock) <= BlockOf(log) <= head)
      {
        LiveTheorems.HandoffRecoverySettlesIff(c, m, caller, head, log, chain, numberOf, held, start,
                                               indexer.delivered.Keys, indexer.trace);
      }
    }
  }
}
