/** The indexer's delivery, its durable scans and its gap reconciliation (src/evm_event_dispatch.cpp,
    src/evm_event_indexer.cpp, src/evm_reorg_reconciliation.cpp). A scan hands one log at a time to the delivery
    thread and waits, so its deliveries happen in program order. Between any two of its actions other threads may
    call start_live, stop or the destructor, and the process may die; a callback may throw. What a contract says
    about the saved entry holds wherever the scan ends. */
module Indexing {
  import opened Wrappers
  import opened EvmLogs
  import opened CursorStore
  import opened Chain
  import opened DeliveredTable
  import opened Deliveries
  import opened Lifecycle
  import opened ScanCoverage
  import opened GapWindow

  /** What a delivery did; Refused: delivery had ended, or the generation was no longer current. */
  datatype Outcome = Handed | Duplicate | Refused | Threw

  datatype Progress = Advanced | Interrupted

  class Indexer {
    const startBlock: nat
    const confirmations: nat
    const batchSize: nat
    const lookback: nat
    const cursorName: string
    const store: FileBlockCursorStore?
    /** The environment leaves this process alone: no other thread acts, no callback throws, it does not die. */
    const calm: bool
    var gate: Gate
    var delivered: map<Identity, Delivered>
    ghost var trace: seq<Event>

    /** A new process: the durable entry and the consumer's history survive, the delivered-log table does not. */
    constructor (startBlock: nat, confirmations: nat, batchSize: nat, lookback: nat, cursorName: string,
                 store: FileBlockCursorStore?, calm: bool, ghost history: seq<Event>)
      requires AddsAreNew(history)
      ensures Valid() && delivered == map[] && gate == NEW_GATE && trace == history + [Restarted]
      ensures this.startBlock == startBlock && this.confirmations == confirmations && this.batchSize == batchSize
      ensures this.lookback == lookback && this.cursorName == cursorName && this.store == store && this.calm == calm
    {
      this.startBlock, this.confirmations, this.batchSize := startBlock, confirmations, batchSize;
      this.lookback, this.cursorName, this.store, this.calm := lookback, cursorName, store, calm;
      delivered := map[];
      gate := NEW_GATE;
      trace := history + [Restarted];
      new;
      OneMore(history, Restarted);
      forall i | 0 <= i < |trace| && trace[i].Added? ensures IdsOf(trace[i].log) !! Held(trace[..i]) {
        assert trace[..i] == history[..i];
      }
    }

    ghost predicate Valid()
      reads this
    {
      Consistent(delivered, trace) && Sound(gate)
    }

    /** The durable entry under the configured name; None when there is no store. */
    function Entry(): Option<Cursor>
      reads this, store
    {
      if store == null then None else store.Entry(cursorName)
    }

    /** Time passes: other threads act, or the process dies. */
    method Meanwhile() returns (alive: bool)
      requires Sound(gate)
      modifies this`gate
      ensures Sound(gate) && Elapses(calm, old(gate), gate) && (calm ==> alive)
    {
      if calm {
        return true;
      }
      var whats: seq<Interference> := *;
      AllIsLater(gate, whats);
      gate := AfterAll(gate, whats);
      alive := *;
    }

    /** emit_log. A live removal at or below the saved block first moves the saved entry back to it. */
    method EmitLog(log: Log, live: bool) returns (outcome: Outcome)
      requires Valid()
      modifies this`delivered, this`trace, this`gate, store
      ensures Valid() && Elapses(calm, old(gate), gate)
      ensures Entry() == if live && log.removed && log.block.Some? then AfterRewind(old(Entry()), BlockOf(log))
                         else old(Entry())
      ensures outcome.Handed? ==>
        if log.removed then trace == old(trace) + [Removed(log)] && delivered == AfterRemoval(old(delivered), log)
        else trace == old(trace) + [Added(log)] && delivered == AfterAdd(old(delivered), log)
             && IdsOf(log) !! old(delivered).Keys
      ensures outcome.Duplicate? ==> !log.removed && IdentityOf(log).Some? && IdentityOf(log).value in old(delivered)
      ensures !outcome.Handed? ==> delivered == old(delivered) && trace == old(trace)
      ensures outcome.Refused? ==> gate.shutdown
      ensures old(gate).shutdown ==> outcome.Refused?
      ensures calm && !old(gate).shutdown ==> outcome.Handed? || outcome.Duplicate?
    {
      hide Consistent;
      if live && log.removed && log.block.Some? && store != null {
        var cursor := store.LoadCursor(cursorName);
        if cursor.Some? && log.block.value <= cursor.value.block {
          store.Rewind(cursorName, log.block.value);
        }
      }
      var alive := Meanwhile();
      if gate.shutdown {
        return Refused;
      }
      outcome := HandToCallback(log);
    }

    /** The table is updated before the callback runs, and restored if it throws. */
    method HandToCallback(log: Log) returns (outcome: Outcome)
      requires Valid()
      modifies this`delivered, this`trace
      ensures Valid() && !outcome.Refused?
      ensures outcome.Handed? ==>
        if log.removed then trace == old(trace) + [Removed(log)] && delivered == AfterRemoval(old(delivered), log)
        else trace == old(trace) + [Added(log)] && delivered == AfterAdd(old(delivered), log)
             && IdsOf(log) !! old(delivered).Keys
      ensures outcome.Duplicate? ==> !log.removed && IdentityOf(log).Some? && IdentityOf(log).value in old(delivered)
      ensures !outcome.Handed? ==> delivered == old(delivered) && trace == old(trace)
      ensures calm ==> !outcome.Threw?
    {
      hide Consistent;
      var id := IdentityOf(log);
      var before := delivered;
      if log.removed {
        if id.Some? && id.value in delivered {
          delivered := delivered - {id.value};
        }
      } else if id.Some? {
        if id.value in delivered {
          return Duplicate;
        }
        delivered := delivered[id.value := Delivered(log, BlockOf(log))];
      }
      var throws: bool := *;
      if throws && !calm {
        if log.removed && id.Some? && id.value in before {
          delivered := delivered[id.value := before[id.value]];
        } else if !log.removed && id.Some? {
          delivered := delivered - {id.value};
        }
        assert delivered == before;
        return Threw;
      }
      if log.removed {
        ForgetKeepsConsistent(before, trace, Removed(log));
        assert delivered == map i | i in before && i in AfterEvent(before.Keys, Removed(log)) :: before[i];
        trace := trace + [Removed(log)];
      } else {
        AddKeepsConsistent(before, trace, log);
        trace := trace + [Added(log)];
      }
      return Handed;
    }

    /** dispatch_log for a scan of generation g: queue the log behind the ones before it and wait. A job is refused
        when it is queued, cancelled in the queue, or discarded when it is taken out. */
    method Dispatch(log: Log, g: nat) returns (outcome: Outcome)
      requires Valid() && g <= gate.generation
      modifies this`delivered, this`trace, this`gate, store
      ensures Valid() && Elapses(calm, old(gate), gate) && Entry() == old(Entry())
      ensures outcome.Handed? ==>
        if log.removed then trace == old(trace) + [Removed(log)] && delivered == AfterRemoval(old(delivered), log)
        else trace == old(trace) + [Added(log)] && delivered == AfterAdd(old(delivered), log)
             && IdsOf(log) !! old(delivered).Keys
      ensures outcome.Duplicate? ==> !log.removed && IdentityOf(log).Some? && IdentityOf(log).value in old(delivered)
      ensures !outcome.Handed? ==> delivered == old(delivered) && trace == old(trace)
      ensures outcome.Refused? ==> gate.shutdown || g < gate.generation
      ensures old(gate).shutdown ==> outcome.Refused?
      ensures calm && old(gate).generation == g && !old(gate).shutdown ==> outcome.Handed? || outcome.Duplicate?
    {
      hide Consistent;
      if gate.shutdown || g != gate.generation {
        return Refused;
      }
      var alive := Meanwhile();
      if gate.shutdown || g != gate.generation {
        return Refused;
      }
      outcome := EmitLog(log, false);
    }

    /** prune_delivered: forget the entries at or below the cutoff, one at a time. */
    method PruneDelivered(durable: nat)
      requires Valid()
      modifies this`delivered, this`trace
      ensures Valid()
      ensures delivered == AfterPrune(old(delivered), durable, lookback)
      ensures old(trace) <= trace && OnlyPrunes(trace[|old(trace)|..])
    {
      hide Consistent, Above;
      if durable <= lookback {
        return;
      }
      var cutoff := durable - lookback;
      var todo := delivered.Keys;
      while todo != {}
        invariant Valid() && todo <= delivered.Keys
        invariant Above(delivered, cutoff) == Above(old(delivered), cutoff)
        invariant forall id :: id in delivered && id !in todo ==> delivered[id].block > cutoff
        invariant old(trace) <= trace && OnlyPrunes(trace[|old(trace)|..])
        decreases todo
      {
        var id :| id in todo;
        todo := todo - {id};
        if delivered[id].block <= cutoff {
          PruneOne(delivered, trace, id, cutoff);
          delivered := delivered - {id};
          trace := trace + [Pruned(id)];
        }
      }
      AllAbove(delivered, cutoff);
    }

    method SaveCursor(cursor: Cursor)
      modifies store
      ensures Entry() == if store == null then None else AfterSave(old(Entry()), cursor)
    {
      if store != null {
        store.SaveCursor(cursorName, cursor);
      }
    }

    method SaveCheckpoint(block: nat)
      requires Valid()
      modifies this`delivered, this`trace, store
      ensures Valid()
      ensures Entry() == if store == null then None else AfterSave(old(Entry()), Cursor(block, true, None))
      ensures delivered == AfterPrune(old(delivered), block, lookback)
      ensures old(trace) <= trace && OnlyPrunes(trace[|old(trace)|..])
    {
      SaveCursor(Cursor(block, true, None));
      PruneDelivered(block);
    }

    /** Hand one scanned log to the delivery thread, wait, and save its position. Whether the log was delivered is not
        asked: only a thrown exception or a newer generation ends the scan. */
    method DeliverAndSave(log: Log, persist: bool, g: nat) returns (progress: Progress)
      requires Valid() && !log.removed && g <= gate.generation
      modifies this`delivered, this`trace, this`gate, store
      ensures Valid() && Elapses(calm, old(gate), gate)
      ensures
        || (trace == old(trace) && delivered == old(delivered))
        || (trace == old(trace) + [Added(log)] && delivered == AfterAdd(old(delivered), log)
            && IdsOf(log) !! old(delivered).Keys)
      ensures progress.Advanced? ==> gate.generation == g && (IdsOf(log) <= delivered.Keys || gate.shutdown)
      ensures old(gate).shutdown ==> trace == old(trace)
      ensures calm && old(gate).generation == g ==> progress.Advanced?
      ensures Entry() == if progress.Advanced? && persist && store != null then AfterSave(old(Entry()), LogCursor(log))
                         else old(Entry())
    {
      var outcome := Dispatch(log, g);
      var alive := Meanwhile();
      if outcome.Threw? || !alive || g != gate.generation {
        return Interrupted;
      }
      if persist {
        SaveCursor(LogCursor(log));
      }
      return Advanced;
    }

    // ----- the durable scan -----

    ghost function Now(): Moment
      reads this
    {
      Moment(trace, delivered.Keys, gate)
    }

    /** The account of a scan of generation g since it began. */
    ghost predicate Account(start: Moment, g: nat, done: seq<Log>, given: seq<Log>, clean: bool)
      reads this
    {
      Accounted(Watch(calm, g), start, Now(), done, given, clean)
    }

    ghost predicate RangeTally(scan: Scan, g: nat, handled: nat, given: nat)
      reads this
    {
      Valid() && Tally(scan, Watch(calm, g), Now(), handled, given)
    }

    /** One log of a range: after it the account of the range moves by one, or the scan ends. */
    method DeliverNth(log: Log, persist: bool, g: nat, ghost scan: Scan, ghost i: nat, ghost served: nat)
      returns (progress: Progress, ghost handled: nat, ghost given: nat)
      requires GoodRange(scan.whole, scan.numberOf) && g <= scan.start.gate.generation
      requires i < |RangeLogs(scan.whole)| && log == RangeLogs(scan.whole)[i] && !log.removed
      requires RangeTally(scan, g, i, served)
      requires persist && store != null ==> CursorAt(scan.whole, Entry(), scan.exact, i)
      modifies this`delivered, this`trace, this`gate, store
      ensures RangeTally(scan, g, handled, given)
      ensures !persist || store == null ==> Entry() == old(Entry())
      ensures progress.Advanced? ==> handled == i + 1
      ensures persist && store != null ==> Stopped(scan.whole, Entry(), scan.exact, handled)
      ensures persist && store != null && progress.Advanced? ==> CursorAt(scan.whole, Entry(), scan.exact, handled)
      ensures calm && old(gate).generation == g ==> progress.Advanced?
    {
      hide WellFormed, CursorAt, Stopped;
      ghost var r := scan.whole;
      ghost var before := Now();
      if persist && store != null {
        StopHere(r, Entry(), scan.exact, i);
        SaveMovesCursor(r, scan.numberOf, Entry(), scan.exact, i);
      }
      progress := DeliverAndSave(log, persist, g);
      ghost var advanced := progress.Advanced?;
      TallyNext(scan, Watch(calm, g), before, i, served, Now(), advanced);
      handled := if trace != before.trace || advanced then i + 1 else i;
      given := if served == i && Kept(log, before, Now(), advanced) then i + 1 else served;
      if persist && store != null && progress.Advanced? {
        StopHere(r, Entry(), scan.exact, handled);
      }
    }

    /** The loop of scan_ranges over one range's logs, in canonical order, skipping those the resumed position
        covers. handled counts the logs of the range that are behind the scan when it ends. */
    method DeliverRange(logs: seq<Log>, persist: bool, resume: Option<Cursor>, g: nat, ghost scan: Scan)
      returns (completed: bool, seen: nat, ghost handled: nat, ghost given: nat)
      requires GoodRange(scan.whole, scan.numberOf) && logs == RangeLogs(scan.whole) && g <= scan.start.gate.generation
      requires scan.whole.skip == SkipAt(scan.whole.chain, resume, scan.whole.from)
      requires resume.Some? && !resume.value.complete ==> resume.value.block <= scan.whole.from
      requires RangeTally(scan, g, scan.whole.skip, scan.whole.skip)
      requires persist && store != null ==> CursorAt(scan.whole, Entry(), scan.exact, scan.whole.skip)
      modifies this`delivered, this`trace, this`gate, store
      ensures RangeTally(scan, g, handled, given) && (calm ==> gate == old(gate))
      ensures !persist || store == null ==> Entry() == old(Entry())
      ensures completed ==> handled == |logs| && seen == handled - scan.whole.skip
      ensures persist && store != null ==> Stopped(scan.whole, Entry(), scan.exact, handled)
      ensures persist && store != null && completed ==> CursorAt(scan.whole, Entry(), scan.exact, handled)
      ensures calm && old(gate).generation == g ==> completed
    {
      hide WellFormed, CursorAt, Stopped, Consistent, DeliveredUpTo, Accounted, SkipAt, Elapses, Later;
      ghost var r := scan.whole;
      LogsAreCanonical(r.chain, scan.numberOf, r.from, r.end);
      completed, seen, handled, given := false, 0, r.skip, r.skip;
      for i := 0 to |logs|
        invariant handled == if i < r.skip then r.skip else i
        invariant seen == handled - r.skip && r.skip <= given
        invariant RangeTally(scan, g, handled, given)
        invariant persist && store != null ==> CursorAt(r, Entry(), scan.exact, handled)
        invariant !persist || store == null ==> Entry() == old(Entry())
        invariant calm ==> gate == old(gate)
      {
        SkippedIff(r, scan.numberOf, resume, i);
        if AlreadyHandled(resume, logs[i]) {
          continue;
        }
        seen := seen + 1;
        assert logs[i] in logs;
        TallyKeepsSkip(scan, Watch(calm, g), Now(), handled, given);
        var progress;
        progress, handled, given := DeliverNth(logs[i], persist, g, scan, i, given);
        TallyKeepsSkip(scan, Watch(calm, g), Now(), handled, given);
        if progress.Interrupted? {
          return;
        }
      }
      completed := true;
      if persist && store != null {
        StopHere(r, Entry(), scan.exact, handled);
      }
    }

    /** The checkpoint after the last log of a range. */
    method CloseRange(to: nat, ghost scan: Scan, g: nat, ghost given: nat)
      requires GoodRange(scan.whole, scan.numberOf) && scan.whole.end == to + 1
      requires RangeTally(scan, g, |RangeLogs(scan.whole)|, given)
      requires store != null ==> CursorAt(scan.whole, Entry(), scan.exact, |RangeLogs(scan.whole)|)
      modifies this`delivered, this`trace, store
      ensures RangeTally(scan, g, |RangeLogs(scan.whole)|, given)
      ensures store == null ==> Entry() == old(Entry())
      ensures store != null ==>
        Entry() == Some(Cursor(to, true, None)) && Stopped(scan.whole, Entry(), scan.exact, |RangeLogs(scan.whole)|)
    {
      ghost var r, before := scan.whole, Now();
      if store != null {
        CheckpointClosesRange(r, scan.numberOf, Entry(), scan.exact);
      }
      SaveCheckpoint(to);
      TallyAfterPrunes(scan, Watch(calm, g), before, |RangeLogs(r)|, given, Now());
    }

    /** Time passes inside a range. */
    method WaitInRange(ghost scan: Scan, g: nat, ghost handled: nat, ghost given: nat) returns (alive: bool)
      requires RangeTally(scan, g, handled, given)
      modifies this`gate
      ensures RangeTally(scan, g, handled, given) && (calm ==> alive && gate == old(gate))
    {
      ghost var before := Now();
      alive := Meanwhile();
      TallyLater(scan, Watch(calm, g), before, handled, given, gate);
    }

    /** scan_ranges, one range: fetch, sort, deliver, checkpoint. */
    method ScanRange(chain: Blocks, from: nat, to: nat, persist: bool, resume: Option<Cursor>, g: nat,
                     ghost scan: Scan)
      returns (completed: bool, seen: nat, ghost handled: nat, ghost given: nat)
      requires Valid() && GoodRange(scan.whole, scan.numberOf) && g <= scan.start.gate.generation
      requires scan.whole.chain == chain && scan.whole.from == from && scan.whole.end == to + 1
      requires scan.whole.skip == SkipAt(chain, resume, from) && scan.start == Now()
      requires resume.Some? && !resume.value.complete ==> resume.value.block <= from
      requires scan.clean ==> BelowBlock(delivered.Keys, scan.numberOf, from)
      requires persist && store != null ==> CursorAt(scan.whole, Entry(), scan.exact, scan.whole.skip)
      modifies this`delivered, this`trace, this`gate, store
      ensures RangeTally(scan, g, handled, given)
      ensures !persist || store == null ==> Entry() == old(Entry())
      ensures completed ==> handled == |RangeLogs(scan.whole)| && seen == handled - scan.whole.skip
      ensures persist && store != null ==> Stopped(scan.whole, Entry(), scan.exact, handled)
      ensures persist && store != null && completed ==> Entry() == Some(Cursor(to, true, None))
      ensures calm && old(gate).generation == g ==> completed
    {
      hide Consistent, CursorAt, Stopped, WellFormed, BelowBlock, Tally;
      StartOfTally(scan, Watch(calm, g));
      if persist && store != null {
        StopHere(scan.whole, Entry(), scan.exact, scan.whole.skip);
      }
      completed, seen, handled, given := false, 0, scan.whole.skip, scan.whole.skip;
      var alive := WaitInRange(scan, g, handled, given);
      if !alive || g != gate.generation {
        return;
      }
      var logs := FetchSorted(chain, from, to + 1, scan.numberOf);
      completed, seen, handled, given := DeliverRange(logs, persist, resume, g, scan);
      alive := WaitInRange(scan, g, handled, given);
      if !completed || !alive || g != gate.generation {
        completed := false;
        return;
      }
      if persist {
        CloseRange(to, scan, g, given);
      }
    }

    /** Between two batches: everything up to block e is done and, when persisted, checkpointed. */
    ghost predicate AtBoundary(scan: Scan, e: nat, persist: bool, g: nat, done: seq<Log>, given: seq<Log>)
      requires scan.whole.skip <= |scan.whole.chain(scan.whole.from)|
      reads this, store
    {
      && Valid()
      && scan.whole.from <= e <= scan.whole.end && Elapses(calm, scan.start.gate, gate)
      && done == DoneLogs(scan.whole.chain, scan.whole.from, e, scan.whole.skip)
      && Account(scan.start, g, done, given, scan.clean)
      && (scan.clean ==> BelowBlock(delivered.Keys, scan.numberOf, e))
      && Entry() == if persist && store != null && scan.whole.from < e then Some(Cursor(e - 1, true, None))
                    else scan.entry
    }

    lemma BoundaryAtStart(scan: Scan, persist: bool, g: nat)
      requires Valid() && GoodRange(scan.whole, scan.numberOf)
      requires scan.start == Now() && scan.entry == Entry() && g <= gate.generation
      requires scan.clean ==> BelowBlock(delivered.Keys, scan.numberOf, scan.whole.from)
      ensures AtBoundary(scan, scan.whole.from, persist, g, [], [])
    {
      hide Consistent, WellFormed, BelowBlock, Accounted;
      NothingAccounted(Watch(calm, g), Now(), scan.clean);
    }

    lemma BoundaryStands(scan: Scan, e: nat, persist: bool, g: nat, done: seq<Log>, given: seq<Log>)
      requires scan.whole.skip <= |scan.whole.chain(scan.whole.from)|
      requires AtBoundary(scan, e, persist, g, done, given)
      ensures Valid() && Account(scan.start, g, done, given, scan.clean) && Elapses(calm, scan.start.gate, gate)
      ensures !persist || store == null ==> Entry() == scan.entry
    {
    }

    method ScanBatch(chain: Blocks, range: BlockRange, persist: bool, resume: Option<Cursor>, g: nat,
                     ghost scan: Scan, ghost earlier: seq<Log>, ghost served: seq<Log>)
      returns (completed: bool, ghost done: seq<Log>, ghost given: seq<Log>)
      requires GoodRange(scan.whole, scan.numberOf) && scan.whole.chain == chain && g <= scan.start.gate.generation
      requires scan.whole.skip == SkipAt(chain, resume, scan.whole.from)
      requires AtBoundary(scan, range.from, persist, g, earlier, served)
      requires range.from <= range.to < scan.whole.end
      requires resume.Some? && !resume.value.complete ==> resume.value.block <= scan.whole.from
      requires persist && store != null ==> resume == scan.entry && ResumesAt(scan.whole, scan.entry, scan.exact)
      modifies this`delivered, this`trace, this`gate, store
      ensures Valid() && Account(scan.start, g, done, given, scan.clean)
      ensures done <= DoneLogs(chain, scan.whole.from, scan.whole.end, scan.whole.skip)
      ensures completed ==> AtBoundary(scan, range.to + 1, persist, g, done, given)
      ensures !persist || store == null ==> Entry() == scan.entry
      ensures ScanAccount(chain, scan.whole.base, persist && store != null,
                          Covered(chain, scan.whole.base, scan.entry), done, Entry(), scan.exact)
      ensures calm && old(gate).generation == g ==> completed
    {
      hide Consistent, CursorAt, WellFormed, Accounted, Stopped, Covered, BelowBlock, DoneLogs, ScanAccount, Tally;
      hide ResumesAt, Within, BatchRange, SkipAt, RangeLogs, Elapses, Later, Resumable, OnChain;
      ghost var whole, r := scan.whole, BatchRange(scan.whole, range);
      ghost var part := Scan(r, scan.numberOf, scan.exact, scan.clean, Entry(), Now());
      BatchStarts(whole, range, scan.numberOf, resume, scan.entry, persist && store != null, scan.exact);
      GenerationStays(calm, scan.start.gate, gate, g);
      var seen; ghost var handled, kept;
      completed, seen, handled, kept := ScanRange(chain, range.from, range.to, persist, resume, g, part);
      TallyAccounts(part, Watch(calm, g), Now(), handled, kept);
      ghost var here, keptHere := RangeLogs(r)[r.skip..handled], RangeLogs(r)[r.skip..kept];
      done := earlier + here;
      given := if served == earlier then served + keptHere else served;
      AccountsJoin(Watch(calm, g), scan.start, part.start, Now(), earlier, served, here, keptHere, scan.clean);
      AccountElapses(Watch(calm, g), scan.start, Now(), done, given, scan.clean);
      BatchDone(whole, r, handled);
      SavedAfterBatch(persist && store != null, whole, r, handled, scan.entry, Entry(), scan.exact);
    }

    /** scan_ranges over all batches. done lists, after what the saved entry covered, the logs that are behind the
        scan; given the part of them that reached the consumer or was found delivered by this process. */
    method ScanRanges(chain: Blocks, ghost base: nat, from: nat, to: nat, persist: bool, resume: Option<Cursor>,
                      g: nat, ghost numberOf: string -> nat, ghost exact: bool, ghost clean: bool)
      returns (completed: bool, ghost done: seq<Log>, ghost given: seq<Log>)
      requires Valid() && WellFormed(chain, numberOf) && base <= from && g <= gate.generation
      requires to <= UINT64_MAX && batchSize <= UINT64_MAX && (from <= to ==> from <= UINT64_MAX)
      requires resume.Some? && !resume.value.complete ==> resume.value.block <= from
      requires clean ==> BelowBlock(delivered.Keys, numberOf, from)
      requires persist && store != null ==>
        && resume == Entry() && ResumeBlock(resume, startBlock) == from
        && (resume.None? ==> base == startBlock) && (exact ==> OnChain(chain, resume)) && Resumable(resume, base)
      modifies this`delivered, this`trace, this`gate, store
      ensures Valid() && Account(old(Now()), g, done, given, clean) && Elapses(calm, old(gate), gate)
      ensures !persist || store == null ==> Entry() == old(Entry())
      ensures done <= DoneLogs(chain, from, to + 1, SkipAt(chain, resume, from))
      ensures ScanAccount(chain, base, persist && store != null, Covered(chain, base, old(Entry())), done, Entry(),
                          exact)
      ensures completed ==> done == DoneLogs(chain, from, to + 1, SkipAt(chain, resume, from))
      ensures completed && clean ==> BelowBlock(delivered.Keys, numberOf, if from <= to then to + 1 else from)
      ensures completed && persist && store != null && from <= to ==> Entry() == Some(Cursor(to, true, None))
      ensures from > to ==> Entry() == old(Entry())
      ensures calm && old(gate).generation == g && batchSize > 0 ==> completed
    {
      hide Consistent, WellFormed, Covered, BelowBlock, ResumesAt, Accounted;
      done, given := [], [];
      NothingAccounted(Watch(calm, g), Now(), clean);
      if from > to {
        return batchSize > 0, done, given;
      }
      var ranges := MakeBlockRanges(from, to, batchSize);
      if ranges.Err? {
        return false, done, given;
      }
      ghost var scan := Scan(Range(chain, base, from, to + 1, SkipAt(chain, resume, from)), numberOf, exact, clean,
                             Entry(), Now());
      if persist && store != null {
        ResumesHere(chain, numberOf, base, to + 1, resume, startBlock, exact);
      }
      completed, done, given := ScanBatches(chain, ranges.value, persist, resume, g, scan);
    }

    method ScanBatches(chain: Blocks, ranges: seq<BlockRange>, persist: bool, resume: Option<Cursor>, g: nat,
                       ghost scan: Scan)
      returns (completed: bool, ghost done: seq<Log>, ghost given: seq<Log>)
      requires Valid() && GoodRange(scan.whole, scan.numberOf) && scan.whole.chain == chain
      requires scan.start == Now() && scan.entry == Entry() && g <= gate.generation
      requires scan.whole.skip == SkipAt(chain, resume, scan.whole.from)
      requires Tiles(ranges, scan.whole.from, scan.whole.end, batchSize)
      requires resume.Some? && !resume.value.complete ==> resume.value.block <= scan.whole.from
      requires scan.clean ==> BelowBlock(delivered.Keys, scan.numberOf, scan.whole.from)
      requires persist && store != null ==> resume == Entry() && ResumesAt(scan.whole, resume, scan.exact)
      modifies this`delivered, this`trace, this`gate, store
      ensures Valid() && Account(old(Now()), g, done, given, scan.clean)
      ensures Elapses(calm, old(gate), gate)
      ensures done <= DoneLogs(chain, scan.whole.from, scan.whole.end, scan.whole.skip)
      ensures completed ==> AtBoundary(scan, scan.whole.end, persist, g, done, given)
      ensures !persist || store == null ==> Entry() == old(Entry())
      ensures ScanAccount(chain, scan.whole.base, persist && store != null,
                          Covered(chain, scan.whole.base, old(Entry())), done, Entry(), scan.exact)
      ensures calm && old(gate).generation == g ==> completed
    {
      hide Consistent, WellFormed, BelowBlock, Accounted, ResumesAt, ScanAccount, Covered, RangeLogs, Resumable;
      hide SkipAt, OnChain, Tally, CursorAt, Stopped, DoneLogs, AtBoundary, Elapses, Later;
      done, given := [], [];
      BoundaryAtStart(scan, persist, g);
      ghost var e, covered := scan.whole.from, Covered(chain, scan.whole.base, Entry());
      ScanBegins(scan, persist && store != null);
      for i := 0 to |ranges|
        invariant e == if i == 0 then scan.whole.from else ranges[i - 1].to + 1
        invariant AtBoundary(scan, e, persist, g, done, given)
        invariant done <= DoneLogs(chain, scan.whole.from, scan.whole.end, scan.whole.skip)
        invariant ScanAccount(chain, scan.whole.base, persist && store != null, covered, done, Entry(), scan.exact)
      {
        BoundaryStands(scan, e, persist, g, done, given);
        GenerationStays(calm, scan.start.gate, gate, g);
        TilesFrom(ranges, scan.whole.from, scan.whole.end, batchSize, i);
        TilesTo(ranges, scan.whole.from, scan.whole.end, batchSize, i);
        completed, done, given := ScanBatch(chain, ranges[i], persist, resume, g, scan, done, given);
        AccountElapses(Watch(calm, g), scan.start, Now(), done, given, scan.clean);
        if !completed {
          return;
        }
        e := ranges[i].to + 1;
      }
      BoundaryStands(scan, e, persist, g, done, given);
      completed := true;
    }

    /** catch_up_to: resume after the saved entry, scan durably up to the confirmed block, then, without saving, the
        blocks between it and the target. */
    method CatchUpTo(chain: Blocks, ghost base: nat, target: nat, durableThrough: nat, g: nat,
                     ghost numberOf: string -> nat, ghost exact: bool, ghost clean: bool)
      returns (completed: bool, ghost done: seq<Log>, ghost unconfirmed: seq<Log>, ghost given: seq<Log>)
      requires Valid() && WellFormed(chain, numberOf) && target <= UINT64_MAX && durableThrough <= UINT64_MAX
      requires batchSize <= UINT64_MAX && startBlock <= UINT64_MAX && g <= gate.generation
      requires Resumable(Entry(), base) && (Entry().None? ==> base == startBlock)
      requires exact ==> OnChain(chain, Entry())
      requires clean ==> BelowBlock(delivered.Keys, numberOf, ResumeBlock(Entry(), startBlock))
      modifies this`delivered, this`trace, this`gate, store
      ensures Valid() && Account(old(Now()), g, done + unconfirmed, given, clean)
      ensures store == null ==> Entry() == old(Entry())
      ensures ScanAccount(chain, base, store != null, Covered(chain, base, old(Entry())), done, Entry(), exact)
      ensures var from := ResumeBlock(old(Entry()), startBlock);
        var durableTo := if target < durableThrough then target else durableThrough;
        && done <= DoneLogs(chain, from, durableTo + 1, SkipAt(chain, old(Entry()), from))
        && (completed ==> done == DoneLogs(chain, from, durableTo + 1, SkipAt(chain, old(Entry()), from)))
        && (completed && store != null && from <= durableTo ==> Entry() == Some(Cursor(durableTo, true, None)))
        && (from > durableTo ==> Entry() == old(Entry()))
      ensures target <= durableThrough ==> unconfirmed == []
      ensures target > durableThrough ==>
        var from := ResumeBlock(old(Entry()), startBlock);
        var rest := if from < durableThrough + 1 then durableThrough + 1 else from;
        unconfirmed <= DoneLogs(chain, rest, target + 1, SkipAt(chain, old(Entry()), rest))
      ensures completed && target > durableThrough ==>
        var from := ResumeBlock(old(Entry()), startBlock);
        var rest := if from < durableThrough + 1 then durableThrough + 1 else from;
        unconfirmed == DoneLogs(chain, rest, target + 1, SkipAt(chain, old(Entry()), rest))
      ensures calm && old(gate).generation == g && batchSize > 0 ==> completed
    {
      hide Consistent, WellFormed, Covered, BelowBlock, OnChain, Accounted, ScanAccount, SkipAt;
      NothingScannedYet(chain, base, Entry(), exact);
      NothingAccounted(Watch(calm, g), Now(), clean);
      var saved := None;
      if store != null {
        saved := store.LoadCursor(cursorName);
      }
      done, unconfirmed, given := [], [], [];
      if saved.Some? && saved.value.complete && saved.value.block == UINT64_MAX {
        assert done + unconfirmed == [];
        return true, done, unconfirmed, given;
      }
      var from := ResumeBlock(saved, startBlock);
      var durableTo := if target < durableThrough then target else durableThrough;
      completed, done, given := ScanRanges(chain, base, from, durableTo, true, saved, g, numberOf, exact, clean);
      assert done + [] == done;
      if !completed || target <= durableThrough {
        return;
      }
      ghost var middle, served := Now(), given;
      var rest := if from < durableThrough + 1 then durableThrough + 1 else from;
      completed, unconfirmed, given := ScanRanges(chain, base, rest, target, false, saved, g, numberOf, false, clean);
      AccountsJoin(Watch(calm, g), old(Now()), middle, Now(), done, served, unconfirmed, given, clean);
      given := if served == done then served + given else served;
    }

    /** catch_up: everything up to the confirmed head is scanned durably. The generation is read when the answer to
        the head request is there; meanwhile tells what other threads did while it was out. */
    method CatchUp(chain: Blocks, head: nat, meanwhile: seq<Interference>, ghost base: nat,
                   ghost numberOf: string -> nat, ghost exact: bool, ghost clean: bool)
      returns (completed: bool, ghost done: seq<Log>, ghost given: seq<Log>)
      requires Valid() && WellFormed(chain, numberOf) && head <= UINT64_MAX
      requires batchSize <= UINT64_MAX && startBlock <= UINT64_MAX
      requires Resumable(Entry(), base) && (Entry().None? ==> base == startBlock)
      requires exact ==> OnChain(chain, Entry())
      requires clean ==> BelowBlock(delivered.Keys, numberOf, ResumeBlock(Entry(), startBlock))
      modifies this`delivered, this`trace, this`gate, store
      ensures Valid()
      ensures var read := AfterAll(old(gate), meanwhile);
        && Account(old(Now()).(gate := read), read.generation, done, given, clean)
        && (!read.closing ==> given == done)
        && (read.shutdown ==> Silent(old(trace), trace))
      ensures store == null ==> Entry() == old(Entry())
      ensures ScanAccount(chain, base, store != null, Covered(chain, base, old(Entry())), done, Entry(), exact)
      ensures var from := ResumeBlock(old(Entry()), startBlock);
        var target := Confirmed(head, confirmations);
        && (completed ==> done == DoneLogs(chain, from, target + 1, SkipAt(chain, old(Entry()), from)))
        && (completed && store != null && from <= target ==> Entry() == Some(Cursor(target, true, None)))
        && (from > target ==> Entry() == old(Entry()))
      ensures calm && batchSize > 0 ==> completed
    {
      var target := Confirmed(head, confirmations);
      AllIsLater(gate, meanwhile);
      gate := AfterAll(gate, meanwhile);
      var g := gate.generation;
      ghost var unconfirmed;
      completed, done, unconfirmed, given := CatchUpTo(chain, base, target, target, g, numberOf, exact, clean);
      assert done + [] == done;
    }

    /** start_live up to the end of its catch-up: the new generation begins, the subscription and the head request take
        their time and may fail, and everything up to the head is scanned, durably up to the confirmed block. */
    method CatchUpLive(chain: Blocks, head: nat, meanwhile: seq<Interference>, ghost base: nat,
                       ghost numberOf: string -> nat, ghost exact: bool, ghost clean: bool)
      returns (completed: bool, ghost done: seq<Log>, ghost unconfirmed: seq<Log>, ghost given: seq<Log>)
      requires Valid() && WellFormed(chain, numberOf) && head <= UINT64_MAX
      requires batchSize <= UINT64_MAX && startBlock <= UINT64_MAX
      requires Resumable(Entry(), base) && (Entry().None? ==> base == startBlock)
      requires exact ==> OnChain(chain, Entry())
      requires clean ==> BelowBlock(delivered.Keys, numberOf, ResumeBlock(Entry(), startBlock))
      modifies this`delivered, this`trace, this`gate, store
      ensures Valid()
      ensures var begun := AfterOne(AfterAll(old(gate), meanwhile), Start);
        && Account(old(Now()).(gate := begun), begun.generation, done + unconfirmed, given, clean)
        && (!begun.closing ==> given == done + unconfirmed)
      ensures store == null ==> Entry() == old(Entry())
      ensures ScanAccount(chain, base, store != null, Covered(chain, base, old(Entry())), done, Entry(), exact)
      ensures var from := ResumeBlock(old(Entry()), startBlock);
        var durable := Confirmed(head, confirmations);
        && (completed ==> done == DoneLogs(chain, from, durable + 1, SkipAt(chain, old(Entry()), from)))
        && (completed && store != null && from <= durable ==> Entry() == Some(Cursor(durable, true, None)))
        && (from > durable ==> Entry() == old(Entry()))
      ensures UnconfirmedOf(chain, ResumeBlock(old(Entry()), startBlock), old(Entry()),
                            Confirmed(head, confirmations), head, unconfirmed, completed)
      ensures calm && batchSize > 0 ==> completed
    {
      hide Accounted, WellFormed, Consistent, ScanAccount, OnChain, BelowBlock, Covered, DoneLogs, SkipAt;
      completed, done, unconfirmed, given := false, [], [], [];
      AllIsLater(gate, meanwhile);
      OneIsLater(gate, AfterAll(gate, meanwhile), Start);
      gate := AfterOne(AfterAll(gate, meanwhile), Start);
      var g := gate.generation;
      ghost var begun, entry := gate, Entry();
      var alive := Meanwhile();
      var fails: bool := *;
      assert done + unconfirmed == [];
      NothingAccounted(Watch(calm, g), Now(), clean);
      NothingScannedYet(chain, base, entry, exact);
      NothingUnconfirmed(chain, ResumeBlock(entry, startBlock), entry, Confirmed(head, confirmations), head);
      ghost var before := Now();
      if alive && (calm || !fails) {
        completed, done, unconfirmed, given :=
          CatchUpTo(chain, base, head, Confirmed(head, confirmations), g, numberOf, exact, clean);
      }
      AccountWaits(Watch(calm, g), begun, before, Now(), done + unconfirmed, given, clean);
      WholeIfInTime(Watch(calm, g), before.(gate := begun), Now(), done + unconfirmed, given, clean);
    }

    // ----- gap reconciliation -----

    ghost predicate Anchored(numberOf: string -> nat)
      reads this`delivered
    {
      AnchoredTable(delivered, numberOf)
    }

    /** The retractions a range needs: the delivered logs of its blocks that are not canonical, marked removed. */
    method CollectOrphans(from: nat, to: nat, canonicalIds: set<Identity>, ghost numberOf: string -> nat)
      returns (orphans: seq<Log>)
      requires Valid() && Anchored(numberOf)
      ensures DistinctIds(orphans) && Sorted(orphans)
      ensures forall i :: 0 <= i < |orphans| ==> orphans[i].removed
      ensures IdsOfAll(orphans)
           == set id | id in delivered && AtBlock(numberOf, id, from, to + 1) && id !in canonicalIds
    {
      hide Consistent, Sorted, DistinctIds;
      var found: seq<Log> := [];
      var todo := delivered.Keys;
      NothingFound(delivered, from, to + 1, canonicalIds, numberOf);
      while todo != {}
        invariant todo <= delivered.Keys
        invariant OrphansFound(found, delivered, todo, from, to + 1, canonicalIds, numberOf)
        decreases todo
      {
        var id :| id in todo;
        ghost var rest := todo;
        todo := todo - {id};
        OrphanIs(delivered, trace, numberOf, id);
        var taken := from <= delivered[id].block <= to && id !in canonicalIds;
        FindOrphan(found, delivered, rest, from, to + 1, canonicalIds, numberOf, id, taken);
        if taken {
          found := found + [delivered[id].log.(removed := true)];
        }
      }
      orphans := StableSort(found);
      SortedKeepsIds(orphans, found);
    }

    /** Hand the retractions to the consumer one by one; the scan ends if one is not delivered. */
    method RemoveOrphans(orphans: seq<Log>, g: nat, ghost numberOf: string -> nat)
      returns (completed: bool, ghost n: nat)
      requires Valid() && Anchored(numberOf) && forall i :: 0 <= i < |orphans| ==> orphans[i].removed
      requires g <= gate.generation
      modifies this`delivered, this`trace, this`gate, store
      ensures Valid() && Anchored(numberOf) && Entry() == old(Entry()) && Elapses(calm, old(gate), gate)
      ensures n <= |orphans| && (completed ==> n == |orphans|)
      ensures Calls(trace) == Calls(old(trace)) + Removals(orphans[..n])
      ensures delivered.Keys == old(delivered).Keys - IdsOfAll(orphans[..n])
      ensures calm && old(gate).generation == g && !old(gate).shutdown ==> completed
    {
      hide Consistent, TableMatches, Calls, AnchoredTable, IdsOfAll, AfterRemoval, Removals;
      n := 0;
      NothingRetracted(orphans, trace);
      for i := 0 to |orphans|
        invariant n == i
        invariant Valid() && Anchored(numberOf) && Entry() == old(Entry()) && Elapses(calm, old(gate), gate)
        invariant Calls(trace) == Calls(old(trace)) + Removals(orphans[..i])
        invariant delivered.Keys == old(delivered).Keys - IdsOfAll(orphans[..i])
      {
        ghost var before, table := trace, delivered;
        var outcome := Dispatch(orphans[i], g);
        if !outcome.Handed? {
          return false, n;
        }
        RetractOne(orphans, i, old(trace), before, old(delivered).Keys, table.Keys);
        RemovalKeepsAnchored(table, numberOf, orphans[i]);
        n := i + 1;
        var alive := Meanwhile();
        if !alive {
          return false, n;
        }
      }
      assert orphans[..|orphans|] == orphans;
      completed := true;
    }

    /** How far the additions of a range have come: passed logs lie behind the scan, the first given of them were
        handed over or found in the table. */
    ghost predicate AddedUpTo(logs: seq<Log>, held: set<Identity>, start: seq<Event>, passed: nat, given: nat)
      reads this
    {
      && given <= passed <= |logs|
      && (given == passed || gate.shutdown)
      && Calls(trace) == Calls(start) + Adds(Missing(logs[..given], held))
      && delivered.Keys == held + IdsOfAll(logs[..given])
    }

    /** Hand the canonical logs over; those the table holds are not repeated. */
    method AddMissing(logs: seq<Log>, ghost r: Range, persist: bool, g: nat, ghost timely: bool,
                      ghost numberOf: string -> nat)
      returns (completed: bool, ghost passed: nat, ghost given: nat)
      requires Valid() && Anchored(numberOf) && GoodRange(r, numberOf) && logs == RangeLogs(r) && r.skip == 0
      requires g <= gate.generation && (timely ==> InTime(gate, g))
      requires persist && store != null ==> CursorAt(r, Entry(), false, 0)
      modifies this`delivered, this`trace, this`gate, store
      ensures Valid() && Anchored(numberOf) && Elapses(calm, old(gate), gate)
      ensures AddedUpTo(logs, old(delivered).Keys, old(trace), passed, given) && (timely ==> given == passed)
      ensures completed ==> passed == |logs|
      ensures !persist || store == null ==> Entry() == old(Entry())
      ensures persist && store != null ==> Stopped(r, Entry(), false, passed)
      ensures persist && store != null && completed ==> CursorAt(r, Entry(), false, passed)
      ensures calm && old(gate).generation == g ==> completed
    {
      hide Consistent, CursorAt, Stopped, WellFormed, Anchored;
      passed, given := 0, 0;
      LogsAreCanonical(r.chain, numberOf, r.from, r.end);
      if persist && store != null {
        StopHere(r, Entry(), false, 0);
      }
      for i := 0 to |logs|
        invariant passed == i && Elapses(calm, old(gate), gate)
        invariant Valid() && Anchored(numberOf)
        invariant AddedUpTo(logs, old(delivered).Keys, old(trace), passed, given) && (timely ==> given == passed)
        invariant !persist || store == null ==> Entry() == old(Entry())
        invariant persist && store != null ==> CursorAt(r, Entry(), false, i) && Stopped(r, Entry(), false, i)
      {
        assert logs[i] in logs;
        if timely {
          StillInTime(old(gate), gate, g);
        }
        var progress;
        progress, passed, given := AddNth(logs, i, given, r, persist, g, timely, numberOf, old(trace),
                                          old(delivered).Keys);
        if progress.Interrupted? {
          return false, passed, given;
        }
      }
      completed := true;
    }

    method AddNth(logs: seq<Log>, i: nat, ghost served: nat, ghost r: Range, persist: bool, g: nat,
                  ghost timely: bool, ghost numberOf: string -> nat, ghost start: seq<Event>,
                  ghost held: set<Identity>)
      returns (progress: Progress, ghost passed: nat, ghost given: nat)
      requires Valid() && Anchored(numberOf) && GoodRange(r, numberOf) && logs == RangeLogs(r) && i < |logs|
      requires Canonical(logs[i], numberOf, r.from, r.end)
      requires AddedUpTo(logs, held, start, i, served) && (timely ==> served == i)
      requires g <= gate.generation && (timely ==> InTime(gate, g))
      requires persist && store != null ==> CursorAt(r, Entry(), false, i)
      modifies this`delivered, this`trace, this`gate, store
      ensures Valid() && Anchored(numberOf) && Elapses(calm, old(gate), gate)
      ensures AddedUpTo(logs, held, start, passed, given) && (timely ==> given == passed)
      ensures progress.Advanced? ==> passed == i + 1
      ensures !persist || store == null ==> Entry() == old(Entry())
      ensures persist && store != null ==> Stopped(r, Entry(), false, passed)
      ensures persist && store != null && progress.Advanced? ==> CursorAt(r, Entry(), false, passed)
      ensures calm && old(gate).generation == g ==> progress.Advanced?
    {
      if persist && store != null {
        StopHere(r, Entry(), false, i);
        SaveMovesCursor(r, numberOf, Entry(), false, i);
      }
      hide WellFormed, CursorAt, Stopped, Calls, Missing, Logs, Consistent, AnchoredTable, AfterAdd, IdsOfAll;
      ghost var before, keys := trace, delivered.Keys;
      AddKeepsAnchored(delivered, numberOf, logs[i]);
      progress := DeliverAndSave(logs[i], persist, g);
      passed := if trace != before || progress.Advanced? then i + 1 else i;
      ghost var kept := trace != before || (progress.Advanced? && IdsOf(logs[i]) <= delivered.Keys);
      given := if served == i && kept then i + 1 else served;
      if served == i {
        AddOneMissing(r, numberOf, i, start, before, keys, held, trace, delivered.Keys, given);
      }
      if persist && store != null && progress.Advanced? {
        StopHere(r, Entry(), false, passed);
      }
    }

    /** scan_gap_ranges, one range: fetch the canonical logs, retract the orphans, add what is missing, checkpoint.
        The range lies in a recovery window that begins at r.base and is no longer than the lookback. */
    method ReconcileRange(ghost r: Range, chain: Blocks, from: nat, to: nat, persist: bool, g: nat,
                          ghost timely: bool, ghost numberOf: string -> nat)
      returns (completed: bool, ghost calls: seq<Event>, ghost passed: nat)
      requires Valid() && Anchored(numberOf) && GoodRange(r, numberOf) && r.skip == 0
      requires r.chain == chain && r.from == from && r.end == to + 1 && to < r.base + lookback
      requires g <= gate.generation && (timely ==> InTime(gate, g))
      requires persist && store != null ==> CursorAt(r, Entry(), false, 0)
      modifies this`delivered, this`trace, this`gate, store
      ensures Valid() && Anchored(numberOf) && Elapses(calm, old(gate), gate)
      ensures Calls(trace) == Calls(old(trace)) + calls && OneRange(calls, numberOf, from, to + 1)
      ensures Agrees(old(delivered).Keys, chain, numberOf, from, to + 1) ==> calls == []
      ensures KeptOutside(old(delivered).Keys, delivered.Keys, numberOf, r.base, from, to + 1)
      ensures InStep(old(delivered).Keys, old(trace), delivered.Keys, trace, numberOf, r.base)
      ensures completed && timely ==>
        RepairedUpTo(old(delivered).Keys, old(trace), delivered.Keys, trace, chain, numberOf, r.base, from, to + 1)
      ensures passed <= |RangeLogs(r)| && (timely ==> IdsOfAll(RangeLogs(r)[..passed]) <= delivered.Keys)
      ensures !persist || store == null ==> Entry() == old(Entry())
      ensures persist && store != null ==> Stopped(r, Entry(), false, passed)
      ensures persist && store != null && completed ==> Entry() == Some(Cursor(to, true, None))
      ensures calm && old(gate).generation == g && !old(gate).shutdown ==> completed
    {
      hide Consistent, Agrees, RangeRepaired, NetMoved, CursorAt, RangeCalls, Anchored, KeptOutside, InStep, Stopped;
      hide WellFormed, OneRange, Calls, Net;
      completed, calls, passed := false, [], 0;
      ghost var held, start := delivered.Keys, trace;
      if persist && store != null {
        StopHere(r, Entry(), false, 0);
      }
      RangeUntouched(held, r, numberOf, start);
      var alive := Meanwhile();
      if !alive || g != gate.generation {
        return;
      }
      if timely {
        StillInTime(old(gate), gate, g);
      }
      var logs := FetchSorted(chain, from, to + 1, numberOf);
      ghost var repair;
      completed, repair, passed := RepairRange(logs, r, from, to, persist, g, timely, numberOf);
      calls := RangeCalls(repair.orphans, repair.k, logs, repair.n, held);
      RangeCallsShape(held, chain, numberOf, from, to + 1, repair.orphans, repair.k, repair.n);
      RangeMoves(repair, held, delivered.Keys, r, numberOf, start, trace);
      alive := Meanwhile();
      if !completed || !alive || g != gate.generation {
        completed := false;
        return;
      }
      if persist {
        FinishRange(r, held, to, numberOf, start, passed);
      }
    }

    /** Retract the orphans of a range, then add what the table misses. */
    method RepairRange(logs: seq<Log>, ghost r: Range, from: nat, to: nat, persist: bool, g: nat, ghost timely: bool,
                       ghost numberOf: string -> nat)
      returns (completed: bool, ghost repair: Repair, ghost passed: nat)
      requires Valid() && Anchored(numberOf) && GoodRange(r, numberOf) && r.skip == 0
      requires logs == RangeLogs(r) && r.from == from && r.end == to + 1
      requires g <= gate.generation && (timely ==> InTime(gate, g))
      requires persist && store != null ==> CursorAt(r, Entry(), false, 0)
      modifies this`delivered, this`trace, this`gate, store
      ensures Valid() && Anchored(numberOf) && Elapses(calm, old(gate), gate)
      ensures Repairs(repair, old(delivered).Keys, delivered.Keys, r, numberOf, old(trace), trace)
      ensures repair.n <= passed <= |logs| && (timely ==> repair.n == passed)
      ensures completed ==> repair.k == |repair.orphans| && passed == |logs|
      ensures !persist || store == null ==> Entry() == old(Entry())
      ensures persist && store != null ==> Stopped(r, Entry(), false, passed)
      ensures persist && store != null && completed ==> CursorAt(r, Entry(), false, passed)
      ensures calm && old(gate).generation == g && !old(gate).shutdown ==> completed
    {
      hide Consistent, CursorAt, Stopped, WellFormed, Anchored, RangeCalls, Calls;
      passed := 0;
      ghost var held := delivered.Keys;
      var found := CollectOrphans(from, to, IdsOfAll(logs), numberOf);
      assert IdsOfAll(found) == Orphaned(held, r.chain, numberOf, from, to + 1);
      if persist && store != null {
        StopHere(r, Entry(), false, 0);
      }
      ghost var k, n;
      completed, k := RemoveOrphans(found, g, numberOf);
      repair := Repair(found, k, 0);
      ghost var start, middle := Calls(old(trace)), Calls(trace);
      AfterRetractions(start, middle, found, k, logs, held);
      assert logs[..0] == [];
      if !completed {
        return;
      }
      assert found[..k] == found;
      if timely {
        StillInTime(old(gate), gate, g);
      }
      completed, passed, n := AddMissing(logs, r, persist, g, timely, numberOf);
      repair := Repair(found, k, n);
      AfterAdditions(start, middle, Calls(trace), found, logs, n, held);
    }

    /** The checkpoint at the end of a reconciled range forgets only what lies below the window. */
    method FinishRange(ghost r: Range, ghost held: set<Identity>, to: nat, ghost numberOf: string -> nat,
                       ghost start: seq<Event>, ghost n: nat)
      requires Valid() && Anchored(numberOf) && GoodRange(r, numberOf) && r.end == to + 1 && to < r.base + lookback
      requires store != null ==> CursorAt(r, Entry(), false, |RangeLogs(r)|)
      requires n <= |RangeLogs(r)|
      modifies this`delivered, this`trace, store
      ensures Valid() && Anchored(numberOf) && Calls(trace) == Calls(old(trace))
      ensures old(KeptOutside(held, delivered.Keys, numberOf, r.base, r.from, r.end)) ==>
        KeptOutside(held, delivered.Keys, numberOf, r.base, r.from, r.end)
      ensures old(InStep(held, start, delivered.Keys, trace, numberOf, r.base)) ==>
        InStep(held, start, delivered.Keys, trace, numberOf, r.base)
      ensures
        old(RepairedUpTo(held, start, delivered.Keys, trace, r.chain, numberOf, r.base, r.from, r.end)) ==>
          RepairedUpTo(held, start, delivered.Keys, trace, r.chain, numberOf, r.base, r.from, r.end)
      ensures old(IdsOfAll(RangeLogs(r)[..n]) <= delivered.Keys) ==> IdsOfAll(RangeLogs(r)[..n]) <= delivered.Keys
      ensures store == null ==> Entry() == old(Entry())
      ensures store != null ==>
        Entry() == Some(Cursor(to, true, None)) && Stopped(r, Entry(), false, |RangeLogs(r)|)
    {
      hide Consistent, KeptOutside, InStep, RangeRepaired, NetMoved, CursorAt, Calls, WellFormed;
      if store != null {
        CheckpointClosesRange(r, numberOf, Entry(), false);
      }
      ghost var before, now := trace, delivered.Keys;
      PruneKeepsWindow(delivered, to, lookback, r.base);
      ghost var less := AfterPrune(delivered, to, lookback).Keys;
      assert forall id :: id in now && r.base <= numberOf(id.blockHash) ==> id in less;
      SaveCheckpoint(to);
      PrunesAreSilent(before, trace);
      PrunedIsRepaired(held, start, now, before, less, trace, r, numberOf);
      if IdsOfAll(RangeLogs(r)[..n]) <= now {
        PrunedStillHolds(r, numberOf, n, now, less);
      }
    }

    /** Between two ranges of a gap reconciliation. */
    ghost predicate GapBoundary(gap: Gap, e: nat, persist: bool)
      reads this, store
    {
      && Valid() && Anchored(gap.numberOf) && Elapses(calm, gap.gate, gate)
      && GapProgress(gap, e, delivered.Keys, trace)
      && Entry() == if persist && store != null && gap.from < e then Some(Cursor(e - 1, true, None)) else gap.entry
    }

    /** At any point: the consumer is where the table is, and what the saved entry covers of the window is there. */
    ghost predicate GapKept(gap: Gap, persist: bool)
      reads this, store
    {
      && Valid() && Anchored(gap.numberOf) && Elapses(calm, gap.gate, gate)
      && InStep(gap.held, gap.start, delivered.Keys, trace, gap.numberOf, gap.window)
      && KeptOutside(gap.held, delivered.Keys, gap.numberOf, gap.window, gap.from, gap.end)
      && (!persist || store == null ==> Entry() == gap.entry)
      && (persist && store != null && gap.timely ==>
            IdsOfAll(Covered(gap.chain, gap.window, Entry())) <= delivered.Keys)
    }

    method ReconcileBatch(ghost gap: Gap, chain: Blocks, range: BlockRange, persist: bool, g: nat)
      returns (completed: bool, ghost calls: seq<Event>)
      requires GoodGap(gap, g) && gap.chain == chain && gap.from <= range.from <= range.to < gap.end
      requires gap.end <= gap.window + lookback
      requires GapBoundary(gap, range.from, persist)
      requires persist && store != null ==> gap.window == gap.from && BeforeWindow(gap.entry, gap.from)
      modifies this`delivered, this`trace, this`gate, store
      ensures GapKept(gap, persist)
      ensures Calls(trace) == Calls(old(trace)) + calls && OneRange(calls, gap.numberOf, range.from, range.to + 1)
      ensures NothingToDo(gap) ==> calls == []
      ensures completed ==> GapBoundary(gap, range.to + 1, persist)
      ensures calm && old(gate).generation == g && !old(gate).shutdown ==> completed
    {
      hide RepairedUpTo, OneRange, Consistent, Agrees, CursorAt, Stopped, KeptOutside, InStep, Covered, Anchored;
      hide WellFormed, Calls, RangeRepaired;
      ghost var r := Range(chain, gap.window, range.from, range.to + 1, 0);
      ghost var middle, between, from := delivered.Keys, trace, gate;
      if persist && store != null {
        if gap.from < range.from {
          CursorAfterCheckpoint(r, gap.numberOf, false);
        } else {
          WindowCursor(r, gap.numberOf, gap.entry);
        }
      }
      if gap.timely {
        StillInTime(gap.gate, gate, g);
      }
      StillAgrees(gap.held, middle, chain, gap.numberOf, gap.window, gap.from, range.from, range.to + 1, gap.end);
      ghost var passed;
      completed, calls, passed := ReconcileRange(r, chain, range.from, range.to, persist, g, gap.timely, gap.numberOf);
      GapProgressMore(gap, range.from, middle, between, range.to + 1, delivered.Keys, trace);
      KeptWidens(gap.held, delivered.Keys, gap.numberOf, gap.window, gap.from, range.to + 1, gap.end);
      if persist && store != null && gap.timely {
        BatchIsHeld(gap, r, middle, between, delivered.Keys, Entry(), passed);
      }
    }

    /** The next range of the loop of scan_gap_ranges. */
    method ReconcileNext(ghost gap: Gap, chain: Blocks, ranges: seq<BlockRange>, i: nat, persist: bool, g: nat,
                         ghost earlier: seq<seq<Event>>)
      returns (completed: bool, ghost parts: seq<seq<Event>>)
      requires GoodGap(gap, g) && gap.chain == chain && gap.end <= gap.window + lookback
      requires Tiles(ranges, gap.from, gap.end, batchSize) && |earlier| == i < |ranges|
      requires GapBoundary(gap, ranges[i].from, persist)
      requires GapTrace(gap.start, trace, earlier, ranges, gap.numberOf, NothingToDo(gap))
      requires persist && store != null ==> gap.window == gap.from && BeforeWindow(gap.entry, gap.from)
      modifies this`delivered, this`trace, this`gate, store
      ensures GapKept(gap, persist)
      ensures |parts| == i + 1 && GapTrace(gap.start, trace, parts, ranges, gap.numberOf, NothingToDo(gap))
      ensures completed ==> GapBoundary(gap, ranges[i].to + 1, persist)
      ensures calm && old(gate).generation == g && !old(gate).shutdown ==> completed
    {
      hide OneRange, Consistent, Agrees, Anchored, GapTrace, GapProgress, NothingToDo, WellFormed, InStep, Covered;
      TilesFrom(ranges, gap.from, gap.end, batchSize, i);
      TilesTo(ranges, gap.from, gap.end, batchSize, i);
      ghost var calls, before := [], trace;
      completed, calls := ReconcileBatch(gap, chain, ranges[i], persist, g);
      GapTraceMore(gap.start, before, trace, earlier, calls, ranges, gap.numberOf, NothingToDo(gap));
      parts := earlier + [calls];
    }

    /** The loop of scan_gap_ranges. */
    method ReconcileAll(ghost gap: Gap, chain: Blocks, ranges: seq<BlockRange>, persist: bool, g: nat)
      returns (completed: bool, ghost parts: seq<seq<Event>>)
      requires GoodGap(gap, g) && gap.chain == chain && gap.end <= gap.window + lookback
      requires Tiles(ranges, gap.from, gap.end, batchSize)
      requires GapBoundary(gap, gap.from, persist) && gap.start == trace && gap.gate == gate
      requires persist && store != null ==> gap.window == gap.from && BeforeWindow(gap.entry, gap.from)
      modifies this`delivered, this`trace, this`gate, store
      ensures GapKept(gap, persist)
      ensures GapTrace(gap.start, trace, parts, ranges, gap.numberOf, NothingToDo(gap))
      ensures completed ==> |parts| == |ranges| && GapBoundary(gap, gap.end, persist)
      ensures calm && old(gate).generation == g && !old(gate).shutdown ==> completed
    {
      hide OneRange, Consistent, Agrees, Anchored, GapTrace, NothingToDo, WellFormed, InStep, Covered;
      hide KeptOutside, RepairedUpTo;
      completed, parts := false, [];
      NothingCalled(trace, ranges, gap.numberOf, NothingToDo(gap));
      if persist && store != null {
        CoversNothing(chain, Entry(), gap.from);
      }
      KeptWidens(gap.held, delivered.Keys, gap.numberOf, gap.window, gap.from, gap.from, gap.end);
      ghost var e := gap.from;
      for i := 0 to |ranges|
        invariant e == if i == 0 then gap.from else ranges[i - 1].to + 1
        invariant |parts| == i && GapTrace(gap.start, trace, parts, ranges, gap.numberOf, NothingToDo(gap))
        invariant GapBoundary(gap, e, persist) && GapKept(gap, persist)
      {
        completed, parts := ReconcileNext(gap, chain, ranges, i, persist, g, parts);
        if !completed {
          return;
        }
        e := ranges[i].to + 1;
      }
      completed := true;
    }

    /** scan_gap_ranges. parts lists the callbacks range by range. */
    method ScanGapRanges(ghost gap: Gap, chain: Blocks, from: nat, to: nat, persist: bool, g: nat)
      returns (completed: bool, ghost ranges: seq<BlockRange>, ghost parts: seq<seq<Event>>)
      requires Valid() && Anchored(gap.numberOf) && WellFormed(chain, gap.numberOf) && gap.chain == chain
      requires gap.from == from && gap.end == (if from <= to then to + 1 else from) && gap.window <= from
      requires gap.held == delivered.Keys && gap.start == trace && gap.entry == Entry() && gap.gate == gate
      requires g <= gate.generation && (gap.timely ==> InTime(gate, g))
      requires from <= UINT64_MAX && to <= UINT64_MAX && batchSize <= UINT64_MAX
      requires from <= to ==> to < gap.window + lookback
      requires persist && store != null ==> gap.window == from && BeforeWindow(Entry(), from)
      modifies this`delivered, this`trace, this`gate, store
      ensures GapKept(gap, persist) && (from > to ==> Entry() == gap.entry)
      ensures batchSize > 0 ==> Tiles(ranges, from, to + 1, batchSize)
      ensures GapTrace(gap.start, trace, parts, ranges, gap.numberOf, NothingToDo(gap))
      ensures completed ==> |parts| == |ranges| && GapBoundary(gap, gap.end, persist)
      ensures calm && old(gate).generation == g && !old(gate).shutdown && batchSize > 0 ==> completed
    {
      hide OneRange, Consistent, Agrees, Anchored, GapTrace, NothingToDo, WellFormed, Covered, GapProgress, InStep;
      completed, ranges, parts := false, [], [];
      NothingCalled(trace, ranges, gap.numberOf, NothingToDo(gap));
      GapBegins(gap);
      NothingRepaired(gap.held, gap.start, chain, gap.numberOf, gap.window, from);
      KeptWidens(gap.held, delivered.Keys, gap.numberOf, gap.window, gap.from, gap.from, gap.end);
      if persist && store != null {
        CoversNothing(chain, Entry(), from);
      }
      var made := MakeBlockRanges(from, to, batchSize);
      if made.Err? {
        return;
      }
      ranges := made.value;
      NothingCalled(trace, ranges, gap.numberOf, NothingToDo(gap));
      if from > to {
        completed := true;
        return;
      }
      completed, parts := ReconcileAll(gap, chain, made.value, persist, g);
    }

    /** reconcile_gap with live delivery held: the window of the last lookback blocks up to target, durably up to
        the confirmed block. Wherever it stops, the consumer's account of the window moved exactly as the table did.
        If the generation was read before the destructor began, every log of the window that the saved entry covers
        is in the table wherever it stops, and when it completes the table agrees with the chain on the window. A
        table that was right before causes no callback. */
    method ReconcileGap(chain: Blocks, target: nat, durableThrough: nat, g: nat, ghost numberOf: string -> nat)
      returns (completed: bool, ghost ranges: seq<BlockRange>, ghost parts: seq<seq<Event>>)
      requires Valid() && Anchored(numberOf) && WellFormed(chain, numberOf) && lookback > 0
      requires startBlock <= UINT64_MAX && target <= UINT64_MAX && durableThrough <= UINT64_MAX
      requires batchSize <= UINT64_MAX && g <= gate.generation
      modifies this`delivered, this`trace, this`gate, store
      ensures Valid() && Anchored(numberOf) && Elapses(calm, old(gate), gate)
      ensures var from := WindowStart(target, lookback, startBlock);
        && GapTrace(old(trace), trace, parts, ranges, numberOf,
                    Agrees(old(delivered).Keys, chain, numberOf, from, target + 1))
        && InStep(old(delivered).Keys, old(trace), delivered.Keys, trace, numberOf, from)
      ensures var from := WindowStart(target, lookback, startBlock);
        completed && InTime(old(gate), g) ==>
          GapRepaired(old(delivered).Keys, old(trace), delivered.Keys, trace, chain, numberOf, from, target)
      ensures var from := WindowStart(target, lookback, startBlock);
        store != null && from <= target ==>
          && (InTime(old(gate), g) ==> IdsOfAll(Covered(chain, from, Entry())) <= delivered.Keys)
          && (completed ==> Entry() == EntryAfterGap(old(Entry()), from,
                                                     if target < durableThrough then target else durableThrough))
      ensures WindowStart(target, lookback, startBlock) > target || store == null ==> Entry() == old(Entry())
      ensures calm && old(gate).generation == g && !old(gate).shutdown && batchSize > 0 ==> completed
    {
      hide RepairedUpTo, OneRange, Consistent, Agrees, Anchored, Covered, GapTrace, Tiles, WellFormed, InStep;
      hide KeptOutside;
      var from := WindowStart(target, lookback, startBlock);
      ranges, parts := [], [];
      ghost var held, start, timely := delivered.Keys, trace, InTime(gate, g);
      NothingRepaired(held, start, chain, numberOf, from, from);
      if from > target {
        NothingCalled(trace, ranges, numberOf, Agrees(held, chain, numberOf, from, target + 1));
        return true, ranges, parts;
      }
      if store != null {
        RewindGoesBeforeWindow(Entry(), from);
        store.Rewind(cursorName, from);
      }
      var durableTo := if target < durableThrough then target else durableThrough;
      ghost var mid := if from <= durableTo then durableTo + 1 else from;
      ghost var gap := Gap(chain, numberOf, from, from, mid, timely, held, start, Entry(), gate);
      completed, ranges, parts := ScanGapRanges(gap, chain, from, durableTo, true, g);
      SilentOnPart(start, trace, parts, ranges, held, chain, numberOf, from, mid, target + 1);
      if store != null && from > durableTo {
        CoversNothing(chain, Entry(), from);
      }
      if !completed || target <= durableThrough {
        return;
      }
      var rest := if from < durableThrough + 1 then durableThrough + 1 else from;
      completed, ranges, parts := ReconcileRest(gap, chain, rest, target, g, ranges, parts);
    }

    /** The unconfirmed part of the window. */
    method ReconcileRest(ghost gap: Gap, chain: Blocks, from: nat, target: nat, g: nat,
                         ghost firstRanges: seq<BlockRange>, ghost first: seq<seq<Event>>)
      returns (completed: bool, ghost ranges: seq<BlockRange>, ghost parts: seq<seq<Event>>)
      requires WellFormed(chain, gap.numberOf) && gap.chain == chain && gap.from == gap.window && gap.end == from
      requires g <= gap.gate.generation && (gap.timely ==> InTime(gap.gate, g))
      requires gap.window <= from <= target <= UINT64_MAX && batchSize <= UINT64_MAX
      requires target < gap.window + lookback
      requires |first| == |firstRanges|
      requires GapBoundary(gap, from, true) && GapKept(gap, true)
      requires store != null ==> BeforeWindow(gap.entry, gap.from)
      requires GapTrace(gap.start, trace, first, firstRanges, gap.numberOf, NothingToDo(gap))
      modifies this`delivered, this`trace, this`gate, store
      ensures Valid() && Anchored(gap.numberOf) && Elapses(calm, gap.gate, gate) && Entry() == old(Entry())
      ensures GapTrace(gap.start, trace, parts, ranges, gap.numberOf,
                       Agrees(gap.held, chain, gap.numberOf, gap.window, target + 1))
      ensures InStep(gap.held, gap.start, delivered.Keys, trace, gap.numberOf, gap.window)
      ensures store != null && gap.timely ==> IdsOfAll(Covered(chain, gap.window, Entry())) <= delivered.Keys
      ensures completed && gap.timely ==>
        RepairedUpTo(gap.held, gap.start, delivered.Keys, trace, chain, gap.numberOf, gap.window, gap.window,
                     target + 1)
      ensures calm && old(gate).generation == g && !old(gate).shutdown && batchSize > 0 ==> completed
    {
      hide RepairedUpTo, OneRange, Consistent, Agrees, Anchored, Covered, GapTrace, Tiles, WellFormed, InStep;
      hide KeptOutside;
      ghost var middle, between := delivered.Keys, trace;
      if gap.timely {
        StillInTime(gap.gate, gate, g);
      }
      ghost var rest := Gap(chain, gap.numberOf, gap.window, from, target + 1, gap.timely, middle, between, Entry(),
                            gate);
      completed, ranges, parts := ScanGapRanges(rest, chain, from, target, false, g);
      GapTraceJoin(gap.start, between, trace, gap.held, middle, first, firstRanges, parts, ranges, chain,
                   gap.numberOf, gap.window, from, target + 1);
      ranges, parts := firstRanges + ranges, first + parts;
      RestFollows(gap, rest, delivered.Keys, trace);
      if store != null && gap.timely {
        RestKeepsCovered(gap, rest, delivered.Keys, Entry());
      }
    }
  }
}
