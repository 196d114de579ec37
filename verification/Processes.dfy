/** Whole processes: any number of them over one durable entry, the catch-ups of later heads, and repeated
    reconciliations (src/evm_event_indexer.cpp, src/evm_live_handoff.cpp, src/evm_reorg_reconciliation.cpp). */
module Processes {
  import opened Wrappers
  import opened EvmLogs
  import opened CursorStore
  import opened Chain
  import opened DeliveredTable
  import opened Deliveries
  import opened Lifecycle
  import opened ScanCoverage
  import opened GapWindow
  import opened Indexing

  /** An entry that resumes above a block covers every log up to it. */
  lemma CaughtUpCovers(chain: Blocks, base: nat, entry: Option<Cursor>, target: nat)
    requires ResumeBlock(entry, base) > target
    ensures Logs(chain, base, target + 1) <= Covered(chain, base, entry)
  {
    if base <= target {
      LogsSplit(chain, base, target + 1, ResumeBlock(entry, base));
    }
  }

  // ----- whole processes -----

  lemma RestartIsSilent(history: seq<Event>)
    ensures Calls(history + [Restarted]) == Calls(history)
    ensures AddedIds(history + [Restarted]) == AddedIds(history)
  {
    OneMore(history, Restarted);
  }

  /** One process: whether it calls catch_up or start_live, the head it learns, what other threads do while it asks for
      it or before the generation of start_live begins, and whether the environment leaves it alone afterwards. */
  datatype Life = Life(live: bool, head: nat, meanwhile: seq<Interference>, calm: bool)

  predicate ReadsInTime(life: Life) {
    !AfterAll(NEW_GATE, life.meanwhile).closing
  }

  ghost predicate AllReadInTime(lives: seq<Life>) {
    forall i :: 0 <= i < |lives| ==> ReadsInTime(lives[i])
  }

  /** The callbacks of all processes so far: those of the durable scans, in order, and those start_live made for blocks
      that had not their confirmations. */
  datatype HandOvers = HandOvers(durable: seq<Log>, early: seq<Log>)

  /** The block of the log lies above the durable one of the process's start_live. */
  predicate EarlyIn(life: Life, confirmations: nat, log: Log) {
    life.live && Confirmed(life.head, confirmations) < BlockOf(log) <= life.head
  }

  predicate HandedEarly(lives: seq<Life>, confirmations: nat, log: Log) {
    exists i :: 0 <= i < |lives| && EarlyIn(lives[i], confirmations, log)
  }

  /** The history's callbacks are these, and the durable ones repeat at most one log a process. */
  ghost predicate Counted(chain: Blocks, base: nat, entry: Option<Cursor>, history: seq<Event>, handed: HandOvers,
                          lives: seq<Life>, confirmations: nat)
  {
    && multiset(Calls(history)) == multiset(Adds(handed.durable)) + multiset(Adds(handed.early))
    && |handed.durable| <= |Covered(chain, base, entry)| + |lives|
    && (forall i :: 0 <= i < |handed.early| ==> HandedEarly(lives, confirmations, handed.early[i]))
  }

  /** What was handed over, split at the durable block. */
  function Split(handed: HandOvers, done: seq<Log>, given: seq<Log>): HandOvers {
    if |given| <= |done| then HandOvers(handed.durable + given, handed.early)
    else HandOvers(handed.durable + done, handed.early + given[|done|..])
  }

  /** One more process: what it covers has reached the consumer if it read its generation in time, and at most one of
      its durable callbacks was a repetition. */
  lemma OneMoreLife(chain: Blocks, base: nat, before: Option<Cursor>, done: seq<Log>, unconfirmed: seq<Log>,
                    given: seq<Log>, entry: Option<Cursor>, history: seq<Event>, after: seq<Event>, handed: HandOvers,
                    lives: seq<Life>, life: Life, confirmations: nat)
    requires ScanAccount(chain, base, true, Covered(chain, base, before), done, entry, true)
    requires given <= done + unconfirmed && ScanTrace(history + [Restarted], after, given, true)
    requires Counted(chain, base, before, history, handed, lives, confirmations)
    requires forall i :: 0 <= i < |unconfirmed| ==> EarlyIn(life, confirmations, unconfirmed[i])
    ensures given == done + unconfirmed && AllAdded(Covered(chain, base, before), AddedIds(history)) ==>
      AllAdded(Covered(chain, base, entry), AddedIds(after))
    ensures Counted(chain, base, entry, after, Split(handed, done, given), lives + [life], confirmations)
  {
    hide HandedEarly, EarlyIn, Covered, Adds, Calls, AddedIds, AllAdded, ScanAccount;
    RestartIsSilent(history);
    EarlyOnes(lives, life, confirmations, handed.early, done, unconfirmed, given);
    SplitCalls(Calls(history), handed, done, given);
    SplitIs(handed, done, given);
    hide Split;
    assert Calls(after) == Calls(history) + Adds(given);
    AccountGrows(chain, base, before, done, entry);
    if given == done + unconfirmed && AllAdded(Covered(chain, base, before), AddedIds(history)) {
      CoverageGrows(Covered(chain, base, before), done, unconfirmed, Covered(chain, base, entry), AddedIds(history),
                    AddedIds(after));
    }
  }

  lemma SplitIs(handed: HandOvers, done: seq<Log>, given: seq<Log>)
    ensures |Split(handed, done, given).durable| <= |handed.durable| + |done|
    ensures Split(handed, done, given).early
         == if |given| <= |done| then handed.early else handed.early + given[|done|..]
  {
  }

  /** What the entry covers afterwards, against what it covered before and what was scanned. */
  lemma AccountGrows(chain: Blocks, base: nat, before: Option<Cursor>, done: seq<Log>, entry: Option<Cursor>)
    requires ScanAccount(chain, base, true, Covered(chain, base, before), done, entry, true)
    ensures Covered(chain, base, entry) <= Covered(chain, base, before) + done
    ensures |Covered(chain, base, before)| + |done| <= |Covered(chain, base, entry)| + 1
  {
    hide Covered;
  }

  lemma CoverageGrows(covered: seq<Log>, done: seq<Log>, unconfirmed: seq<Log>, now: seq<Log>,
                      before: set<Identity>, after: set<Identity>)
    requires now <= covered + done && before <= after
    requires AllAdded(covered, before) && AllAdded(done + unconfirmed, after)
    ensures AllAdded(now, after)
  {
    forall i | 0 <= i < |now| ensures IdsOf(now[i]) <= after {
      assert now[i] == (covered + done)[i];
      if i >= |covered| {
        assert now[i] == (done + unconfirmed)[i - |covered|];
      }
    }
  }

  lemma SplitCalls(calls: seq<Event>, handed: HandOvers, done: seq<Log>, given: seq<Log>)
    requires multiset(calls) == multiset(Adds(handed.durable)) + multiset(Adds(handed.early))
    requires given <= done || done <= given
    ensures var next := Split(handed, done, given);
      multiset(calls + Adds(given)) == multiset(Adds(next.durable)) + multiset(Adds(next.early))
  {
    hide Adds;
    if |given| <= |done| {
      AddsJoin(handed.durable, given);
    } else {
      var rest := given[|done|..];
      assert given == done + rest;
      AddsJoin(done, rest);
      AddsJoin(handed.durable, done);
      AddsJoin(handed.early, rest);
    }
  }

  lemma EarlyOnes(lives: seq<Life>, life: Life, confirmations: nat, early: seq<Log>, done: seq<Log>,
                  unconfirmed: seq<Log>, given: seq<Log>)
    requires forall i :: 0 <= i < |early| ==> HandedEarly(lives, confirmations, early[i])
    requires given <= done + unconfirmed
    requires forall i :: 0 <= i < |unconfirmed| ==> EarlyIn(life, confirmations, unconfirmed[i])
    ensures var more := if |given| <= |done| then early else early + given[|done|..];
      forall i :: 0 <= i < |more| ==> HandedEarly(lives + [life], confirmations, more[i])
  {
    var more := if |given| <= |done| then early else early + given[|done|..];
    forall i | 0 <= i < |more| ensures HandedEarly(lives + [life], confirmations, more[i]) {
      if i < |early| {
        var k :| 0 <= k < |lives| && EarlyIn(lives[k], confirmations, early[i]);
        assert (lives + [life])[k] == lives[k];
      } else {
        assert more[i] == unconfirmed[i - |early|];
        assert (lives + [life])[|lives|] == life;
      }
    }
  }

  /** One process from its start to its end. */
  method RunLife(chain: Blocks, store: FileBlockCursorStore, name: string, startBlock: nat, confirmations: nat,
                 batchSize: nat, lookback: nat, life: Life, ghost history: seq<Event>, ghost handed: HandOvers,
                 ghost lives: seq<Life>, ghost numberOf: string -> nat)
    returns (ghost after: seq<Event>, ghost now: HandOvers, completed: bool)
    requires WellFormed(chain, numberOf) && AddsAreNew(history)
    requires Resumable(store.Entry(name), startBlock) && OnChain(chain, store.Entry(name))
    requires startBlock <= UINT64_MAX && batchSize <= UINT64_MAX && life.head <= UINT64_MAX
    requires Counted(chain, startBlock, store.Entry(name), history, handed, lives, confirmations)
    modifies store
    ensures AddsAreNew(after)
    ensures Resumable(store.Entry(name), startBlock) && OnChain(chain, store.Entry(name))
    ensures Counted(chain, startBlock, store.Entry(name), after, now, lives + [life], confirmations)
    ensures ReadsInTime(life) && AllAdded(Covered(chain, startBlock, old(store.Entry(name))), AddedIds(history)) ==>
      AllAdded(Covered(chain, startBlock, store.Entry(name)), AddedIds(after))
    ensures completed ==> ResumeBlock(store.Entry(name), startBlock) > Confirmed(life.head, confirmations)
    ensures life.calm && batchSize > 0 ==> completed
  {
    hide AllAdded, WellFormed, ScanTrace, Covered, OnChain, Counted, DoneLogs, SkipAt, UnconfirmedOf;
    ghost var before := store.Entry(name);
    var indexer := new Indexer(startBlock, confirmations, batchSize, lookback, name, store, life.calm, history);
    ghost var done, unconfirmed, given := [], [], [];
    if life.live {
      completed, done, unconfirmed, given :=
        indexer.CatchUpLive(chain, life.head, life.meanwhile, startBlock, numberOf, true, true);
      UnconfirmedAreAbove(chain, numberOf, ResumeBlock(before, startBlock), before,
                          Confirmed(life.head, confirmations), life.head, unconfirmed, completed);
    } else {
      completed, done, given := indexer.CatchUp(chain, life.head, life.meanwhile, startBlock, numberOf, true, true);
      assert done + unconfirmed == done;
    }
    after, now := indexer.trace, Split(handed, done, given);
    ScanKeepsResumable(chain, startBlock, Covered(chain, startBlock, before), done, store.Entry(name));
    OneMoreLife(chain, startBlock, before, done, unconfirmed, given, store.Entry(name), history, after, handed, lives,
                life, confirmations);
  }

  /** Any number of processes, each calling catch_up or start_live and ending anywhere: by completion, an exception,
      stop, the destructor or a crash. With a chain that does not change, the durable scans of all processes together
      made at most one repeated callback each, and every other callback was for a block above the durable one of its
      start_live; and if each read its generation before its destructor began, every log the saved entry covers has
      reached the consumer. */
  method RunLives(chain: Blocks, store: FileBlockCursorStore, name: string, startBlock: nat, confirmations: nat,
                  batchSize: nat, lookback: nat, lives: seq<Life>, ghost numberOf: string -> nat)
    returns (ghost history: seq<Event>, ghost handed: HandOvers, ghost completed: bool)
    requires WellFormed(chain, numberOf) && store.Entry(name).None?
    requires startBlock <= UINT64_MAX && batchSize <= UINT64_MAX
    requires forall i :: 0 <= i < |lives| ==> lives[i].head <= UINT64_MAX
    modifies store
    ensures AddsAreNew(history)
    ensures AllReadInTime(lives) ==> AllAdded(Covered(chain, startBlock, store.Entry(name)), AddedIds(history))
    ensures Counted(chain, startBlock, store.Entry(name), history, handed, lives, confirmations)
    ensures completed && lives != [] && AllReadInTime(lives) ==>
      AllAdded(Logs(chain, startBlock, Confirmed(lives[|lives| - 1].head, confirmations) + 1), AddedIds(history))
    ensures lives != [] && lives[|lives| - 1].calm && batchSize > 0 ==> completed
  {
    hide AllAdded, WellFormed, OnChain, Counted;
    history, handed, completed := [], HandOvers([], []), false;
    NothingToAdd(chain, startBlock, AddedIds(history), confirmations);
    for i := 0 to |lives|
      invariant AddsAreNew(history)
      invariant Resumable(store.Entry(name), startBlock) && OnChain(chain, store.Entry(name))
      invariant AllReadInTime(lives[..i]) ==>
        AllAdded(Covered(chain, startBlock, store.Entry(name)), AddedIds(history))
      invariant Counted(chain, startBlock, store.Entry(name), history, handed, lives[..i], confirmations)
      invariant completed && i > 0 ==>
        ResumeBlock(store.Entry(name), startBlock) > Confirmed(lives[i - 1].head, confirmations)
      invariant i > 0 && lives[i - 1].calm && batchSize > 0 ==> completed
    {
      var life, ended := lives[i], false;
      assert lives[..i + 1] == lives[..i] + [life];
      assert AllReadInTime(lives[..i + 1]) ==> AllReadInTime(lives[..i]) && ReadsInTime(life) by {
        assert lives[..i + 1][i] == life && lives[..i + 1][..i] == lives[..i];
      }
      history, handed, ended := RunLife(chain, store, name, startBlock, confirmations, batchSize, lookback, life,
                                        history, handed, lives[..i], numberOf);
      completed := ended;
    }
    assert lives[..|lives|] == lives;
    if completed && lives != [] {
      ghost var target := Confirmed(lives[|lives| - 1].head, confirmations);
      CaughtUpCovers(chain, startBlock, store.Entry(name), target);
      PrefixIsAdded(Logs(chain, startBlock, target + 1), Covered(chain, startBlock, store.Entry(name)),
                    AddedIds(history));
    }
  }

  lemma NothingToAdd(chain: Blocks, base: nat, added: set<Identity>, confirmations: nat)
    ensures AllAdded(Covered(chain, base, None), added) && OnChain(chain, None)
    ensures Counted(chain, base, None, [], HandOvers([], []), [], confirmations)
  {
  }

  lemma PrefixIsAdded(logs: seq<Log>, more: seq<Log>, added: set<Identity>)
    requires logs <= more
    ensures AllAdded(more, added) ==> AllAdded(logs, added)
  {
  }

  lemma {:induction false} AddedByCalls(trace: seq<Event>)
    ensures AddedIds(Calls(trace)) == AddedIds(trace)
  {
    if trace != [] {
      var front, last := trace[..|trace| - 1], trace[|trace| - 1];
      AddedByCalls(front);
      if last.Added? || last.Removed? {
        OneMore(Calls(front), last);
      } else {
        assert Calls(trace) == Calls(front);
      }
    }
  }

  lemma {:induction false} AddedByAdds(calls: seq<Event>, logs: seq<Log>)
    ensures AddedIds(calls + Adds(logs)) == AddedIds(calls) + IdsOfAll(logs)
  {
    if logs == [] {
      assert calls + Adds(logs) == calls;
    } else {
      var front, last := logs[..|logs| - 1], logs[|logs| - 1];
      AddedByAdds(calls, front);
      assert logs == front + [last];
      AddsAppend(front, last);
      assert calls + Adds(logs) == (calls + Adds(front)) + [Added(last)];
      OneMore(calls + Adds(front), Added(last));
    }
  }

  /** What a scan that is cut off means for its entry: in a first process, wherever it ends, the entry covers only what
      reached the consumer exactly when it did not move past the first log that was passed over; and a log is passed
      over only when delivery ended under the scan's own generation, read after the destructor began. What a caller
      can rely on is the latter: Lifecycle.ReadInTimeIff says when that can happen, RunLives that coverage is kept
      when it cannot, and LateReadLosesAll that it may be lost when it can. */
  lemma CoverageKeptIff(chain: Blocks, numberOf: string -> nat, base: nat, end: nat, entry: Option<Cursor>, w: Watch,
                        start: Moment, now: Moment, done: seq<Log>, given: seq<Log>)
    requires WellFormed(chain, numberOf) && AddedIds(start.trace) == {}
    requires Accounted(w, start, now, done, given, true)
    requires Covered(chain, base, entry) <= done <= Logs(chain, base, end)
    ensures AllAdded(Covered(chain, base, entry), AddedIds(now.trace)) <==> |Covered(chain, base, entry)| <= |given|
    ensures given != done ==> now.gate.shutdown && start.gate.closing && start.gate.generation == w.generation
  {
    var covered := Covered(chain, base, entry);
    AddedByCalls(start.trace);
    AddedByCalls(now.trace);
    AddedByAdds(Calls(start.trace), given);
    if |given| < |covered| {
      CanonicalAreDistinct(chain, numberOf, base, end);
      var logs, n := Logs(chain, base, end), |given|;
      IdsOfAllHas(given, IdentityOf(logs[n]).value);
      assert covered[n] == logs[n];
    }
  }

  /** A generation read after the destructor began: if the destructor ends delivery before the scan does anything,
      the scan hands nothing to the consumer, completes, and leaves an entry that covers every log. The next process
      skips them all. */
  method LateReadLosesAll(chain: Blocks, store: FileBlockCursorStore, name: string, startBlock: nat,
                          confirmations: nat, batchSize: nat, lookback: nat, life: Life,
                          ghost numberOf: string -> nat)
    returns (ghost history: seq<Event>)
    requires WellFormed(chain, numberOf) && store.Entry(name).None?
    requires startBlock <= UINT64_MAX && 0 < batchSize <= UINT64_MAX && life.head <= UINT64_MAX
    requires startBlock <= Confirmed(life.head, confirmations) && !ReadsInTime(life)
    modifies store
    ensures Calls(history) == [] && AddedIds(history) == {}
    ensures store.Entry(name) == Some(Cursor(Confirmed(life.head, confirmations), true, None))
    ensures var logs := Logs(chain, startBlock, Confirmed(life.head, confirmations) + 1);
      && Covered(chain, startBlock, store.Entry(name)) == logs
      && (AllAdded(logs, AddedIds(history)) <==> logs == [])
  {
    hide WellFormed, ScanAccount;
    var indexer := new Indexer(startBlock, confirmations, batchSize, lookback, name, store, true, []);
    RestartIsSilent([]);
    assert [] + [Restarted] == [Restarted];
    var meanwhile := life.meanwhile + [EndDelivery];
    assert meanwhile[..|life.meanwhile|] == life.meanwhile;
    AllIsLater(NEW_GATE, life.meanwhile);
    ghost var done, given;
    var ended;
    ended, done, given := indexer.CatchUp(chain, life.head, meanwhile, startBlock, numberOf, true, true);
    history := indexer.trace;
    ghost var target := Confirmed(life.head, confirmations);
    LogsAreCanonical(chain, numberOf, startBlock, target + 1);
    NoneAdded(Logs(chain, startBlock, target + 1), numberOf, startBlock, target + 1);
  }

  lemma NoneAdded(logs: seq<Log>, numberOf: string -> nat, from: nat, end: nat)
    requires forall log :: log in logs ==> Canonical(log, numberOf, from, end)
    ensures AllAdded(logs, {}) <==> logs == []
  {
    if logs != [] {
      assert logs[0] in logs;
    }
  }

  /** The first block of which the entry covers nothing. */
  function FirstUnread(entry: Option<Cursor>, base: nat): nat {
    if entry.None? then base else entry.value.block + 1
  }

  /** Every log of the blocks that the entry leaves unread, up to the target, was handed to the consumer. */
  ghost predicate AllReached(chain: Blocks, base: nat, entry: Option<Cursor>, target: nat, added: set<Identity>) {
    forall b: nat, log :: base <= b && FirstUnread(entry, base) <= b <= target && log in chain(b) ==>
      IdsOf(log) <= added
  }

  lemma UnreadIsBehind(chain: Blocks, base: nat, entry: Option<Cursor>, b: nat, target: nat, log: Log)
    returns (i: nat)
    requires Resumable(entry, base) && base <= b && FirstUnread(entry, base) <= b <= target && log in chain(b)
    ensures |Covered(chain, base, entry)| <= i < |Logs(chain, base, target + 1)|
    ensures Logs(chain, base, target + 1)[i] == log
  {
    var k :| 0 <= k < |chain(b)| && chain(b)[k] == log;
    LogsSplit(chain, base, b, target + 1);
    LogsSplit(chain, b, b + 1, target + 1);
    assert Logs(chain, b, b) == [];
    i := |Logs(chain, base, b)| + k;
    if entry.Some? {
      LogsSplit(chain, base, entry.value.block + 1, b);
    }
  }

  /** What a catch-up adds to what earlier ones of the process have added behind the first entry. */
  lemma CatchUpAdds(chain: Blocks, base: nat, skip: nat, covered: seq<Log>, done: seq<Log>, entry: Option<Cursor>,
                    before: set<Identity>, after: set<Identity>)
    requires ScanAccount(chain, base, true, covered, done, entry, true)
    requires before <= after && AllAdded(done, after)
    requires forall i :: skip <= i < |covered| ==> IdsOf(covered[i]) <= before
    ensures var now := Covered(chain, base, entry); forall i :: skip <= i < |now| ==> IdsOf(now[i]) <= after
  {
    var now := Covered(chain, base, entry);
    forall i | skip <= i < |now| ensures IdsOf(now[i]) <= after {
      assert now[i] == (covered + done)[i];
    }
  }

  /** The catch-ups of later heads in a running process: whatever became of its live copy, every log of the chain
      above the durable block the process started from reaches the consumer by the first completed catch-up whose
      confirmed block reaches it. */
  method LaterHeads(indexer: Indexer, chain: Blocks, heads: seq<nat>, meanwhile: seq<seq<Interference>>,
                    ghost base: nat, ghost numberOf: string -> nat)
    returns (completed: bool)
    requires indexer.Valid() && WellFormed(chain, numberOf) && indexer.store != null && |meanwhile| == |heads|
    requires indexer.startBlock <= UINT64_MAX && indexer.batchSize <= UINT64_MAX
    requires forall i :: 0 <= i < |heads| ==> heads[i] <= UINT64_MAX
    requires Resumable(indexer.Entry(), base) && (indexer.Entry().None? ==> base == indexer.startBlock)
    requires OnChain(chain, indexer.Entry())
    modifies indexer`delivered, indexer`trace, indexer`gate, indexer.store
    ensures indexer.Valid()
    ensures completed && heads != [] && !indexer.gate.closing ==>
      AllReached(chain, base, old(indexer.Entry()), Confirmed(heads[|heads| - 1], indexer.confirmations),
                 AddedIds(indexer.trace))
  {
    hide WellFormed, Covered, OnChain, ScanAccount, Consistent;
    ghost var entry := indexer.Entry();
    ghost var skip := |Covered(chain, base, entry)|;
    completed := true;
    for n := 0 to |heads|
      invariant completed && indexer.Valid() && Later(old(indexer.gate), indexer.gate)
      invariant Resumable(indexer.Entry(), base) && (indexer.Entry().None? ==> base == indexer.startBlock)
      invariant OnChain(chain, indexer.Entry())
      invariant !indexer.gate.closing ==>
        var now := Covered(chain, base, indexer.Entry());
        forall i :: skip <= i < |now| ==> IdsOf(now[i]) <= AddedIds(indexer.trace)
      invariant n > 0 ==> ResumeBlock(indexer.Entry(), base) > Confirmed(heads[n - 1], indexer.confirmations)
    {
      ghost var before, covered, gate := indexer.trace, Covered(chain, base, indexer.Entry()), indexer.gate;
      ghost var done, given;
      completed, done, given := indexer.CatchUp(chain, heads[n], meanwhile[n], base, numberOf, true, false);
      AllIsLater(gate, meanwhile[n]);
      ScanKeepsResumable(chain, base, covered, done, indexer.Entry());
      if !indexer.gate.closing {
        CatchUpAdds(chain, base, skip, covered, done, indexer.Entry(), AddedIds(before), AddedIds(indexer.trace));
      }
      if !completed {
        return;
      }
    }
    if heads != [] && !indexer.gate.closing {
      ghost var target := Confirmed(heads[|heads| - 1], indexer.confirmations);
      CaughtUpCovers(chain, base, indexer.Entry(), target);
      forall b: nat, log | base <= b && FirstUnread(entry, base) <= b <= target && log in chain(b)
        ensures IdsOf(log) <= AddedIds(indexer.trace)
      {
        var i := UnreadIsBehind(chain, base, entry, b, target, log);
        assert Covered(chain, base, indexer.Entry())[i] == log;
      }
    }
  }

  lemma ScanKeepsResumable(chain: Blocks, base: nat, covered: seq<Log>, done: seq<Log>, entry: Option<Cursor>)
    requires ScanAccount(chain, base, true, covered, done, entry, true)
    ensures Resumable(entry, base) && OnChain(chain, entry)
  {
  }

  /** Two reconciliations of one window on one chain by a process that reads its generation in time: the first
      brings table and consumer in step with the chain, the second calls nothing back. */
  method ReconcileTwice(indexer: Indexer, chain: Blocks, target: nat, durableThrough: nat, g: nat,
                        ghost numberOf: string -> nat)
    returns (completed: bool, ghost between: seq<Event>)
    requires indexer.Valid() && indexer.Anchored(numberOf) && WellFormed(chain, numberOf) && indexer.lookback > 0
    requires indexer.startBlock <= UINT64_MAX && target <= UINT64_MAX && durableThrough <= UINT64_MAX
    requires indexer.batchSize <= UINT64_MAX && g <= indexer.gate.generation
    modifies indexer`delivered, indexer`trace, indexer`gate, indexer.store
    ensures indexer.Valid()
    ensures var from := WindowStart(target, indexer.lookback, indexer.startBlock);
      ConsumerHas(old(indexer.trace), old(indexer.delivered).Keys, numberOf, from, target + 1) ==>
        ConsumerHas(indexer.trace, indexer.delivered.Keys, numberOf, from, target + 1)
    ensures var from := WindowStart(target, indexer.lookback, indexer.startBlock);
      completed && from <= target && InTime(old(indexer.gate), g) ==>
        && Calls(indexer.trace) == Calls(between)
        && (ConsumerHas(old(indexer.trace), old(indexer.delivered).Keys, numberOf, from, target + 1) ==>
              ConsumerHas(between, IdsOfAll(Logs(chain, from, target + 1)), numberOf, from, target + 1))
  {
    hide Consistent, OneRange, NetMoved;
    var from := WindowStart(target, indexer.lookback, indexer.startBlock);
    ghost var held, start, gate := indexer.delivered.Keys, indexer.trace, indexer.gate;
    ghost var ranges, parts;
    completed, ranges, parts := indexer.ReconcileGap(chain, target, durableThrough, g, numberOf);
    between := indexer.trace;
    ghost var middle := indexer.delivered.Keys;
    if ConsumerHas(start, held, numberOf, from, target + 1) {
      ConsumerFollows(held, start, middle, between, numberOf, from, target + 1);
      if completed && from <= target && InTime(gate, g) {
        ConsumerConverges(held, start, middle, between, chain, numberOf, from, target + 1);
      }
    }
    if !completed || from > target {
      return;
    }
    ghost var again;
    again, ranges, parts := indexer.ReconcileGap(chain, target, durableThrough, g, numberOf);
    if ConsumerHas(between, middle, numberOf, from, target + 1) {
      ConsumerFollows(middle, between, indexer.delivered.Keys, indexer.trace, numberOf, from, target + 1);
    }
  }
}
