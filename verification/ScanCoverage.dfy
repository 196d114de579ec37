/** What a durable scan has handled at every step, on values: the saved entry against the logs delivered so far. */
module ScanCoverage {
  import opened Wrappers
  import opened EvmLogs
  import opened CursorStore
  import opened Chain
  import opened Deliveries
  import opened Lifecycle

  function LogCursor(log: Log): Cursor {
    Cursor(BlockOf(log), false, Some(PositionOf(log)))
  }

  /** The entry stands before the log. */
  predicate Behind(entry: Option<Cursor>, log: Log) {
    || entry.None?
    || entry.value.block < BlockOf(log)
    || (entry.value.block == BlockOf(log) && !entry.value.complete
        && (entry.value.last.None? || entry.value.last.value.blockHash != log.blockHash
            || AtOrBefore(entry.value.last.value, PositionOf(log))))
  }

  /** A range of a scan: the blocks from..end - 1, of a history that begins at base; the first skip logs were
      handled by an earlier process. */
  datatype Range = Range(chain: Blocks, base: nat, from: nat, end: nat, skip: nat)

  function RangeLogs(r: Range): seq<Log> {
    Logs(r.chain, r.from, r.end)
  }

  /** Everything handled when the first n logs of the range are. */
  function Handled(r: Range, n: nat): seq<Log>
    requires n <= |RangeLogs(r)|
  {
    Logs(r.chain, r.base, r.from) + RangeLogs(r)[..n]
  }

  ghost predicate GoodRange(r: Range, numberOf: string -> nat) {
    && WellFormed(r.chain, numberOf) && r.base <= r.from < r.end <= UINT64_MAX + 1 && r.skip <= |r.chain(r.from)|
  }

  /** An entry from which a scan of the history that begins at base can resume. */
  predicate Resumable(entry: Option<Cursor>, base: nat) {
    entry.Some? ==> entry.value.block <= UINT64_MAX && base <= ResumeBlock(entry, base)
  }

  /** With n logs handled: the entry covers no more than was handled, exactly that much if it is of this chain,
      and stands before every log still to come. */
  ghost predicate CursorAt(r: Range, entry: Option<Cursor>, exact: bool, n: nat) {
    && n <= |RangeLogs(r)|
    && (forall i :: n <= i < |RangeLogs(r)| ==> Behind(entry, RangeLogs(r)[i]))
    && Covered(r.chain, r.base, entry) <= Handled(r, n)
    && (exact ==> OnChain(r.chain, entry) && Covered(r.chain, r.base, entry) == Handled(r, n))
    && (entry.Some? ==> entry.value.block < r.end)
    && (exact ==> Resumable(entry, r.base))
  }

  /** Where the n-th log of a range stands: its block and its index there. */
  lemma {:induction false} Locate(chain: Blocks, numberOf: string -> nat, from: nat, end: nat, n: nat)
    returns (b: nat, i: nat)
    requires WellFormed(chain, numberOf) && n < |Logs(chain, from, end)|
    ensures from <= b < end && i < |chain(b)| && chain(b)[i] == Logs(chain, from, end)[n]
    ensures Logs(chain, from, end)[..n] == Logs(chain, from, b) + chain(b)[..i]
    ensures b == BlockOf(Logs(chain, from, end)[n])
    ensures b == from <==> n < |chain(from)|
    decreases end
  {
    var before := Logs(chain, from, end - 1);
    assert WellFormedBlock(chain, numberOf, end - 1);
    if n < |before| {
      b, i := Locate(chain, numberOf, from, end - 1, n);
      assert Logs(chain, from, end)[..n] == before[..n];
    } else {
      b, i := end - 1, n - |before|;
      assert Logs(chain, from, end)[..n] == before + chain(b)[..i];
      if b > from {
        FirstBlockLeads(chain, from, b);
      }
    }
  }

  /** Saving the position of a log makes the entry cover the history up to and including it. */
  lemma CoveredAtLog(r: Range, numberOf: string -> nat, n: nat)
    requires GoodRange(r, numberOf) && n < |RangeLogs(r)|
    ensures Covered(r.chain, r.base, Some(LogCursor(RangeLogs(r)[n]))) == Handled(r, n + 1)
    ensures OnChain(r.chain, Some(LogCursor(RangeLogs(r)[n])))
  {
    var log := RangeLogs(r)[n];
    var b, i := Locate(r.chain, numberOf, r.from, r.end, n);
    var entry := Some(LogCursor(log));
    assert WellFormedBlock(r.chain, numberOf, b);
    SkipIsPrefix(r.chain, numberOf, entry);
    assert Skip(r.chain, entry) == i + 1 by {
      if i + 1 < |r.chain(b)| {
        assert LogBefore(r.chain(b)[i], r.chain(b)[i + 1]);
      }
    }
    assert r.chain(b)[..i + 1] == r.chain(b)[..i] + [log];
    assert RangeLogs(r)[..n + 1] == RangeLogs(r)[..n] + [log];
    LogsSplit(r.chain, r.base, r.from, b);
  }

  /** A log that the cursor stands before is saved unless the entry is a position of another block's hash. */
  lemma SaveMovesCursor(r: Range, numberOf: string -> nat, entry: Option<Cursor>, exact: bool, n: nat)
    requires GoodRange(r, numberOf) && n < |RangeLogs(r)| && CursorAt(r, entry, exact, n)
    ensures CursorAt(r, AfterSave(entry, LogCursor(RangeLogs(r)[n])), exact, n + 1)
  {
    var logs := RangeLogs(r);
    var log := logs[n];
    var next := AfterSave(entry, LogCursor(log));
    LogsAreCanonical(r.chain, numberOf, r.from, r.end);
    assert log in logs;
    assert Handled(r, n + 1) == Handled(r, n) + [log];
    forall i | n + 1 <= i < |logs| ensures Behind(Some(LogCursor(log)), logs[i]) {
      assert LogBefore(log, logs[i]);
    }
    if next == entry {
      if exact {
        var b, i := Locate(r.chain, numberOf, r.from, r.end, n);
        assert r.chain(b)[i] == log;
        CoveredAtLog(r, numberOf, n);
      }
    } else {
      CoveredAtLog(r, numberOf, n);
    }
  }

  /** The checkpoint at the end of a range is never refused, and covers exactly what was scanned. */
  lemma CheckpointClosesRange(r: Range, numberOf: string -> nat, entry: Option<Cursor>, exact: bool)
    requires GoodRange(r, numberOf) && CursorAt(r, entry, exact, |RangeLogs(r)|)
    ensures AfterSave(entry, Cursor(r.end - 1, true, None)) == Some(Cursor(r.end - 1, true, None))
    ensures Covered(r.chain, r.base, Some(Cursor(r.end - 1, true, None))) == Handled(r, |RangeLogs(r)|)
    ensures Logs(r.chain, r.base, r.end) == Handled(r, |RangeLogs(r)|)
  {
    LogsSplit(r.chain, r.base, r.from, r.end);
    assert RangeLogs(r)[..|RangeLogs(r)|] == RangeLogs(r);
  }

  lemma FirstBlockLeads(chain: Blocks, from: nat, end: nat)
    requires from < end
    ensures chain(from) <= Logs(chain, from, end)
  {
    LogsSplit(chain, from, from + 1, end);
    assert Logs(chain, from, from) == [];
    assert Logs(chain, from, from + 1) == chain(from);
  }

  lemma ResumedScanIsAhead(chain: Blocks, numberOf: string -> nat, end: nat,
                           entry: Option<Cursor>, startBlock: nat, i: nat)
    requires WellFormed(chain, numberOf) && ResumeBlock(entry, startBlock) < end
    requires Skip(chain, entry) <= i < |Logs(chain, ResumeBlock(entry, startBlock), end)|
    ensures Behind(entry, Logs(chain, ResumeBlock(entry, startBlock), end)[i])
  {
    var from := ResumeBlock(entry, startBlock);
    var logs := Logs(chain, from, end);
    LogsAreCanonical(chain, numberOf, from, end);
    assert logs[i] in logs;
    if entry.Some? && !entry.value.complete && entry.value.last.Some? && BlockOf(logs[i]) == from {
      var b, k := Locate(chain, numberOf, from, end, i);
      SkipIsPrefix(chain, numberOf, entry);
      FirstBlockLeads(chain, from, end);
      assert chain(from)[i] == logs[i];
    }
  }

  /** A scan that resumes from an entry begins exactly where the entry's coverage ends. */
  lemma ResumeMeetsCoverage(chain: Blocks, numberOf: string -> nat, base: nat, end: nat,
                            entry: Option<Cursor>, startBlock: nat)
    requires WellFormed(chain, numberOf)
    requires base <= ResumeBlock(entry, startBlock) < end <= UINT64_MAX + 1 && (entry.None? ==> base == startBlock)
    ensures var r := Range(chain, base, ResumeBlock(entry, startBlock), end, Skip(chain, entry));
      GoodRange(r, numberOf) && r.skip <= |RangeLogs(r)|
      && Covered(chain, base, entry) == Handled(r, r.skip)
      && (OnChain(chain, entry) ==> CursorAt(r, entry, true, r.skip))
      && CursorAt(r, entry, false, r.skip)
  {
    var from := ResumeBlock(entry, startBlock);
    var r := Range(chain, base, from, end, Skip(chain, entry));
    FirstBlockLeads(chain, from, end);
    assert RangeLogs(r)[..r.skip] == chain(from)[..r.skip];
    forall i | r.skip <= i < |RangeLogs(r)| ensures Behind(entry, RangeLogs(r)[i]) {
      ResumedScanIsAhead(chain, numberOf, end, entry, startBlock, i);
    }
  }

  /** A scan that ended anywhere: nothing unhandled is covered, and at most the last handled log is not. */
  ghost predicate Stopped(r: Range, entry: Option<Cursor>, exact: bool, n: nat) {
    && n <= |RangeLogs(r)|
    && Covered(r.chain, r.base, entry) <= Handled(r, n)
    && (exact ==> Resumable(entry, r.base) && OnChain(r.chain, entry)
                  && |Handled(r, n)| <= |Covered(r.chain, r.base, entry)| + 1)
  }

  lemma StopHere(r: Range, entry: Option<Cursor>, exact: bool, n: nat)
    requires CursorAt(r, entry, exact, n)
    ensures Stopped(r, entry, exact, n)
    ensures n < |RangeLogs(r)| ==> Stopped(r, entry, exact, n + 1)
  {
    if n < |RangeLogs(r)| {
      assert Handled(r, n + 1) == Handled(r, n) + [RangeLogs(r)[n]];
    }
  }

  /** The test scan_ranges makes before it counts a log. */
  predicate AlreadyHandled(resume: Option<Cursor>, log: Log) {
    && resume.Some? && !resume.value.complete && resume.value.last.Some?
    && BlockOf(log) == resume.value.block
    && resume.value.last.value.blockHash == log.blockHash
    && AtOrBefore(PositionOf(log), resume.value.last.value)
  }

  /** How many logs of a range that begins at a block the resumed position covers. */
  function SkipAt(chain: Blocks, resume: Option<Cursor>, from: nat): nat {
    if resume.Some? && resume.value.block == from then Skip(chain, resume) else 0
  }

  /** The saved position lies in the log's block, under the log's block hash, at or behind its pair of indexes. */
  predicate CoversLog(resume: Option<Cursor>, log: Log) {
    && resume.Some? && !resume.value.complete && resume.value.last.Some?
    && log.block == Some(resume.value.block) && log.blockHash == resume.value.last.value.blockHash
    && AtMost(log, resume.value.last.value)
  }

  /** The resume test skips a log exactly when the saved position covers it; these are the first logs of the range. */
  lemma SkippedIff(r: Range, numberOf: string -> nat, resume: Option<Cursor>, i: nat)
    requires GoodRange(r, numberOf) && i < |RangeLogs(r)| && r.skip == SkipAt(r.chain, resume, r.from)
    requires resume.Some? && !resume.value.complete ==> resume.value.block <= r.from
    ensures AlreadyHandled(resume, RangeLogs(r)[i]) <==> i < r.skip
    ensures i < r.skip <==> CoversLog(resume, RangeLogs(r)[i])
  {
    LogsAreCanonical(r.chain, numberOf, r.from, r.end);
    FirstBlockLeads(r.chain, r.from, r.end);
    var log := RangeLogs(r)[i];
    assert log in RangeLogs(r);
    if resume.Some? && !resume.value.complete && resume.value.last.Some? && resume.value.block == r.from {
      var b, k := Locate(r.chain, numberOf, r.from, r.end, i);
      SkipIsPrefix(r.chain, numberOf, resume);
      if b == r.from {
        assert r.chain(r.from)[i] == log;
      }
    }
  }

  // ----- what a scan has delivered -----

  ghost predicate BelowBlock(held: set<Identity>, numberOf: string -> nat, end: nat) {
    forall id :: id in held ==> numberOf(id.blockHash) < end
  }

  ghost predicate Unseen(held: set<Identity>, logs: seq<Log>, n: nat) {
    forall i :: n <= i < |logs| ==> IdsOf(logs[i]) !! held
  }

  predicate AllAdded(logs: seq<Log>, added: set<Identity>) {
    forall i :: 0 <= i < |logs| ==> IdsOf(logs[i]) <= added
  }

  /** The logs skip..n - 1 of a range reached the consumer since the history before; with a table that started
      empty they are the only callbacks since then, each once and in order. */
  ghost predicate DeliveredUpTo(r: Range, numberOf: string -> nat, n: nat, before: seq<Event>, now: seq<Event>,
                                held: set<Identity>, clean: bool) {
    && r.skip <= n <= |RangeLogs(r)|
    && AddedIds(before) <= AddedIds(now)
    && AllAdded(RangeLogs(r)[r.skip..n], AddedIds(now))
    && (clean ==> && Calls(now) == Calls(before) + Adds(RangeLogs(r)[r.skip..n])
                  && Unseen(held, RangeLogs(r), n)
                  && BelowBlock(held, numberOf, r.end))
  }

  lemma DeliverNext(r: Range, numberOf: string -> nat, n: nat, before: seq<Event>, now: seq<Event>,
                    held: set<Identity>, clean: bool)
    requires GoodRange(r, numberOf) && n < |RangeLogs(r)|
    requires DeliveredUpTo(r, numberOf, n, before, now, held, clean)
    ensures DeliveredUpTo(r, numberOf, n + 1, before, now + [Added(RangeLogs(r)[n])],
                          held + IdsOf(RangeLogs(r)[n]), clean)
  {
    var logs := RangeLogs(r);
    LogsAreCanonical(r.chain, numberOf, r.from, r.end);
    assert logs[n] in logs;
    OneMore(now, Added(logs[n]));
    assert logs[r.skip..n + 1] == logs[r.skip..n] + [logs[n]];
    AddsAppend(logs[r.skip..n], logs[n]);
    forall i | n + 1 <= i < |logs| && clean ensures IdsOf(logs[i]) !! held + IdsOf(logs[n]) {
      assert IdentityOf(logs[n]) != IdentityOf(logs[i]);
    }
  }

  /** One hand-over: the log was added, or the table already held it, or the hand-over failed. A table that started
      empty never holds a log still to come. */
  lemma HandOver(r: Range, numberOf: string -> nat, n: nat, before: seq<Event>, now: seq<Event>, held: set<Identity>,
                 clean: bool, next: seq<Event>, nextHeld: set<Identity>, advanced: bool)
    requires GoodRange(r, numberOf) && n < |RangeLogs(r)| && held == Held(now)
    requires DeliveredUpTo(r, numberOf, n, before, now, held, clean)
    requires
      || (next == now && nextHeld == held)
      || (next == now + [Added(RangeLogs(r)[n])] && nextHeld == held + IdsOf(RangeLogs(r)[n]))
    requires advanced ==> IdsOf(RangeLogs(r)[n]) <= nextHeld
    ensures DeliveredUpTo(r, numberOf, if next != now || advanced then n + 1 else n, before, next, nextHeld, clean)
  {
    var logs := RangeLogs(r);
    if next != now {
      DeliverNext(r, numberOf, n, before, now, held, clean);
    } else if advanced {
      LogsAreCanonical(r.chain, numberOf, r.from, r.end);
      assert logs[n] in logs;
      HeldWereAdded(now);
      assert logs[r.skip..n + 1] == logs[r.skip..n] + [logs[n]];
    }
  }

  lemma StartOfRange(r: Range, numberOf: string -> nat, before: seq<Event>, held: set<Identity>, clean: bool)
    requires GoodRange(r, numberOf) && (clean ==> BelowBlock(held, numberOf, r.from))
    ensures r.skip <= |RangeLogs(r)|
    ensures DeliveredUpTo(r, numberOf, r.skip, before, before, held, clean)
  {
    var logs := RangeLogs(r);
    FirstBlockLeads(r.chain, r.from, r.end);
    LogsAreCanonical(r.chain, numberOf, r.from, r.end);
    forall i | r.skip <= i < |logs| && clean ensures IdsOf(logs[i]) !! held {
      assert logs[i] in logs;
    }
  }

  /** Prunes change neither the callbacks nor what was ever added. */
  lemma {:induction false} PrunesAreSilent(before: seq<Event>, now: seq<Event>)
    requires before <= now && forall i :: |before| <= i < |now| ==> now[i].Pruned?
    ensures Calls(now) == Calls(before) && AddedIds(now) == AddedIds(before) && Held(now) <= Held(before)
    decreases |now|
  {
    if now == before {
    } else {
      var shorter := now[..|now| - 1];
      PrunesAreSilent(before, shorter);
      OneMore(shorter, now[|now| - 1]);
      assert now == shorter + [now[|now| - 1]];
    }
  }

  lemma DeliveredAfterPrunes(r: Range, numberOf: string -> nat, n: nat, before: seq<Event>, now: seq<Event>,
                             held: set<Identity>, clean: bool, pruned: seq<Event>, less: set<Identity>)
    requires DeliveredUpTo(r, numberOf, n, before, now, held, clean) && less <= held
    requires now <= pruned && forall i :: |now| <= i < |pruned| ==> pruned[i].Pruned?
    ensures DeliveredUpTo(r, numberOf, n, before, pruned, less, clean)
  {
    PrunesAreSilent(now, pruned);
  }

  // ----- a scan of several ranges -----

  /** The logs of from..e - 1 beyond the first skip. */
  function DoneLogs(chain: Blocks, from: nat, e: nat, skip: nat): seq<Log>
    requires skip <= |chain(from)|
  {
    var logs := Logs(chain, from, e);
    if from < e && skip <= |logs| then logs[skip..] else []
  }

  ghost predicate Within(whole: Range, r: Range) {
    && whole.chain == r.chain && whole.base == r.base
    && whole.base <= whole.from <= r.from < r.end <= whole.end
    && whole.skip <= |whole.chain(whole.from)|
    && r.skip == (if r.from == whole.from then whole.skip else 0)
  }

  lemma DoneSoFar(chain: Blocks, from: nat, e: nat, skip: nat)
    requires from < e && skip <= |chain(from)|
    ensures Logs(chain, from, e) == chain(from)[..skip] + DoneLogs(chain, from, e, skip)
  {
    FirstBlockLeads(chain, from, e);
    var logs := Logs(chain, from, e);
    assert logs == logs[..skip] + logs[skip..];
  }

  lemma JoinFirst(whole: Range, r: Range, n: nat)
    requires Within(whole, r) && r.skip <= n <= |RangeLogs(r)| && r.from == whole.from
    ensures Logs(r.chain, r.base, r.from) + r.chain(r.from)[..r.skip] + RangeLogs(r)[r.skip..n] == Handled(r, n)
  {
    FirstBlockLeads(r.chain, r.from, r.end);
    var here := RangeLogs(r);
    assert here[..r.skip] == r.chain(r.from)[..r.skip];
    assert here[..n] == here[..r.skip] + here[r.skip..n];
  }

  lemma JoinLater(whole: Range, r: Range, n: nat)
    requires Within(whole, r) && n <= |RangeLogs(r)| && whole.from < r.from
    ensures Logs(r.chain, r.base, whole.from) + r.chain(whole.from)[..whole.skip]
            + DoneLogs(r.chain, whole.from, r.from, whole.skip) + RangeLogs(r)[0..n] == Handled(r, n)
    ensures DoneLogs(r.chain, whole.from, r.end, whole.skip)
         == DoneLogs(r.chain, whole.from, r.from, whole.skip) + RangeLogs(r)
  {
    var chain, from, skip := r.chain, whole.from, whole.skip;
    LogsSplit(chain, from, r.from, r.end);
    LogsSplit(chain, r.base, from, r.from);
    DoneSoFar(chain, from, r.from, skip);
    DoneSoFar(chain, from, r.end, skip);
    var lead := chain(from)[..skip];
    assert lead + (DoneLogs(chain, from, r.from, skip) + RangeLogs(r)) == lead + DoneLogs(chain, from, r.end, skip);
    SameAfterPrefix(lead, DoneLogs(chain, from, r.from, skip) + RangeLogs(r), DoneLogs(chain, from, r.end, skip));
  }

  lemma SameAfterPrefix(lead: seq<Log>, a: seq<Log>, b: seq<Log>)
    requires lead + a == lead + b
    ensures a == b
  {
    assert a == (lead + a)[|lead|..] && b == (lead + b)[|lead|..];
  }

  /** What was covered before a scan, then what the scan did before the range r, then what it did in r. */
  lemma JoinRange(whole: Range, r: Range, n: nat)
    requires Within(whole, r) && r.skip <= n <= |RangeLogs(r)|
    ensures whole.skip <= |RangeLogs(whole)|
    ensures Handled(whole, whole.skip) + (DoneLogs(r.chain, whole.from, r.from, whole.skip) + RangeLogs(r)[r.skip..n])
         == Handled(r, n)
    ensures n == |RangeLogs(r)| ==>
      DoneLogs(r.chain, whole.from, r.end, whole.skip)
      == DoneLogs(r.chain, whole.from, r.from, whole.skip) + RangeLogs(r)[r.skip..n]
  {
    FirstBlockLeads(whole.chain, whole.from, whole.end);
    assert RangeLogs(whole)[..whole.skip] == whole.chain(whole.from)[..whole.skip];
    if r.from == whole.from {
      JoinFirst(whole, r, n);
      FirstBlockLeads(r.chain, r.from, r.end);
    } else {
      JoinLater(whole, r, n);
    }
  }

  lemma DoneIsPrefix(chain: Blocks, from: nat, e: nat, end: nat, skip: nat)
    requires from <= e <= end && skip <= |chain(from)|
    ensures DoneLogs(chain, from, e, skip) <= DoneLogs(chain, from, end, skip)
  {
    if from < e {
      FirstBlockLeads(chain, from, e);
      LogsSplit(chain, from, e, end);
    }
  }

  /** The account of a whole scan: done is what it handed over or found handed over, after what was covered. */
  ghost predicate ScanAccount(chain: Blocks, base: nat, persist: bool, covered: seq<Log>, done: seq<Log>,
                              entry: Option<Cursor>, exact: bool)
  {
    persist ==>
      && Covered(chain, base, entry) <= covered + done
      && (exact ==> Resumable(entry, base) && OnChain(chain, entry)
                    && |covered + done| <= |Covered(chain, base, entry)| + 1)
  }

  /** What a scan has done when it ends in the range r. */
  lemma BatchDone(whole: Range, r: Range, n: nat)
    requires Within(whole, r) && r.skip <= n <= |RangeLogs(r)|
    ensures var done := DoneLogs(r.chain, whole.from, r.from, whole.skip) + RangeLogs(r)[r.skip..n];
      && done <= DoneLogs(r.chain, whole.from, whole.end, whole.skip)
      && (n == |RangeLogs(r)| ==> done == DoneLogs(r.chain, whole.from, r.end, whole.skip))
  {
    JoinRange(whole, r, n);
    JoinRange(whole, r, |RangeLogs(r)|);
    DoneIsPrefix(r.chain, whole.from, r.end, whole.end, whole.skip);
    assert DoneLogs(r.chain, whole.from, r.from, whole.skip) + RangeLogs(r)[r.skip..n]
        <= DoneLogs(r.chain, whole.from, r.end, whole.skip);
  }

  ghost predicate ScanTrace(before: seq<Event>, now: seq<Event>, done: seq<Log>, clean: bool) {
    && AddedIds(before) <= AddedIds(now)
    && AllAdded(done, AddedIds(now))
    && (clean ==> Calls(now) == Calls(before) + Adds(done))
  }

  lemma TraceJoin(a: seq<Event>, b: seq<Event>, c: seq<Event>, first: seq<Log>, second: seq<Log>, clean: bool)
    requires ScanTrace(a, b, first, clean) && ScanTrace(b, c, second, clean)
    ensures ScanTrace(a, c, first + second, clean)
  {
    AddsJoin(first, second);
    assert AllAdded(first, AddedIds(c));
  }

  ghost predicate Silent(before: seq<Event>, now: seq<Event>) {
    Calls(now) == Calls(before) && AddedIds(now) == AddedIds(before)
  }

  /** The generation a scan works under, and whether the environment leaves the process alone. */
  datatype Watch = Watch(calm: bool, generation: nat)

  /** The consumer's history, the identities in the table, and the gate, at one moment of a scan. */
  datatype Moment = Moment(trace: seq<Event>, held: set<Identity>, gate: Gate)

  /** How a scan came through the time it took: whole, unless delivery ended under its generation; always whole if the
      generation was read in time; without effect if delivery had ended before. */
  ghost predicate CameThrough(w: Watch, before: Gate, now: Gate, whole: bool, silent: bool) {
    && Elapses(w.calm, before, now)
    && (whole || now.shutdown)
    && (InTime(before, w.generation) ==> whole)
    && (before.shutdown ==> silent)
  }

  /** done: what the scan has behind it, all of it handed over or found handed over but for what it passed over when
      delivery had ended. given: the part before that. */
  ghost predicate Accounted(w: Watch, start: Moment, now: Moment, done: seq<Log>, given: seq<Log>, clean: bool) {
    && given <= done
    && ScanTrace(start.trace, now.trace, given, clean)
    && CameThrough(w, start.gate, now.gate, given == done, Silent(start.trace, now.trace))
  }

  lemma NothingAccounted(w: Watch, now: Moment, clean: bool)
    ensures Accounted(w, now, now, [], [], clean)
  {
  }

  /** The account of two consecutive scans; what follows the first log passed over is passed over too. */
  lemma AccountsJoin(w: Watch, a: Moment, b: Moment, c: Moment, done: seq<Log>, given: seq<Log>, more: seq<Log>,
                     moreGiven: seq<Log>, clean: bool)
    requires w.generation <= a.gate.generation
    requires Accounted(w, a, b, done, given, clean) && Accounted(w, b, c, more, moreGiven, clean)
    ensures Accounted(w, a, c, done + more, if given == done then given + moreGiven else given, clean)
  {
    if given == done {
      TraceJoin(a.trace, b.trace, c.trace, given, moreGiven, clean);
    } else {
      assert b.gate.shutdown;
    }
    if InTime(a.gate, w.generation) {
      StillInTime(a.gate, b.gate, w.generation);
    }
  }

  /** Time that passes before a scan does anything belongs to its account. */
  lemma AccountWaits(w: Watch, earlier: Gate, start: Moment, now: Moment, done: seq<Log>, given: seq<Log>,
                     clean: bool)
    requires w.generation <= earlier.generation && Elapses(w.calm, earlier, start.gate)
    requires Accounted(w, start, now, done, given, clean)
    ensures Accounted(w, start.(gate := earlier), now, done, given, clean)
  {
    if InTime(earlier, w.generation) {
      StillInTime(earlier, start.gate, w.generation);
    }
  }

  // ----- one log of a range -----

  /** A scan, of one range or of several, as it began: the table was free of the blocks to come if clean is set, and
      the entry belonged to this chain if exact is set. */
  datatype Scan = Scan(whole: Range, numberOf: string -> nat, exact: bool, clean: bool, entry: Option<Cursor>,
                       start: Moment)

  /** The account inside a range: handled logs lie behind the scan, the first given of them were handed over. */
  ghost predicate Tally(scan: Scan, w: Watch, now: Moment, handled: nat, given: nat) {
    && given <= handled <= |RangeLogs(scan.whole)|
    && DeliveredUpTo(scan.whole, scan.numberOf, given, scan.start.trace, now.trace, now.held, scan.clean)
    && CameThrough(w, scan.start.gate, now.gate, given == handled, Silent(scan.start.trace, now.trace))
  }

  /** One hand-over of a log: at most that log was added; nothing if delivery had ended. */
  ghost predicate HandsOver(w: Watch, log: Log, before: Moment, now: Moment) {
    && (|| (now.trace == before.trace && now.held == before.held)
        || (now.trace == before.trace + [Added(log)] && now.held == before.held + IdsOf(log)))
    && Elapses(w.calm, before.gate, now.gate) && Sound(now.gate)
    && (before.gate.shutdown ==> now.trace == before.trace)
  }

  /** The log reached the consumer, or was found in the table by a scan that goes on. */
  predicate Kept(log: Log, before: Moment, now: Moment, advanced: bool) {
    now.trace != before.trace || (advanced && IdsOf(log) <= now.held)
  }

  /** What one hand-over makes of the account. A log behind the scan that was not kept found delivery ended. */
  lemma TallyNext(scan: Scan, w: Watch, before: Moment, i: nat, given: nat, now: Moment, advanced: bool)
    requires w.generation <= scan.start.gate.generation && GoodRange(scan.whole, scan.numberOf)
    requires Tally(scan, w, before, i, given) && i < |RangeLogs(scan.whole)| && before.held == Held(before.trace)
    requires HandsOver(w, RangeLogs(scan.whole)[i], before, now)
    requires advanced && !Kept(RangeLogs(scan.whole)[i], before, now, advanced) ==>
      now.gate.shutdown && now.gate.generation == w.generation
    ensures var kept := Kept(RangeLogs(scan.whole)[i], before, now, advanced);
      Tally(scan, w, now, if now.trace != before.trace || advanced then i + 1 else i,
            if given == i && kept then i + 1 else given)
  {
    var kept := Kept(RangeLogs(scan.whole)[i], before, now, advanced);
    if given == i {
      HandOver(scan.whole, scan.numberOf, i, scan.start.trace, before.trace, before.held, scan.clean, now.trace,
               now.held, advanced && kept);
    }
    if InTime(scan.start.gate, w.generation) {
      StillInTime(scan.start.gate, before.gate, w.generation);
      StillInTime(before.gate, now.gate, w.generation);
    }
  }

  lemma StartOfTally(scan: Scan, w: Watch)
    requires GoodRange(scan.whole, scan.numberOf)
    requires scan.clean ==> BelowBlock(scan.start.held, scan.numberOf, scan.whole.from)
    ensures scan.whole.skip <= |RangeLogs(scan.whole)|
    ensures Tally(scan, w, scan.start, scan.whole.skip, scan.whole.skip)
  {
    StartOfRange(scan.whole, scan.numberOf, scan.start.trace, scan.start.held, scan.clean);
  }

  lemma TallyKeepsSkip(scan: Scan, w: Watch, now: Moment, handled: nat, given: nat)
    requires Tally(scan, w, now, handled, given)
    ensures scan.whole.skip <= given && Elapses(w.calm, scan.start.gate, now.gate)
  {
  }

  lemma TallyAfterPrunes(scan: Scan, w: Watch, now: Moment, handled: nat, given: nat, pruned: Moment)
    requires Tally(scan, w, now, handled, given) && pruned.held <= now.held && pruned.gate == now.gate
    requires now.trace <= pruned.trace
    requires forall i :: |now.trace| <= i < |pruned.trace| ==> pruned.trace[i].Pruned?
    ensures Tally(scan, w, pruned, handled, given)
  {
    DeliveredAfterPrunes(scan.whole, scan.numberOf, given, scan.start.trace, now.trace, now.held, scan.clean,
                         pruned.trace, pruned.held);
    PrunesAreSilent(now.trace, pruned.trace);
  }

  /** The account inside a range is the account of the range. */
  lemma TallyAccounts(scan: Scan, w: Watch, now: Moment, handled: nat, given: nat)
    requires Tally(scan, w, now, handled, given)
    ensures scan.whole.skip <= given <= handled <= |RangeLogs(scan.whole)|
    ensures Elapses(w.calm, scan.start.gate, now.gate)
    ensures Accounted(w, scan.start, now, RangeLogs(scan.whole)[scan.whole.skip..handled],
                      RangeLogs(scan.whole)[scan.whole.skip..given], scan.clean)
    ensures scan.clean ==> BelowBlock(now.held, scan.numberOf, scan.whole.end)
  {
    var logs := RangeLogs(scan.whole);
    if given < handled {
      assert |logs[scan.whole.skip..given]| < |logs[scan.whole.skip..handled]|;
    }
  }

  lemma TallyLater(scan: Scan, w: Watch, now: Moment, handled: nat, given: nat, gate: Gate)
    requires Tally(scan, w, now, handled, given) && Elapses(w.calm, now.gate, gate)
    ensures Tally(scan, w, now.(gate := gate), handled, given)
  {
  }

  /** The entry a scan resumed from stands where the scan begins. */
  ghost predicate ResumesAt(whole: Range, entry: Option<Cursor>, exact: bool) {
    && whole.skip <= |RangeLogs(whole)|
    && (entry.Some? ==> entry.value.block <= whole.from)
    && Covered(whole.chain, whole.base, entry) == Handled(whole, whole.skip)
    && CursorAt(whole, entry, exact, whole.skip)
  }

  lemma ResumesHere(chain: Blocks, numberOf: string -> nat, base: nat, end: nat, entry: Option<Cursor>,
                    startBlock: nat, exact: bool)
    requires WellFormed(chain, numberOf) && base <= ResumeBlock(entry, startBlock) < end <= UINT64_MAX + 1
    requires (entry.None? ==> base == startBlock) && (exact ==> OnChain(chain, entry))
    ensures var from := ResumeBlock(entry, startBlock);
      var whole := Range(chain, base, from, end, SkipAt(chain, entry, from));
      GoodRange(whole, numberOf) && ResumesAt(whole, entry, exact)
  {
    ResumeMeetsCoverage(chain, numberOf, base, end, entry, startBlock);
  }

  lemma CursorAfterCheckpoint(r: Range, numberOf: string -> nat, exact: bool)
    requires GoodRange(r, numberOf) && r.base < r.from && r.skip == 0
    ensures CursorAt(r, Some(Cursor(r.from - 1, true, None)), exact, 0)
  {
    LogsAreCanonical(r.chain, numberOf, r.from, r.end);
    var here := RangeLogs(r);
    forall i | 0 <= i < |here| ensures Behind(Some(Cursor(r.from - 1, true, None)), here[i]) {
      assert here[i] in here;
    }
    assert Handled(r, 0) == Logs(r.chain, r.base, r.from);
  }

  lemma CursorOfFirstBatch(whole: Range, r: Range, entry: Option<Cursor>, exact: bool)
    requires Within(whole, r) && ResumesAt(whole, entry, exact) && whole.from == r.from
    ensures r.skip <= |RangeLogs(r)|
    ensures CursorAt(r, entry, exact, r.skip)
  {
    FirstBlockLeads(r.chain, r.from, r.end);
    LogsSplit(r.chain, r.from, r.end, whole.end);
    var here := RangeLogs(r);
    assert here <= RangeLogs(whole);
    assert here[..r.skip] == RangeLogs(whole)[..r.skip];
    forall i | r.skip <= i < |here| ensures Behind(entry, here[i]) {
      assert here[i] == RangeLogs(whole)[i];
    }
  }

  /** At a boundary the entry stands before every log of the next range and covers exactly what is done. */
  lemma BoundaryCursor(whole: Range, r: Range, numberOf: string -> nat, entry: Option<Cursor>, exact: bool)
    requires GoodRange(whole, numberOf) && Within(whole, r) && ResumesAt(whole, entry, exact)
    ensures r.skip <= |RangeLogs(r)|
    ensures CursorAt(r, if whole.from < r.from then Some(Cursor(r.from - 1, true, None)) else entry, exact, r.skip)
  {
    if whole.from < r.from {
      CursorAfterCheckpoint(r, numberOf, exact);
    } else {
      CursorOfFirstBatch(whole, r, entry, exact);
    }
  }

  lemma NothingScannedYet(chain: Blocks, base: nat, entry: Option<Cursor>, exact: bool)
    requires exact ==> Resumable(entry, base) && OnChain(chain, entry)
    ensures ScanAccount(chain, base, true, Covered(chain, base, entry), [], entry, exact)
    ensures ScanAccount(chain, base, false, Covered(chain, base, entry), [], entry, exact)
  {
    assert Covered(chain, base, entry) + [] == Covered(chain, base, entry);
  }

  lemma ScanBegins(scan: Scan, persist: bool)
    requires persist ==> ResumesAt(scan.whole, scan.entry, scan.exact)
    ensures ScanAccount(scan.whole.chain, scan.whole.base, persist,
                        Covered(scan.whole.chain, scan.whole.base, scan.entry), [], scan.entry, scan.exact)
  {
    var covered := Covered(scan.whole.chain, scan.whole.base, scan.entry);
    assert covered + [] == covered;
  }

  /** The batch as a range of its own. */
  function BatchRange(whole: Range, range: BlockRange): Range {
    Range(whole.chain, whole.base, range.from, range.to + 1, if range.from == whole.from then whole.skip else 0)
  }

  lemma BatchStarts(whole: Range, range: BlockRange, numberOf: string -> nat, resume: Option<Cursor>,
                    entry: Option<Cursor>, persist: bool, exact: bool)
    requires GoodRange(whole, numberOf) && whole.skip == SkipAt(whole.chain, resume, whole.from)
    requires whole.from <= range.from <= range.to < whole.end
    requires resume.Some? && !resume.value.complete ==> resume.value.block <= whole.from
    requires persist ==> ResumesAt(whole, entry, exact)
    ensures var r := BatchRange(whole, range);
      && Within(whole, r) && GoodRange(r, numberOf)
      && r.chain == whole.chain && r.base == whole.base && r.from == range.from && r.end == range.to + 1
      && r.skip == SkipAt(r.chain, resume, r.from) && r.skip <= |RangeLogs(r)|
      && (persist ==> CursorAt(r, if whole.from < r.from then Some(Cursor(r.from - 1, true, None)) else entry, exact,
                               r.skip))
  {
    var r := BatchRange(whole, range);
    FirstBlockLeads(r.chain, r.from, r.end);
    if persist {
      BoundaryCursor(whole, r, numberOf, entry, exact);
    }
  }

  lemma GenerationStays(calm: bool, before: Gate, now: Gate, g: nat)
    requires Elapses(calm, before, now) && g <= before.generation
    ensures g <= now.generation
  {
  }

  lemma AccountElapses(w: Watch, start: Moment, now: Moment, done: seq<Log>, given: seq<Log>, clean: bool)
    requires Accounted(w, start, now, done, given, clean)
    ensures Elapses(w.calm, start.gate, now.gate)
  {
  }

  lemma SavedAfterBatch(persist: bool, whole: Range, r: Range, n: nat, before: Option<Cursor>, entry: Option<Cursor>,
                        exact: bool)
    requires Within(whole, r) && r.skip <= n <= |RangeLogs(r)|
    requires persist ==> ResumesAt(whole, before, exact) && Stopped(r, entry, exact, n)
    ensures ScanAccount(r.chain, r.base, persist, Covered(r.chain, r.base, before),
                        DoneLogs(r.chain, whole.from, r.from, whole.skip) + RangeLogs(r)[r.skip..n], entry, exact)
  {
    if persist {
      JoinRange(whole, r, n);
    }
  }

  lemma WholeIfInTime(w: Watch, start: Moment, now: Moment, done: seq<Log>, given: seq<Log>, clean: bool)
    requires Accounted(w, start, now, done, given, clean)
    ensures !start.gate.closing ==> given == done
  {
  }

  /** What a scan of the blocks between the durable block and the head has behind it. */
  ghost predicate UnconfirmedOf(chain: Blocks, from: nat, entry: Option<Cursor>, durable: nat, head: nat,
                                unconfirmed: seq<Log>, completed: bool)
  {
    if head <= durable then unconfirmed == []
    else
      var rest := if from < durable + 1 then durable + 1 else from;
      var logs := DoneLogs(chain, rest, head + 1, SkipAt(chain, entry, rest));
      unconfirmed <= logs && (completed ==> unconfirmed == logs)
  }

  lemma NothingUnconfirmed(chain: Blocks, from: nat, entry: Option<Cursor>, durable: nat, head: nat)
    ensures UnconfirmedOf(chain, from, entry, durable, head, [], false)
  {
  }

  lemma UnconfirmedAreAbove(chain: Blocks, numberOf: string -> nat, from: nat, entry: Option<Cursor>, durable: nat,
                            head: nat, unconfirmed: seq<Log>, completed: bool)
    requires WellFormed(chain, numberOf) && UnconfirmedOf(chain, from, entry, durable, head, unconfirmed, completed)
    ensures forall i :: 0 <= i < |unconfirmed| ==> durable < BlockOf(unconfirmed[i]) <= head
  {
    if head > durable {
      var rest := if from < durable + 1 then durable + 1 else from;
      if rest < head + 1 {
        DoneAreWithin(chain, numberOf, rest, head + 1, SkipAt(chain, entry, rest));
      }
      hide DoneLogs, SkipAt;
    }
  }

  lemma DoneAreWithin(chain: Blocks, numberOf: string -> nat, from: nat, end: nat, skip: nat)
    requires WellFormed(chain, numberOf) && from < end && skip <= |chain(from)|
    ensures forall i :: 0 <= i < |DoneLogs(chain, from, end, skip)| ==>
      from <= BlockOf(DoneLogs(chain, from, end, skip)[i]) < end
  {
    LogsAreCanonical(chain, numberOf, from, end);
    FirstBlockLeads(chain, from, end);
    hide WellFormed, Logs;
    var logs, done := Logs(chain, from, end), DoneLogs(chain, from, end, skip);
    forall i | 0 <= i < |done| ensures from <= BlockOf(done[i]) < end {
      assert done[i] == logs[skip + i];
      assert logs[skip + i] in logs;
    }
  }
}
