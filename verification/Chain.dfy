/** The chain a scan reads: for every block the logs of the filter, in order. */
module Chain {
  import opened Wrappers
  import opened EvmLogs
  import opened CursorStore

  type Blocks = nat -> seq<Log>

  /** Each block's logs are identified, carry the block's number and hash, and stand at increasing pairs
      of transaction and log index; numberOf gives the block number of a block hash. */
  ghost predicate WellFormedBlock(chain: Blocks, numberOf: string -> nat, b: nat) {
    && (forall i :: 0 <= i < |chain(b)| ==>
          && chain(b)[i].block == Some(b) && !chain(b)[i].removed
          && IdentityOf(chain(b)[i]).Some?
          && numberOf(chain(b)[i].blockHash) == b
          && chain(b)[i].blockHash == chain(b)[0].blockHash)
    && (forall i, j :: 0 <= i < j < |chain(b)| ==>
          && Precedes(chain(b)[i], chain(b)[j])
          && IdentityOf(chain(b)[i]) != IdentityOf(chain(b)[j]))
  }

  ghost predicate WellFormed(chain: Blocks, numberOf: string -> nat) {
    forall b :: WellFormedBlock(chain, numberOf, b)
  }

  /** The logs of the blocks from..end - 1. */
  function Logs(chain: Blocks, from: nat, end: nat): seq<Log> {
    if end <= from then [] else Logs(chain, from, end - 1) + chain(end - 1)
  }

  lemma {:induction false} LogsSplit(chain: Blocks, from: nat, mid: nat, end: nat)
    requires from <= mid <= end
    ensures Logs(chain, from, end) == Logs(chain, from, mid) + Logs(chain, mid, end)
    decreases end - mid
  {
    if mid < end {
      LogsSplit(chain, from, mid, end - 1);
    }
  }

  ghost predicate Canonical(log: Log, numberOf: string -> nat, from: nat, end: nat) {
    && log.block.Some? && from <= BlockOf(log) < end && !log.removed && IdentityOf(log).Some?
    && numberOf(log.blockHash) == BlockOf(log)
  }

  ghost predicate Increasing(logs: seq<Log>) {
    forall i, j :: 0 <= i < j < |logs| ==> LogBefore(logs[i], logs[j]) && IdentityOf(logs[i]) != IdentityOf(logs[j])
  }

  lemma {:induction false} LogsAreCanonical(chain: Blocks, numberOf: string -> nat, from: nat, end: nat)
    requires WellFormed(chain, numberOf)
    ensures forall log :: log in Logs(chain, from, end) ==> Canonical(log, numberOf, from, end)
    ensures Increasing(Logs(chain, from, end))
  {
    if from < end {
      LogsAreCanonical(chain, numberOf, from, end - 1);
      assert WellFormedBlock(chain, numberOf, end - 1);
      var before, last := Logs(chain, from, end - 1), chain(end - 1);
      forall i, j | 0 <= i < j < |before + last|
        ensures LogBefore((before + last)[i], (before + last)[j])
        ensures IdentityOf((before + last)[i]) != IdentityOf((before + last)[j])
      {
        if i < |before| <= j {
          assert before[i] in before;
        }
      }
    }
  }

  // ----- sorting what get_logs returned -----

  predicate Sorted(logs: seq<Log>) {
    forall i, j :: 0 <= i < j < |logs| ==> !LogBefore(logs[j], logs[i])
  }

  /** Block numbers, transaction indexes and log indexes never descend, each where those before it are equal. */
  predicate Ascending(logs: seq<Log>) {
    forall i, j :: 0 <= i < j < |logs| ==> NumbersAscend(logs[i], logs[j])
  }

  predicate NumbersAscend(a: Log, b: Log) {
    && a.block.GetOr(0) <= b.block.GetOr(0)
    && (a.block.GetOr(0) == b.block.GetOr(0) ==>
          && a.txIndex.GetOr(0) <= b.txIndex.GetOr(0)
          && (a.txIndex.GetOr(0) == b.txIndex.GetOr(0) ==> a.logIndex.GetOr(0) <= b.logIndex.GetOr(0)))
  }

  lemma SortedAscends(logs: seq<Log>)
    ensures Sorted(logs) <==> Ascending(logs)
  {
    forall i, j | 0 <= i < j < |logs| ensures NumbersAscend(logs[i], logs[j]) <==> !LogBefore(logs[j], logs[i]) {
    }
  }

  /** Neither log comes before the other. */
  predicate Tied(a: Log, b: Log) {
    !LogBefore(a, b) && !LogBefore(b, a)
  }

  /** The logs that are tied with x, in the order of the list. */
  function Ties(logs: seq<Log>, x: Log): seq<Log> {
    if logs == [] then []
    else Ties(logs[..|logs| - 1], x) + (if Tied(logs[|logs| - 1], x) then [logs[|logs| - 1]] else [])
  }

  lemma {:induction false} TiesJoin(a: seq<Log>, b: seq<Log>, x: Log)
    ensures Ties(a + b, x) == Ties(a, x) + Ties(b, x)
  {
    if b == [] {
      assert a + b == a;
    } else {
      assert (a + b)[..|a + b| - 1] == a + b[..|b| - 1];
      TiesJoin(a, b[..|b| - 1], x);
    }
  }

  lemma {:induction false} NoTies(logs: seq<Log>, x: Log)
    requires forall i :: 0 <= i < |logs| ==> !Tied(logs[i], x)
    ensures Ties(logs, x) == []
  {
    if logs != [] {
      NoTies(logs[..|logs| - 1], x);
    }
  }

  lemma BeforeLeavesTies(log: Log, later: Log, x: Log)
    requires Tied(log, x) && LogBefore(log, later)
    ensures !Tied(later, x)
  {
  }

  /** A log inserted before everything that comes after it stays behind the logs it is tied with. */
  lemma InsertIsStable(front: seq<Log>, log: Log, back: seq<Log>, x: Log)
    requires forall j :: 0 <= j < |back| ==> LogBefore(log, back[j])
    ensures Ties(front + [log] + back, x) == Ties(front + back, x) + Ties([log], x)
  {
    hide LogBefore, Tied, Ties;
    TiesJoin(front + [log], back, x);
    TiesJoin(front, [log], x);
    TiesJoin(front, back, x);
    if Tied(log, x) {
      forall j | 0 <= j < |back| ensures !Tied(back[j], x) {
        BeforeLeavesTies(log, back[j], x);
      }
      NoTies(back, x);
    } else {
      NoTies([log], x);
    }
  }

  lemma NotBeforeChains(a: Log, b: Log, c: Log)
    ensures !LogBefore(b, a) && !LogBefore(c, b) ==> !LogBefore(c, a)
    ensures LogBefore(a, b) ==> !LogBefore(b, a)
  {
  }

  lemma InsertKeepsSorted(front: seq<Log>, log: Log, back: seq<Log>)
    requires Sorted(front + back) && (front == [] || !LogBefore(log, front[|front| - 1]))
    requires forall j :: 0 <= j < |back| ==> LogBefore(log, back[j])
    ensures Sorted(front + [log] + back)
  {
    hide LogBefore;
    var all := front + back;
    forall i | 0 <= i < |front| ensures !LogBefore(log, front[i]) {
      assert all[i] == front[i] && all[|front| - 1] == front[|front| - 1];
      NotBeforeChains(front[i], front[|front| - 1], log);
    }
    forall j | 0 <= j < |back| ensures !LogBefore(back[j], log) {
      NotBeforeChains(log, back[j], log);
    }
    assert forall i :: 0 <= i < |front| ==> all[i] == front[i];
    assert forall j :: 0 <= j < |back| ==> all[|front| + j] == back[j];
  }

  lemma NothingIsSorted()
    ensures Sorted([])
  {
  }

  /** Where a log belongs: behind everything that is not after it. */
  method PlaceOf(sorted: seq<Log>, log: Log) returns (k: nat)
    requires Sorted(sorted)
    ensures k <= |sorted| && (k > 0 ==> !LogBefore(log, sorted[k - 1]))
    ensures forall j :: k <= j < |sorted| ==> LogBefore(log, sorted[j])
  {
    k := |sorted|;
    while k > 0 && LogBefore(log, sorted[k - 1])
      invariant 0 <= k <= |sorted|
      invariant forall j :: k <= j < |sorted| ==> LogBefore(log, sorted[j])
    {
      k := k - 1;
    }
  }

  /** std::stable_sort with the canonical order: tied logs keep the order they had. */
  method StableSort(logs: seq<Log>) returns (sorted: seq<Log>)
    ensures Sorted(sorted) && Ascending(sorted)
    ensures multiset(sorted) == multiset(logs)
    ensures forall x :: Ties(sorted, x) == Ties(logs, x)
  {
    hide Ties, LogBefore, Sorted, Ascending;
    sorted := [];
    assert Sorted([]) by {
      NothingIsSorted();
    }
    for i := 0 to |logs|
      invariant Sorted(sorted)
      invariant multiset(sorted) == multiset(logs[..i])
      invariant forall x :: Ties(sorted, x) == Ties(logs[..i], x)
    {
      var k := PlaceOf(sorted, logs[i]);
      ghost var front, back := sorted[..k], sorted[k..];
      assert sorted == front + back;
      assert logs[..i + 1] == logs[..i] + [logs[i]];
      InsertKeepsSorted(front, logs[i], back);
      forall x ensures Ties(front + [logs[i]] + back, x) == Ties(logs[..i + 1], x) {
        InsertIsStable(front, logs[i], back, x);
        TiesJoin(logs[..i], [logs[i]], x);
      }
      sorted := sorted[..k] + [logs[i]] + sorted[k..];
    }
    assert logs[..|logs|] == logs;
    SortedAscends(sorted);
  }

  lemma SortedStartsWithLeast(sorted: seq<Log>, logs: seq<Log>)
    requires Sorted(sorted) && Increasing(logs) && multiset(sorted) == multiset(logs) && logs != []
    ensures sorted != [] && sorted[0] == logs[0]
  {
    assert logs[0] in multiset(sorted);
    assert sorted[0] in multiset(logs);
    var i :| 0 <= i < |logs| && logs[i] == sorted[0];
    var j :| 0 <= j < |sorted| && sorted[j] == logs[0];
  }

  lemma SameTail(a: seq<Log>, b: seq<Log>)
    requires a != [] && b != [] && a[0] == b[0] && multiset(a) == multiset(b)
    ensures multiset(a[1..]) == multiset(b[1..])
  {
    assert a == [a[0]] + a[1..] && b == [b[0]] + b[1..];
    assert multiset(a[1..]) == multiset(a) - multiset{a[0]};
    assert multiset(b[1..]) == multiset(b) - multiset{b[0]};
  }

  /** A list in any order, sorted, is the increasing list with the same elements. */
  lemma {:induction false} SortingIsUnique(sorted: seq<Log>, logs: seq<Log>)
    requires Sorted(sorted) && Increasing(logs) && multiset(sorted) == multiset(logs)
    ensures sorted == logs
  {
    if logs == [] {
      assert |multiset(sorted)| == 0;
    } else {
      SortedStartsWithLeast(sorted, logs);
      SameTail(sorted, logs);
      SortingIsUnique(sorted[1..], logs[1..]);
      assert logs == [logs[0]] + logs[1..] && sorted == [sorted[0]] + sorted[1..];
    }
  }

  lemma LogsOneMore(chain: Blocks, from: nat, end: nat)
    requires from <= end
    ensures multiset(Logs(chain, from, end + 1)) == multiset(Logs(chain, from, end)) + multiset(chain(end))
  {
    assert Logs(chain, from, end + 1) == Logs(chain, from, end) + chain(end);
  }

  lemma NoBlocksNoLogs(chain: Blocks, from: nat)
    ensures Logs(chain, from, from) == []
  {
  }

  method AddSomewhere(logs: seq<Log>, more: seq<Log>) returns (all: seq<Log>)
    ensures multiset(all) == multiset(logs) + multiset(more)
  {
    var front: bool := *;
    all := if front then more + logs else logs + more;
  }

  /** The transport's get_logs: the canonical logs of the range, in whatever order. */
  method GetLogs(chain: Blocks, from: nat, end: nat) returns (logs: seq<Log>)
    requires from <= end
    ensures multiset(logs) == multiset(Logs(chain, from, end))
    decreases end
  {
    hide Logs;
    if from == end {
      NoBlocksNoLogs(chain, from);
      return [];
    }
    var before := GetLogs(chain, from, end - 1);
    LogsOneMore(chain, from, end - 1);
    logs := AddSomewhere(before, chain(end - 1));
  }

  /** What the scans work on: the fetched logs in canonical order. */
  method FetchSorted(chain: Blocks, from: nat, end: nat, ghost numberOf: string -> nat) returns (logs: seq<Log>)
    requires WellFormed(chain, numberOf) && from <= end
    ensures logs == Logs(chain, from, end)
  {
    logs := GetLogs(chain, from, end);
    logs := StableSort(logs);
    LogsAreCanonical(chain, numberOf, from, end);
    SortingIsUnique(logs, Logs(chain, from, end));
  }

  // ----- what a saved cursor says has been handled -----

  /** How many of a block's logs lie at or before a saved position of that block. */
  function Passed(logs: seq<Log>, last: Position): (passed: nat)
    ensures passed <= |logs|
  {
    if logs == [] || logs[0].blockHash != last.blockHash || !AtOrBefore(PositionOf(logs[0]), last) then 0
    else 1 + Passed(logs[1..], last)
  }

  lemma {:induction false} PassedIsPrefix(logs: seq<Log>, last: Position, hash: string)
    requires forall i :: 0 <= i < |logs| ==> logs[i].blockHash == hash
    requires forall i, j :: 0 <= i < j < |logs| ==> AtOrBefore(PositionOf(logs[i]), PositionOf(logs[j]))
    ensures forall i :: 0 <= i < |logs| ==>
      (i < Passed(logs, last) <==> hash == last.blockHash && AtOrBefore(PositionOf(logs[i]), last))
  {
    if logs != [] {
      PassedIsPrefix(logs[1..], last, hash);
      forall i | 0 < i < |logs|
        ensures i < Passed(logs, last) <==> hash == last.blockHash && AtOrBefore(PositionOf(logs[i]), last)
      {
        assert logs[i] == logs[1..][i - 1];
      }
    }
  }

  /** Where a resumed scan of the block at the cursor begins to deliver. */
  function Skip(chain: Blocks, entry: Option<Cursor>): (skip: nat)
    ensures skip > 0 ==> entry.Some? && skip <= |chain(entry.value.block)|
  {
    if entry.Some? && !entry.value.complete && entry.value.last.Some?
    then Passed(chain(entry.value.block), entry.value.last.value) else 0
  }

  /** The log's pair of transaction and log index is at most the saved one. */
  predicate AtMost(log: Log, last: Position) {
    || log.txIndex.GetOr(0) < last.txIndex
    || (log.txIndex.GetOr(0) == last.txIndex && log.logIndex.GetOr(0) <= last.logIndex)
  }

  /** A saved position skips the logs of its block at or below the saved pair of indexes, if the block still has the
      saved hash. */
  lemma SkipIsPrefix(chain: Blocks, numberOf: string -> nat, entry: Option<Cursor>)
    requires WellFormed(chain, numberOf) && entry.Some? && !entry.value.complete && entry.value.last.Some?
    ensures forall i :: 0 <= i < |chain(entry.value.block)| ==>
      (i < Skip(chain, entry) <==>
       && chain(entry.value.block)[i].blockHash == entry.value.last.value.blockHash
       && AtMost(chain(entry.value.block)[i], entry.value.last.value))
  {
    var b := entry.value.block;
    assert WellFormedBlock(chain, numberOf, b);
    if chain(b) != [] {
      forall i, j | 0 <= i < j < |chain(b)| ensures AtOrBefore(PositionOf(chain(b)[i]), PositionOf(chain(b)[j])) {
        assert Precedes(chain(b)[i], chain(b)[j]);
      }
      PassedIsPrefix(chain(b), entry.value.last.value, chain(b)[0].blockHash);
    }
  }

  /** The logs from block base on that a process resuming from this entry will not deliver again. */
  function Covered(chain: Blocks, base: nat, entry: Option<Cursor>): seq<Log> {
    if entry.None? then []
    else if entry.value.complete then Logs(chain, base, entry.value.block + 1)
    else Logs(chain, base, entry.value.block)
         + (if base <= entry.value.block then chain(entry.value.block)[..Skip(chain, entry)] else [])
  }

  /** The saved position, if any, belongs to the block as it is on this chain. */
  ghost predicate OnChain(chain: Blocks, entry: Option<Cursor>) {
    entry.Some? && !entry.value.complete && entry.value.last.Some? ==>
      forall i :: 0 <= i < |chain(entry.value.block)| ==>
        chain(entry.value.block)[i].blockHash == entry.value.last.value.blockHash
  }

  lemma CoveredGrows(chain: Blocks, base: nat, entry: Option<Cursor>, block: nat)
    requires entry.Some? && entry.value.block < block
    ensures Covered(chain, base, entry) <= Logs(chain, base, block)
  {
    var b := entry.value.block;
    if base <= b {
      LogsSplit(chain, base, b + 1, block);
      assert Logs(chain, base, b + 1) == Logs(chain, base, b) + chain(b);
    }
  }

  lemma PositionsAreNested(chain: Blocks, numberOf: string -> nat, a: Cursor, b: Cursor)
    requires WellFormed(chain, numberOf) && a.block == b.block && !a.complete && !b.complete
    requires a.last.Some? && b.last.Some? && OnChain(chain, Some(a))
    ensures CursorAdvances(a, b) ==> Skip(chain, Some(a)) <= Skip(chain, Some(b))
    ensures !CursorAdvances(a, b) ==> Skip(chain, Some(b)) <= Skip(chain, Some(a))
  {
    hide WellFormed;
    SkipIsPrefix(chain, numberOf, Some(a));
    SkipIsPrefix(chain, numberOf, Some(b));
    var k, n := Skip(chain, Some(a)), Skip(chain, Some(b));
    if b.last.value.blockHash != a.last.value.blockHash {
      assert forall i :: 0 <= i < |chain(a.block)| ==> chain(a.block)[i].blockHash != b.last.value.blockHash;
      assert n <= 0;
    } else {
      assert n < k ==> AtMost(chain(a.block)[n], a.last.value) && !AtMost(chain(a.block)[n], b.last.value);
      assert k < n ==> AtMost(chain(a.block)[k], b.last.value) && !AtMost(chain(a.block)[k], a.last.value);
    }
  }

  /** A save never loses coverage, whatever it saves, and refuses an entry only when that would cover no more, as long
      as the stored position is of this chain. */
  lemma SaveKeepsCoverage(chain: Blocks, numberOf: string -> nat, base: nat, current: Cursor, next: Cursor)
    requires WellFormed(chain, numberOf) && OnChain(chain, Some(current))
    ensures CursorAdvances(current, next) ==> Covered(chain, base, Some(current)) <= Covered(chain, base, Some(next))
    ensures !CursorAdvances(current, next) ==> Covered(chain, base, Some(next)) <= Covered(chain, base, Some(current))
  {
    hide WellFormed;
    if current.block < next.block {
      CoveredGrows(chain, base, Some(current), next.block);
    } else if next.block < current.block {
      CoveredGrows(chain, base, Some(next), current.block);
    } else if !current.complete && !next.complete && current.last.Some? && next.last.Some? {
      PositionsAreNested(chain, numberOf, current, next);
    }
  }

  /** A rewind to a block leaves exactly the coverage that lies below the block. */
  lemma RewindUncovers(chain: Blocks, base: nat, entry: Option<Cursor>, from: nat)
    requires base <= from
    ensures var covered, below := Covered(chain, base, entry), Logs(chain, base, from);
      Covered(chain, base, AfterRewind(entry, from)) == if |covered| <= |below| then covered else below
  {
    if entry.Some? {
      var b := entry.value.block;
      if b < from {
        CoveredGrows(chain, base, entry, from);
      } else {
        LogsSplit(chain, base, from, b);
        assert Logs(chain, base, b + 1) == Logs(chain, base, b) + chain(b);
      }
    }
  }
}
