/** What a gap reconciliation does to the delivered-log table and to the consumer, on values. A block hash fixes
    its block number, so the table's content in a range of blocks is a set of identities. */
module GapWindow {
  import opened Wrappers
  import opened EvmLogs
  import opened CursorStore
  import opened Chain
  import opened Deliveries
  import opened Lifecycle
  import opened ScanCoverage

  function IdsOfAll(logs: seq<Log>): set<Identity> {
    if logs == [] then {} else IdsOfAll(logs[..|logs| - 1]) + IdsOf(logs[|logs| - 1])
  }

  predicate AtBlock(numberOf: string -> nat, id: Identity, from: nat, end: nat) {
    from <= numberOf(id.blockHash) < end
  }

  /** The table and the chain agree on the blocks from..end - 1. */
  ghost predicate Agrees(held: set<Identity>, chain: Blocks, numberOf: string -> nat, from: nat, end: nat) {
    forall id :: AtBlock(numberOf, id, from, end) ==> (id in held <==> id in IdsOfAll(Logs(chain, from, end)))
  }

  /** Canonical logs the table does not hold, in order. */
  function Missing(logs: seq<Log>, held: set<Identity>): seq<Log> {
    if logs == [] then []
    else
      var last := logs[|logs| - 1];
      Missing(logs[..|logs| - 1], held) + (if IdsOf(last) !! held then [last] else [])
  }

  predicate DistinctIds(logs: seq<Log>) {
    forall i :: 0 <= i < |logs| ==>
      IdentityOf(logs[i]).Some? && forall j :: 0 <= j < i ==> IdentityOf(logs[i]) != IdentityOf(logs[j])
  }

  lemma {:induction false} IdsOfAllHas(logs: seq<Log>, id: Identity)
    ensures id in IdsOfAll(logs) <==> exists i :: 0 <= i < |logs| && IdentityOf(logs[i]) == Some(id)
  {
    if logs != [] {
      var front := logs[..|logs| - 1];
      IdsOfAllHas(front, id);
      if id in IdsOfAll(logs) && id !in IdsOf(logs[|logs| - 1]) {
        var i :| 0 <= i < |front| && IdentityOf(front[i]) == Some(id);
        assert IdentityOf(logs[i]) == Some(id);
      }
      if i :| 0 <= i < |logs| && IdentityOf(logs[i]) == Some(id) {
        if i < |front| {
          assert IdentityOf(front[i]) == Some(id);
        }
      }
    }
  }

  lemma {:induction false} IdsOfAllJoin(a: seq<Log>, b: seq<Log>)
    ensures IdsOfAll(a + b) == IdsOfAll(a) + IdsOfAll(b)
  {
    if b == [] {
      assert a + b == a;
    } else {
      assert (a + b)[..|a + b| - 1] == a + b[..|b| - 1];
      IdsOfAllJoin(a, b[..|b| - 1]);
    }
  }

  lemma IdsInRange(chain: Blocks, numberOf: string -> nat, from: nat, end: nat, id: Identity)
    requires WellFormed(chain, numberOf) && id in IdsOfAll(Logs(chain, from, end))
    ensures AtBlock(numberOf, id, from, end)
  {
    LogsAreCanonical(chain, numberOf, from, end);
    IdsOfAllHas(Logs(chain, from, end), id);
    var i :| 0 <= i < |Logs(chain, from, end)| && IdentityOf(Logs(chain, from, end)[i]) == Some(id);
    assert Logs(chain, from, end)[i] in Logs(chain, from, end);
  }

  lemma {:induction false} MissingIsNew(logs: seq<Log>, held: set<Identity>)
    requires DistinctIds(logs)
    ensures IdsOfAll(Missing(logs, held)) == IdsOfAll(logs) - held
    ensures DistinctIds(Missing(logs, held))
    ensures forall log :: log in Missing(logs, held) ==> log in logs
  {
    hide IdentityOf, IdsOfAll, IdsOf;
    MissingIds(logs, held);
    if logs != [] {
      var front, last := logs[..|logs| - 1], logs[|logs| - 1];
      MissingIsNew(front, held);
      var before := Missing(front, held);
      forall j | 0 <= j < |before| ensures IdentityOf(before[j]) != IdentityOf(last) {
        assert before[j] in front;
      }
    }
  }

  lemma {:induction false} MissingIds(logs: seq<Log>, held: set<Identity>)
    ensures IdsOfAll(Missing(logs, held)) == IdsOfAll(logs) - held
  {
    if logs != [] {
      var front, last := logs[..|logs| - 1], logs[|logs| - 1];
      MissingIds(front, held);
      var before := Missing(front, held);
      if IdsOf(last) !! held {
        assert (before + [last])[..|before|] == before;
        assert IdsOfAll(before + [last]) == IdsOfAll(before) + IdsOf(last);
      } else {
        assert Missing(logs, held) == before;
      }
    }
  }

  lemma {:induction false} DistinctMeansOnce(logs: seq<Log>, log: Log)
    requires DistinctIds(logs)
    ensures multiset(logs)[log] <= 1
  {
    if logs != [] {
      var front, last := logs[..|logs| - 1], logs[|logs| - 1];
      DistinctMeansOnce(front, log);
      assert logs == front + [last];
      assert last == log ==> log !in front;
    }
  }

  lemma TwiceInMultiset(logs: seq<Log>, i: nat, j: nat)
    requires i < j < |logs| && logs[i] == logs[j]
    ensures multiset(logs)[logs[i]] >= 2
  {
    assert logs == logs[..j] + logs[j..];
    assert logs[i] in logs[..j] && logs[j] in logs[j..];
  }

  lemma ElementsMoved(sorted: seq<Log>, logs: seq<Log>, i: nat) returns (k: nat)
    requires multiset(sorted) == multiset(logs) && i < |sorted|
    ensures k < |logs| && logs[k] == sorted[i]
  {
    assert sorted[i] in multiset(logs);
    k :| 0 <= k < |logs| && logs[k] == sorted[i];
  }

  /** Reordering keeps the distinctness of the identities, and that every log is a retraction. */
  lemma SortedKeepsIds(sorted: seq<Log>, logs: seq<Log>)
    requires multiset(sorted) == multiset(logs) && DistinctIds(logs)
    requires forall i :: 0 <= i < |logs| ==> logs[i].removed
    ensures DistinctIds(sorted) && IdsOfAll(sorted) == IdsOfAll(logs)
    ensures forall i :: 0 <= i < |sorted| ==> sorted[i].removed
  {
    forall i | 0 <= i < |sorted|
      ensures sorted[i].removed && IdentityOf(sorted[i]).Some?
      ensures forall j :: 0 <= j < i ==> IdentityOf(sorted[i]) != IdentityOf(sorted[j])
    {
      var k := ElementsMoved(sorted, logs, i);
      forall j | 0 <= j < i ensures IdentityOf(sorted[i]) != IdentityOf(sorted[j]) {
        var l := ElementsMoved(sorted, logs, j);
        if sorted[i] == sorted[j] {
          TwiceInMultiset(sorted, j, i);
          DistinctMeansOnce(logs, sorted[i]);
        }
      }
    }
    SameElementsSameIds(sorted, logs);
    SameElementsSameIds(logs, sorted);
  }

  lemma SameElementsSameIds(a: seq<Log>, b: seq<Log>)
    requires multiset(a) == multiset(b)
    ensures IdsOfAll(a) <= IdsOfAll(b)
  {
    forall id | id in IdsOfAll(a) ensures id in IdsOfAll(b) {
      IdsOfAllHas(a, id);
      IdsOfAllHas(b, id);
      var i :| 0 <= i < |a| && IdentityOf(a[i]) == Some(id);
      var k := ElementsMoved(a, b, i);
    }
  }

  // ----- adds minus removals -----

  lemma {:induction false} NetOfAdds(calls: seq<Event>, logs: seq<Log>, id: Identity)
    requires DistinctIds(logs)
    ensures Net(calls + Adds(logs), id) == Net(calls, id) + (if id in IdsOfAll(logs) then 1 else 0)
  {
    hide IdentityOf;
    if logs == [] {
      assert calls + Adds(logs) == calls;
    } else {
      var front, last := logs[..|logs| - 1], logs[|logs| - 1];
      NetOfAdds(calls, front, id);
      assert logs == front + [last];
      AddsAppend(front, last);
      assert (calls + Adds(logs))[..|calls + Adds(logs)| - 1] == calls + Adds(front);
      IdsOfAllHas(front, id);
    }
  }

  lemma {:induction false} NetOfRemovals(calls: seq<Event>, logs: seq<Log>, id: Identity)
    requires DistinctIds(logs)
    ensures Net(calls + Removals(logs), id) == Net(calls, id) - (if id in IdsOfAll(logs) then 1 else 0)
  {
    hide IdentityOf;
    if logs == [] {
      assert calls + Removals(logs) == calls;
    } else {
      var front, last := logs[..|logs| - 1], logs[|logs| - 1];
      NetOfRemovals(calls, front, id);
      assert logs == front + [last];
      AddsAppend(front, last);
      assert (calls + Removals(logs))[..|calls + Removals(logs)| - 1] == calls + Removals(front);
      IdsOfAllHas(front, id);
    }
  }

  lemma NothingRetracted(orphans: seq<Log>, trace: seq<Event>)
    ensures Calls(trace) == Calls(trace) + Removals(orphans[..0]) && IdsOfAll(orphans[..0]) == {}
  {
  }

  /** One retraction. */
  lemma RetractOne(orphans: seq<Log>, i: nat, start: seq<Event>, before: seq<Event>, held: set<Identity>,
                   keys: set<Identity>)
    requires i < |orphans| && Calls(before) == Calls(start) + Removals(orphans[..i])
    requires keys == held - IdsOfAll(orphans[..i])
    ensures Calls(before + [Removed(orphans[i])]) == Calls(start) + Removals(orphans[..i + 1])
    ensures keys - IdsOf(orphans[i]) == held - IdsOfAll(orphans[..i + 1])
  {
    hide Calls, AddedIds;
    OneMore(before, Removed(orphans[i]));
    assert orphans[..i + 1] == orphans[..i] + [orphans[i]];
    AddsAppend(orphans[..i], orphans[i]);
    IdsOfAllJoin(orphans[..i], [orphans[i]]);
    assert IdsOfAll([orphans[i]]) == IdsOf(orphans[i]);
  }

  /** One canonical log: it was added because the table did not hold it, or it was held already. */
  lemma AddOneMissing(r: Range, numberOf: string -> nat, i: nat, start: seq<Event>, before: seq<Event>,
                      keys: set<Identity>, held: set<Identity>, after: seq<Event>, keysAfter: set<Identity>, n: nat)
    requires GoodRange(r, numberOf) && i < |RangeLogs(r)| && i <= n <= i + 1
    requires Calls(before) == Calls(start) + Adds(Missing(RangeLogs(r)[..i], held))
    requires keys == held + IdsOfAll(RangeLogs(r)[..i])
    requires
      || (after == before && keysAfter == keys && (n == i + 1 ==> IdsOf(RangeLogs(r)[i]) <= keys))
      || (after == before + [Added(RangeLogs(r)[i])] && keysAfter == keys + IdsOf(RangeLogs(r)[i])
          && IdsOf(RangeLogs(r)[i]) !! keys && n == i + 1)
    ensures Calls(after) == Calls(start) + Adds(Missing(RangeLogs(r)[..n], held))
    ensures keysAfter == held + IdsOfAll(RangeLogs(r)[..n])
  {
    hide WellFormed, Calls, Logs;
    var logs := RangeLogs(r);
    if n == i + 1 {
      var log := logs[i];
      assert logs[..n][..|logs[..n]| - 1] == logs[..i];
      assert logs[..n] == logs[..i] + [log];
      if after == before {
        NotAmongEarlier(r, numberOf, i);
        assert Missing(logs[..n], held) == Missing(logs[..i], held);
      } else {
        OneMore(before, Added(log));
        AddsAppend(Missing(logs[..i], held), log);
      }
    }
  }

  lemma NotAmongEarlier(r: Range, numberOf: string -> nat, i: nat)
    requires GoodRange(r, numberOf) && i < |RangeLogs(r)|
    ensures IdsOf(RangeLogs(r)[i]) !! IdsOfAll(RangeLogs(r)[..i]) && IdsOf(RangeLogs(r)[i]) != {}
  {
    var logs := RangeLogs(r);
    LogsAreCanonical(r.chain, numberOf, r.from, r.end);
    assert logs[i] in logs;
    IdsOfAllHas(logs[..i], IdentityOf(logs[i]).value);
  }

  lemma {:induction false} MissingOfPrefix(logs: seq<Log>, n: nat, held: set<Identity>)
    requires n <= |logs|
    ensures Missing(logs[..n], held) <= Missing(logs, held)
    decreases |logs|
  {
    if n < |logs| {
      var front := logs[..|logs| - 1];
      assert front[..n] == logs[..n];
      MissingOfPrefix(front, n, held);
    } else {
      assert logs[..n] == logs;
    }
  }

  /** The retractions and additions made so far in a range. */
  function RangeCalls(orphans: seq<Log>, k: nat, logs: seq<Log>, n: nat, held: set<Identity>): seq<Event>
    requires k <= |orphans| && n <= |logs|
  {
    Removals(orphans[..k]) + Adds(Missing(logs[..n], held - IdsOfAll(orphans)))
  }

  lemma RangeCallsInTwo(orphans: seq<Log>, k: nat, logs: seq<Log>, held: set<Identity>)
    requires k <= |orphans|
    ensures RangeCalls(orphans, k, logs, 0, held) == Removals(orphans[..k])
    ensures RangeCalls(orphans, |orphans|, logs, |logs|, held)
         == Removals(orphans) + Adds(Missing(logs, held - IdsOfAll(orphans)))
  {
    assert orphans[..|orphans|] == orphans && logs[..|logs|] == logs;
  }

  lemma AfterRetractions(start: seq<Event>, now: seq<Event>, orphans: seq<Log>, k: nat, logs: seq<Log>,
                         held: set<Identity>)
    requires k <= |orphans| && now == start + Removals(orphans[..k])
    ensures now == start + RangeCalls(orphans, k, logs, 0, held)
  {
    RangeCallsInTwo(orphans, k, logs, held);
  }

  lemma AfterAdditions(start: seq<Event>, middle: seq<Event>, now: seq<Event>, orphans: seq<Log>, logs: seq<Log>,
                       n: nat, held: set<Identity>)
    requires n <= |logs| && middle == start + Removals(orphans)
    requires now == middle + Adds(Missing(logs[..n], held - IdsOfAll(orphans)))
    ensures now == start + RangeCalls(orphans, |orphans|, logs, n, held)
  {
    assert orphans[..|orphans|] == orphans;
  }

  lemma RangeCallsShape(held: set<Identity>, chain: Blocks, numberOf: string -> nat, from: nat, end: nat,
                        orphans: seq<Log>, k: nat, n: nat)
    requires WellFormed(chain, numberOf) && DistinctIds(orphans)
    requires IdsOfAll(orphans) == Orphaned(held, chain, numberOf, from, end)
    requires k <= |orphans| && n <= |Logs(chain, from, end)|
    ensures OneRange(RangeCalls(orphans, k, Logs(chain, from, end), n, held), numberOf, from, end)
    ensures Agrees(held, chain, numberOf, from, end) ==> RangeCalls(orphans, k, Logs(chain, from, end), n, held) == []
  {
    var logs := Logs(chain, from, end);
    var left := held - IdsOfAll(orphans);
    OrphansAtBlock(held, chain, numberOf, from, end, orphans);
    MissingAtBlock(chain, numberOf, from, end, n, left);
    RangeOrder(orphans[..k], Missing(logs[..n], left), numberOf, from, end);
    RangeConverges(held, chain, numberOf, from, end, orphans, []);
    MissingOfPrefix(logs, n, left);
  }

  /** Of the window's identities only those of the blocks from..end - 1 may have come or gone. */
  ghost predicate KeptOutside(held: set<Identity>, now: set<Identity>, numberOf: string -> nat, window: nat, from: nat,
                              end: nat)
  {
    forall id: Identity :: window <= numberOf(id.blockHash) && !AtBlock(numberOf, id, from, end) ==>
      (id in now <==> id in held)
  }

  /** What a completed range means for every identity, whatever the checkpoint then forgets below the window. */
  ghost predicate RangeRepaired(held: set<Identity>, now: set<Identity>, chain: Blocks, numberOf: string -> nat,
                                window: nat, from: nat, end: nat)
  {
    Agrees(now, chain, numberOf, from, end) && KeptOutside(held, now, numberOf, window, from, end)
  }

  /** The consumer's account of every identity of the window moved as the table did. */
  ghost predicate InStep(held: set<Identity>, start: seq<Event>, now: set<Identity>, trace: seq<Event>,
                         numberOf: string -> nat, window: nat)
  {
    forall id: Identity :: window <= numberOf(id.blockHash) ==>
      Net(Calls(trace), id) - Net(Calls(start), id) == (if id in now then 1 else 0) - (if id in held then 1 else 0)
  }

  /** Each identity of the range moved from what the table held to what is canonical; no other moved. */
  ghost predicate NetMoved(before: seq<Event>, now: seq<Event>, held: set<Identity>, chain: Blocks,
                           numberOf: string -> nat, from: nat, end: nat)
  {
    forall id :: Net(Calls(now), id) - Net(Calls(before), id)
      == if AtBlock(numberOf, id, from, end)
         then (if id in IdsOfAll(Logs(chain, from, end)) then 1 else 0) - (if id in held then 1 else 0)
         else 0
  }

  // ----- one range of a reconciliation -----

  /** The callbacks of one range: only logs of its blocks, retractions before additions. */
  ghost predicate OneRange(calls: seq<Event>, numberOf: string -> nat, from: nat, end: nat) {
    && (forall i :: 0 <= i < |calls| ==>
          && (calls[i].Added? || calls[i].Removed?) && IdentityOf(calls[i].log).Some?
          && AtBlock(numberOf, IdentityOf(calls[i].log).value, from, end))
    && (forall i, j :: 0 <= i < j < |calls| && calls[j].Removed? ==> calls[i].Removed?)
  }

  ghost predicate AllAtBlock(logs: seq<Log>, numberOf: string -> nat, from: nat, end: nat) {
    forall i :: 0 <= i < |logs| ==>
      IdentityOf(logs[i]).Some? && AtBlock(numberOf, IdentityOf(logs[i]).value, from, end)
  }

  lemma RangeOrder(orphans: seq<Log>, added: seq<Log>, numberOf: string -> nat, from: nat, end: nat)
    requires AllAtBlock(orphans, numberOf, from, end) && AllAtBlock(added, numberOf, from, end)
    ensures OneRange(Removals(orphans) + Adds(added), numberOf, from, end)
  {
  }

  lemma OrphansAtBlock(held: set<Identity>, chain: Blocks, numberOf: string -> nat, from: nat, end: nat,
                       orphans: seq<Log>)
    requires DistinctIds(orphans) && IdsOfAll(orphans) == Orphaned(held, chain, numberOf, from, end)
    ensures AllAtBlock(orphans, numberOf, from, end)
  {
    forall i | 0 <= i < |orphans| ensures AtBlock(numberOf, IdentityOf(orphans[i]).value, from, end) {
      IdsOfAllHas(orphans, IdentityOf(orphans[i]).value);
    }
  }

  lemma MissingAtBlock(chain: Blocks, numberOf: string -> nat, from: nat, end: nat, n: nat, held: set<Identity>)
    requires WellFormed(chain, numberOf) && n <= |Logs(chain, from, end)|
    ensures AllAtBlock(Missing(Logs(chain, from, end)[..n], held), numberOf, from, end)
  {
    var logs := Logs(chain, from, end);
    CanonicalAreDistinct(chain, numberOf, from, end);
    MissingIsNew(logs[..n], held);
    LogsAreCanonical(chain, numberOf, from, end);
    var missing := Missing(logs[..n], held);
    forall i | 0 <= i < |missing|
      ensures IdentityOf(missing[i]).Some? && AtBlock(numberOf, IdentityOf(missing[i]).value, from, end)
    {
      assert missing[i] in logs[..n];
      assert Canonical(missing[i], numberOf, from, end);
    }
  }

  ghost function Orphaned(held: set<Identity>, chain: Blocks, numberOf: string -> nat, from: nat, end: nat)
    : set<Identity>
  {
    set id | id in held && AtBlock(numberOf, id, from, end) && id !in IdsOfAll(Logs(chain, from, end))
  }

  /** Retract the orphans, add what is missing: the table then agrees with the chain on the range, nothing else
      changed, and each identity's adds minus removals moved by exactly the difference. */
  lemma RangeConverges(held: set<Identity>, chain: Blocks, numberOf: string -> nat, from: nat, end: nat,
                       orphans: seq<Log>, calls: seq<Event>)
    requires WellFormed(chain, numberOf) && DistinctIds(orphans)
    requires IdsOfAll(orphans) == Orphaned(held, chain, numberOf, from, end)
    ensures var left := held - IdsOfAll(orphans);
      var logs := Logs(chain, from, end);
      && Agrees(left + IdsOfAll(logs), chain, numberOf, from, end)
      && (forall id :: !AtBlock(numberOf, id, from, end) ==> (id in left + IdsOfAll(logs) <==> id in held))
      && (forall id :: Net(calls + Removals(orphans) + Adds(Missing(logs, left)), id) - Net(calls, id)
                       == (if id in left + IdsOfAll(logs) then 1 else 0) - (if id in held then 1 else 0))
      && (Agrees(held, chain, numberOf, from, end) ==> orphans == [] && Missing(logs, left) == [])
  {
    var left := held - IdsOfAll(orphans);
    var logs := Logs(chain, from, end);
    CanonicalAreDistinct(chain, numberOf, from, end);
    MissingIsNew(logs, left);
    forall id ensures id in IdsOfAll(logs) ==> AtBlock(numberOf, id, from, end) {
      if id in IdsOfAll(logs) {
        IdsInRange(chain, numberOf, from, end, id);
      }
    }
    forall id
      ensures Net(calls + Removals(orphans) + Adds(Missing(logs, left)), id) - Net(calls, id)
           == (if id in left + IdsOfAll(logs) then 1 else 0) - (if id in held then 1 else 0)
    {
      NetOfRemovals(calls, orphans, id);
      NetOfAdds(calls + Removals(orphans), Missing(logs, left), id);
    }
    if Agrees(held, chain, numberOf, from, end) {
      NoIdsNoLogs(orphans);
      NoIdsNoLogs(Missing(logs, left));
    }
  }

  /** How far the repair of a range came: the orphans found, how many were retracted, and how many canonical logs
      were handed over or found in the table. */
  datatype Repair = Repair(orphans: seq<Log>, k: nat, n: nat)

  ghost predicate Repairs(repair: Repair, held: set<Identity>, now: set<Identity>, r: Range, numberOf: string -> nat,
                          start: seq<Event>, trace: seq<Event>)
  {
    && DistinctIds(repair.orphans)
    && IdsOfAll(repair.orphans) == Orphaned(held, r.chain, numberOf, r.from, r.end)
    && repair.k <= |repair.orphans| && repair.n <= |RangeLogs(r)|
    && (repair.n > 0 ==> repair.k == |repair.orphans|)
    && now == held - IdsOfAll(repair.orphans[..repair.k]) + IdsOfAll(RangeLogs(r)[..repair.n])
    && Calls(trace) == Calls(start) + RangeCalls(repair.orphans, repair.k, RangeLogs(r), repair.n, held)
  }

  lemma NetOfRepair(repair: Repair, held: set<Identity>, now: set<Identity>, r: Range, numberOf: string -> nat,
                    start: seq<Event>, trace: seq<Event>, id: Identity)
    requires GoodRange(r, numberOf) && Repairs(repair, held, now, r, numberOf, start, trace)
    ensures Net(Calls(trace), id) - Net(Calls(start), id)
         == (if id in now then 1 else 0) - (if id in held then 1 else 0)
    ensures !AtBlock(numberOf, id, r.from, r.end) ==> (id in now <==> id in held)
  {
    hide Logs, WellFormed, Net, Missing, Calls;
    var logs := RangeLogs(r);
    var retracted := repair.orphans[..repair.k];
    var left := held - IdsOfAll(repair.orphans);
    var missing := Missing(logs[..repair.n], left);
    CanonicalAreDistinct(r.chain, numberOf, r.from, r.end);
    MissingIsNew(logs[..repair.n], left);
    NetOfRemovals(Calls(start), retracted, id);
    NetOfAdds(Calls(start) + Removals(retracted), missing, id);
    assert Calls(start) + (Removals(retracted) + Adds(missing)) == Calls(start) + Removals(retracted) + Adds(missing);
    PrefixIds(repair.orphans, repair.k, id);
    PrefixIds(logs, repair.n, id);
    if id in IdsOfAll(logs) {
      IdsInRange(r.chain, numberOf, r.from, r.end, id);
    }
    assert repair.orphans[..|repair.orphans|] == repair.orphans;
  }

  /** Wherever the repair of a range stops, the table moved only there and the consumer with it; a whole repair
      brings both in line with the chain. */
  lemma RangeMoves(repair: Repair, held: set<Identity>, now: set<Identity>, r: Range, numberOf: string -> nat,
                   start: seq<Event>, trace: seq<Event>)
    requires GoodRange(r, numberOf) && Repairs(repair, held, now, r, numberOf, start, trace)
    ensures KeptOutside(held, now, numberOf, r.base, r.from, r.end)
    ensures InStep(held, start, now, trace, numberOf, r.base)
    ensures IdsOfAll(RangeLogs(r)[..repair.n]) <= now
    ensures repair.k == |repair.orphans| && repair.n == |RangeLogs(r)| ==>
      RepairedUpTo(held, start, now, trace, r.chain, numberOf, r.base, r.from, r.end)
  {
    forall id
      ensures Net(Calls(trace), id) - Net(Calls(start), id)
              == (if id in now then 1 else 0) - (if id in held then 1 else 0)
      ensures !AtBlock(numberOf, id, r.from, r.end) ==> (id in now <==> id in held)
    {
      NetOfRepair(repair, held, now, r, numberOf, start, trace, id);
    }
    if repair.k == |repair.orphans| && repair.n == |RangeLogs(r)| {
      assert repair.orphans[..|repair.orphans|] == repair.orphans && RangeLogs(r)[..repair.n] == RangeLogs(r);
      RangeIsRepaired(held, now, r, numberOf, repair.orphans, start, trace);
    }
  }

  /** Nothing done yet. */
  lemma RangeUntouched(held: set<Identity>, r: Range, numberOf: string -> nat, start: seq<Event>)
    ensures KeptOutside(held, held, numberOf, r.base, r.from, r.end)
    ensures InStep(held, start, held, start, numberOf, r.base)
    ensures OneRange([], numberOf, r.from, r.end) && IdsOfAll(RangeLogs(r)[..0]) <= held
    ensures Calls(start) == Calls(start) + []
  {
  }

  lemma PrefixIds(logs: seq<Log>, n: nat, id: Identity)
    requires n <= |logs|
    ensures id in IdsOfAll(logs[..n]) ==> id in IdsOfAll(logs)
    ensures n == 0 ==> IdsOfAll(logs[..n]) == {}
  {
    assert logs == logs[..n] + logs[n..];
    IdsOfAllJoin(logs[..n], logs[n..]);
  }

  lemma RangeIsRepaired(held: set<Identity>, now: set<Identity>, r: Range, numberOf: string -> nat,
                        orphans: seq<Log>, start: seq<Event>, trace: seq<Event>)
    requires WellFormed(r.chain, numberOf) && DistinctIds(orphans)
    requires IdsOfAll(orphans) == Orphaned(held, r.chain, numberOf, r.from, r.end)
    requires now == held - IdsOfAll(orphans) + IdsOfAll(RangeLogs(r))
    requires Calls(trace) == Calls(start) + RangeCalls(orphans, |orphans|, RangeLogs(r), |RangeLogs(r)|, held)
    ensures RangeRepaired(held, now, r.chain, numberOf, r.base, r.from, r.end)
    ensures NetMoved(start, trace, held, r.chain, numberOf, r.from, r.end)
  {
    RangeConverges(held, r.chain, numberOf, r.from, r.end, orphans, Calls(start));
    RangeCallsInTwo(orphans, |orphans|, RangeLogs(r), held);
    var retracted, added := Removals(orphans), Adds(Missing(RangeLogs(r), held - IdsOfAll(orphans)));
    assert Calls(start) + (retracted + added) == Calls(start) + retracted + added;
  }

  /** Forgetting identities below the window changes nothing of this. */
  lemma PrunedIsRepaired(held: set<Identity>, start: seq<Event>, now: set<Identity>, trace: seq<Event>,
                         less: set<Identity>, pruned: seq<Event>, r: Range, numberOf: string -> nat)
    requires r.base <= r.from && less <= now && Calls(pruned) == Calls(trace)
    requires forall id :: id in now && r.base <= numberOf(id.blockHash) ==> id in less
    ensures KeptOutside(held, now, numberOf, r.base, r.from, r.end) ==>
      KeptOutside(held, less, numberOf, r.base, r.from, r.end)
    ensures InStep(held, start, now, trace, numberOf, r.base) ==> InStep(held, start, less, pruned, numberOf, r.base)
    ensures RangeRepaired(held, now, r.chain, numberOf, r.base, r.from, r.end) ==>
      RangeRepaired(held, less, r.chain, numberOf, r.base, r.from, r.end)
    ensures NetMoved(start, trace, held, r.chain, numberOf, r.from, r.end) ==>
      NetMoved(start, pruned, held, r.chain, numberOf, r.from, r.end)
  {
  }

  /** What a range holds of its logs survives the prune of its own checkpoint. */
  lemma PrunedStillHolds(r: Range, numberOf: string -> nat, n: nat, now: set<Identity>, less: set<Identity>)
    requires GoodRange(r, numberOf) && n <= |RangeLogs(r)| && IdsOfAll(RangeLogs(r)[..n]) <= now
    requires forall id :: id in now && r.base <= numberOf(id.blockHash) ==> id in less
    ensures IdsOfAll(RangeLogs(r)[..n]) <= less
  {
    forall id | id in IdsOfAll(RangeLogs(r)[..n]) ensures id in less {
      PrefixIds(RangeLogs(r), n, id);
      IdsInRange(r.chain, numberOf, r.from, r.end, id);
    }
  }

  lemma NoIdsNoLogs(logs: seq<Log>)
    requires DistinctIds(logs)
    ensures IdsOfAll(logs) == {} ==> logs == []
  {
    if logs != [] {
      assert IdsOf(logs[|logs| - 1]) != {};
    }
  }

  lemma CanonicalAreDistinct(chain: Blocks, numberOf: string -> nat, from: nat, end: nat)
    requires WellFormed(chain, numberOf)
    ensures DistinctIds(Logs(chain, from, end))
  {
    LogsAreCanonical(chain, numberOf, from, end);
    var logs := Logs(chain, from, end);
    forall i | 0 <= i < |logs|
      ensures IdentityOf(logs[i]).Some? && forall j :: 0 <= j < i ==> IdentityOf(logs[i]) != IdentityOf(logs[j])
    {
      assert logs[i] in logs;
    }
  }

  // ----- a window of several ranges -----

  function Flat(parts: seq<seq<Event>>): seq<Event> {
    if parts == [] then [] else Flat(parts[..|parts| - 1]) + parts[|parts| - 1]
  }

  /** The callbacks of a scan, range by range. */
  ghost predicate RangeByRange(parts: seq<seq<Event>>, ranges: seq<BlockRange>, numberOf: string -> nat) {
    && |parts| <= |ranges|
    && forall i :: 0 <= i < |parts| ==> OneRange(parts[i], numberOf, ranges[i].from, ranges[i].to + 1)
  }

  lemma FlatMore(parts: seq<seq<Event>>, calls: seq<Event>)
    ensures Flat(parts + [calls]) == Flat(parts) + calls
  {
    assert (parts + [calls])[..|parts|] == parts;
  }

  lemma {:induction false} FlatJoin(a: seq<seq<Event>>, b: seq<seq<Event>>)
    ensures Flat(a + b) == Flat(a) + Flat(b)
  {
    if b == [] {
      assert a + b == a;
    } else {
      var front := b[..|b| - 1];
      assert a + b == (a + front) + [b[|b| - 1]];
      FlatMore(a + front, b[|b| - 1]);
      FlatJoin(a, front);
      assert b == front + [b[|b| - 1]];
    }
  }

  /** The callbacks since start are those of the parts; none if the table was right on the whole window. */
  ghost predicate GapTrace(start: seq<Event>, now: seq<Event>, parts: seq<seq<Event>>, ranges: seq<BlockRange>,
                           numberOf: string -> nat, silent: bool)
  {
    && Calls(now) == Calls(start) + Flat(parts)
    && RangeByRange(parts, ranges, numberOf)
    && (silent ==> Flat(parts) == [])
  }

  lemma NothingCalled(trace: seq<Event>, ranges: seq<BlockRange>, numberOf: string -> nat, silent: bool)
    ensures GapTrace(trace, trace, [], ranges, numberOf, silent)
  {
  }

  lemma GapTraceMore(start: seq<Event>, between: seq<Event>, now: seq<Event>, parts: seq<seq<Event>>,
                     calls: seq<Event>, ranges: seq<BlockRange>, numberOf: string -> nat, silent: bool)
    requires GapTrace(start, between, parts, ranges, numberOf, silent) && |parts| < |ranges|
    requires Calls(now) == Calls(between) + calls && (silent ==> calls == [])
    requires OneRange(calls, numberOf, ranges[|parts|].from, ranges[|parts|].to + 1)
    ensures GapTrace(start, now, parts + [calls], ranges, numberOf, silent)
  {
    FlatMore(parts, calls);
  }

  /** The canonical identities of a part of a range are those of the range that lie in the part. */
  lemma IdsOfPart(chain: Blocks, numberOf: string -> nat, from: nat, mid: nat, to: nat, end: nat, id: Identity)
    requires WellFormed(chain, numberOf) && from <= mid <= to <= end && AtBlock(numberOf, id, mid, to)
    ensures id in IdsOfAll(Logs(chain, from, end)) <==> id in IdsOfAll(Logs(chain, mid, to))
  {
    LogsSplit(chain, from, mid, end);
    LogsSplit(chain, mid, to, end);
    IdsOfAllJoin(Logs(chain, from, mid), Logs(chain, mid, end));
    IdsOfAllJoin(Logs(chain, mid, to), Logs(chain, to, end));
    if id in IdsOfAll(Logs(chain, from, mid)) {
      IdsInRange(chain, numberOf, from, mid, id);
    }
    if id in IdsOfAll(Logs(chain, to, end)) {
      IdsInRange(chain, numberOf, to, end, id);
    }
  }

  lemma AgreesOnPart(held: set<Identity>, chain: Blocks, numberOf: string -> nat, from: nat, mid: nat, to: nat,
                     end: nat)
    requires WellFormed(chain, numberOf) && from <= mid <= to <= end && Agrees(held, chain, numberOf, from, end)
    ensures Agrees(held, chain, numberOf, mid, to)
  {
    forall id | AtBlock(numberOf, id, mid, to) ensures id in held <==> id in IdsOfAll(Logs(chain, mid, to)) {
      IdsOfPart(chain, numberOf, from, mid, to, end, id);
    }
  }

  /** Two repaired ranges that meet are one repaired range. */
  lemma RepairedJoin(held: set<Identity>, middle: set<Identity>, now: set<Identity>, chain: Blocks,
                     numberOf: string -> nat, window: nat, from: nat, mid: nat, end: nat)
    requires WellFormed(chain, numberOf) && window <= from <= mid <= end
    requires RangeRepaired(held, middle, chain, numberOf, window, from, mid)
    requires RangeRepaired(middle, now, chain, numberOf, window, mid, end)
    ensures RangeRepaired(held, now, chain, numberOf, window, from, end)
  {
    forall id | AtBlock(numberOf, id, from, end) ensures id in now <==> id in IdsOfAll(Logs(chain, from, end)) {
      if AtBlock(numberOf, id, from, mid) {
        IdsOfPart(chain, numberOf, from, from, mid, end, id);
      } else {
        IdsOfPart(chain, numberOf, from, mid, end, end, id);
      }
    }
  }

  lemma NetMovedJoin(held: set<Identity>, middle: set<Identity>, start: seq<Event>, between: seq<Event>,
                     now: seq<Event>, chain: Blocks, numberOf: string -> nat, window: nat, from: nat, mid: nat,
                     end: nat)
    requires WellFormed(chain, numberOf) && window <= from <= mid <= end
    requires RangeRepaired(held, middle, chain, numberOf, window, from, mid)
    requires NetMoved(start, between, held, chain, numberOf, from, mid)
    requires NetMoved(between, now, middle, chain, numberOf, mid, end)
    ensures NetMoved(start, now, held, chain, numberOf, from, end)
  {
    forall id
      ensures Net(Calls(now), id) - Net(Calls(start), id)
        == if AtBlock(numberOf, id, from, end)
           then (if id in IdsOfAll(Logs(chain, from, end)) then 1 else 0) - (if id in held then 1 else 0)
           else 0
    {
      if AtBlock(numberOf, id, from, mid) {
        IdsOfPart(chain, numberOf, from, from, mid, end, id);
      } else if AtBlock(numberOf, id, mid, end) {
        IdsOfPart(chain, numberOf, from, mid, end, end, id);
      }
    }
  }

  /** The blocks from..e - 1 of a window are repaired, in the table and for the consumer. */
  ghost predicate RepairedUpTo(held: set<Identity>, start: seq<Event>, now: set<Identity>, trace: seq<Event>,
                               chain: Blocks, numberOf: string -> nat, window: nat, from: nat, e: nat)
  {
    && RangeRepaired(held, now, chain, numberOf, window, from, e)
    && NetMoved(start, trace, held, chain, numberOf, from, e)
  }

  lemma RepairedUpToJoin(held: set<Identity>, start: seq<Event>, middle: set<Identity>, between: seq<Event>,
                         now: set<Identity>, trace: seq<Event>, chain: Blocks, numberOf: string -> nat, window: nat,
                         from: nat, mid: nat, end: nat)
    requires WellFormed(chain, numberOf) && window <= from <= mid <= end
    requires RepairedUpTo(held, start, middle, between, chain, numberOf, window, from, mid)
    requires RepairedUpTo(middle, between, now, trace, chain, numberOf, window, mid, end)
    ensures RepairedUpTo(held, start, now, trace, chain, numberOf, window, from, end)
  {
    RepairedJoin(held, middle, now, chain, numberOf, window, from, mid, end);
    NetMovedJoin(held, middle, start, between, trace, chain, numberOf, window, from, mid, end);
  }

  lemma NothingRepaired(held: set<Identity>, trace: seq<Event>, chain: Blocks, numberOf: string -> nat, window: nat,
                        from: nat)
    ensures RepairedUpTo(held, trace, held, trace, chain, numberOf, window, from, from)
    ensures InStep(held, trace, held, trace, numberOf, window)
  {
  }

  /** A table that was right on the whole window is still right on a part that is yet to come. */
  lemma StillAgrees(held: set<Identity>, now: set<Identity>, chain: Blocks, numberOf: string -> nat, window: nat,
                    from: nat, mid: nat, to: nat, end: nat)
    requires WellFormed(chain, numberOf) && window <= from <= mid <= to <= end
    requires KeptOutside(held, now, numberOf, window, from, mid)
    ensures Agrees(held, chain, numberOf, from, end) ==> Agrees(now, chain, numberOf, mid, to)
  {
    if Agrees(held, chain, numberOf, from, end) {
      AgreesOnPart(held, chain, numberOf, from, mid, to, end);
    }
  }

  lemma KeptJoin(held: set<Identity>, middle: set<Identity>, now: set<Identity>, start: seq<Event>,
                 between: seq<Event>, trace: seq<Event>, numberOf: string -> nat, window: nat, from: nat, mid: nat,
                 end: nat)
    requires from <= mid <= end
    requires KeptOutside(held, middle, numberOf, window, from, mid)
    requires KeptOutside(middle, now, numberOf, window, mid, end)
    requires InStep(held, start, middle, between, numberOf, window)
    requires InStep(middle, between, now, trace, numberOf, window)
    ensures KeptOutside(held, now, numberOf, window, from, end)
    ensures InStep(held, start, now, trace, numberOf, window)
  {
  }

  /** Where the saved entry stands when a gap reconciliation begins: before every log of the window. */
  predicate BeforeWindow(entry: Option<Cursor>, from: nat) {
    entry.None? || entry.value.block < from || entry.value == Cursor(from, false, None)
  }

  lemma CoversNothing(chain: Blocks, entry: Option<Cursor>, from: nat)
    requires BeforeWindow(entry, from)
    ensures Covered(chain, from, entry) == []
  {
  }

  lemma RewindGoesBeforeWindow(entry: Option<Cursor>, from: nat)
    ensures BeforeWindow(AfterRewind(entry, from), from)
  {
  }

  lemma WindowCursor(r: Range, numberOf: string -> nat, entry: Option<Cursor>)
    requires GoodRange(r, numberOf) && r.base == r.from && r.skip == 0 && BeforeWindow(entry, r.from)
    ensures CursorAt(r, entry, false, 0)
  {
    LogsAreCanonical(r.chain, numberOf, r.from, r.end);
    var here := RangeLogs(r);
    forall i | 0 <= i < |here| ensures Behind(entry, here[i]) {
      assert here[i] in here;
    }
    assert Logs(r.chain, r.base, r.from) == [];
  }

  lemma AgreesHolds(held: set<Identity>, now: set<Identity>, chain: Blocks, numberOf: string -> nat, window: nat,
                    from: nat, mid: nat, end: nat)
    requires WellFormed(chain, numberOf) && window <= from <= mid
    requires Agrees(held, chain, numberOf, from, mid) && KeptOutside(held, now, numberOf, window, mid, end)
    ensures IdsOfAll(Logs(chain, from, mid)) <= now
  {
    forall id | id in IdsOfAll(Logs(chain, from, mid)) ensures id in now {
      IdsInRange(chain, numberOf, from, mid, id);
    }
  }

  /** What a stopped range leaves covered is in the table, if everything before the range is. */
  lemma StoppedIsHeld(r: Range, entry: Option<Cursor>, n: nat, held: set<Identity>)
    requires Stopped(r, entry, false, n)
    requires IdsOfAll(Logs(r.chain, r.base, r.from)) <= held && IdsOfAll(RangeLogs(r)[..n]) <= held
    ensures IdsOfAll(Covered(r.chain, r.base, entry)) <= held
  {
    var covered, before, here := Covered(r.chain, r.base, entry), Logs(r.chain, r.base, r.from), RangeLogs(r)[..n];
    IdsOfAllJoin(before, here);
    forall id | id in IdsOfAll(covered) ensures id in held {
      assert covered == (before + here)[..|covered|];
      PrefixIds(before + here, |covered|, id);
    }
  }

  /** One call of scan_gap_ranges as it began: the blocks from..end - 1 of a recovery window that starts at block
      window. timely: its generation was read before the destructor began. */
  datatype Gap = Gap(chain: Blocks, numberOf: string -> nat, window: nat, from: nat, end: nat, timely: bool,
                     held: set<Identity>, start: seq<Event>, entry: Option<Cursor>, gate: Gate)

  ghost predicate GoodGap(gap: Gap, g: nat) {
    && WellFormed(gap.chain, gap.numberOf)
    && gap.window <= gap.from < gap.end <= UINT64_MAX + 1
    && g <= gap.gate.generation && (gap.timely ==> InTime(gap.gate, g))
  }

  /** The table was right on all blocks of the call. */
  ghost predicate NothingToDo(gap: Gap) {
    Agrees(gap.held, gap.chain, gap.numberOf, gap.from, gap.end)
  }

  /** Between two ranges: the blocks below e are dealt with. */
  ghost predicate GapProgress(gap: Gap, e: nat, now: set<Identity>, trace: seq<Event>) {
    && KeptOutside(gap.held, now, gap.numberOf, gap.window, gap.from, e)
    && InStep(gap.held, gap.start, now, trace, gap.numberOf, gap.window)
    && (gap.timely ==>
          RepairedUpTo(gap.held, gap.start, now, trace, gap.chain, gap.numberOf, gap.window, gap.from, e))
  }

  lemma GapBegins(gap: Gap)
    ensures GapProgress(gap, gap.from, gap.held, gap.start)
  {
    NothingRepaired(gap.held, gap.start, gap.chain, gap.numberOf, gap.window, gap.from);
  }

  lemma GapProgressMore(gap: Gap, mid: nat, middle: set<Identity>, between: seq<Event>, end: nat,
                        now: set<Identity>, trace: seq<Event>)
    requires WellFormed(gap.chain, gap.numberOf) && gap.window <= gap.from <= mid <= end
    requires GapProgress(gap, mid, middle, between)
    requires KeptOutside(middle, now, gap.numberOf, gap.window, mid, end)
    requires InStep(middle, between, now, trace, gap.numberOf, gap.window)
    ensures KeptOutside(gap.held, now, gap.numberOf, gap.window, gap.from, end)
    ensures InStep(gap.held, gap.start, now, trace, gap.numberOf, gap.window)
    ensures (gap.timely ==> RepairedUpTo(middle, between, now, trace, gap.chain, gap.numberOf, gap.window, mid, end))
            ==> GapProgress(gap, end, now, trace)
  {
    hide KeptOutside, InStep, RepairedUpTo;
    KeptJoin(gap.held, middle, now, gap.start, between, trace, gap.numberOf, gap.window, gap.from, mid, end);
    if gap.timely && RepairedUpTo(middle, between, now, trace, gap.chain, gap.numberOf, gap.window, mid, end) {
      RepairedUpToJoin(gap.held, gap.start, middle, between, now, trace, gap.chain, gap.numberOf, gap.window, gap.from,
                       mid, end);
    }
  }

  lemma KeptWidens(held: set<Identity>, now: set<Identity>, numberOf: string -> nat, window: nat, from: nat, mid: nat,
                   end: nat)
    requires KeptOutside(held, now, numberOf, window, from, mid) && mid <= end
    ensures KeptOutside(held, now, numberOf, window, from, end)
  {
  }

  /** What the entry covers of the window is in the table, wherever a range stopped. */
  lemma BatchIsHeld(gap: Gap, r: Range, middle: set<Identity>, between: seq<Event>, now: set<Identity>,
                    entry: Option<Cursor>, passed: nat)
    requires WellFormed(gap.chain, gap.numberOf) && gap.timely && gap.window == gap.from <= r.from
    requires r.chain == gap.chain && r.base == gap.window && Stopped(r, entry, false, passed)
    requires GapProgress(gap, r.from, middle, between)
    requires KeptOutside(middle, now, gap.numberOf, gap.window, r.from, r.end)
    requires IdsOfAll(RangeLogs(r)[..passed]) <= now
    ensures IdsOfAll(Covered(gap.chain, gap.window, entry)) <= now
  {
    AgreesHolds(middle, now, gap.chain, gap.numberOf, gap.window, gap.from, r.from, r.end);
    StoppedIsHeld(r, entry, passed, now);
  }

  /** The unconfirmed part of the window does not touch what the entry covers. */
  lemma RestKeepsCovered(gap: Gap, rest: Gap, now: set<Identity>, entry: Option<Cursor>)
    requires WellFormed(gap.chain, gap.numberOf) && rest.chain == gap.chain && rest.numberOf == gap.numberOf
    requires rest.window == gap.window == gap.from <= rest.from && BeforeWindow(gap.entry, gap.from)
    requires entry == if gap.from < rest.from then Some(Cursor(rest.from - 1, true, None)) else gap.entry
    requires IdsOfAll(Covered(gap.chain, gap.window, entry)) <= rest.held
    requires KeptOutside(rest.held, now, gap.numberOf, gap.window, rest.from, rest.end)
    ensures IdsOfAll(Covered(gap.chain, gap.window, entry)) <= now
  {
    if gap.from < rest.from {
      forall id | id in IdsOfAll(Logs(gap.chain, gap.window, rest.from)) ensures id in now {
        IdsInRange(gap.chain, gap.numberOf, gap.window, rest.from, id);
      }
    } else {
      CoversNothing(gap.chain, entry, gap.from);
    }
  }

  lemma RestFollows(gap: Gap, rest: Gap, now: set<Identity>, trace: seq<Event>)
    requires WellFormed(gap.chain, gap.numberOf) && rest.chain == gap.chain && rest.numberOf == gap.numberOf
    requires rest.window == gap.window == gap.from <= rest.from <= rest.end && rest.timely == gap.timely
    requires GapProgress(gap, rest.from, rest.held, rest.start)
    requires InStep(rest.held, rest.start, now, trace, gap.numberOf, gap.window)
    ensures InStep(gap.held, gap.start, now, trace, gap.numberOf, gap.window)
    ensures gap.timely && GapProgress(rest, rest.end, now, trace) ==>
      RepairedUpTo(gap.held, gap.start, now, trace, gap.chain, gap.numberOf, gap.window, gap.window, rest.end)
  {
    hide RepairedUpTo, KeptOutside;
    if gap.timely && GapProgress(rest, rest.end, now, trace) {
      RepairedUpToJoin(gap.held, gap.start, rest.held, rest.start, now, trace, gap.chain, gap.numberOf, gap.window,
                       gap.window, rest.from, rest.end);
    }
  }

  // ----- the saved entry -----

  lemma RangeByRangeJoin(first: seq<seq<Event>>, firstRanges: seq<BlockRange>, second: seq<seq<Event>>,
                         secondRanges: seq<BlockRange>, numberOf: string -> nat)
    requires |first| == |firstRanges|
    requires RangeByRange(first, firstRanges, numberOf) && RangeByRange(second, secondRanges, numberOf)
    ensures RangeByRange(first + second, firstRanges + secondRanges, numberOf)
  {
    hide OneRange;
  }

  /** The durable part of a window, then the unconfirmed rest. */
  lemma GapTraceJoin(start: seq<Event>, between: seq<Event>, now: seq<Event>, held: set<Identity>,
                     middle: set<Identity>, first: seq<seq<Event>>, firstRanges: seq<BlockRange>,
                     second: seq<seq<Event>>, secondRanges: seq<BlockRange>, chain: Blocks, numberOf: string -> nat,
                     window: nat, mid: nat, end: nat)
    requires WellFormed(chain, numberOf) && window <= mid <= end && |first| == |firstRanges|
    requires KeptOutside(held, middle, numberOf, window, window, mid)
    requires GapTrace(start, between, first, firstRanges, numberOf, Agrees(held, chain, numberOf, window, mid))
    requires GapTrace(between, now, second, secondRanges, numberOf, Agrees(middle, chain, numberOf, mid, end))
    ensures GapTrace(start, now, first + second, firstRanges + secondRanges, numberOf,
                     Agrees(held, chain, numberOf, window, end))
  {
    hide RangeByRange, KeptOutside, Calls, Flat, Agrees;
    RangeByRangeJoin(first, firstRanges, second, secondRanges, numberOf);
    FlatJoin(first, second);
    assert Calls(now) == Calls(start) + (Flat(first) + Flat(second));
    StillAgrees(held, middle, chain, numberOf, window, window, mid, end, end);
    if Agrees(held, chain, numberOf, window, end) {
      AgreesOnPart(held, chain, numberOf, window, window, mid, end);
    }
  }

  lemma SilentOnPart(start: seq<Event>, now: seq<Event>, parts: seq<seq<Event>>, ranges: seq<BlockRange>,
                     held: set<Identity>, chain: Blocks, numberOf: string -> nat, window: nat, mid: nat, end: nat)
    requires WellFormed(chain, numberOf) && window <= mid <= end
    requires GapTrace(start, now, parts, ranges, numberOf, Agrees(held, chain, numberOf, window, mid))
    ensures GapTrace(start, now, parts, ranges, numberOf, Agrees(held, chain, numberOf, window, end))
  {
    if Agrees(held, chain, numberOf, window, end) {
      AgreesOnPart(held, chain, numberOf, window, window, mid, end);
    }
  }

  /** For the blocks from..end - 1 the consumer's adds minus removals count each identity of the set once. */
  ghost predicate ConsumerHas(trace: seq<Event>, ids: set<Identity>, numberOf: string -> nat, from: nat, end: nat) {
    forall id :: AtBlock(numberOf, id, from, end) ==> Net(Calls(trace), id) == if id in ids then 1 else 0
  }

  /** A consumer that was in step with the table stays in step with it, wherever a reconciliation stops. */
  lemma ConsumerFollows(held: set<Identity>, start: seq<Event>, now: set<Identity>, trace: seq<Event>,
                        numberOf: string -> nat, from: nat, end: nat)
    requires InStep(held, start, now, trace, numberOf, from)
    requires ConsumerHas(start, held, numberOf, from, end)
    ensures ConsumerHas(trace, now, numberOf, from, end)
  {
  }

  /** A consumer that was in step with the table is in step with the chain after the repair. */
  lemma ConsumerConverges(held: set<Identity>, start: seq<Event>, now: set<Identity>, trace: seq<Event>,
                          chain: Blocks, numberOf: string -> nat, from: nat, end: nat)
    requires RepairedUpTo(held, start, now, trace, chain, numberOf, from, from, end)
    requires ConsumerHas(start, held, numberOf, from, end)
    ensures ConsumerHas(trace, IdsOfAll(Logs(chain, from, end)), numberOf, from, end)
    ensures ConsumerHas(trace, now, numberOf, from, end)
  {
  }

  /** What a completed gap reconciliation of the blocks from..target leaves, in the table and for the consumer. */
  ghost predicate GapRepaired(held: set<Identity>, start: seq<Event>, now: set<Identity>, trace: seq<Event>,
                              chain: Blocks, numberOf: string -> nat, from: nat, target: nat)
  {
    if from <= target then RepairedUpTo(held, start, now, trace, chain, numberOf, from, from, target + 1)
    else now == held && Calls(trace) == Calls(start)
  }

  /** The consumer's account of a log. */
  function NetOf(trace: seq<Event>, log: Log): int {
    if IdentityOf(log).None? then 0 else Net(Calls(trace), IdentityOf(log).value)
  }

  /** After a completed reconciliation every canonical log of the window is in the table; one the table did not hold
      has reached the consumer exactly when its block lies in the window. */
  lemma RepairReaches(held: set<Identity>, start: seq<Event>, now: set<Identity>, trace: seq<Event>, chain: Blocks,
                      numberOf: string -> nat, from: nat, target: nat, log: Log)
    requires GapRepaired(held, start, now, trace, chain, numberOf, from, target)
    requires WellFormed(chain, numberOf) && log in chain(BlockOf(log))
    ensures from <= BlockOf(log) <= target ==> IdsOf(log) <= now && IdsOf(log) != {}
    ensures IdsOf(log) !! held ==>
      NetOf(trace, log) == NetOf(start, log) + if from <= BlockOf(log) <= target then 1 else 0
  {
    var b := BlockOf(log);
    assert WellFormedBlock(chain, numberOf, b);
    var id := IdentityOf(log).value;
    assert numberOf(id.blockHash) == b;
    hide WellFormed, WellFormedBlock;
    if from <= b <= target {
      BlockIsScanned(chain, from, target, b, log);
      var logs := Logs(chain, from, target + 1);
      var i :| 0 <= i < |logs| && logs[i] == log;
      IdsOfAllHas(logs, id);
    }
  }

  lemma BlockIsScanned(chain: Blocks, from: nat, target: nat, b: nat, log: Log)
    requires from <= b <= target && log in chain(b)
    ensures log in Logs(chain, from, target + 1)
  {
    LogsSplit(chain, from, b, target + 1);
    LogsSplit(chain, b, b + 1, target + 1);
    assert Logs(chain, b, b) == [];
    assert log in Logs(chain, b, b + 1);
  }

  /** Where a completed gap reconciliation leaves the saved entry. */
  function EntryAfterGap(entry: Option<Cursor>, from: nat, durableTo: nat): Option<Cursor> {
    if from <= durableTo then Some(Cursor(durableTo, true, None)) else AfterRewind(entry, from)
  }

  /** A process that resumes from the entry takes block b as done. */
  predicate ClaimsDone(entry: Option<Cursor>, startBlock: nat, b: nat) {
    b < ResumeBlock(entry, startBlock)
  }

  /** Every block the new entry claims and the old one did not was read by the reconciliation. */
  ghost predicate NoBlockSkipped(entry: Option<Cursor>, startBlock: nat, from: nat, durableTo: nat) {
    forall b: nat ::
      ClaimsDone(EntryAfterGap(entry, from, durableTo), startBlock, b) && !ClaimsDone(entry, startBlock, b) ==>
        from <= b <= durableTo
  }

  /** The entry may jump over blocks nobody scanned: exactly when it stood more than one block below the window and
      the window reaches a durable block, for then the rewind does nothing and the checkpoints overtake the hole. */
  lemma GapSkipsNoBlockIff(entry: Option<Cursor>, startBlock: nat, from: nat, durableTo: nat)
    ensures NoBlockSkipped(entry, startBlock, from, durableTo)
            <==> ResumeBlock(entry, startBlock) >= from || from > durableTo
  {
    if ResumeBlock(entry, startBlock) < from <= durableTo {
      var b := ResumeBlock(entry, startBlock);
      assert ClaimsDone(EntryAfterGap(entry, from, durableTo), startBlock, b);
    }
  }

  /** A stream outage longer than the lookback: the entry stands at block 100, the head is 300 with no
      confirmations and a lookback of 64, so blocks 101..236 are never read. */
  lemma LongOutageSkipsBlocks()
    ensures var entry := Some(Cursor(100, true, None));
      && ResumeBlock(entry, 0) == 101
      && WindowStart(300, 64, 0) == 237
      && EntryAfterGap(entry, WindowStart(300, 64, 0), 300) == Some(Cursor(300, true, None))
      && !NoBlockSkipped(entry, 0, WindowStart(300, 64, 0), 300)
  {
    GapSkipsNoBlockIff(Some(Cursor(100, true, None)), 0, WindowStart(300, 64, 0), 300);
  }
}
