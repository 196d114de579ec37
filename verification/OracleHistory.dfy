/** The event lists of one question, on values: the reference that keeps every surviving event in canonical order,
    and the bounded history with its compacted base (src/oracle_event_history.cpp). */
module OracleHistory {
  import opened Wrappers
  import opened EvmLogs
  import opened OracleEvents

  const RETAINED: nat := 1024

  predicate HasSame(list: seq<Stored>, log: Log) {
    exists i :: 0 <= i < |list| && SameLog(list[i].event.log, log)
  }

  predicate Sorted(list: seq<Stored>) {
    forall i, j :: 0 <= i < j < |list| ==> !CanonicalBefore(list[j].event.log, list[i].event.log)
  }

  /** Block, transaction and log numbers ascend, each where those before it are equal, and then the hashes. */
  predicate Ascending(list: seq<Stored>) {
    forall i, j :: 0 <= i < j < |list| ==> NumbersAscend(list[i].event.log, list[j].event.log)
  }

  predicate NumbersAscend(a: Log, b: Log) {
    && a.block.GetOr(0) <= b.block.GetOr(0)
    && (a.block.GetOr(0) == b.block.GetOr(0) ==>
          && a.txIndex.GetOr(0) <= b.txIndex.GetOr(0)
          && (a.txIndex.GetOr(0) == b.txIndex.GetOr(0) ==>
                && a.logIndex.GetOr(0) <= b.logIndex.GetOr(0)
                && (a.logIndex.GetOr(0) == b.logIndex.GetOr(0) ==> HashesAscend(a, b))))
  }

  predicate HashesAscend(a: Log, b: Log) {
    (a.blockHash == b.blockHash && !StringLess(b.txHash, a.txHash)) || StringLess(a.blockHash, b.blockHash)
  }

  /** Canonical order is ascending order of the numbers. */
  lemma SortedAscends(list: seq<Stored>)
    ensures Sorted(list) <==> Ascending(list)
  {
    forall i, j | 0 <= i < j < |list|
      ensures NumbersAscend(list[i].event.log, list[j].event.log)
              <==> !CanonicalBefore(list[j].event.log, list[i].event.log)
    {
      StringLessCompares(list[i].event.log.blockHash, list[j].event.log.blockHash);
    }
  }

  predicate NoReplays(list: seq<Stored>) {
    forall i, j :: 0 <= i < j < |list| ==> !SameLog(list[i].event.log, list[j].event.log)
  }

  // ----- the reference -----

  /** An event takes its canonical place, before events that are neither before nor after it. */
  function Inserted(list: seq<Stored>, stored: Stored): seq<Stored> {
    if list == [] || !CanonicalBefore(list[0].event.log, stored.event.log) then [stored] + list
    else [list[0]] + Inserted(list[1..], stored)
  }

  /** Without the first report of a log. */
  function Erased(list: seq<Stored>, log: Log): seq<Stored> {
    if list == [] then []
    else if SameLog(list[0].event.log, log) then list[1..]
    else [list[0]] + Erased(list[1..], log)
  }

  /** One delivery: a removal takes the log out, a report of a new log goes in, a repetition changes nothing. */
  function Updated(list: seq<Stored>, op: Stored): seq<Stored> {
    if op.event.log.removed then Erased(list, op.event.log)
    else if HasSame(list, op.event.log) then list
    else Inserted(list, op)
  }

  /** What survives of the deliveries, in canonical order. */
  function Survivors(ops: seq<Stored>): seq<Stored> {
    if ops == [] then [] else Updated(Survivors(ops[..|ops| - 1]), ops[|ops| - 1])
  }

  lemma {:induction false} InsertedAt(list: seq<Stored>, stored: Stored, k: nat)
    requires k <= |list|
    requires forall i :: 0 <= i < k ==> CanonicalBefore(list[i].event.log, stored.event.log)
    requires k < |list| ==> !CanonicalBefore(list[k].event.log, stored.event.log)
    ensures Inserted(list, stored) == list[..k] + [stored] + list[k..]
  {
    hide CanonicalBefore;
    if k > 0 {
      InsertedAt(list[1..], stored, k - 1);
      assert list[1..][..k - 1] == list[1..k] && list[1..][k - 1..] == list[k..];
      assert list[..k] == [list[0]] + list[1..k];
    }
  }

  lemma {:induction false} InsertedPlace(list: seq<Stored>, stored: Stored) returns (k: nat)
    ensures k <= |list| && Inserted(list, stored) == list[..k] + [stored] + list[k..]
    ensures forall i :: 0 <= i < k ==> CanonicalBefore(list[i].event.log, stored.event.log)
    ensures k < |list| ==> !CanonicalBefore(list[k].event.log, stored.event.log)
  {
    k := 0;
    while k < |list| && CanonicalBefore(list[k].event.log, stored.event.log)
      invariant k <= |list|
      invariant forall i :: 0 <= i < k ==> CanonicalBefore(list[i].event.log, stored.event.log)
    {
      k := k + 1;
    }
    InsertedAt(list, stored, k);
  }

  lemma {:induction false} ErasedAt(list: seq<Stored>, log: Log, k: nat)
    requires k < |list| && SameLog(list[k].event.log, log)
    requires forall i :: 0 <= i < k ==> !SameLog(list[i].event.log, log)
    ensures Erased(list, log) == list[..k] + list[k + 1..]
  {
    if k > 0 {
      ErasedAt(list[1..], log, k - 1);
      assert list[1..][..k - 1] == list[1..k] && list[1..][k..] == list[k + 1..];
      assert list[..k] == [list[0]] + list[1..k];
    }
  }

  lemma {:induction false} NothingErased(list: seq<Stored>, log: Log)
    requires !HasSame(list, log)
    ensures Erased(list, log) == list
  {
    if list != [] {
      assert !HasSame(list[1..], log) by {
        forall i | 0 <= i < |list[1..]| ensures !SameLog(list[1..][i].event.log, log) {
          assert list[1..][i] == list[i + 1];
        }
      }
      NothingErased(list[1..], log);
    }
  }

  lemma FirstSame(list: seq<Stored>, log: Log) returns (k: nat)
    requires HasSame(list, log)
    ensures k < |list| && SameLog(list[k].event.log, log)
    ensures forall i :: 0 <= i < k ==> !SameLog(list[i].event.log, log)
  {
    k := 0;
    while !SameLog(list[k].event.log, log)
      invariant k < |list| && forall i :: 0 <= i < k ==> !SameLog(list[i].event.log, log)
      invariant exists i :: k <= i < |list| && SameLog(list[i].event.log, log)
      decreases |list| - k
    {
      k := k + 1;
    }
  }

  lemma InsertKeepsSorted(list: seq<Stored>, stored: Stored)
    requires Sorted(list)
    ensures Sorted(Inserted(list, stored))
  {
    var k := InsertedPlace(list, stored);
    var longer := Inserted(list, stored);
    forall i, j | 0 <= i < j < |longer|
      ensures !CanonicalBefore(longer[j].event.log, longer[i].event.log)
    {
      if i == k {
        if k < |list| {
          OrderChains(stored.event.log, list[k].event.log, list[j - 1].event.log) by {
            assert j - 1 > k ==> !CanonicalBefore(list[j - 1].event.log, list[k].event.log);
            OrderIsStrict(list[k].event.log, list[k].event.log);
          }
        }
      } else if j == k {
        OrderIsStrict(list[i].event.log, stored.event.log);
      } else {
        var i', j' := if i < k then i else i - 1, if j < k then j else j - 1;
        assert longer[i] == list[i'] && longer[j] == list[j'];
      }
    }
  }

  lemma EraseKeepsSorted(list: seq<Stored>, log: Log)
    requires Sorted(list)
    ensures Sorted(Erased(list, log))
  {
    if HasSame(list, log) {
      var k := FirstSame(list, log);
      ErasedAt(list, log, k);
    } else {
      NothingErased(list, log);
    }
  }

  lemma InsertKeepsNoReplays(list: seq<Stored>, op: Stored)
    requires NoReplays(list) && !HasSame(list, op.event.log)
    ensures NoReplays(Inserted(list, op))
  {
    hide Inserted, SameLog;
    var k := InsertedPlace(list, op);
    var longer := Inserted(list, op);
    forall i, j | 0 <= i < j < |longer| ensures !SameLog(longer[i].event.log, longer[j].event.log) {
      SameLogIsSymmetric(longer[i].event.log, longer[j].event.log);
      var i', j' := if i < k then i else i - 1, if j < k then j else j - 1;
      assert i != k ==> longer[i] == list[i'];
      assert j != k ==> longer[j] == list[j'];
    }
  }

  lemma EraseKeepsNoReplays(list: seq<Stored>, log: Log)
    requires NoReplays(list)
    ensures NoReplays(Erased(list, log))
  {
    hide Erased, SameLog;
    if HasSame(list, log) {
      var k := FirstSame(list, log);
      ErasedAt(list, log, k);
    } else {
      NothingErased(list, log);
    }
  }

  lemma UpdateKeepsNoReplays(list: seq<Stored>, op: Stored)
    requires NoReplays(list)
    ensures NoReplays(Updated(list, op))
  {
    hide NoReplays;
    if op.event.log.removed {
      EraseKeepsNoReplays(list, op.event.log);
    } else if !HasSame(list, op.event.log) {
      InsertKeepsNoReplays(list, op);
    }
  }

  lemma {:induction false} SurvivorsAreSorted(ops: seq<Stored>)
    ensures Sorted(Survivors(ops)) && NoReplays(Survivors(ops))
  {
    hide Sorted, NoReplays, Inserted, Erased, HasSame;
    if ops == [] {
      NothingIsCanonical();
    } else {
      var before, op := Survivors(ops[..|ops| - 1]), ops[|ops| - 1];
      SurvivorsAreSorted(ops[..|ops| - 1]);
      UpdateKeepsNoReplays(before, op);
      if op.event.log.removed {
        EraseKeepsSorted(before, op.event.log);
      } else {
        InsertKeepsSorted(before, op);
      }
    }
  }

  lemma NothingIsCanonical()
    ensures Sorted([]) && NoReplays([])
  {
  }

  // ----- which events survive -----

  lemma InsertedHas(list: seq<Stored>, stored: Stored, e: Stored)
    ensures e in Inserted(list, stored) <==> e in list || e == stored
    ensures multiset(Inserted(list, stored)) == multiset(list) + multiset{stored}
  {
    hide Inserted, CanonicalBefore;
    var k := InsertedPlace(list, stored);
    assert list == list[..k] + list[k..];
    assert multiset(list) == multiset(list[..k]) + multiset(list[k..]);
    assert e in Inserted(list, stored) <==> e in multiset(Inserted(list, stored));
    assert e in list <==> e in multiset(list);
  }

  /** Of a list without repetitions, everything but the reports of the log. */
  lemma ErasedHas(list: seq<Stored>, log: Log, e: Stored)
    requires NoReplays(list)
    ensures e in Erased(list, log) <==> e in list && !SameLog(e.event.log, log)
  {
    if HasSame(list, log) {
      var k := FirstSame(list, log);
      ErasedAt(list, log, k);
      var less := list[..k] + list[k + 1..];
      forall i | 0 <= i < |list| && i != k ensures !SameLog(list[i].event.log, log) && list[i] in less {
        assert !SameLog(list[if i < k then i else k].event.log, list[if i < k then k else i].event.log);
        assert list[i] == less[if i < k then i else i - 1];
      }
    } else {
      NothingErased(list, log);
    }
  }

  predicate Removes(op: Stored, log: Log) {
    op.event.log.removed && SameLog(log, op.event.log)
  }

  predicate Reports(op: Stored, log: Log) {
    !op.event.log.removed && SameLog(op.event.log, log)
  }

  /** The log is removed somewhere between two deliveries. */
  predicate RemovedBetween(ops: seq<Stored>, log: Log, i: nat, j: nat) {
    exists k :: i < k < j && k < |ops| && Removes(ops[k], log)
  }

  /** The i-th delivery is a report that still stands: its log is not removed after it, and any earlier report of the
      log had been removed before it. */
  predicate Stands(ops: seq<Stored>, i: nat) {
    && i < |ops| && !ops[i].event.log.removed
    && !RemovedBetween(ops, ops[i].event.log, i, |ops|)
    && (forall j :: 0 <= j < i && Reports(ops[j], ops[i].event.log) ==> RemovedBetween(ops, ops[i].event.log, j, i))
  }

  ghost predicate Surviving(ops: seq<Stored>, e: Stored) {
    exists i: nat :: i < |ops| && Stands(ops, i) && ops[i] == e
  }

  lemma RemovedBetweenPrefix(ops: seq<Stored>, log: Log, i: nat, j: nat)
    requires ops != [] && j < |ops|
    ensures RemovedBetween(ops, log, i, j) <==> RemovedBetween(ops[..|ops| - 1], log, i, j)
  {
    var front := ops[..|ops| - 1];
    if RemovedBetween(ops, log, i, j) {
      var k :| i < k < j && Removes(ops[k], log);
      assert front[k] == ops[k];
    }
    if RemovedBetween(front, log, i, j) {
      var k :| i < k < j && k < |front| && Removes(front[k], log);
      assert ops[k] == front[k];
    }
  }

  /** A report that stood before the last delivery stands after it unless that delivery removes its log. */
  lemma StandsOn(ops: seq<Stored>, i: nat)
    requires ops != [] && i < |ops| - 1
    ensures Stands(ops, i) <==> Stands(ops[..|ops| - 1], i) && !Removes(ops[|ops| - 1], ops[i].event.log)
  {
    var front, last, log := ops[..|ops| - 1], |ops| - 1, ops[i].event.log;
    RemovedBetweenPrefix(ops, log, i, last);
    assert RemovedBetween(ops, log, i, |ops|) <==> RemovedBetween(ops, log, i, last) || Removes(ops[last], log) by {
      if RemovedBetween(ops, log, i, |ops|) {
        var k :| i < k < |ops| && Removes(ops[k], log);
      }
      if RemovedBetween(ops, log, i, last) {
        var k :| i < k < last && Removes(ops[k], log);
      }
    }
    forall j | 0 <= j < i ensures RemovedBetween(ops, log, j, i) <==> RemovedBetween(front, log, j, i) {
      RemovedBetweenPrefix(ops, log, j, i);
    }
  }

  /** A log that was reported, and not removed since, is among the survivors. */
  lemma {:induction false} ReportedStays(ops: seq<Stored>, log: Log, j: nat)
    requires j < |ops| && Reports(ops[j], log) && !RemovedBetween(ops, log, j, |ops|)
    ensures HasSame(Survivors(ops), log)
  {
    var front, op := ops[..|ops| - 1], ops[|ops| - 1];
    var before := Survivors(front);
    SurvivorsAreSorted(front);
    if j == |ops| - 1 {
      if !HasSame(before, op.event.log) {
        var k := InsertedPlace(before, op);
        assert Survivors(ops)[k] == op;
      } else {
        var i :| 0 <= i < |before| && SameLog(before[i].event.log, op.event.log);
        assert SameLog(before[i].event.log, log);
      }
    } else {
      forall k | j < k < |front| ensures !Removes(front[k], log) {
        assert !Removes(ops[k], log);
      }
      ReportedStays(front, log, j);
      var i :| 0 <= i < |before| && SameLog(before[i].event.log, log);
      var e := before[i];
      assert !Removes(op, log);
      assert e in Survivors(ops) by {
        if op.event.log.removed {
          ErasedHas(before, op.event.log, e);
        } else if !HasSame(before, op.event.log) {
          InsertedHas(before, op, e);
        }
      }
      var k :| 0 <= k < |Survivors(ops)| && Survivors(ops)[k] == e;
    }
  }

  /** The last delivery stands exactly when it is a report of a log that is not among the survivors before it. */
  lemma LastStands(ops: seq<Stored>, front: seq<Stored>)
    requires ops != [] && front == ops[..|ops| - 1]
    requires forall e :: e in Survivors(front) ==> Surviving(front, e)
    ensures var op := ops[|ops| - 1];
      Stands(ops, |ops| - 1) <==> !op.event.log.removed && !HasSame(Survivors(front), op.event.log)
  {
    var last := |ops| - 1;
    var log, before := ops[last].event.log, Survivors(front);
    if !log.removed && HasSame(before, log) {
      var i :| 0 <= i < |before| && SameLog(before[i].event.log, log);
      assert before[i] in before;
      var j: nat :| j < |front| && Stands(front, j) && front[j] == before[i];
      assert Reports(ops[j], log);
      forall k | j < k < last ensures !Removes(ops[k], log) {
        assert !Removes(front[k], front[j].event.log);
      }
    }
    if !log.removed && !HasSame(before, log) {
      forall j | 0 <= j < last && Reports(ops[j], log) ensures RemovedBetween(ops, log, j, last) {
        if !RemovedBetween(ops, log, j, last) {
          RemovedBetweenPrefix(ops, log, j, last);
          assert Reports(front[j], log);
          ReportedStays(front, log, j);
        }
      }
    }
  }

  /** What stands after one more delivery: what stood and is not removed by it, and that delivery if it stands. */
  lemma StandingMore(ops: seq<Stored>, front: seq<Stored>, e: Stored)
    requires ops != [] && front == ops[..|ops| - 1]
    ensures var op := ops[|ops| - 1];
      Surviving(ops, e)
      <==> (Surviving(front, e) && !Removes(op, e.event.log)) || (Stands(ops, |ops| - 1) && op == e)
  {
    hide Stands, Removes;
    if i: nat :| i < |ops| - 1 && Stands(ops, i) && ops[i] == e {
      StandsOn(ops, i);
      assert front[i] == e;
    }
    if i: nat :| i < |front| && Stands(front, i) && front[i] == e {
      StandsOn(ops, i);
      assert ops[i] == e;
    }
  }

  lemma {:induction false} SurvivorsAreStanding(ops: seq<Stored>, e: Stored)
    ensures e in Survivors(ops) <==> Surviving(ops, e)
  {
    hide Stands, Inserted, Erased, NoReplays;
    if ops != [] {
      var front, op := ops[..|ops| - 1], ops[|ops| - 1];
      forall f ensures f in Survivors(front) <==> Surviving(front, f) {
        SurvivorsAreStanding(front, f);
      }
      SurvivorsAreSorted(front);
      LastStands(ops, front);
      StandingMore(ops, front, e);
      if op.event.log.removed {
        ErasedHas(Survivors(front), op.event.log, e);
      } else if !HasSame(Survivors(front), op.event.log) {
        InsertedHas(Survivors(front), op, e);
      }
    }
  }

  /** The reference, whatever arrives: in canonical order, no log twice, and exactly the reports that still stand. */
  lemma SurvivorsAreCanonical(ops: seq<Stored>)
    ensures Sorted(Survivors(ops)) && NoReplays(Survivors(ops))
    ensures forall e :: e in Survivors(ops) <==> Surviving(ops, e)
  {
    SurvivorsAreSorted(ops);
    forall e ensures e in Survivors(ops) <==> Surviving(ops, e) {
      SurvivorsAreStanding(ops, e);
    }
  }

  /** Deliveries without removals and repetitions all survive. */
  lemma {:induction false} AllSurvive(ops: seq<Stored>)
    requires NoReplays(ops) && forall i :: 0 <= i < |ops| ==> !ops[i].event.log.removed
    ensures multiset(Survivors(ops)) == multiset(ops)
  {
    hide Inserted;
    if ops != [] {
      var front, op := ops[..|ops| - 1], ops[|ops| - 1];
      AllSurvive(front);
      NotAmongOthers(ops, Survivors(front));
      InsertedHas(Survivors(front), op, op);
      assert ops == front + [op];
    }
  }

  lemma NotAmongOthers(ops: seq<Stored>, before: seq<Stored>)
    requires ops != [] && NoReplays(ops) && multiset(before) == multiset(ops[..|ops| - 1])
    ensures !HasSame(before, ops[|ops| - 1].event.log)
  {
    var front := ops[..|ops| - 1];
    forall i | 0 <= i < |before| ensures !SameLog(before[i].event.log, ops[|ops| - 1].event.log) {
      assert before[i] in multiset(front);
      var j :| 0 <= j < |front| && front[j] == before[i];
      assert !SameLog(ops[j].event.log, ops[|ops| - 1].event.log);
    }
  }

  // ----- the bounded history -----

  /** The events folded into the base, and those retained for replay. */
  datatype Lists = Lists(compacted: seq<Stored>, retained: seq<Stored>) {
    function All(): seq<Stored> {
      compacted + retained
    }
  }

  function Compacted(lists: Lists): (r: Lists)
    ensures r.All() == lists.All()
    ensures |r.retained| == if |lists.retained| > RETAINED then RETAINED else |lists.retained|
    decreases |lists.retained|
  {
    if |lists.retained| <= RETAINED then lists
    else Compacted(Lists(lists.compacted + [lists.retained[0]], lists.retained[1..]))
  }

  /** The new event lies at or before the last compacted one. */
  predicate BehindFrontier(lists: Lists, log: Log) {
    lists.compacted != [] && !CanonicalBefore(lists.compacted[|lists.compacted| - 1].event.log, log)
  }

  /** What one delivery does to the lists. */
  function Ingested(lists: Lists, op: Stored): Lists {
    var log := op.event.log;
    if log.removed then Lists(lists.compacted, Erased(lists.retained, log))
    else if HasSame(lists.retained, log) || BehindFrontier(lists, log) then lists
    else Compacted(Lists(lists.compacted, Inserted(lists.retained, op)))
  }

  function Run(ops: seq<Stored>): Lists {
    if ops == [] then Lists([], []) else Ingested(Run(ops[..|ops| - 1]), ops[|ops| - 1])
  }

  /** A delivery the bounded history cannot honour: the removal of a compacted event, or a new event at or before
      the last compacted one. */
  predicate Lost(lists: Lists, op: Stored) {
    if op.event.log.removed then HasSame(lists.compacted, op.event.log)
    else BehindFrontier(lists, op.event.log) && !HasSame(lists.All(), op.event.log)
  }

  /** Two reports of one log give the same position. */
  predicate Consistent(list: seq<Stored>, log: Log) {
    forall i :: 0 <= i < |list| && SameLog(list[i].event.log, log) ==>
      list[i].event.log.block == log.block && list[i].event.log.txIndex == log.txIndex
  }

  lemma HasSameJoin(a: seq<Stored>, b: seq<Stored>, log: Log)
    ensures HasSame(a + b, log) <==> HasSame(a, log) || HasSame(b, log)
  {
    if i :| 0 <= i < |a| && SameLog(a[i].event.log, log) {
      assert (a + b)[i] == a[i];
    }
    if i :| 0 <= i < |b| && SameLog(b[i].event.log, log) {
      assert (a + b)[|a| + i] == b[i];
    }
  }

  lemma {:induction false} EraseInRest(a: seq<Stored>, b: seq<Stored>, log: Log)
    ensures HasSame(a, log) ==> Erased(a + b, log) == Erased(a, log) + b && |Erased(a, log)| == |a| - 1
    ensures !HasSame(a, log) ==> Erased(a + b, log) == a + Erased(b, log)
  {
    if a == [] {
      assert a + b == b;
    } else {
      assert (a + b)[1..] == a[1..] + b;
      HasSameJoin([a[0]], a[1..], log);
      assert a == [a[0]] + a[1..];
      assert HasSame([a[0]], log) <==> SameLog(a[0].event.log, log) by {
        assert SameLog(a[0].event.log, log) ==> SameLog([a[0]][0].event.log, log);
      }
      EraseInRest(a[1..], b, log);
    }
  }

  lemma InsertInRest(a: seq<Stored>, b: seq<Stored>, op: Stored)
    requires forall i :: 0 <= i < |a| ==> CanonicalBefore(a[i].event.log, op.event.log)
    ensures Inserted(a + b, op) == a + Inserted(b, op)
  {
    hide Inserted, CanonicalBefore;
    var k := InsertedPlace(b, op);
    InsertedAt(a + b, op, |a| + k);
    assert (a + b)[..|a| + k] == a + b[..k] && (a + b)[|a| + k..] == b[k..];
  }

  /** Past the frontier is past every compacted event. */
  lemma PastFrontier(lists: Lists, op: Stored)
    requires Sorted(lists.All()) && !BehindFrontier(lists, op.event.log)
    ensures forall i :: 0 <= i < |lists.compacted| ==> CanonicalBefore(lists.compacted[i].event.log, op.event.log)
  {
    var c := lists.compacted;
    forall i | 0 <= i < |c| ensures CanonicalBefore(c[i].event.log, op.event.log) {
      var last := c[|c| - 1].event.log;
      assert lists.All()[i] == c[i] && lists.All()[|c| - 1] == c[|c| - 1];
      OrderIsStrict(last, last);
      OrderIsStrict(last, op.event.log);
      OrderChains(c[i].event.log, last, op.event.log);
    }
  }

  lemma InsertedIsLonger(list: seq<Stored>, op: Stored)
    ensures |Inserted(list, op)| == |list| + 1
  {
    var k := InsertedPlace(list, op);
  }

  lemma ErasedIsShorter(list: seq<Stored>, log: Log)
    ensures |Erased(list, log)| == if HasSame(list, log) then |list| - 1 else |list|
  {
    if HasSame(list, log) {
      var k := FirstSame(list, log);
      ErasedAt(list, log, k);
    } else {
      NothingErased(list, log);
    }
  }

  /** A compacted log is behind the frontier again when it is reported again. */
  lemma CompactedIsBehind(lists: Lists, op: Stored)
    requires Sorted(lists.All()) && Consistent(lists.All(), op.event.log)
    requires HasSame(lists.compacted, op.event.log)
    ensures BehindFrontier(lists, op.event.log)
  {
    var c := lists.compacted;
    var i :| 0 <= i < |c| && SameLog(c[i].event.log, op.event.log);
    var last := c[|c| - 1].event.log;
    assert lists.All()[i] == c[i] && lists.All()[|c| - 1] == c[|c| - 1];
    assert !CanonicalBefore(last, c[i].event.log) by {
      OrderIsStrict(last, last);
    }
    OrderIsStrict(c[i].event.log, op.event.log);
    assert !CanonicalBefore(last, op.event.log);
  }

  lemma OnlyOnce(a: seq<Stored>, b: seq<Stored>, log: Log)
    requires NoReplays(a + b) && HasSame(a, log)
    ensures !HasSame(b, log)
  {
    if HasSame(b, log) {
      var i :| 0 <= i < |a| && SameLog(a[i].event.log, log);
      var j :| 0 <= j < |b| && SameLog(b[j].event.log, log);
      assert (a + b)[i] == a[i] && (a + b)[|a| + j] == b[j];
      assert SameLog((a + b)[i].event.log, (a + b)[|a| + j].event.log);
    }
  }

  /** The bounded history does what the unbounded one does, exactly when the delivery is not lost; a lost one
      changes nothing. */
  lemma IngestAgreesIff(lists: Lists, op: Stored)
    requires Sorted(lists.All()) && NoReplays(lists.All()) && Consistent(lists.All(), op.event.log)
    ensures Ingested(lists, op).All() == Updated(lists.All(), op) <==> !Lost(lists, op)
    ensures Lost(lists, op) ==> Ingested(lists, op) == lists
  {
    var log := op.event.log;
    var c, h := lists.compacted, lists.retained;
    HasSameJoin(c, h, log);
    if log.removed {
      EraseInRest(c, h, log);
      ErasedIsShorter(c + h, log);
      if HasSame(c, log) {
        OnlyOnce(c, h, log);
        NothingErased(h, log);
      }
    } else if HasSame(c, log) {
      CompactedIsBehind(lists, op);
    } else if !HasSame(h, log) {
      InsertedIsLonger(c + h, op);
      if !BehindFrontier(lists, log) {
        PastFrontier(lists, op);
        InsertInRest(c, h, op);
      }
    }
  }

  // ----- whole runs -----

  /** Every delivery of the run could be honoured, and repeated reports give one position. */
  ghost predicate NothingLost(ops: seq<Stored>) {
    forall i :: 0 <= i < |ops| ==>
      !Lost(Run(ops[..i]), ops[i]) && Consistent(Survivors(ops[..i]), ops[i].event.log)
  }

  /** The bounded history refines the sorted list of survivors. */
  lemma {:induction false} RunIsSurvivors(ops: seq<Stored>)
    requires NothingLost(ops)
    ensures Run(ops).All() == Survivors(ops)
  {
    if ops != [] {
      var front := ops[..|ops| - 1];
      assert NothingLost(front) by {
        forall i | 0 <= i < |front|
          ensures !Lost(Run(front[..i]), front[i]) && Consistent(Survivors(front[..i]), front[i].event.log)
        {
          assert front[..i] == ops[..i];
        }
      }
      RunIsSurvivors(front);
      SurvivorsAreSorted(front);
      assert ops[..|ops| - 1] == front;
      IngestAgreesIff(Run(front), ops[|ops| - 1]);
    }
  }

  // ----- the order of arrival -----

  /** Every log can be told from every other. */
  predicate Identified(list: seq<Stored>) {
    forall i :: 0 <= i < |list| ==> list[i].event.log.txHash != "" && list[i].event.log.logIndex.Some?
  }

  predicate Strict(list: seq<Stored>) {
    forall i, j :: 0 <= i < j < |list| ==> CanonicalBefore(list[i].event.log, list[j].event.log)
  }

  lemma IdentifiedIsStrict(list: seq<Stored>)
    requires Sorted(list) && NoReplays(list) && Identified(list)
    ensures Strict(list)
  {
    forall i, j | 0 <= i < j < |list| ensures CanonicalBefore(list[i].event.log, list[j].event.log) {
      OrderIsStrict(list[i].event.log, list[j].event.log);
      assert !SameLog(list[i].event.log, list[j].event.log);
    }
  }

  lemma StrictStartsAlike(a: seq<Stored>, b: seq<Stored>)
    requires Strict(a) && Strict(b) && multiset(a) == multiset(b) && a != []
    ensures b != [] && a[0] == b[0]
  {
    assert a[0] in multiset(b);
    assert b != [];
    assert b[0] in multiset(a);
    var i :| 0 <= i < |b| && b[i] == a[0];
    var j :| 0 <= j < |a| && a[j] == b[0];
    if i > 0 && j > 0 {
      OrderIsStrict(a[0].event.log, b[0].event.log);
    }
  }

  lemma {:induction false} StrictIsUnique(a: seq<Stored>, b: seq<Stored>)
    requires Strict(a) && Strict(b) && multiset(a) == multiset(b)
    ensures a == b
  {
    if a == [] {
      assert |multiset(b)| == 0;
    } else {
      StrictStartsAlike(a, b);
      assert a == [a[0]] + a[1..] && b == [b[0]] + b[1..];
      assert multiset(a[1..]) == multiset(a) - multiset{a[0]};
      assert multiset(b[1..]) == multiset(b) - multiset{b[0]};
      StrictIsUnique(a[1..], b[1..]);
    }
  }

  lemma {:induction false} StrictOnce(list: seq<Stored>, e: Stored)
    requires Strict(list)
    ensures multiset(list)[e] == if e in list then 1 else 0
  {
    if list != [] {
      StrictOnce(list[1..], e);
      assert list == [list[0]] + list[1..];
      OrderIsStrict(list[0].event.log, list[0].event.log);
      assert forall i :: 0 <= i < |list[1..]| ==> list[1..][i] == list[i + 1];
    }
  }

  lemma StrictByMembers(a: seq<Stored>, b: seq<Stored>)
    requires Strict(a) && Strict(b) && forall e :: e in a <==> e in b
    ensures a == b
  {
    forall e ensures multiset(a)[e] == multiset(b)[e] {
      StrictOnce(a, e);
      StrictOnce(b, e);
    }
    StrictIsUnique(a, b);
  }

  /** Each log is reported at most once, and removed only after its report. */
  predicate Orderly(ops: seq<Stored>) {
    forall i, j :: 0 <= i < j < |ops| && !ops[j].event.log.removed ==> !SameLog(ops[j].event.log, ops[i].event.log)
  }

  /** The report of a log that no delivery removes. */
  ghost predicate NeverRemoved(ops: seq<Stored>, e: Stored) {
    e in ops && !e.event.log.removed && forall r :: r in ops ==> !Removes(r, e.event.log)
  }

  lemma OrderlySurvivors(ops: seq<Stored>, e: Stored)
    requires Orderly(ops)
    ensures e in Survivors(ops) <==> NeverRemoved(ops, e)
  {
    SurvivorsAreStanding(ops, e);
    if i: nat :| i < |ops| && Stands(ops, i) && ops[i] == e {
      forall r | r in ops ensures !Removes(r, e.event.log) {
        var k :| 0 <= k < |ops| && ops[k] == r;
        SameLogIsSymmetric(r.event.log, e.event.log);
        if k > i {
          assert !RemovedBetween(ops, e.event.log, i, |ops|);
        }
      }
    }
    if NeverRemoved(ops, e) {
      var i :| 0 <= i < |ops| && ops[i] == e;
      forall j | 0 <= j < i ensures !Reports(ops[j], e.event.log) {
        SameLogIsSymmetric(ops[j].event.log, e.event.log);
      }
      assert Stands(ops, i);
    }
  }

  predicate ReportsIdentified(ops: seq<Stored>) {
    forall i :: 0 <= i < |ops| && !ops[i].event.log.removed ==>
      ops[i].event.log.txHash != "" && ops[i].event.log.logIndex.Some?
  }

  lemma OrderlyIsStrict(ops: seq<Stored>)
    requires Orderly(ops) && ReportsIdentified(ops)
    ensures Strict(Survivors(ops))
  {
    SurvivorsAreSorted(ops);
    var list := Survivors(ops);
    forall i | 0 <= i < |list| ensures list[i].event.log.txHash != "" && list[i].event.log.logIndex.Some? {
      OrderlySurvivors(ops, list[i]);
      assert list[i] in list;
    }
    IdentifiedIsStrict(list);
  }

  /** The same deliveries in two orders, removals behind their reports in both, lead to the same list. */
  lemma ArrivalOrderIsIrrelevant(a: seq<Stored>, b: seq<Stored>)
    requires multiset(a) == multiset(b) && Orderly(a) && Orderly(b) && ReportsIdentified(a)
    requires NothingLost(a) && NothingLost(b)
    ensures Run(a).All() == Run(b).All() == Survivors(a) == Survivors(b)
  {
    hide NothingLost, Orderly;
    RunIsSurvivors(a);
    RunIsSurvivors(b);
    SameMembers(a, b);
    forall i | 0 <= i < |b| && !b[i].event.log.removed
      ensures b[i].event.log.txHash != "" && b[i].event.log.logIndex.Some?
    {
      assert b[i] in a;
    }
    OrderlyIsStrict(a);
    OrderlyIsStrict(b);
    forall e ensures e in Survivors(a) <==> e in Survivors(b) {
      OrderlySurvivors(a, e);
      OrderlySurvivors(b, e);
    }
    StrictByMembers(Survivors(a), Survivors(b));
  }

  lemma SameMembers(a: seq<Stored>, b: seq<Stored>)
    requires multiset(a) == multiset(b)
    ensures forall e :: e in a <==> e in b
  {
    forall e ensures e in a <==> e in b {
      assert e in a <==> e in multiset(a);
      assert e in b <==> e in multiset(b);
    }
  }

  /** Without identification order matters: of two reports at one place that cannot be told apart as logs, the one
      that arrives last comes first. */
  lemma TiedReportsFollowArrival(e: Stored, f: Stored)
    requires !e.event.log.removed && !f.event.log.removed && !SameLog(e.event.log, f.event.log)
    requires !CanonicalBefore(e.event.log, f.event.log) && !CanonicalBefore(f.event.log, e.event.log)
    ensures Survivors([e, f]) == [f, e] && Survivors([f, e]) == [e, f]
  {
    SameLogIsSymmetric(e.event.log, f.event.log);
    TwoReports(e, f);
    TwoReports(f, e);
  }

  lemma TwoReports(e: Stored, f: Stored)
    requires !e.event.log.removed && !f.event.log.removed && !SameLog(e.event.log, f.event.log)
    requires !CanonicalBefore(e.event.log, f.event.log)
    ensures Survivors([e, f]) == [f, e]
  {
    assert [e, f][..1] == [e] && [e][..0] == [];
    assert Survivors([e]) == [e];
  }

  // ----- a removed log -----

  /** No delivery of the list concerns the log. */
  predicate Untouched(ops: seq<Stored>, log: Log) {
    forall i :: 0 <= i < |ops| ==> !SameLog(ops[i].event.log, log) && !SameLog(log, ops[i].event.log)
  }

  /** The two lists differ in one event only. */
  ghost predicate OneExtra(longer: seq<Stored>, shorter: seq<Stored>, e: Stored) {
    exists k :: 0 <= k <= |shorter| && longer == shorter[..k] + [e] + shorter[k..]
  }

  lemma UpdateKeepsOneExtra(longer: seq<Stored>, shorter: seq<Stored>, e: Stored, op: Stored)
    requires OneExtra(longer, shorter, e) && Sorted(longer) && Untouched([op], e.event.log)
    ensures OneExtra(Updated(longer, op), Updated(shorter, op), e)
  {
    var k :| 0 <= k <= |shorter| && longer == shorter[..k] + [e] + shorter[k..];
    var a, b, log := shorter[..k], shorter[k..], op.event.log;
    assert shorter == a + b && longer == a + ([e] + b);
    assert !SameLog([op][0].event.log, e.event.log);
    HasSameJoin(a, b, log);
    HasSameJoin(a, [e] + b, log);
    HasSameJoin([e], b, log);
    assert !HasSame([e], log);
    if log.removed {
      EraseInRest(a, b, log);
      EraseInRest(a, [e] + b, log);
      EraseInRest([e], b, log);
      if HasSame(a, log) {
        ExtraAt(Erased(a, log), b, e);
      } else {
        ExtraAt(a, Erased(b, log), e);
      }
    } else if !HasSame(shorter, log) {
      InsertKeepsOneExtra(a, b, e, op);
    }
  }

  lemma ExtraAt(a: seq<Stored>, b: seq<Stored>, e: Stored)
    ensures OneExtra(a + ([e] + b), a + b, e)
  {
    assert (a + b)[..|a|] == a && (a + b)[|a|..] == b;
    assert a + ([e] + b) == a + [e] + b;
  }

  lemma InsertKeepsOneExtra(a: seq<Stored>, b: seq<Stored>, e: Stored, op: Stored)
    requires Sorted(a + ([e] + b))
    ensures OneExtra(Inserted(a + ([e] + b), op), Inserted(a + b, op), e)
  {
    var longer := a + ([e] + b);
    var k := InsertedPlace(longer, op);
    if k <= |a| {
      InsertBeforeExtra(a, b, e, op, k);
    } else {
      InsertAfterExtra(a, b, e, op);
    }
  }

  lemma InsertBeforeExtra(a: seq<Stored>, b: seq<Stored>, e: Stored, op: Stored, k: nat)
    requires Sorted(a + ([e] + b)) && k <= |a|
    requires forall i :: 0 <= i < k ==> CanonicalBefore((a + ([e] + b))[i].event.log, op.event.log)
    requires !CanonicalBefore((a + ([e] + b))[k].event.log, op.event.log)
    ensures OneExtra(Inserted(a + ([e] + b), op), Inserted(a + b, op), e)
  {
    hide Inserted, OneExtra, Sorted, CanonicalBefore;
    var longer := a + ([e] + b);
    if k == |a| {
      SortedRest(a, e, b, op);
    }
    var front, back := a[..k], a[k..];
    forall i | 0 <= i < k ensures CanonicalBefore(front[i].event.log, op.event.log) {
      assert front[i] == longer[i];
    }
    assert a == front + back;
    assert longer == front + (back + ([e] + b)) && a + b == front + (back + b);
    assert (back + ([e] + b))[0] == longer[k];
    InsertedAfter(front, back + ([e] + b), op);
    InsertedAfter(front, back + b, op);
    Regroup(front, op, back, [e] + b);
    Regroup(front, op, back, b);
    ExtraAt(front + [op] + back, b, e);
  }

  lemma InsertedAfter(front: seq<Stored>, rest: seq<Stored>, op: Stored)
    requires forall i :: 0 <= i < |front| ==> CanonicalBefore(front[i].event.log, op.event.log)
    requires rest != [] ==> !CanonicalBefore(rest[0].event.log, op.event.log)
    ensures Inserted(front + rest, op) == front + ([op] + rest)
  {
    InsertInRest(front, rest, op);
  }

  lemma Regroup(front: seq<Stored>, op: Stored, back: seq<Stored>, rest: seq<Stored>)
    ensures front + ([op] + (back + rest)) == (front + [op] + back) + rest
  {
  }

  lemma InsertAfterExtra(a: seq<Stored>, b: seq<Stored>, e: Stored, op: Stored)
    requires forall i :: 0 <= i <= |a| ==> CanonicalBefore((a + ([e] + b))[i].event.log, op.event.log)
    ensures OneExtra(Inserted(a + ([e] + b), op), Inserted(a + b, op), e)
  {
    var longer := a + ([e] + b);
    forall i | 0 <= i < |a| ensures CanonicalBefore(a[i].event.log, op.event.log) {
      assert longer[i] == a[i];
    }
    assert longer[|a|] == e;
    InsertInRest(a, [e] + b, op);
    InsertInRest([e], b, op);
    InsertInRest(a, b, op);
    ExtraAt(a, Inserted(b, op), e);
  }

  lemma SortedRest(a: seq<Stored>, e: Stored, b: seq<Stored>, op: Stored)
    requires Sorted(a + ([e] + b)) && !CanonicalBefore(e.event.log, op.event.log)
    ensures b != [] ==> !CanonicalBefore(b[0].event.log, op.event.log)
  {
    if b != [] {
      var all := a + ([e] + b);
      assert all[|a|] == e && all[|a| + 1] == b[0];
      OrderChains(op.event.log, e.event.log, b[0].event.log);
    }
  }

  lemma SurvivorsMore(ops: seq<Stored>, op: Stored)
    ensures Survivors(ops + [op]) == Updated(Survivors(ops), op)
  {
    hide Updated;
    assert (ops + [op])[..|ops|] == ops;
  }

  lemma NewReportIsExtra(list: seq<Stored>, e: Stored)
    requires !e.event.log.removed && !HasSame(list, e.event.log)
    ensures OneExtra(Updated(list, e), list, e)
  {
    hide Inserted;
    var k := InsertedPlace(list, e);
  }

  lemma {:induction false} RestKeepsOneExtra(before: seq<Stored>, e: Stored, between: seq<Stored>)
    requires !e.event.log.removed && !HasSame(Survivors(before), e.event.log) && Untouched(between, e.event.log)
    ensures OneExtra(Survivors(before + [e] + between), Survivors(before + between), e)
  {
    hide Survivors, Updated, OneExtra, HasSame, Sorted;
    if between == [] {
      assert before + [e] + between == before + [e] && before + between == before;
      SurvivorsMore(before, e);
      NewReportIsExtra(Survivors(before), e);
    } else {
      var front, op := between[..|between| - 1], between[|between| - 1];
      RestKeepsOneExtra(before, e, front);
      assert before + [e] + between == (before + [e] + front) + [op];
      assert before + between == (before + front) + [op];
      SurvivorsMore(before + [e] + front, op);
      SurvivorsMore(before + front, op);
      SurvivorsAreSorted(before + [e] + front);
      assert Untouched([op], e.event.log);
      UpdateKeepsOneExtra(Survivors(before + [e] + front), Survivors(before + front), e, op);
    }
  }

  lemma EraseExtra(longer: seq<Stored>, shorter: seq<Stored>, e: Stored, log: Log)
    requires OneExtra(longer, shorter, e) && NoReplays(longer) && SameLog(e.event.log, log)
    ensures Erased(longer, log) == shorter
  {
    hide Erased;
    var k :| 0 <= k <= |shorter| && longer == shorter[..k] + [e] + shorter[k..];
    forall i | 0 <= i < k ensures !SameLog(longer[i].event.log, log) {
      assert longer[k] == e && !SameLog(longer[i].event.log, longer[k].event.log);
    }
    ErasedAt(longer, log, k);
    assert longer[..k] == shorter[..k] && longer[k + 1..] == shorter[k..];
  }

  /** A log that is reported, and later removed, leaves the survivors as if it had never arrived. */
  lemma RemovedAsIfNeverArrived(before: seq<Stored>, e: Stored, between: seq<Stored>, removal: Stored)
    requires !e.event.log.removed && !HasSame(Survivors(before), e.event.log) && Untouched(between, e.event.log)
    requires removal.event.log.removed && SameLog(e.event.log, removal.event.log)
    ensures Survivors(before + [e] + between + [removal]) == Survivors(before + between)
  {
    var ops := before + [e] + between;
    RestKeepsOneExtra(before, e, between);
    SurvivorsAreSorted(ops);
    assert (ops + [removal])[..|ops|] == ops;
    EraseExtra(Survivors(ops), Survivors(before + between), e, removal.event.log);
  }
}
