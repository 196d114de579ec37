/** The runs in which the 32-bit event counter of the compacted base wraps: 2^32 + 1024 reports in canonical order, and
    the same with the last 1024 removed again; and the exact numbers of events for which the state can be wrong. */
module OracleCounter {
  import opened Wrappers
  import opened EvmLogs
  import opened OracleEvents
  import opened OracleHistory
  import opened OracleDashboard

  /** The report of one log in block i of its own; the first one settles the price. */
  function Report(key: string, i: nat): Stored {
    Stored(Event(UnknownKind, "", Log(Some(i), "h", "t", Some(0), Some(i), false, ""), key, "",
                 if i == 0 then "1" else "", "", []), false, 0)
  }

  function Removal(key: string, i: nat): Stored {
    Stored(Report(key, i).event.(log := Report(key, i).event.log.(removed := true)), false, 0)
  }

  /** The reports from..end - 1. */
  function Reported(key: string, from: nat, end: nat): seq<Stored>
    requires from <= end
  {
    seq(end - from, i requires 0 <= i < end - from => Report(key, from + i))
  }

  function Removed(key: string, from: nat, end: nat): seq<Stored>
    requires from <= end
  {
    seq(end - from, i requires 0 <= i < end - from => Removal(key, from + i))
  }

  function CompactedOf(n: nat): nat {
    if n <= RETAINED then 0 else n - RETAINED
  }

  lemma ReportsAreApart(key: string, i: nat, j: nat)
    ensures SameLog(Report(key, i).event.log, Report(key, j).event.log) <==> i == j
    ensures SameLog(Report(key, i).event.log, Removal(key, j).event.log) <==> i == j
    ensures CanonicalBefore(Report(key, i).event.log, Report(key, j).event.log) <==> i < j
  {
  }

  lemma NextReport(key: string, from: nat, end: nat)
    requires from <= end
    ensures !HasSame(Reported(key, from, end), Report(key, end).event.log)
    ensures Inserted(Reported(key, from, end), Report(key, end)) == Reported(key, from, end + 1)
  {
    var list := Reported(key, from, end);
    forall i | 0 <= i < |list|
      ensures CanonicalBefore(list[i].event.log, Report(key, end).event.log)
      ensures !SameLog(list[i].event.log, Report(key, end).event.log)
    {
      ReportsAreApart(key, from + i, end);
    }
    InsertedAt(list, Report(key, end), |list|);
  }

  lemma FirstRemoval(key: string, from: nat, end: nat)
    requires from < end
    ensures Erased(Reported(key, from, end), Removal(key, from).event.log) == Reported(key, from + 1, end)
  {
    ReportsAreApart(key, from, from);
    var list := Reported(key, from, end);
    ErasedAt(list, Removal(key, from).event.log, 0);
    assert list[..0] + list[1..] == Reported(key, from + 1, end);
  }

  lemma OneCompaction(key: string, c: nat, n: nat)
    requires c <= n && n - c <= RETAINED + 1
    ensures Compacted(Lists(Reported(key, 0, c), Reported(key, c, n)))
         == if n - c <= RETAINED then Lists(Reported(key, 0, c), Reported(key, c, n))
            else Lists(Reported(key, 0, c + 1), Reported(key, c + 1, n))
  {
    if n - c > RETAINED {
      var h := Reported(key, c, n);
      assert Reported(key, 0, c) + [h[0]] == Reported(key, 0, c + 1);
      assert h[1..] == Reported(key, c + 1, n);
    }
  }

  lemma IngestReport(key: string, n: nat)
    ensures var c := CompactedOf(n);
      var lists := Lists(Reported(key, 0, c), Reported(key, c, n));
      && Ingested(lists, Report(key, n))
         == Lists(Reported(key, 0, CompactedOf(n + 1)), Reported(key, CompactedOf(n + 1), n + 1))
      && !Lost(lists, Report(key, n))
  {
    var c := CompactedOf(n);
    NextReport(key, c, n);
    if c > 0 {
      ReportsAreApart(key, c - 1, n);
    }
    OneCompaction(key, c, n + 1);
  }

  lemma IngestRemoval(key: string, c: nat, k: nat, n: nat)
    requires c <= k < n
    ensures var lists := Lists(Reported(key, 0, c), Reported(key, k, n));
      && Ingested(lists, Removal(key, k)) == Lists(Reported(key, 0, c), Reported(key, k + 1, n))
      && !Lost(lists, Removal(key, k))
  {
    FirstRemoval(key, k, n);
    forall i | 0 <= i < c ensures !SameLog(Reported(key, 0, c)[i].event.log, Removal(key, k).event.log) {
      ReportsAreApart(key, i, k);
    }
  }

  /** After n reports in canonical order the last 1024 are retained. */
  lemma {:induction false} RunOfReports(key: string, n: nat)
    ensures Run(Reported(key, 0, n)) == Lists(Reported(key, 0, CompactedOf(n)), Reported(key, CompactedOf(n), n))
    decreases n
  {
    hide Ingested, Lost;
    if n > 0 {
      RunOfReports(key, n - 1);
      assert Reported(key, 0, n) == Reported(key, 0, n - 1) + [Report(key, n - 1)];
      RunMore(Reported(key, 0, n - 1), Report(key, n - 1));
      IngestReport(key, n - 1);
    }
  }

  /** Then the first m retained reports are removed one after the other. */
  function Deliveries(key: string, n: nat, m: nat): seq<Stored>
    requires CompactedOf(n) + m <= n
  {
    Reported(key, 0, n) + Removed(key, CompactedOf(n), CompactedOf(n) + m)
  }

  lemma {:induction false} RunOfRemovals(key: string, n: nat, m: nat)
    requires CompactedOf(n) + m <= n
    ensures var c := CompactedOf(n); Run(Deliveries(key, n, m)) == Lists(Reported(key, 0, c), Reported(key, c + m, n))
    decreases m
  {
    hide Ingested, Lost, Run;
    var c := CompactedOf(n);
    if m == 0 {
      RunOfReports(key, n);
      assert Deliveries(key, n, 0) == Reported(key, 0, n);
    } else {
      var before := Deliveries(key, n, m - 1);
      RunOfRemovals(key, n, m - 1);
      assert Deliveries(key, n, m) == before + [Removal(key, c + m - 1)];
      RunMore(before, Removal(key, c + m - 1));
      IngestRemoval(key, c, c + m - 1, n);
    }
  }

  lemma DeliveryAt(key: string, n: nat, m: nat, i: nat)
    requires CompactedOf(n) + m <= n && i < n + m
    ensures |Deliveries(key, n, m)| == n + m
    ensures i < n ==> Deliveries(key, n, m)[..i] == Reported(key, 0, i) && Deliveries(key, n, m)[i] == Report(key, i)
    ensures i >= n ==> Deliveries(key, n, m)[..i] == Deliveries(key, n, i - n)
                       && Deliveries(key, n, m)[i] == Removal(key, CompactedOf(n) + i - n)
  {
  }

  /** Two reports of the run that concern one log are of the same position. */
  lemma DeliveriesAreConsistent(key: string, n: nat, m: nat, i: nat)
    requires CompactedOf(n) + m <= n && i < n + m
    ensures var ops := Deliveries(key, n, m); Consistent(Survivors(ops[..i]), ops[i].event.log)
  {
    var ops := Deliveries(key, n, m);
    DeliveryAt(key, n, m, i);
    SurvivorsAreCanonical(ops[..i]);
    var list := Survivors(ops[..i]);
    forall j | 0 <= j < |list| && SameLog(list[j].event.log, ops[i].event.log)
      ensures list[j].event.log.block == ops[i].event.log.block
      ensures list[j].event.log.txIndex == ops[i].event.log.txIndex
    {
      assert list[j] in list;
      var k: nat :| k < i && Stands(ops[..i], k) && ops[..i][k] == list[j];
      DeliveryAt(key, n, m, k);
    }
  }

  lemma NoDeliveryIsLost(key: string, n: nat, m: nat)
    requires CompactedOf(n) + m <= n
    ensures NothingLost(Deliveries(key, n, m))
  {
    hide Ingested, Lost, Run, Survivors, Consistent;
    var ops, c := Deliveries(key, n, m), CompactedOf(n);
    forall i | 0 <= i < |ops|
      ensures !Lost(Run(ops[..i]), ops[i]) && Consistent(Survivors(ops[..i]), ops[i].event.log)
    {
      DeliveryAt(key, n, m, i);
      DeliveriesAreConsistent(key, n, m, i);
      if i < n {
        RunOfReports(key, i);
        IngestReport(key, i);
      } else {
        RunOfRemovals(key, n, i - n);
        IngestRemoval(key, c, c + i - n, n);
      }
    }
  }

  const WRAP: nat := UINT32_RANGE + RETAINED

  /** A run that loses no delivery: 2^32 events survive, all of them compacted; the counter of the base reads zero, and
      the question has no state. */
  lemma CounterWrapDropsState(key: string)
    ensures var ops := Deliveries(key, WRAP, RETAINED);
      && NothingLost(ops) && |Survivors(ops)| == UINT32_RANGE
      && Run(ops) == Lists(Reported(key, 0, UINT32_RANGE), []) && Projected(key, Run(ops)) == None
  {
    hide NothingLost, Run, Survivors;
    RunOfRemovals(key, WRAP, RETAINED);
    assert Reported(key, WRAP, WRAP) == [];
    NoDeliveryIsLost(key, WRAP, RETAINED);
    RunIsSurvivors(Deliveries(key, WRAP, RETAINED));
  }

  /** The price that only the first report carries is gone from the fold over later reports, not from the fold over
      all. */
  lemma PriceIsForgotten(key: string, c: nat, h: nat)
    requires c > 0 && h > 0
    ensures Fold(Initial(key), Reported(key, c, c + h)).settledPrice == ""
    ensures Fold(Initial(key), Reported(key, 0, c + h)).settledPrice != ""
  {
    FoldPrice(Initial(key), Reported(key, c, c + h));
    var all := Reported(key, 0, c + h);
    FoldPrice(Initial(key), all);
    assert all[0].event.settledPrice != "";
  }

  lemma ReportsInOrder(key: string, c: nat, h: nat)
    ensures var lists := Lists(Reported(key, 0, c), Reported(key, c, c + h));
      lists.All() == Reported(key, 0, c + h) && Sorted(lists.All()) && NoReplays(lists.All())
  {
    var all := Reported(key, 0, c + h);
    assert Reported(key, 0, c) + Reported(key, c, c + h) == all;
    forall i, j | 0 <= i < j < |all|
      ensures !CanonicalBefore(all[j].event.log, all[i].event.log) && !SameLog(all[i].event.log, all[j].event.log)
    {
      ReportsAreApart(key, j, i);
      ReportsAreApart(key, i, j);
    }
  }

  /** A wrapped counter gives a wrong state for some events of those numbers. */
  lemma WrappedStateIsWrong(key: string, c: nat, h: nat)
    requires c > 0 && c % UINT32_RANGE == 0
    ensures var lists := Lists(Reported(key, 0, c), Reported(key, c, c + h));
      && Sorted(lists.All()) && NoReplays(lists.All())
      && !IsFold(key, lists.All(), Projected(key, lists))
  {
    var lists := Lists(Reported(key, 0, c), Reported(key, c, c + h));
    ReportsInOrder(key, c, h);
    ProjectedIsFold(key, lists);
    assert lists.All()[0] == Report(key, 0);
    if h > 0 {
      PriceIsForgotten(key, c, h);
    }
  }

  /** Lists as the dashboard holds them, with the given numbers of compacted and retained events. */
  ghost predicate Held(lists: Lists, c: nat, h: nat) {
    |lists.compacted| == c && |lists.retained| == h && Sorted(lists.All()) && NoReplays(lists.All())
  }

  /** The state is the fold over all events, whatever the events are, exactly when none is compacted or their number is
      no multiple of 2^32. */
  lemma StateIsFoldIff(key: string, c: nat, h: nat)
    ensures (forall lists :: Held(lists, c, h) ==> IsFold(key, lists.All(), Projected(key, lists)))
            <==> c == 0 || c % UINT32_RANGE != 0
  {
    if c > 0 && c % UINT32_RANGE == 0 {
      WrappedStateIsWrong(key, c, h);
      assert Held(Lists(Reported(key, 0, c), Reported(key, c, c + h)), c, h);
    } else {
      forall lists | Held(lists, c, h) ensures IsFold(key, lists.All(), Projected(key, lists)) {
        ProjectedIsFold(key, lists);
      }
    }
  }

  /** A run of reports alone, losing no delivery: 2^32 events are compacted and 1024 retained. The question shows a
      state, but the price that the first report settled is gone from it. */
  lemma CounterWrapForgetsHistory(key: string)
    ensures var ops := Reported(key, 0, WRAP);
      && NothingLost(ops) && Survivors(ops) == ops
      && Run(ops) == Lists(Reported(key, 0, UINT32_RANGE), Reported(key, UINT32_RANGE, WRAP))
      && Projected(key, Run(ops)).Some? && Projected(key, Run(ops)).value.settledPrice == ""
      && Fold(Initial(key), Survivors(ops)).settledPrice != ""
      && !IsFold(key, Survivors(ops), Projected(key, Run(ops)))
  {
    var ops := Reported(key, 0, WRAP);
    hide NothingLost, Run, Survivors, Fold, Projected;
    RunOfReports(key, WRAP);
    NoDeliveryIsLost(key, WRAP, 0);
    assert Deliveries(key, WRAP, 0) == ops;
    RunIsSurvivors(ops);
    ReportsInOrder(key, UINT32_RANGE, RETAINED);
    ProjectedIsFold(key, Run(ops));
    PriceIsForgotten(key, UINT32_RANGE, RETAINED);
  }
}
