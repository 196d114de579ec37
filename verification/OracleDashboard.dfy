/** The dashboard's maps and the state they hold for every question (src/oracle_event_history.cpp). */
module OracleDashboard {
  import opened Wrappers
  import opened EvmLogs
  import opened OracleEvents
  import opened OracleHistory

  /** The aggregate that the compacted events left behind. */
  function BaseOf(key: string, compacted: seq<Stored>): State {
    Core(Fold(Initial(key), compacted))
  }

  /** The state of a question: the retained events folded onto the base, unless the base counts no event. */
  function Projected(key: string, lists: Lists): Option<State> {
    var noBase := |lists.compacted| % UINT32_RANGE == 0;
    if lists.retained == [] && noBase then None
    else Some(Fold(if noBase then Initial(key) else BaseOf(key, lists.compacted), lists.retained))
  }

  /** The 32-bit counter of the base tells whether there are compacted events. */
  predicate CounterTells(lists: Lists) {
    lists.compacted == [] || |lists.compacted| % UINT32_RANGE != 0
  }

  /** What the state should be: there is one exactly when there are events, and apart from the timeline it is the plain
      fold over all of them in canonical order. */
  predicate IsFold(key: string, events: seq<Stored>, state: Option<State>) {
    && (state.None? <==> events == [])
    && (state.Some? ==> Core(state.value) == Core(Fold(Initial(key), events)))
  }

  /** While the counter tells, the state is the fold over all events, and its timeline holds the retained ones. When
      the counter reads zero although there are compacted events, they are forgotten: the state is the fold over the
      retained events alone, and none without any. */
  lemma ProjectedIsFold(key: string, lists: Lists)
    ensures CounterTells(lists) ==> IsFold(key, lists.All(), Projected(key, lists))
    ensures CounterTells(lists) && Projected(key, lists).Some? ==>
      var whole := Fold(Initial(key), lists.All());
      && |whole.timeline| == |lists.All()|
      && Projected(key, lists).value.timeline == whole.timeline[|lists.compacted|..]
    ensures !CounterTells(lists) ==>
      Projected(key, lists) == if lists.retained == [] then None else Some(Fold(Initial(key), lists.retained))
  {
    var base := Fold(Initial(key), lists.compacted);
    FoldJoin(Initial(key), lists.compacted, lists.retained);
    FoldIgnoresTimeline(base, lists.retained);
    FoldIgnoresTimeline(Initial(key), lists.compacted);
    FoldIgnoresTimeline(Initial(key), lists.All());
    if lists.compacted == [] {
      assert lists.All() == lists.retained;
    }
  }

  /** A question that still has events has a state, except when all of them are compacted and their number is a
      multiple of 2^32: then the 32-bit counter of the base reads zero and the state is dropped. */
  lemma StateIsMissingIff(key: string, lists: Lists)
    ensures (Projected(key, lists).Some? <==> lists.All() != [])
            <==> !(lists.retained == [] && lists.compacted != [] && |lists.compacted| % UINT32_RANGE == 0)
  {
    if lists.compacted == [] {
      assert lists.All() == lists.retained;
    }
  }

  /** After a run in which nothing was lost: the fold over the survivors, unless the counter has wrapped to zero; then
      the fold over the retained survivors alone. */
  lemma RunStateIsFold(key: string, ops: seq<Stored>)
    requires NothingLost(ops)
    ensures Run(ops).All() == Survivors(ops)
    ensures CounterTells(Run(ops)) ==> IsFold(key, Survivors(ops), Projected(key, Run(ops)))
    ensures !CounterTells(Run(ops)) ==>
      Projected(key, Run(ops))
      == if Run(ops).retained == [] then None else Some(Fold(Initial(key), Run(ops).retained))
  {
    hide NothingLost, Run, Survivors, Fold, Projected;
    RunIsSurvivors(ops);
    ProjectedIsFold(key, Run(ops));
  }

  /** While the counter tells, a projected state shows what all the question's events tell, and its timeline lists the
      retained ones with the phase that each of them led to. */
  lemma ProjectedTells(key: string, lists: Lists)
    requires key != "" && CounterTells(lists) && Projected(key, lists).Some?
    ensures Tells(key, lists.All(), Projected(key, lists).value)
    ensures var timeline, n := Projected(key, lists).value.timeline, |lists.compacted|;
      && |timeline| == |lists.retained|
      && forall i :: 0 <= i < |timeline| ==>
           timeline[i].stored == lists.retained[i] && TellsPhase(lists.All()[..n + i + 1], timeline[i].phase)
  {
    hide Projected, Fold, TellsPhase, TellsOutcome, TellsIds;
    ProjectedIsFold(key, lists);
    FoldTells(key, lists.All());
    TimelineTells(key, lists.All());
    TellsCore(key, lists.All(), Fold(Initial(key), lists.All()), Projected(key, lists).value);
    hide Tells;
    var timeline, whole := Projected(key, lists).value.timeline, Fold(Initial(key), lists.All()).timeline;
    assert forall i :: 0 <= i < |timeline| ==> timeline[i] == whole[|lists.compacted| + i];
  }

  lemma TellsCore(key: string, events: seq<Stored>, a: State, b: State)
    requires Core(a) == Core(b) && Tells(key, events, a)
    ensures Tells(key, events, b)
  {
    hide TellsPhase, TellsOutcome, TellsIds;
    assert a == Core(a).(timeline := a.timeline) && b == Core(b).(timeline := b.timeline);
  }

  /** The same deliveries in two orders, removals behind their reports in both, lead to the same state apart from the
      timeline. */
  lemma StateIgnoresArrivalOrder(key: string, a: seq<Stored>, b: seq<Stored>)
    requires multiset(a) == multiset(b) && Orderly(a) && Orderly(b) && ReportsIdentified(a)
    requires NothingLost(a) && NothingLost(b) && CounterTells(Run(a)) && CounterTells(Run(b))
    ensures Projected(key, Run(a)).Some? <==> Projected(key, Run(b)).Some?
    ensures Projected(key, Run(a)).Some? ==> Core(Projected(key, Run(a)).value) == Core(Projected(key, Run(b)).value)
  {
    hide NothingLost, Run, Survivors, Fold, Projected, Orderly, ReportsIdentified, CounterTells;
    ArrivalOrderIsIrrelevant(a, b);
    ProjectedIsFold(key, Run(a));
    ProjectedIsFold(key, Run(b));
  }

  /** A removed log leaves the state as if it had never arrived. */
  lemma RemovalRestoresState(key: string, before: seq<Stored>, e: Stored, between: seq<Stored>, removal: Stored)
    requires !e.event.log.removed && !HasSame(Survivors(before), e.event.log) && Untouched(between, e.event.log)
    requires removal.event.log.removed && SameLog(e.event.log, removal.event.log)
    requires NothingLost(before + [e] + between + [removal]) && NothingLost(before + between)
    requires CounterTells(Run(before + [e] + between + [removal])) && CounterTells(Run(before + between))
    ensures var with, without := Projected(key, Run(before + [e] + between + [removal])),
                                 Projected(key, Run(before + between));
      && (with.Some? <==> without.Some?)
      && (with.Some? ==> Core(with.value) == Core(without.value))
  {
    hide NothingLost, Run, Survivors, Fold, Projected;
    RemovedAsIfNeverArrived(before, e, between, removal);
    RunStateIsFold(key, before + [e] + between + [removal]);
    RunStateIsFold(key, before + between);
  }

  // ----- the maps -----

  function Get<T>(m: map<string, T>, key: string): Option<T> {
    if key in m then Some(m[key]) else None
  }

  /** Everything the dashboard holds for one question. */
  datatype Record = Record(lists: Lists, through: Option<Stored>, base: Option<State>, state: Option<State>)

  /** The record between two deliveries. */
  ghost predicate Settled(key: string, r: Record) {
    && Compacting(key, r)
    && |r.lists.retained| <= RETAINED
    && r.state == Projected(key, r.lists)
  }

  /** The record while a delivery is processed: the state may be behind. */
  ghost predicate Compacting(key: string, r: Record) {
    && Sorted(r.lists.All()) && NoReplays(r.lists.retained)
    && r.through == (if r.lists.compacted == [] then None
                     else Some(r.lists.compacted[|r.lists.compacted| - 1]))
    && (r.base.Some? ==> r.base.value == BaseOf(key, r.lists.compacted))
    && (r.base.None? ==> r.lists.compacted == [])
  }

  /** A state exactly when there are events, and it shows what they tell. */
  ghost predicate ShowsEvents(key: string, r: Record) {
    && (r.state.None? <==> r.lists.All() == [])
    && (r.state.Some? ==> Tells(key, r.lists.All(), r.state.value))
  }

  lemma SettledShows(key: string, lists: Lists)
    requires key != ""
    ensures CounterTells(lists) ==> ShowsEvents(key, Record(lists, None, None, Projected(key, lists)))
  {
    hide Projected, Tells;
    ProjectedIsFold(key, lists);
    if CounterTells(lists) && Projected(key, lists).Some? {
      ProjectedTells(key, lists);
    }
  }

  lemma IngestKeepsSorted(lists: Lists, op: Stored)
    requires Sorted(lists.All()) && NoReplays(lists.retained)
    ensures op.event.log.removed ==> Sorted(Lists(lists.compacted, Erased(lists.retained, op.event.log)).All())
                                     && NoReplays(Erased(lists.retained, op.event.log))
    ensures !op.event.log.removed && !HasSame(lists.retained, op.event.log) && !BehindFrontier(lists, op.event.log) ==>
      && Sorted(Lists(lists.compacted, Inserted(lists.retained, op)).All()) && NoReplays(Inserted(lists.retained, op))
  {
    var c, h := lists.compacted, lists.retained;
    UpdateKeepsNoReplays(h, op);
    if op.event.log.removed {
      ErasedIsPart(c, h, op.event.log);
    } else if !HasSame(h, op.event.log) && !BehindFrontier(lists, op.event.log) {
      PastFrontier(lists, op);
      InsertInRest(c, h, op);
      InsertKeepsSorted(c + h, op);
    }
  }

  lemma ErasedIsPart(c: seq<Stored>, h: seq<Stored>, log: Log)
    requires Sorted(c + h)
    ensures Sorted(c + Erased(h, log))
  {
    if HasSame(h, log) {
      var k := FirstSame(h, log);
      ErasedAt(h, log, k);
      var less := c + (h[..k] + h[k + 1..]);
      assert forall i :: 0 <= i < |less| ==> less[i] == (c + h)[if i < |c| + k then i else i + 1];
    } else {
      NothingErased(h, log);
    }
  }

  lemma CompactOnce(key: string, lists: Lists)
    requires Sorted(lists.All()) && NoReplays(lists.retained) && lists.retained != []
    ensures var next := Lists(lists.compacted + [lists.retained[0]], lists.retained[1..]);
      && next.All() == lists.All() && NoReplays(next.retained)
      && BaseOf(key, next.compacted) == Core(Applied(BaseOf(key, lists.compacted), lists.retained[0]))
  {
    var next := Lists(lists.compacted + [lists.retained[0]], lists.retained[1..]);
    assert next.compacted[..|lists.compacted|] == lists.compacted;
    assert next.All() == lists.All();
    assert forall i :: 0 <= i < |next.retained| ==> next.retained[i] == lists.retained[i + 1];
  }

  class Dashboard {
    var states: map<string, State>
    var histories: map<string, seq<Stored>>
    var compactedStates: map<string, State>
    var compactedThrough: map<string, Stored>
    ghost var compacted: map<string, seq<Stored>>

    constructor ()
      ensures Valid() && forall key :: RecordOf(key) == Record(Lists([], []), None, None, None)
    {
      states, histories, compactedStates, compactedThrough := map[], map[], map[], map[];
      compacted := map[];
    }

    ghost function RecordOf(key: string): Record
      reads this
    {
      Record(Lists(Get(compacted, key).GetOr([]), Get(histories, key).GetOr([])), Get(compactedThrough, key),
             Get(compactedStates, key), Get(states, key))
    }

    ghost predicate Valid()
      reads this
    {
      forall key :: Settled(key, RecordOf(key))
    }

    /** One delivery: the lists of its question move as Ingested says, its state is projected from them anew, and no
        other question changes. */
    method IngestEvent(event: Event, live: bool, receivedAt: nat)
      requires Valid()
      modifies this
      ensures Valid()
      ensures forall key :: key != StateKey(event) ==> RecordOf(key) == old(RecordOf(key))
      ensures StateKey(event) == "" ==> RecordOf("") == old(RecordOf(""))
      ensures StateKey(event) != "" ==>
        RecordOf(StateKey(event)).lists
        == Ingested(old(RecordOf(StateKey(event)).lists), Stored(event, live, receivedAt))
    {
      hide Settled;
      var key := StateKey(event);
      if key == "" {
        return;
      }
      assert Settled(key, RecordOf(key));
      var history := if key in histories then histories[key] else [];
      histories := histories[key := history];
      assert forall other :: RecordOf(other) == old(RecordOf(other));
      var stored := Stored(event, live, receivedAt);
      if event.log.removed {
        TakeOut(key, history, stored);
      } else {
        PutIn(key, history, stored);
      }
    }

    method TakeOut(key: string, history: seq<Stored>, stored: Stored)
      requires key != "" && stored.event.log.removed
      requires Settled(key, RecordOf(key)) && RecordOf(key).lists.retained == history
      modifies this`histories, this`states
      ensures forall other :: other != key ==> RecordOf(other) == old(RecordOf(other))
      ensures Settled(key, RecordOf(key)) && RecordOf(key).lists == Ingested(old(RecordOf(key).lists), stored)
    {
      hide Projected, Sorted, NoReplays, BaseOf, Erased;
      var log := stored.event.log;
      var existing := FindSame(history, log);
      IngestKeepsSorted(RecordOf(key).lists, stored);
      ErasedIsShorter(history, log);
      if existing.None? {
        NothingErased(history, log);
        return;
      }
      ErasedAt(history, log, existing.value);
      histories := histories[key := history[..existing.value] + history[existing.value + 1..]];
      RebuildState(key);
    }

    method PutIn(key: string, history: seq<Stored>, stored: Stored)
      requires key != "" && !stored.event.log.removed
      requires Settled(key, RecordOf(key)) && RecordOf(key).lists.retained == history
      modifies this`histories, this`compactedStates, this`compactedThrough, this`compacted, this`states
      ensures forall other :: other != key ==> RecordOf(other) == old(RecordOf(other))
      ensures Settled(key, RecordOf(key)) && RecordOf(key).lists == Ingested(old(RecordOf(key).lists), stored)
    {
      hide Projected, Sorted, NoReplays, BaseOf, Inserted, Compacted;
      var replay := FindSame(history, stored.event.log);
      if replay.Some? {
        return;
      }
      if key in compactedThrough && !CanonicalBefore(compactedThrough[key].event.log, stored.event.log) {
        return;
      }
      IngestKeepsSorted(RecordOf(key).lists, stored);
      var insertion := LowerBound(history, stored);
      histories := histories[key := history[..insertion] + [stored] + history[insertion..]];
      CompactHistory(key);
      RebuildState(key);
    }

    static method FindSame(history: seq<Stored>, log: Log) returns (found: Option<nat>)
      ensures found.None? <==> !HasSame(history, log)
      ensures found.Some? ==> found.value < |history| && SameLog(history[found.value].event.log, log)
                              && forall i :: 0 <= i < found.value ==> !SameLog(history[i].event.log, log)
    {
      for i := 0 to |history|
        invariant forall j :: 0 <= j < i ==> !SameLog(history[j].event.log, log)
      {
        if SameLog(history[i].event.log, log) {
          return Some(i);
        }
      }
      return None;
    }

    /** std::lower_bound. */
    static method LowerBound(history: seq<Stored>, stored: Stored) returns (k: nat)
      requires exists before: seq<Stored> :: Sorted(before + history)
      ensures k <= |history| && Inserted(history, stored) == history[..k] + [stored] + history[k..]
    {
      var low, high := 0, |history|;
      while low < high
        invariant 0 <= low <= high <= |history|
        invariant forall i :: 0 <= i < low ==> CanonicalBefore(history[i].event.log, stored.event.log)
        invariant forall i :: high <= i < |history| ==> !CanonicalBefore(history[i].event.log, stored.event.log)
      {
        var mid := (low + high) / 2;
        MidDecides(history, stored, mid);
        if CanonicalBefore(history[mid].event.log, stored.event.log) {
          low := mid + 1;
        } else {
          high := mid;
        }
      }
      InsertedAt(history, stored, low);
      return low;
    }

    /** Fold the oldest events into the base until the history is within its bound. */
    method CompactHistory(key: string)
      requires key in histories && Compacting(key, RecordOf(key))
      modifies this`histories, this`compactedStates, this`compactedThrough, this`compacted
      ensures forall other :: other != key ==> RecordOf(other) == old(RecordOf(other))
      ensures key in histories && Compacting(key, RecordOf(key))
      ensures RecordOf(key).lists == Compacted(old(RecordOf(key).lists))
      ensures RecordOf(key).lists.All() == old(RecordOf(key).lists.All())
      ensures |RecordOf(key).lists.retained|
           == if |old(RecordOf(key).lists.retained)| <= 1024 then |old(RecordOf(key).lists.retained)| else 1024
    {
      hide Sorted, NoReplays, Applied;
      if key !in compactedStates {
        compactedStates := compactedStates[key := Initial(key)];
      }
      while |histories[key]| > RETAINED
        invariant key in histories && key in compactedStates && Compacting(key, RecordOf(key))
        invariant forall other :: other != key ==> RecordOf(other) == old(RecordOf(other))
        invariant Compacted(RecordOf(key).lists) == Compacted(old(RecordOf(key).lists))
        decreases |histories[key]|
      {
        FoldOldest(key);
      }
    }

    /** Move the oldest retained event into the base. */
    method FoldOldest(key: string)
      requires key in histories && histories[key] != [] && key in compactedStates && Compacting(key, RecordOf(key))
      modifies this`histories, this`compactedStates, this`compactedThrough, this`compacted
      ensures forall other :: other != key ==> RecordOf(other) == old(RecordOf(other))
      ensures key in histories && key in compactedStates && Compacting(key, RecordOf(key))
      ensures histories[key] == old(histories[key])[1..]
      ensures RecordOf(key).lists
           == Lists(old(RecordOf(key)).lists.compacted + [old(histories[key])[0]], histories[key])
    {
      hide Sorted, NoReplays, Applied;
      ghost var lists := RecordOf(key).lists;
      CompactOnce(key, lists);
      var oldest := histories[key][0];
      histories := histories[key := histories[key][1..]];
      compactedStates := compactedStates[key := Core(Applied(compactedStates[key], oldest))];
      compactedThrough := compactedThrough[key := oldest];
      compacted := compacted[key := lists.compacted + [oldest]];
    }

    /** Fold the retained events onto the base. */
    method RebuildState(key: string)
      requires key != "" && Compacting(key, RecordOf(key)) && |RecordOf(key).lists.retained| <= RETAINED
      modifies this`states
      ensures forall other :: other != key ==> RecordOf(other) == old(RecordOf(other))
      ensures Settled(key, RecordOf(key)) && RecordOf(key).lists == old(RecordOf(key).lists)
      ensures CounterTells(RecordOf(key).lists) ==> ShowsEvents(key, RecordOf(key))
    {
      hide Sorted, NoReplays, Applied, Tells;
      var noHistory := key !in histories || histories[key] == [];
      var noBase := key !in compactedStates || compactedStates[key].eventsSeen == 0;
      FoldCounts(Initial(key), RecordOf(key).lists.compacted);
      SettledShows(key, RecordOf(key).lists);
      if noHistory && noBase {
        states := states - {key};
        return;
      }
      var rebuilt := if noBase then Initial(key) else compactedStates[key].(key := key);
      ghost var start := rebuilt;
      if !noHistory {
        var history := histories[key];
        for i := 0 to |history|
          invariant rebuilt == Fold(start, history[..i])
        {
          assert history[..i + 1][..i] == history[..i];
          rebuilt := Applied(rebuilt, history[i]);
        }
        assert history[..|history|] == history;
      }
      states := states[key := rebuilt];
    }
  }

  /** The deliveries that concern one question. */
  function OpsFor(key: string, deliveries: seq<Stored>): seq<Stored> {
    if deliveries == [] then []
    else
      var last := deliveries[|deliveries| - 1];
      OpsFor(key, deliveries[..|deliveries| - 1]) + (if StateKey(last.event) == key then [last] else [])
  }

  /** A delivery concerns the question its event names, or else the condition it names. */
  lemma {:induction false} OpsOfQuestion(key: string, deliveries: seq<Stored>, op: Stored)
    requires key != ""
    ensures op in OpsFor(key, deliveries) <==>
      op in deliveries
      && (op.event.questionId == key || (op.event.questionId == "" && op.event.conditionId == key))
  {
    if deliveries != [] {
      var front, last := deliveries[..|deliveries| - 1], deliveries[|deliveries| - 1];
      OpsOfQuestion(key, front, op);
      assert deliveries == front + [last];
    }
  }

  lemma RunMore(ops: seq<Stored>, op: Stored)
    ensures Run(ops + [op]) == Ingested(Run(ops), op)
  {
    assert (ops + [op])[..|ops|] == ops;
  }

  /** A dashboard that has seen some deliveries holds, for every question, the state of that question's own run. */
  method IngestAll(deliveries: seq<Stored>) returns (dashboard: Dashboard)
    ensures fresh(dashboard) && dashboard.Valid()
    ensures forall key :: key != "" ==>
      && dashboard.RecordOf(key).lists == Run(OpsFor(key, deliveries))
      && dashboard.RecordOf(key).state == Projected(key, Run(OpsFor(key, deliveries)))
      && (CounterTells(Run(OpsFor(key, deliveries))) ==> ShowsEvents(key, dashboard.RecordOf(key)))
  {
    hide Ingested, Projected, Sorted, NoReplays, Compacting, Tells, CounterTells;
    dashboard := new Dashboard();
    for n := 0 to |deliveries|
      invariant fresh(dashboard) && dashboard.Valid()
      invariant forall key :: key != "" ==> dashboard.RecordOf(key).lists == Run(OpsFor(key, deliveries[..n]))
    {
      var next := deliveries[n];
      ghost var before := deliveries[..n];
      assert deliveries[..n + 1][..n] == before;
      forall key
        ensures Run(OpsFor(key, deliveries[..n + 1]))
             == if StateKey(next.event) == key then Ingested(Run(OpsFor(key, before)), next)
                else Run(OpsFor(key, before))
      {
        if StateKey(next.event) == key {
          RunMore(OpsFor(key, before), next);
        } else {
          assert OpsFor(key, deliveries[..n + 1]) == OpsFor(key, before);
        }
      }
      assert next == Stored(next.event, next.live, next.receivedAt);
      dashboard.IngestEvent(next.event, next.live, next.receivedAt);
    }
    assert deliveries[..|deliveries|] == deliveries;
    forall key | key != ""
      ensures dashboard.RecordOf(key).state == Projected(key, Run(OpsFor(key, deliveries)))
      ensures CounterTells(Run(OpsFor(key, deliveries))) ==> ShowsEvents(key, dashboard.RecordOf(key))
    {
      assert Settled(key, dashboard.RecordOf(key));
      SettledShows(key, dashboard.RecordOf(key).lists);
    }
  }

  lemma MidDecides(history: seq<Stored>, stored: Stored, mid: nat)
    requires (exists before: seq<Stored> :: Sorted(before + history)) && mid < |history|
    ensures CanonicalBefore(history[mid].event.log, stored.event.log) ==>
      forall i :: 0 <= i <= mid ==> CanonicalBefore(history[i].event.log, stored.event.log)
    ensures !CanonicalBefore(history[mid].event.log, stored.event.log) ==>
      forall i :: mid <= i < |history| ==> !CanonicalBefore(history[i].event.log, stored.event.log)
  {
    var before: seq<Stored> :| Sorted(before + history);
    forall i, j | 0 <= i < j < |history| ensures !CanonicalBefore(history[j].event.log, history[i].event.log) {
      assert (before + history)[|before| + i] == history[i] && (before + history)[|before| + j] == history[j];
    }
    var s, m := stored.event.log, history[mid].event.log;
    OrderIsStrict(m, s);
    forall i | 0 <= i <= mid && CanonicalBefore(m, s) ensures CanonicalBefore(history[i].event.log, s) {
      OrderIsStrict(m, m);
      OrderChains(history[i].event.log, m, s);
    }
    forall i | mid <= i < |history| && !CanonicalBefore(m, s) ensures !CanonicalBefore(history[i].event.log, s) {
      OrderIsStrict(m, m);
      OrderChains(s, m, history[i].event.log);
    }
  }
}
