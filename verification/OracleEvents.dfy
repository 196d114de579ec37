/** Oracle resolution events, their canonical order and the state one event leads to (src/oracle_watcher.cpp,
    src/oracle_event_history.cpp). */
module OracleEvents {
  import opened Wrappers
  import opened EvmLogs

  const UINT32_RANGE: nat := 0x1_0000_0000

  datatype Kind =
    | UnknownKind
    | QuestionInitialized
    | QuestionPaused
    | QuestionUnpaused
    | QuestionFlagged
    | QuestionUnflagged
    | QuestionReset
    | QuestionResolved
    | QuestionManuallyResolved
    | ConditionResolution
    | PayoutRedemption

  datatype Phase = Unknown | Pending | Proposed | Disputed | Resolved | ManuallyResolved

  datatype Event = Event(kind: Kind, name: string, log: Log, questionId: string, conditionId: string,
                         settledPrice: string, payout: string, payouts: seq<string>)

  datatype Stored = Stored(event: Event, live: bool, receivedAt: nat)

  datatype Entry = Entry(phase: Phase, stored: Stored)

  datatype State = State(
    key: string,
    questionId: string,
    conditionId: string,
    phase: Phase,
    eventsSeen: nat,
    disputeCount: nat,
    lastSeen: nat,
    lastBlock: nat,
    lastTx: string,
    lastEvent: string,
    settledPrice: string,
    payouts: seq<string>,
    timeline: seq<Entry>)

  function StateKey(event: Event): string {
    if event.questionId != "" then event.questionId else event.conditionId
  }

  function Initial(key: string): State {
    State(key, "", "", Unknown, 0, 0, 0, 0, "", "", "", [], [])
  }

  function NextPhase(kind: Kind): Phase {
    match kind
    case QuestionInitialized | QuestionFlagged | QuestionReset => Pending
    case QuestionResolved | ConditionResolution => Resolved
    case QuestionManuallyResolved => ManuallyResolved
    case _ => Unknown
  }

  function TouchIds(s: State, event: Event): State {
    s.(questionId := if s.questionId == "" then event.questionId else s.questionId,
       conditionId := if s.conditionId == "" then event.conditionId else s.conditionId)
  }

  /** touch_ids and append_event; the event counter has 32 bits. */
  function Applied(s: State, stored: Stored): State {
    var event := stored.event;
    var next := NextPhase(event.kind);
    var phase := if next != Unknown then next else s.phase;
    TouchIds(s, event).(
      key := if s.key == "" then StateKey(event) else s.key,
      phase := phase,
      eventsSeen := (s.eventsSeen + 1) % UINT32_RANGE,
      lastSeen := stored.receivedAt,
      lastTx := event.log.txHash,
      lastEvent := event.name,
      lastBlock := BlockOf(event.log),
      settledPrice := if event.settledPrice != "" then event.settledPrice else s.settledPrice,
      payouts := if event.payouts != [] then event.payouts
                 else if event.payout != "" then [event.payout] else s.payouts,
      timeline := s.timeline + [Entry(phase, stored)])
  }

  function Fold(s: State, events: seq<Stored>): State {
    if events == [] then s else Applied(Fold(s, events[..|events| - 1]), events[|events| - 1])
  }

  /** The state apart from the timeline. */
  function Core(s: State): State {
    s.(timeline := [])
  }

  lemma {:induction false} FoldJoin(s: State, a: seq<Stored>, b: seq<Stored>)
    ensures Fold(s, a + b) == Fold(Fold(s, a), b)
  {
    if b == [] {
      assert a + b == a;
    } else {
      assert (a + b)[..|a + b| - 1] == a + b[..|b| - 1];
      FoldJoin(s, a, b[..|b| - 1]);
    }
  }

  /** The timeline records the fold and never influences it. */
  lemma {:induction false} FoldIgnoresTimeline(s: State, events: seq<Stored>)
    ensures Core(Fold(Core(s), events)) == Core(Fold(s, events))
    ensures Fold(s, events).timeline == s.timeline + Fold(Core(s), events).timeline
    ensures |Fold(s, events).timeline| == |s.timeline| + |events|
  {
    if events != [] {
      FoldIgnoresTimeline(s, events[..|events| - 1]);
    }
  }

  lemma CountsOn(n: nat)
    ensures (n % UINT32_RANGE + 1) % UINT32_RANGE == (n + 1) % UINT32_RANGE
  {
  }

  lemma {:induction false} FoldCounts(s: State, events: seq<Stored>)
    requires s.eventsSeen < UINT32_RANGE
    ensures Fold(s, events).eventsSeen == (s.eventsSeen + |events|) % UINT32_RANGE
    ensures s.key != "" ==> Fold(s, events).key == s.key
  {
    if events != [] {
      FoldCounts(s, events[..|events| - 1]);
      CountsOn(s.eventsSeen + |events| - 1);
    }
  }

  /** A settled price, once reported, lasts until another one is reported. */
  lemma {:induction false} FoldPrice(s: State, events: seq<Stored>)
    ensures (forall i :: 0 <= i < |events| ==> events[i].event.settledPrice == "") ==>
      Fold(s, events).settledPrice == s.settledPrice
    ensures s.settledPrice != "" || (exists i :: 0 <= i < |events| && events[i].event.settledPrice != "") ==>
      Fold(s, events).settledPrice != ""
  {
    if events != [] {
      FoldPrice(s, events[..|events| - 1]);
    }
  }

  // ----- what a list of events tells -----

  /** The i-th event is the last one with a property. */
  ghost predicate LastWith(events: seq<Stored>, i: nat, p: Event -> bool) {
    i < |events| && p(events[i].event) && NoneWith(events[i + 1..], p)
  }

  ghost predicate FirstWith(events: seq<Stored>, i: nat, p: Event -> bool) {
    i < |events| && p(events[i].event) && NoneWith(events[..i], p)
  }

  ghost predicate NoneWith(events: seq<Stored>, p: Event -> bool) {
    forall i :: 0 <= i < |events| ==> !p(events[i].event)
  }

  /** The kinds that open a question again, settle it, or settle it by hand. */
  const OPENING := {QuestionInitialized, QuestionFlagged, QuestionReset}
  const SETTLING := {QuestionResolved, ConditionResolution}

  ghost function Decides(): Event -> bool {
    (e: Event) => e.kind in OPENING || e.kind in SETTLING || e.kind == QuestionManuallyResolved
  }

  ghost function Prices(): Event -> bool {
    (e: Event) => e.settledPrice != ""
  }

  ghost function Pays(): Event -> bool {
    (e: Event) => e.payouts != [] || e.payout != ""
  }

  ghost function NamesQuestion(): Event -> bool {
    (e: Event) => e.questionId != ""
  }

  ghost function NamesCondition(): Event -> bool {
    (e: Event) => e.conditionId != ""
  }

  /** The phase is the one the last deciding event stands for; before any it is unknown. */
  ghost predicate TellsPhase(events: seq<Stored>, phase: Phase) {
    && (forall i: nat :: LastWith(events, i, Decides()) ==>
          var kind := events[i].event.kind;
          phase == if kind in OPENING then Pending else if kind in SETTLING then Resolved else ManuallyResolved)
    && (NoneWith(events, Decides()) ==> phase == Unknown)
  }

  /** The price is the last one reported; so are the payouts, where a list counts before a single payout. */
  ghost predicate TellsOutcome(events: seq<Stored>, price: string, payouts: seq<string>) {
    && (forall i: nat :: LastWith(events, i, Prices()) ==> price == events[i].event.settledPrice)
    && (NoneWith(events, Prices()) ==> price == "")
    && (forall i: nat :: LastWith(events, i, Pays()) ==>
          var e := events[i].event; payouts == if e.payouts == [] then [e.payout] else e.payouts)
    && (NoneWith(events, Pays()) ==> payouts == [])
  }

  /** Each id is the first one an event names. */
  ghost predicate TellsIds(events: seq<Stored>, questionId: string, conditionId: string) {
    && (forall i: nat :: FirstWith(events, i, NamesQuestion()) ==> questionId == events[i].event.questionId)
    && (NoneWith(events, NamesQuestion()) ==> questionId == "")
    && (forall i: nat :: FirstWith(events, i, NamesCondition()) ==> conditionId == events[i].event.conditionId)
    && (NoneWith(events, NamesCondition()) ==> conditionId == "")
  }

  /** Where the last event was seen. */
  ghost predicate TellsLast(events: seq<Stored>, s: State) {
    if events == [] then s.lastBlock == 0 && s.lastTx == "" && s.lastEvent == "" && s.lastSeen == 0
    else
      var last := events[|events| - 1];
      && s.lastBlock == last.event.log.block.GetOr(0) && s.lastTx == last.event.log.txHash
      && s.lastEvent == last.event.name && s.lastSeen == last.receivedAt
  }

  /** The state shows what its question's events tell, read off the list without folding it. */
  ghost predicate Tells(key: string, events: seq<Stored>, s: State) {
    && s.key == key && s.eventsSeen == |events| % 0x1_0000_0000
    && TellsPhase(events, s.phase)
    && TellsOutcome(events, s.settledPrice, s.payouts)
    && TellsIds(events, s.questionId, s.conditionId)
    && TellsLast(events, s)
  }

  lemma LastOfMore(events: seq<Stored>, e: Stored, p: Event -> bool)
    ensures forall i: nat :: LastWith(events + [e], i, p) <==>
      if p(e.event) then i == |events| else LastWith(events, i, p)
    ensures NoneWith(events + [e], p) <==> NoneWith(events, p) && !p(e.event)
  {
    var more := events + [e];
    assert more[|events|] == e;
    forall i: nat | i < |events|
      ensures NoneWith(more[i + 1..], p) <==> NoneWith(events[i + 1..], p) && !p(e.event)
      ensures more[i] == events[i]
    {
      NoneInJoin(events[i + 1..], [e], p);
      assert more[i + 1..] == events[i + 1..] + [e];
    }
    NoneInJoin(events, [e], p);
  }

  lemma FirstOfMore(events: seq<Stored>, e: Stored, p: Event -> bool)
    ensures forall i: nat :: FirstWith(events + [e], i, p) <==>
      if NoneWith(events, p) then i == |events| && p(e.event) else FirstWith(events, i, p)
    ensures NoneWith(events + [e], p) <==> NoneWith(events, p) && !p(e.event)
  {
    var more := events + [e];
    forall i: nat | i <= |events| ensures more[..i] == events[..i] && (i < |events| ==> more[i] == events[i]) {
    }
    assert more[|events|] == e && events[..|events|] == events;
    NoneInJoin(events, [e], p);
  }

  lemma NoneInJoin(a: seq<Stored>, b: seq<Stored>, p: Event -> bool)
    ensures NoneWith(a + b, p) <==> NoneWith(a, p) && NoneWith(b, p)
  {
    var all := a + b;
    assert forall i :: 0 <= i < |a| ==> all[i] == a[i];
    assert forall i :: 0 <= i < |b| ==> all[|a| + i] == b[i];
  }

  /** The fold shows exactly what the events tell. */
  lemma {:induction false} FoldTells(key: string, events: seq<Stored>)
    requires key != ""
    ensures Tells(key, events, Fold(Initial(key), events))
  {
    hide Tells, Applied;
    if events == [] {
      NothingTells(key);
    } else {
      var front, last := events[..|events| - 1], events[|events| - 1];
      assert events == front + [last];
      FoldTells(key, front);
      OneMoreTells(key, front, last, Fold(Initial(key), front));
    }
  }

  lemma NothingTells(key: string)
    ensures Tells(key, [], Initial(key))
  {
  }

  lemma OneMoreTells(key: string, front: seq<Stored>, last: Stored, s: State)
    requires key != "" && Tells(key, front, s)
    ensures Tells(key, front + [last], Applied(s, last))
  {
    hide TellsPhase, TellsOutcome, TellsIds;
    CountsOn(|front|);
    PhaseGoesOn(front, last, s);
    OutcomeGoesOn(front, last, s);
    IdsGoOn(front, last, s);
  }

  lemma PhaseGoesOn(front: seq<Stored>, last: Stored, s: State)
    requires TellsPhase(front, s.phase)
    ensures TellsPhase(front + [last], Applied(s, last).phase)
  {
    hide NoneWith;
    LastOfMore(front, last, Decides());
    KeepsElements(front, last);
  }

  lemma OutcomeGoesOn(front: seq<Stored>, last: Stored, s: State)
    requires TellsOutcome(front, s.settledPrice, s.payouts)
    ensures TellsOutcome(front + [last], Applied(s, last).settledPrice, Applied(s, last).payouts)
  {
    hide NoneWith;
    LastOfMore(front, last, Prices());
    LastOfMore(front, last, Pays());
    KeepsElements(front, last);
  }

  lemma IdsGoOn(front: seq<Stored>, last: Stored, s: State)
    requires TellsIds(front, s.questionId, s.conditionId)
    ensures TellsIds(front + [last], Applied(s, last).questionId, Applied(s, last).conditionId)
  {
    hide NoneWith;
    FirstOfMore(front, last, NamesQuestion());
    FirstOfMore(front, last, NamesCondition());
    KeepsElements(front, last);
  }

  lemma KeepsElements(front: seq<Stored>, last: Stored)
    ensures forall i :: 0 <= i < |front| ==> (front + [last])[i] == front[i]
    ensures (front + [last])[|front|] == last
  {
  }

  /** Every entry of the timeline is an event with the phase that the events up to it decide. */
  lemma {:induction false} TimelineTells(key: string, events: seq<Stored>)
    ensures var timeline := Fold(Initial(key), events).timeline;
      && |timeline| == |events|
      && forall i :: 0 <= i < |events| ==>
           timeline[i].stored == events[i] && TellsPhase(events[..i + 1], timeline[i].phase)
  {
    hide TellsPhase;
    if events != [] {
      var front := events[..|events| - 1];
      TimelineTells(key, front);
      FoldPhase(key, events);
      var before, after := Fold(Initial(key), front).timeline, Fold(Initial(key), events).timeline;
      forall i | 0 <= i < |events|
        ensures after[i].stored == events[i] && TellsPhase(events[..i + 1], after[i].phase)
      {
        if i < |front| {
          assert events[..i + 1] == front[..i + 1] && after[i] == before[i];
        } else {
          assert events[..i + 1] == events;
        }
      }
    }
  }

  lemma FoldPhase(key: string, events: seq<Stored>)
    ensures TellsPhase(events, Fold(Initial(key), events).phase)
  {
    FoldTells("key", events);
    SamePhase(Initial(key), Initial("key"), events);
  }

  lemma {:induction false} SamePhase(a: State, b: State, events: seq<Stored>)
    requires a.phase == b.phase
    ensures Fold(a, events).phase == Fold(b, events).phase
  {
    if events != [] {
      SamePhase(a, b, events[..|events| - 1]);
    }
  }

  // ----- canonical order -----

  /** The order of std::string. */
  predicate StringLess(a: string, b: string) {
    if a == [] then b != []
    else b != [] && (a[0] < b[0] || (a[0] == b[0] && StringLess(a[1..], b[1..])))
  }

  lemma {:induction false} StringLessCompares(a: string, b: string)
    ensures StringLess(a, b) ==> !StringLess(b, a) && a != b
    ensures !StringLess(a, b) && !StringLess(b, a) ==> a == b
  {
    if a != [] && b != [] {
      StringLessCompares(a[1..], b[1..]);
      assert a == [a[0]] + a[1..] && b == [b[0]] + b[1..];
    }
  }

  /** It is decided at the end of the longest common beginning. */
  lemma {:induction false} StringLessIff(a: string, b: string)
    ensures StringLess(a, b) <==>
      exists k :: 0 <= k <= |a| && k < |b| && a[..k] == b[..k] && (k < |a| ==> a[k] < b[k])
  {
    if a != [] && b != [] && a[0] == b[0] {
      StringLessIff(a[1..], b[1..]);
      if StringLess(a, b) {
        var k :| 0 <= k <= |a[1..]| && k < |b[1..]| && a[1..][..k] == b[1..][..k]
                 && (k < |a[1..]| ==> a[1..][k] < b[1..][k]);
        assert a[..k + 1] == [a[0]] + a[1..][..k] && b[..k + 1] == [b[0]] + b[1..][..k];
      }
      forall k | 0 <= k <= |a| && k < |b| && a[..k] == b[..k] && (k < |a| ==> a[k] < b[k]) ensures StringLess(a, b) {
        assert k > 0;
        assert a[1..][..k - 1] == a[..k][1..] && b[1..][..k - 1] == b[..k][1..];
      }
    } else if a != [] && b != [] {
      assert a[..0] == b[..0];
    }
  }

  lemma {:induction false} StringLessChains(a: string, b: string, c: string)
    requires StringLess(a, b) && StringLess(b, c)
    ensures StringLess(a, c)
  {
    if a != [] && a[0] == b[0] == c[0] {
      StringLessChains(a[1..], b[1..], c[1..]);
    }
  }

  predicate CanonicalBefore(a: Log, b: Log) {
    if BlockOf(a) != BlockOf(b) then BlockOf(a) < BlockOf(b)
    else if a.txIndex.GetOr(0) != b.txIndex.GetOr(0) then a.txIndex.GetOr(0) < b.txIndex.GetOr(0)
    else if a.logIndex.GetOr(0) != b.logIndex.GetOr(0) then a.logIndex.GetOr(0) < b.logIndex.GetOr(0)
    else if a.blockHash != b.blockHash then StringLess(a.blockHash, b.blockHash)
    else StringLess(a.txHash, b.txHash)
  }

  lemma OrderIsStrict(a: Log, b: Log)
    ensures CanonicalBefore(a, b) ==> !CanonicalBefore(b, a)
    ensures !CanonicalBefore(a, b) && !CanonicalBefore(b, a) ==>
      a.logIndex.GetOr(0) == b.logIndex.GetOr(0) && a.blockHash == b.blockHash && a.txHash == b.txHash
      && BlockOf(a) == BlockOf(b) && a.txIndex.GetOr(0) == b.txIndex.GetOr(0)
  {
    StringLessCompares(a.blockHash, b.blockHash);
    StringLessCompares(a.txHash, b.txHash);
  }

  lemma OrderChains(a: Log, b: Log, c: Log)
    requires !CanonicalBefore(b, a) && !CanonicalBefore(c, b)
    ensures !CanonicalBefore(c, a)
    ensures CanonicalBefore(a, b) || CanonicalBefore(b, c) ==> CanonicalBefore(a, c)
  {
    OrderIsStrict(a, b);
    OrderIsStrict(b, c);
    OrderIsStrict(a, c);
    if CanonicalBefore(a, b) && CanonicalBefore(b, c) {
      if a.blockHash != b.blockHash && b.blockHash != c.blockHash && StringLess(a.blockHash, b.blockHash)
         && StringLess(b.blockHash, c.blockHash) {
        StringLessChains(a.blockHash, b.blockHash, c.blockHash);
      }
      if StringLess(a.txHash, b.txHash) && StringLess(b.txHash, c.txHash) {
        StringLessChains(a.txHash, b.txHash, c.txHash);
      }
    }
  }

  /** Two reports of one log: a log without a transaction hash or index is never a repetition. */
  predicate SameLog(a: Log, b: Log) {
    && a.txHash != "" && a.logIndex.Some?
    && a.blockHash == b.blockHash && a.txHash == b.txHash && a.logIndex == b.logIndex
  }

  /** For logs with a block hash it is the identity of the delivered-log table. */
  lemma SameLogIsSameIdentity(a: Log, b: Log)
    requires a.blockHash != ""
    ensures SameLog(a, b) <==> IdentityOf(a).Some? && IdentityOf(a) == IdentityOf(b)
  {
  }

  lemma SameLogIsSymmetric(a: Log, b: Log)
    ensures SameLog(a, b) <==> SameLog(b, a)
  {
  }
}
