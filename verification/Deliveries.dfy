/** The consumer's view: the sequence of callbacks that returned, with the moments at which the indexer forgets. */
module Deliveries {
  import opened Wrappers
  import opened EvmLogs

  /** Added and Removed: a log callback returned. Pruned: the delivered-log table dropped an old entry.
      Restarted: a new process began with an empty table. */
  datatype Event = Added(log: Log) | Removed(log: Log) | Pruned(id: Identity) | Restarted

  function IdsOf(log: Log): set<Identity> {
    if IdentityOf(log).Some? then {IdentityOf(log).value} else {}
  }

  function AfterEvent(held: set<Identity>, e: Event): set<Identity> {
    match e
    case Added(log) => held + IdsOf(log)
    case Removed(log) => held - IdsOf(log)
    case Pruned(id) => held - {id}
    case Restarted => {}
  }

  /** The identities the indexer remembers as delivered. */
  function Held(trace: seq<Event>): set<Identity> {
    if trace == [] then {} else AfterEvent(Held(trace[..|trace| - 1]), trace[|trace| - 1])
  }

  function AddedIds(trace: seq<Event>): set<Identity> {
    if trace == [] then {}
    else
      var e := trace[|trace| - 1];
      AddedIds(trace[..|trace| - 1]) + (if e.Added? then IdsOf(e.log) else {})
  }

  /** The callbacks alone. */
  function Calls(trace: seq<Event>): seq<Event> {
    if trace == [] then []
    else
      var e := trace[|trace| - 1];
      Calls(trace[..|trace| - 1]) + (if e.Added? || e.Removed? then [e] else [])
  }

  function Adds(logs: seq<Log>): (events: seq<Event>)
    ensures |events| == |logs|
  {
    seq(|logs|, i requires 0 <= i < |logs| => Added(logs[i]))
  }

  function Removals(logs: seq<Log>): (events: seq<Event>)
    ensures |events| == |logs|
  {
    seq(|logs|, i requires 0 <= i < |logs| => Removed(logs[i]))
  }

  lemma AddsAppend(logs: seq<Log>, log: Log)
    ensures Adds(logs + [log]) == Adds(logs) + [Added(log)]
    ensures Removals(logs + [log]) == Removals(logs) + [Removed(log)]
  {
  }

  lemma AddsJoin(a: seq<Log>, b: seq<Log>)
    ensures Adds(a + b) == Adds(a) + Adds(b)
  {
  }

  lemma OneMore(trace: seq<Event>, e: Event)
    ensures Held(trace + [e]) == AfterEvent(Held(trace), e)
    ensures AddedIds(trace + [e]) == AddedIds(trace) + (if e.Added? then IdsOf(e.log) else {})
    ensures Calls(trace + [e]) == Calls(trace) + (if e.Added? || e.Removed? then [e] else [])
  {
    assert (trace + [e])[..|trace|] == trace;
  }

  lemma {:induction false} HeldWereAdded(trace: seq<Event>)
    ensures Held(trace) <= AddedIds(trace)
  {
    if trace != [] {
      HeldWereAdded(trace[..|trace| - 1]);
    }
  }

  /** No log is handed to the callback while the indexer still remembers delivering it. */
  ghost predicate AddsAreNew(trace: seq<Event>) {
    forall i :: 0 <= i < |trace| && trace[i].Added? ==> IdsOf(trace[i].log) !! Held(trace[..i])
  }

  lemma {:induction false} HeldUntilForgotten(trace: seq<Event>, i: nat, j: nat, id: Identity)
    requires i < j <= |trace| && trace[i].Added? && IdentityOf(trace[i].log) == Some(id)
    requires id !in Held(trace[..j])
    ensures exists k :: i < k < j && Forgets(trace[k], id)
    decreases j
  {
    assert trace[..j][..j - 1] == trace[..j - 1];
    if i + 1 < j {
      if !Forgets(trace[j - 1], id) {
        HeldUntilForgotten(trace, i, j - 1, id);
      }
    }
  }

  predicate Forgets(e: Event, id: Identity) {
    match e
    case Added(_) => false
    case Removed(log) => IdentityOf(log) == Some(id)
    case Pruned(other) => other == id
    case Restarted => true
  }

  /** Between two add callbacks for one identity lies a removal callback, a prune or a restart. */
  lemma AtMostOnce(trace: seq<Event>, i: nat, j: nat, id: Identity)
    requires AddsAreNew(trace) && i < j < |trace|
    requires trace[i].Added? && trace[j].Added?
    requires IdentityOf(trace[i].log) == Some(id) && IdentityOf(trace[j].log) == Some(id)
    ensures exists k :: i < k < j && Forgets(trace[k], id)
  {
    assert id in IdsOf(trace[j].log);
    HeldUntilForgotten(trace, i, j, id);
  }

  /** Adds minus removals of one identity. */
  function Net(calls: seq<Event>, id: Identity): int {
    if calls == [] then 0
    else
      var e := calls[|calls| - 1];
      Net(calls[..|calls| - 1], id)
      + (if e.Added? && id in IdsOf(e.log) then 1 else 0)
      - (if e.Removed? && id in IdsOf(e.log) then 1 else 0)
  }
}
