/** The delivered-log table on values: what adding, forgetting, pruning and collecting orphans do to it
    (src/evm_event_dispatch.cpp, src/evm_live_handoff.cpp, src/evm_reorg_reconciliation.cpp). */
module DeliveredTable {
  import opened Wrappers
  import opened EvmLogs
  import opened CursorStore
  import opened Deliveries
  import opened GapWindow

  datatype Delivered = Delivered(log: Log, block: nat)

  predicate TableMatches(delivered: map<Identity, Delivered>) {
    forall id :: id in delivered ==>
      IdentityOf(delivered[id].log) == Some(id) && delivered[id].block == BlockOf(delivered[id].log)
  }

  ghost predicate Consistent(delivered: map<Identity, Delivered>, trace: seq<Event>) {
    delivered.Keys == Held(trace) && AddsAreNew(trace) && TableMatches(delivered)
  }

  lemma AddKeepsConsistent(delivered: map<Identity, Delivered>, trace: seq<Event>, log: Log)
    requires Consistent(delivered, trace) && IdsOf(log) !! delivered.Keys
    ensures Consistent(AfterAdd(delivered, log), trace + [Added(log)])
  {
    OneMore(trace, Added(log));
    var longer := trace + [Added(log)];
    forall i | 0 <= i < |longer| && longer[i].Added? ensures IdsOf(longer[i].log) !! Held(longer[..i]) {
      assert longer[..i] == trace[..i];
      assert trace[..|trace|] == trace;
    }
  }

  lemma ForgetKeepsConsistent(delivered: map<Identity, Delivered>, trace: seq<Event>, e: Event)
    requires Consistent(delivered, trace) && !e.Added?
    ensures Consistent(map id | id in delivered && id in AfterEvent(delivered.Keys, e) :: delivered[id], trace + [e])
  {
    OneMore(trace, e);
    var longer := trace + [e];
    forall i | 0 <= i < |longer| && longer[i].Added? ensures IdsOf(longer[i].log) !! Held(longer[..i]) {
      assert longer[..i] == trace[..i];
    }
  }

  function AfterAdd(delivered: map<Identity, Delivered>, log: Log): map<Identity, Delivered> {
    match IdentityOf(log)
    case Some(id) => delivered[id := Delivered(log, BlockOf(log))]
    case None => delivered
  }

  /** A block hash fixes the block: what the table recorded for an identity is the number of its hash. */
  ghost predicate AnchoredTable(delivered: map<Identity, Delivered>, numberOf: string -> nat) {
    forall id :: id in delivered ==> delivered[id].block == numberOf(id.blockHash)
  }

  lemma AddKeepsAnchored(delivered: map<Identity, Delivered>, numberOf: string -> nat, log: Log)
    requires AnchoredTable(delivered, numberOf)
    requires IdentityOf(log).Some? ==> numberOf(log.blockHash) == BlockOf(log)
    ensures AnchoredTable(AfterAdd(delivered, log), numberOf)
    ensures AfterAdd(delivered, log).Keys == delivered.Keys + IdsOf(log)
  {
  }

  lemma RemovalKeepsAnchored(delivered: map<Identity, Delivered>, numberOf: string -> nat, log: Log)
    requires AnchoredTable(delivered, numberOf)
    ensures AnchoredTable(AfterRemoval(delivered, log), numberOf)
    ensures AfterRemoval(delivered, log).Keys == delivered.Keys - IdsOf(log)
  {
  }

  function AfterRemoval(delivered: map<Identity, Delivered>, log: Log): map<Identity, Delivered> {
    delivered - IdsOf(log)
  }

  /** The entries of a table that lie above a block. */
  function Above(delivered: map<Identity, Delivered>, cutoff: nat): map<Identity, Delivered> {
    map id | id in delivered && delivered[id].block > cutoff :: delivered[id]
  }

  /** What a checkpoint at a block leaves in the table. */
  function AfterPrune(delivered: map<Identity, Delivered>, durable: nat, lookback: nat): map<Identity, Delivered> {
    if durable <= lookback then delivered else Above(delivered, durable - lookback)
  }

  /** A checkpoint inside a recovery window no longer than the lookback forgets nothing of the window. */
  lemma PruneKeepsWindow(delivered: map<Identity, Delivered>, durable: nat, lookback: nat, window: nat)
    requires durable < window + lookback
    ensures forall id :: id in delivered && window <= delivered[id].block ==>
      id in AfterPrune(delivered, durable, lookback)
    ensures AfterPrune(delivered, durable, lookback).Keys <= delivered.Keys
  {
  }

  ghost predicate Spares(durable: nat, lookback: nat, window: nat) {
    forall delivered: map<Identity, Delivered>, id ::
      id in delivered && window <= delivered[id].block ==> id in AfterPrune(delivered, durable, lookback)
  }

  /** A checkpoint spares every entry from a block on exactly when its cutoff lies below that block. */
  lemma PruneSparesIff(durable: nat, lookback: nat, window: nat, id: Identity, log: Log)
    ensures Spares(durable, lookback, window) <==> durable <= lookback || durable - lookback < window
  {
    if durable > lookback && durable - lookback >= window {
      var delivered := map[id := Delivered(log, window)];
      assert id in delivered && id !in AfterPrune(delivered, durable, lookback);
    }
  }

  /** No checkpoint at or below a head forgets anything that the recovery of that head compares with the chain; a
      recovery of a lower head can find its window pruned. */
  lemma NextWindowIsSpared(durable: nat, lookback: nat, target: nat, startBlock: nat, id: Identity, log: Log)
    requires lookback > 0
    ensures durable <= target ==> Spares(durable, lookback, WindowStart(target, lookback, startBlock))
    ensures startBlock + lookback <= target && target + 1 < durable && durable > lookback ==>
      !Spares(durable, lookback, WindowStart(target, lookback, startBlock))
  {
    PruneSparesIff(durable, lookback, WindowStart(target, lookback, startBlock), id, log);
  }

  ghost predicate OnlyPrunes(events: seq<Event>) {
    forall i :: 0 <= i < |events| ==> events[i].Pruned?
  }

  lemma PruneOne(delivered: map<Identity, Delivered>, trace: seq<Event>, id: Identity, cutoff: nat)
    requires Consistent(delivered, trace) && id in delivered && delivered[id].block <= cutoff
    ensures Consistent(delivered - {id}, trace + [Pruned(id)])
    ensures Above(delivered - {id}, cutoff) == Above(delivered, cutoff)
  {
    ForgetKeepsConsistent(delivered, trace, Pruned(id));
    assert delivered - {id} == map i | i in delivered && i in AfterEvent(delivered.Keys, Pruned(id)) :: delivered[i];
  }

  lemma AllAbove(delivered: map<Identity, Delivered>, cutoff: nat)
    requires forall id :: id in delivered ==> delivered[id].block > cutoff
    ensures Above(delivered, cutoff) == delivered
  {
  }

  /** The retractions found when the identities of todo are still to be looked at. */
  ghost predicate OrphansFound(found: seq<Log>, delivered: map<Identity, Delivered>, todo: set<Identity>, from: nat,
                               end: nat, canonicalIds: set<Identity>, numberOf: string -> nat)
  {
    && DistinctIds(found)
    && (forall i :: 0 <= i < |found| ==> found[i].removed)
    && IdsOfAll(found) == set id | id in delivered && id !in todo && AtBlock(numberOf, id, from, end)
                                   && id !in canonicalIds
  }

  lemma NothingFound(delivered: map<Identity, Delivered>, from: nat, end: nat, canonicalIds: set<Identity>,
                     numberOf: string -> nat)
    ensures OrphansFound([], delivered, delivered.Keys, from, end, canonicalIds, numberOf)
  {
  }

  lemma OrphanIs(delivered: map<Identity, Delivered>, trace: seq<Event>, numberOf: string -> nat, id: Identity)
    requires Consistent(delivered, trace) && id in delivered
    ensures IdentityOf(delivered[id].log.(removed := true)) == Some(id)
  {
  }

  lemma FindOrphan(found: seq<Log>, delivered: map<Identity, Delivered>, todo: set<Identity>, from: nat, end: nat,
                   canonicalIds: set<Identity>, numberOf: string -> nat, id: Identity, taken: bool)
    requires OrphansFound(found, delivered, todo, from, end, canonicalIds, numberOf)
    requires id in todo && id in delivered && IdentityOf(delivered[id].log.(removed := true)) == Some(id)
    requires taken <==> AtBlock(numberOf, id, from, end) && id !in canonicalIds
    ensures OrphansFound(if taken then found + [delivered[id].log.(removed := true)] else found, delivered, todo - {id},
                         from, end, canonicalIds, numberOf)
  {
    if taken {
      var orphan := delivered[id].log.(removed := true);
      IdsOfAllHas(found, id);
      IdsOfAllJoin(found, [orphan]);
    }
  }
}
