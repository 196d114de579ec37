/** The generation a scan works under, and how calls of start_live, stop and the destructor change it
    (src/evm_indexer_lifecycle.cpp, src/evm_event_indexer.cpp). The destructor runs stop first and ends the
    delivery thread afterwards. */
module Lifecycle {
  datatype Gate = Gate(generation: nat, closing: bool, shutdown: bool)

  const NEW_GATE := Gate(0, false, false)

  /** What another thread does: the first section of start_live, stop, the stop of the destructor, and the
      destructor's end of the delivery thread, which has no effect before that stop. */
  datatype Interference = Start | Halt | Destroy | EndDelivery

  function AfterOne(gate: Gate, what: Interference): Gate {
    match what
    case Start => gate.(generation := gate.generation + 1)
    case Halt => gate.(generation := gate.generation + 1)
    case Destroy => gate.(generation := gate.generation + 1, closing := true)
    case EndDelivery => gate.(shutdown := gate.shutdown || gate.closing)
  }

  function AfterAll(gate: Gate, whats: seq<Interference>): Gate {
    if whats == [] then gate else AfterOne(AfterAll(gate, whats[..|whats| - 1]), whats[|whats| - 1])
  }

  /** How many of these actions end a generation. */
  function Endings(whats: seq<Interference>): nat {
    if whats == [] then 0
    else Endings(whats[..|whats| - 1]) + (if whats[|whats| - 1] != EndDelivery then 1 else 0)
  }

  /** Every start and every stop ends a generation; the gate is closing once the destructor began, and delivery has
      ended once its end came after that beginning. */
  lemma {:induction false} AfterAllIs(gate: Gate, whats: seq<Interference>)
    ensures AfterAll(gate, whats).generation == gate.generation + Endings(whats)
    ensures AfterAll(gate, whats).closing <==> gate.closing || Destroy in whats
    ensures AfterAll(gate, whats).shutdown <==>
      || gate.shutdown
      || exists i :: 0 <= i < |whats| && whats[i] == EndDelivery && (gate.closing || Destroy in whats[..i])
  {
    if whats != [] {
      var front, last := whats[..|whats| - 1], whats[|whats| - 1];
      AfterAllIs(gate, front);
      assert forall i :: 0 <= i < |front| ==> front[i] == whats[i] && whats[..i] == front[..i];
      assert forall what :: what in whats <==> what in front || what == last;
    }
  }

  predicate Sound(gate: Gate) {
    gate.shutdown ==> gate.closing
  }

  /** Generations only grow, the destructor is never undone, and its beginning ends a generation. */
  predicate Later(before: Gate, after: Gate) {
    && before.generation <= after.generation
    && (before.closing ==> after.closing)
    && (before.shutdown ==> after.shutdown)
    && (before.generation == after.generation ==> before.closing == after.closing)
  }

  lemma OneIsLater(before: Gate, gate: Gate, what: Interference)
    requires Later(before, gate) && Sound(gate)
    ensures Later(before, AfterOne(gate, what)) && Sound(AfterOne(gate, what))
  {
  }

  lemma {:induction false} AllIsLater(gate: Gate, whats: seq<Interference>)
    requires Sound(gate)
    ensures Later(gate, AfterAll(gate, whats)) && Sound(AfterAll(gate, whats))
  {
    if whats != [] {
      AllIsLater(gate, whats[..|whats| - 1]);
      OneIsLater(gate, AfterAll(gate, whats[..|whats| - 1]), whats[|whats| - 1]);
    }
  }

  /** The generation was read before the destructor began. */
  predicate InTime(gate: Gate, generation: nat) {
    gate.generation == generation ==> !gate.closing
  }

  lemma StillInTime(before: Gate, after: Gate, generation: nat)
    requires generation <= before.generation && Later(before, after) && InTime(before, generation)
    ensures InTime(after, generation)
    ensures Sound(after) && after.shutdown ==> after.generation != generation
  {
  }

  /** The delivery thread is gone although the generation is still current. */
  predicate ShutUnder(gate: Gate, generation: nat) {
    gate.shutdown && gate.generation == generation
  }

  /** Whatever other threads do afterwards, delivery cannot end under a generation exactly when that generation was
      read before the destructor began. */
  lemma ReadInTimeIff(gate: Gate)
    requires Sound(gate)
    ensures (forall whats :: !ShutUnder(AfterAll(gate, whats), gate.generation)) <==> InTime(gate, gate.generation)
  {
    if gate.closing {
      var whats := [EndDelivery];
      assert whats[..0] == [];
      assert AfterAll(gate, whats) == AfterOne(gate, EndDelivery);
      assert ShutUnder(AfterAll(gate, whats), gate.generation);
    } else {
      forall whats ensures !ShutUnder(AfterAll(gate, whats), gate.generation) {
        AllIsLater(gate, whats);
      }
    }
  }

  /** The passing of time; nothing happens around a process left alone. */
  predicate Elapses(calm: bool, before: Gate, after: Gate) {
    Later(before, after) && (calm ==> after == before)
  }
}
