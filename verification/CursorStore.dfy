/** The durable cursor and the store that keeps it (src/evm_cursor_store.cpp). The file is modelled as the map it
    holds; a write is atomic. */
module CursorStore {
  import opened Wrappers
  import opened EvmLogs
  import opened Arithmetic

  datatype Cursor = Cursor(block: nat, complete: bool, last: Option<Position>)

  datatype BlockRange = BlockRange(from: nat, to: nat)

  predicate CursorAdvances(current: Cursor, next: Cursor) {
    if next.block != current.block then next.block > current.block
    else if current.complete then next.complete
    else if next.complete then true
    else if next.last.None? then false
    else if current.last.None? then true
    else if next.last.value.blockHash != current.last.value.blockHash then false
    else AtOrBefore(current.last.value, next.last.value)
  }

  function AfterSave(entry: Option<Cursor>, next: Cursor): Option<Cursor> {
    if entry.Some? && !CursorAdvances(entry.value, next) then entry else Some(next)
  }

  function AfterRewind(entry: Option<Cursor>, from: nat): Option<Cursor> {
    if entry.None? || from > entry.value.block then entry else Some(Cursor(from, false, None))
  }

  /** The first block a scan that resumes from this entry reads. */
  function ResumeBlock(entry: Option<Cursor>, startBlock: nat): nat {
    if entry.None? then startBlock
    else if entry.value.complete then entry.value.block + 1 else entry.value.block
  }

  /** The last block that has its confirmations. */
  function Confirmed(head: nat, confirmations: nat): nat {
    if head > confirmations then head - confirmations else 0
  }

  /** The first block of the recovery window that ends at target. */
  function WindowStart(target: nat, lookback: nat, startBlock: nat): (from: nat)
    ensures lookback > 0 && from <= target ==> target < from + lookback
    ensures startBlock <= from
  {
    var overlap := if lookback == 0 then 0 else lookback - 1;
    Max(startBlock, if target > overlap then target - overlap else 0)
  }

  /** A block above zero is confirmed exactly when the head is that many blocks beyond it. */
  lemma ConfirmedIff(head: nat, confirmations: nat, block: nat)
    requires block > 0
    ensures block <= Confirmed(head, confirmations) <==> block + confirmations <= head
  {
  }

  /** Up to its end the window holds exactly the last lookback blocks, at least one, from the start block on. */
  lemma WindowIff(target: nat, lookback: nat, startBlock: nat, block: nat)
    requires block <= target
    ensures WindowStart(target, lookback, startBlock) <= block <==>
      startBlock <= block && target < block + Max(lookback, 1)
  {
  }

  class FileBlockCursorStore {
    var data: map<string, Cursor>

    constructor ()
      ensures data == map[]
    {
      data := map[];
    }

    function Entry(name: string): Option<Cursor>
      reads this
    {
      if name in data then Some(data[name]) else None
    }

    method LoadCursor(name: string) returns (entry: Option<Cursor>)
      ensures entry == Entry(name)
    {
      if name in data {
        return Some(data[name]);
      }
      return None;
    }

    /** The last block that is known to be complete. */
    method Load(name: string) returns (block: Option<nat>)
      ensures block.Some? ==> Entry(name).Some? && ResumeBlock(Entry(name), 0) == block.value + 1
      ensures block.None? ==> Entry(name).None? || ResumeBlock(Entry(name), 0) == 0
    {
      if name !in data {
        return None;
      }
      var cursor := data[name];
      if cursor.complete {
        return Some(cursor.block);
      }
      return if cursor.block == 0 then None else Some(cursor.block - 1);
    }

    /** The stored block never moves back; a partial entry for the same block becomes complete. */
    method Save(name: string, block: nat)
      modifies this
      ensures forall other :: other != name ==> Entry(other) == old(Entry(other))
      ensures Entry(name) == AfterSave(old(Entry(name)), Cursor(block, true, None))
      ensures ResumeBlock(Entry(name), 0) >= block + 1
    {
      if name in data && block < data[name].block {
        return;
      }
      data := data[name := Cursor(block, true, None)];
    }

    method SaveCursor(name: string, cursor: Cursor)
      modifies this
      ensures forall other :: other != name ==> Entry(other) == old(Entry(other))
      ensures Entry(name) == AfterSave(old(Entry(name)), cursor)
    {
      if name in data && !CursorAdvances(data[name], cursor) {
        return;
      }
      data := data[name := cursor];
    }

    method Rewind(name: string, from: nat)
      modifies this
      ensures forall other :: other != name ==> Entry(other) == old(Entry(other))
      ensures Entry(name) == AfterRewind(old(Entry(name)), from)
    {
      if name !in data || from > data[name].block {
        return;
      }
      data := data[name := Cursor(from, false, None)];
    }
  }

  /** Consecutive ranges that cover from..to, none longer than a batch. */
  predicate Tiles(ranges: seq<BlockRange>, from: nat, end: nat, batch: nat) {
    && (ranges == [] <==> from >= end)
    && (ranges != [] ==> ranges[0].from == from && ranges[|ranges| - 1].to + 1 == end)
    && (forall i :: 0 <= i < |ranges| ==> ranges[i].from <= ranges[i].to < ranges[i].from + batch)
    && (forall i :: 0 < i < |ranges| ==> ranges[i].from == ranges[i - 1].to + 1)
  }

  lemma {:induction false} TilesFrom(ranges: seq<BlockRange>, from: nat, end: nat, batch: nat, i: nat)
    requires Tiles(ranges, from, end, batch) && i < |ranges|
    ensures from <= ranges[i].from
  {
    if i > 0 {
      TilesFrom(ranges, from, end, batch, i - 1);
    }
  }

  lemma {:induction false} TilesTo(ranges: seq<BlockRange>, from: nat, end: nat, batch: nat, i: nat)
    requires Tiles(ranges, from, end, batch) && i < |ranges|
    ensures ranges[i].to < end
    decreases |ranges| - i
  {
    if i + 1 < |ranges| {
      TilesTo(ranges, from, end, batch, i + 1);
    }
  }

  /** Every number that evm_make_block_ranges computes stays within 64 bits, up to a last block of 2^64 - 1. */
  method MakeBlockRanges(fromBlock: nat, toBlock: nat, batchSize: nat) returns (r: Result<seq<BlockRange>, string>)
    requires fromBlock <= UINT64_MAX && toBlock <= UINT64_MAX && batchSize <= UINT64_MAX
    ensures r.Err? <==> batchSize == 0
    ensures r.Ok? ==> Tiles(r.value, fromBlock, toBlock + 1, batchSize)
    ensures r.Ok? ==> forall range :: range in r.value ==> range.to <= UINT64_MAX
  {
    if batchSize == 0 {
      return Err("batch_size must be positive");
    }
    var ranges: seq<BlockRange> := [];
    if fromBlock > toBlock {
      return Ok(ranges);
    }
    var from := fromBlock;
    while true
      invariant fromBlock <= from <= toBlock
      invariant Tiles(ranges, fromBlock, from, batchSize)
      invariant forall range :: range in ranges ==> range.to <= UINT64_MAX
      decreases toBlock - from
    {
      var to := from + if batchSize - 1 < toBlock - from then batchSize - 1 else toBlock - from;
      assert to <= UINT64_MAX;
      ranges := ranges + [BlockRange(from, to)];
      if to == toBlock {
        return Ok(ranges);
      }
      from := to + 1;
    }
  }
}
