/** The memory meter of one read, its page and byte budgets, and the assembly of contiguous items. */
module Assemblies {
  import opened Wrappers
  import opened ChunkAssemblers
  import opened ReadModel
  import opened Servings
  import ChunkLaws

  /** The memory one read may use; the page reserve is never given back before the read ends. */
  class ReadWorkspace {
    var used: nat

    ghost predicate Valid()
      reads this
    {
      PAGE_WORKSPACE_RESERVE <= used <= READ_WORKSPACE_BYTES
    }

    constructor ()
      ensures Valid() && used == PAGE_WORKSPACE_RESERVE
    {
      used := PAGE_WORKSPACE_RESERVE;
    }

    method Charge(bytes: nat) returns (refused: Option<ReadPartial>)
      requires Valid()
      modifies this
      ensures Valid()
      ensures refused == if old(used) + bytes <= READ_WORKSPACE_BYTES then None else Some(WorkspaceLimit)
      ensures used == if refused.None? then old(used) + bytes else old(used)
    {
      if used + bytes > READ_WORKSPACE_BYTES {
        return Some(WorkspaceLimit);
      }
      used := used + bytes;
      return None;
    }

    /** Gives back at most what was charged beyond the reserve, so the subtraction cannot underflow. */
    method Release(bytes: nat)
      requires Valid() && bytes <= used - PAGE_WORKSPACE_RESERVE
      modifies this
      ensures Valid() && used == old(used) - bytes
    {
      used := used - bytes;
    }

    method Reset()
      requires Valid()
      modifies this
      ensures Valid() && used == PAGE_WORKSPACE_RESERVE
    {
      Release(used - PAGE_WORKSPACE_RESERVE);
    }
  }

  /** What one catch-up may still request and receive. */
  class HistoryBudget {
    var pages: nat
    var bytes: nat

    constructor (pages: nat, bytes: nat)
      ensures this.pages == pages && this.bytes == bytes
    {
      this.pages, this.bytes := pages, bytes;
    }
  }

  /** The byte bound of the next page, or none when the budget admits no page. */
  method HistoryPageBound(budget: HistoryBudget?, preset: nat) returns (bound: Option<nat>)
    modifies budget
    ensures budget == null ==> bound == Some(preset)
    ensures budget != null ==>
              && (bound.None? <==> old(budget.pages) == 0 || old(budget.bytes) < PROBE_MAX_BYTES)
              && budget.pages == (if bound.None? then old(budget.pages) else old(budget.pages) - 1)
              && budget.bytes == old(budget.bytes)
              && (bound.Some? ==> bound.value == Min(preset, budget.bytes))
  {
    if budget == null {
      return Some(preset);
    }
    if budget.pages == 0 || budget.bytes < PROBE_MAX_BYTES {
      return None;
    }
    budget.pages := budget.pages - 1;
    return Some(Min(preset, budget.bytes));
  }

  /** Charges the bytes of an accepted page; the page bound keeps the subtraction from underflowing. */
  method ChargeHistoryBytes(budget: HistoryBudget?, bytes: nat)
    requires budget != null ==> bytes <= budget.bytes
    modifies budget
    ensures budget != null ==> budget.bytes == old(budget.bytes) - bytes && budget.pages == old(budget.pages)
  {
    if budget != null {
      budget.bytes := budget.bytes - bytes;
    }
  }

  /** The first oversized item, reported with its size. */
  ghost predicate FirstOversized(source: seq<Bytes>, start: nat, end: nat, found: ReadPartial) {
    && found.Oversized?
    && start <= found.index < end <= |source|
    && |source[found.index]| == found.totalBytes > MAX_AUTO_ITEM_BYTES
    && forall j | start <= j < found.index :: |source[j]| <= MAX_AUTO_ITEM_BYTES
  }

  /** An assembly as a value. */
  datatype Progress = Progress(assembler: Assembler, position: ReadCursor, items: seq<RawHistoryItem>,
                               oversized: Option<ReadPartial>)
  {
    /** The position is where the assembler stands, and every finished item since `start` was kept
        unless one was oversized. */
    ghost predicate Sound(start: nat) {
      && (if assembler.active then
            position == ReadCursor(assembler.index, assembler.nextOffset)
            && 0 < assembler.nextOffset < assembler.totalBytes
          else
            assembler == Idle && position.offset == 0)
      && start <= position.item
      && |items| <= position.item - start
      && (if oversized.None? then |items| == position.item - start else oversized.value.Oversized?)
    }

    /** The open item holds the prefix of its source up to the position. */
    ghost predicate OpenItem(source: seq<Bytes>) {
      assembler.active ==>
        && position.item < |source|
        && position.offset <= |source[position.item]| == assembler.totalBytes
        && (assembler.skipping <==> assembler.totalBytes > MAX_AUTO_ITEM_BYTES)
        && assembler.buffer == if assembler.skipping then [] else source[position.item][..position.offset]
    }

    /** What was assembled so far is the source from `start` on. */
    ghost predicate Tracks(codec: Codec, source: seq<Bytes>, start: nat) {
      && position.item <= |source|
      && (oversized.None? ==> Slice(codec, source, start, position.item, items))
      && (oversized.Some? ==> FirstOversized(source, start, position.item, oversized.value))
      && OpenItem(source)
    }

    /** The chunk continues exactly where the assembly stands and can be taken. */
    predicate Accepts(chunk: ReadChunk, end: nat, codec: Codec) {
      && chunk.index == position.item && chunk.offset == position.offset && chunk.index < end
      && var outcome := assembler.Push(chunk).1;
         outcome.Ok? && (outcome.value.Item? ==> codec.decode(outcome.value.data).Ok?)
    }

    function Next(chunk: ReadChunk, codec: Codec): Progress
      requires assembler.Push(chunk).1.Ok?
      requires assembler.Push(chunk).1.value.Item? ==> codec.decode(assembler.Push(chunk).1.value.data).Ok?
    {
      var (after, outcome) := assembler.Push(chunk);
      var moved := this.(assembler := after, position := ReadCursor(position.item + 1, 0));
      match outcome.value
      case Pending => this.(assembler := after, position := ReadCursor(after.index, after.nextOffset))
      case Item(_, data) => moved.(items := items + [codec.decode(data).value])
      case Oversized(index, totalBytes) =>
        moved.(oversized := if oversized.None? then Some(ReadPartial.Oversized(index, totalBytes)) else oversized)
    }

    /** The position moved on from `before`, staying inside the same declared item size. */
    ghost predicate Follows(before: Progress) {
      && before.position.Before(position)
      && (position.item == before.position.item ==>
            assembler.active && (before.assembler.active ==> assembler.totalBytes == before.assembler.totalBytes))
    }
  }

  lemma NextSound(p: Progress, chunk: ReadChunk, end: nat, codec: Codec, start: nat)
    requires p.Sound(start) && p.Accepts(chunk, end, codec)
    ensures p.Next(chunk, codec).Sound(start) && p.Next(chunk, codec).Follows(p)
    ensures p.Next(chunk, codec).position.item <= end
  {
  }

  /** Honest chunks keep the assembly on the source. */
  lemma NextTracks(p: Progress, chunk: ReadChunk, end: nat, codec: Codec, source: seq<Bytes>, start: nat)
    requires p.Sound(start) && p.Accepts(chunk, end, codec) && p.Tracks(codec, source, start)
    requires HonestChunk(chunk, source)
    ensures p.Next(chunk, codec).Tracks(codec, source, start)
  {
    var item := source[chunk.index];
    var open := p.assembler.Opened(chunk);
    assert open.buffer == if open.skipping then [] else item[..chunk.offset];
    assert item[..chunk.offset] + chunk.data == item[..chunk.offset + |chunk.data|];
    match p.assembler.Push(chunk).1.value
    case Pending =>
    case Item(_, data) =>
      assert item[..|item|] == item;
      assert data == item;
    case Oversized(_, _) =>
  }

  /** A whole item that comes next is taken and kept. */
  lemma WholeIsKept(p: Progress, chunk: ReadChunk, end: nat, codec: Codec, start: nat)
    requires p.Sound(start) && p.position == ReadCursor(chunk.index, 0) && chunk.index < end && IsWhole(chunk, codec)
    ensures p.assembler.Push(chunk) == (Idle, Ok(Item(chunk.index, chunk.data)))
    ensures p.Accepts(chunk, end, codec)
    ensures p.Next(chunk, codec)
            == p.(position := ReadCursor(chunk.index + 1, 0), items := p.items + [codec.decode(chunk.data).value])
  {
    assert [] + chunk.data == chunk.data;
  }

  lemma KeptHeap(codec: Codec, items: seq<RawHistoryItem>, item: RawHistoryItem)
    ensures HeapBytes(codec, items + [item]) == HeapBytes(codec, items) + codec.heap(item)
  {
    assert (items + [item])[..|items|] == items;
  }

  class Assembly {
    const assembler: ChunkAssembler
    var position: ReadCursor
    var items: seq<RawHistoryItem>
    var oversized: Option<ReadPartial>
    var reservedItem: nat

    constructor (start: nat)
      ensures fresh(assembler) && Valid(start) && assembler.View() == Idle
      ensures position == ReadCursor(start, 0) && items == [] && oversized == None && reservedItem == 0
    {
      assembler := new ChunkAssembler();
      position, items, oversized, reservedItem := ReadCursor(start, 0), [], None, 0;
    }

    ghost function View(): Progress
      reads this, assembler
    {
      Progress(assembler.View(), position, items, oversized)
    }

    ghost predicate Valid(start: nat)
      reads this, assembler
    {
      && assembler.Valid()
      && View().Sound(start)
      && (!assembler.active ==> reservedItem == 0)
    }

    /** The heap of the kept items and the open reservation fit into `room`. */
    ghost predicate Held(codec: Codec, room: int)
      reads this
    {
      HeapBytes(codec, items) + reservedItem <= room
    }

    /** Reserves room for `count` items before the first page. */
    method ReserveItems(count: nat, workspace: ReadWorkspace, codec: Codec) returns (refused: Option<ReadPartial>)
      requires workspace.Valid()
      modifies workspace
      ensures workspace.Valid()
      ensures workspace.used == old(workspace.used) + (if refused.None? then count * codec.itemSize else 0)
      ensures refused == if old(workspace.used) + count * codec.itemSize > READ_WORKSPACE_BYTES
                         then Some(WorkspaceLimit) else None
    {
      refused := workspace.Charge(count * codec.itemSize);
    }

    /** Charges an item's bytes when its first chunk arrives. */
    method Reserve(chunk: ReadChunk, workspace: ReadWorkspace, codec: Codec, ghost start: nat, ghost floor: nat)
      returns (refused: Option<ReadPartial>)
      requires Valid(start) && workspace.Valid() && Held(codec, workspace.used - floor)
      requires chunk.offset == position.offset
      modifies `reservedItem, workspace
      ensures workspace.Valid() && old(workspace.used) <= workspace.used
      ensures refused.None? ==> Held(codec, workspace.used - floor)
      ensures refused.None? ==>
                reservedItem == if chunk.offset == 0 then ItemCharge(codec, chunk.totalBytes) else old(reservedItem)
      ensures refused.Some? ==> refused == Some(WorkspaceLimit)
      ensures refused.None? && chunk.offset == 0 ==>
                workspace.used == old(workspace.used) + ItemCharge(codec, chunk.totalBytes)
      ensures refused.Some? <==>
                chunk.offset == 0 && old(workspace.used) + ItemCharge(codec, chunk.totalBytes) > READ_WORKSPACE_BYTES
    {
      refused := None;
      if chunk.offset == 0 {
        var bytes := ItemCharge(codec, chunk.totalBytes);
        refused := workspace.Charge(bytes);
        if refused.Some? {
          return;
        }
        reservedItem := bytes;
      }
    }

    /** Decodes a complete item and keeps only the heap it really needs charged. */
    method KeepItem(data: Bytes, workspace: ReadWorkspace, codec: Codec, ghost floor: nat)
      returns (result: Result<Option<ReadPartial>, RpcError>)
      requires workspace.Valid() && Held(codec, workspace.used - floor) && PAGE_WORKSPACE_RESERVE <= floor
      modifies `items, `reservedItem, `position, workspace
      ensures workspace.Valid() && floor <= workspace.used
      ensures result == Ok(None) ==>
                && codec.decode(data).Ok? && items == old(items) + [codec.decode(data).value]
                && Held(codec, workspace.used - floor)
                && reservedItem == 0 && position == ReadCursor(old(position.item) + 1, 0)
      ensures result.Ok? && result.value.Some? ==> result.value == Some(WorkspaceLimit)
      ensures result.Err? ==> result.error.InvalidRead?
      ensures result.Err? <==>
                codec.decode(data).Err? && old(workspace.used) + codec.structures(data) * 512 <= READ_WORKSPACE_BYTES
      ensures codec.decode(data).Ok? && old(workspace.used) + codec.structures(data) * 512 <= READ_WORKSPACE_BYTES
              && codec.heap(codec.decode(data).value) <= old(reservedItem) + codec.structures(data) * 512 ==>
                && result == Ok(None)
                && workspace.used == old(workspace.used) - old(reservedItem) + codec.heap(codec.decode(data).value)
    {
      hide HeapBytes;
      var structures := codec.structures(data) * 512;
      var refused := workspace.Charge(structures);
      if refused.Some? {
        return Ok(refused);
      }
      reservedItem := reservedItem + structures;
      var decoded := codec.decode(data);
      if decoded.Err? {
        return Err(InvalidRead(decoded.error));
      }
      var retained := codec.heap(decoded.value);
      if retained > reservedItem {
        return Ok(Some(WorkspaceLimit));
      }
      KeptHeap(codec, items, decoded.value);
      items := items + [decoded.value];
      workspace.Release(reservedItem - retained);
      reservedItem := 0;
      position := ReadCursor(position.item + 1, 0);
      return Ok(None);
    }

    /** Takes the next chunk: it has to continue exactly where the assembly stands. */
    method Push(chunk: ReadChunk, end: nat, workspace: ReadWorkspace, codec: Codec, ghost start: nat, ghost floor: nat)
      returns (result: Result<Option<ReadPartial>, RpcError>)
      requires Valid(start) && workspace.Valid() && Held(codec, workspace.used - floor)
      requires PAGE_WORKSPACE_RESERVE <= floor
      modifies this, assembler, workspace
      ensures workspace.Valid() && floor <= workspace.used
      ensures result == Ok(None) ==>
                && old(View()).Accepts(chunk, end, codec) && View() == old(View()).Next(chunk, codec)
                && Valid(start) && Held(codec, workspace.used - floor)
      ensures result.Ok? && result.value.Some? ==> result.value == Some(WorkspaceLimit)
      ensures result.Err? ==> result.error.InvalidRead?
      ensures result.Err? ==> !old(View()).Accepts(chunk, end, codec)
      // a whole item that comes next is taken whenever the memory suffices
      ensures IsWhole(chunk, codec) && old(position) == ReadCursor(chunk.index, 0) && chunk.index < end
              && old(workspace.used) + Cost(codec, chunk.data) <= READ_WORKSPACE_BYTES ==>
                result == Ok(None) && workspace.used <= old(workspace.used) + Cost(codec, chunk.data)
    {
      if chunk.index != position.item || chunk.offset != position.offset || end <= chunk.index {
        return Err(InvalidRead("item chunks are not contiguous"));
      }
      var refused := Reserve(chunk, workspace, codec, start, floor);
      if refused.Some? {
        return Ok(refused);
      }
      if View().Accepts(chunk, end, codec) {
        NextSound(View(), chunk, end, codec, start);
      }
      result := Take(chunk, end, workspace, codec, start, floor);
    }

    /** Hands a continuing chunk, already paid for, to the assembler. */
    method Take(chunk: ReadChunk, end: nat, workspace: ReadWorkspace, codec: Codec, ghost start: nat, ghost floor: nat)
      returns (result: Result<Option<ReadPartial>, RpcError>)
      requires assembler.Valid() && View().Sound(start)
      requires workspace.Valid() && Held(codec, workspace.used - floor) && PAGE_WORKSPACE_RESERVE <= floor
      requires chunk.index == position.item && chunk.offset == position.offset && chunk.index < end
      modifies this, assembler, workspace
      ensures workspace.Valid() && floor <= workspace.used
      ensures result == Ok(None) ==>
                && old(View()).Accepts(chunk, end, codec) && View() == old(View()).Next(chunk, codec)
                && assembler.Valid() && (!assembler.active ==> reservedItem == 0) && Held(codec, workspace.used - floor)
      ensures result.Ok? && result.value.Some? ==> result.value == Some(WorkspaceLimit)
      ensures result.Err? ==> result.error.InvalidRead?
      ensures result.Err? ==> !old(View()).Accepts(chunk, end, codec)
      ensures IsWhole(chunk, codec) && old(reservedItem) == ItemCharge(codec, chunk.totalBytes)
              && old(workspace.used) + codec.structures(chunk.data) * 512 <= READ_WORKSPACE_BYTES ==>
                result == Ok(None)
                && workspace.used <= old(workspace.used) + codec.structures(chunk.data) * 512
    {
      if IsWhole(chunk, codec) {
        WholeIsKept(View(), chunk, end, codec, start);
      }
      var outcome := assembler.Push(chunk);
      if outcome.Err? {
        return Err(InvalidRead("item chunk"));
      }
      match outcome.value {
        case Pending =>
          position := ReadCursor(assembler.index, assembler.nextOffset);
          return Ok(None);
        case Item(index, data) =>
          result := KeepItem(data, workspace, codec, floor);
        case Oversized(index, totalBytes) =>
          if oversized.None? {
            oversized := Some(ReadPartial.Oversized(index, totalBytes));
          }
          reservedItem := 0;
          position := ReadCursor(position.item + 1, 0);
          return Ok(None);
      }
    }
  }
}
