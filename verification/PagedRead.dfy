/** Windows of pinned history, read page by page within the page, byte and memory budgets. */
module PagedReads {
  import opened Wrappers
  import opened ChunkAssemblers
  import opened ReadModel
  import opened Servings
  import opened Assemblies

  /** The Agent as the client sees it: an arbitrary answer to each request, by arrival order. */
  class Client {
    const server: (nat, Request) -> Reply
    var calls: nat
    ghost var asked: seq<Request>
    /** The bytes of all pages accepted so far. */
    ghost var charged: nat

    constructor (server: (nat, Request) -> Reply)
      ensures this.server == server && calls == 0 && asked == [] && charged == 0
    {
      this.server, calls, asked, charged := server, 0, [], 0;
    }

    method Call(request: Request) returns (reply: Reply)
      modifies this
      ensures calls == old(calls) + 1 && charged == old(charged) && asked == old(asked) + [request]
      ensures reply == server(old(calls), request)
    {
      reply := server(calls, request);
      calls := calls + 1;
      asked := asked + [request];
    }

    /** How the last call was refused, if it was. */
    ghost function Refusal(): Option<RpcError>
      reads this
    {
      if asked != [] && calls > 0 && server(calls - 1, asked[|asked| - 1]).Refused?
      then Some(server(calls - 1, asked[|asked| - 1]).error) else None
    }
  }

  /** A refusal ends a read with its own error, and no other end looks like one. */
  ghost predicate Reports<T>(refusal: Option<RpcError>, result: Result<T, RpcError>) {
    && (refusal.Some? ==> result == Err(refusal.value))
    && (result.Err? && result.error.Remote? ==> refusal == Some(result.error))
  }

  lemma Unrefused<A>(refusal: Option<RpcError>, result: Result<A, RpcError>)
    requires refusal.None? && result.Ok?
    ensures Reports(refusal, result)
  {
  }

  /** What follows from a read that was not refused is not refused either. */
  lemma ReportsOn<A, B>(refusal: Option<RpcError>, read: Result<A, RpcError>, result: Result<B, RpcError>)
    requires Reports(refusal, read)
    requires if read.Err? then result == Err(read.error) else result.Ok? || result.error.InvalidRead?
    ensures Reports(refusal, result) && (read.Ok? ==> refusal.None?)
  {
  }

  datatype WindowRead =
    | Complete(items: seq<RawHistoryItem>, records: seq<TurnRecord>)
    | Limited(items: seq<RawHistoryItem>, records: seq<TurnRecord>, from: nat, end: nat, reason: ReadPartial)
    | Partial(reason: ReadPartial)

  /** The shape of a window over `[start..end)`: all of it, a proper prefix, or a reason. */
  ghost predicate Meets(read: WindowRead, start: nat, end: nat) {
    match read
    case Complete(items, records) => |items| == end - start && OnePerTurn(records)
    case Limited(items, records, from, through, reason) =>
      from == start <= through < end && |items| == through - start && reason == HistoryLimit && OnePerTurn(records)
    case Partial(reason) => reason != HistoryLimit
  }

  /** The items of a window are the slice of the source it names; an oversized item is the first one. */
  ghost predicate MeetsSource(read: WindowRead, codec: Codec, source: seq<Bytes>, start: nat, end: nat) {
    match read
    case Complete(items, _) => Slice(codec, source, start, end, items)
    case Limited(items, _, from, through, _) => Slice(codec, source, from, through, items)
    case Partial(reason) => reason.Oversized? ==> FirstOversized(source, start, end, reason)
  }

  // ---- one page -------------------------------------------------------

  /** The chunks of a page taken one after another. */
  function Taken(p: Progress, chunks: seq<ReadChunk>, end: nat, codec: Codec): Option<Progress> {
    if chunks == [] then Some(p)
    else match Taken(p, chunks[..|chunks| - 1], end, codec)
      case None => None
      case Some(q) =>
        if q.Accepts(chunks[|chunks| - 1], end, codec) then Some(q.Next(chunks[|chunks| - 1], codec)) else None
  }

  lemma {:induction false} TakenSound(p: Progress, chunks: seq<ReadChunk>, end: nat, codec: Codec, start: nat)
    requires p.Sound(start) && p.position.item <= end && Taken(p, chunks, end, codec).Some?
    ensures var q := Taken(p, chunks, end, codec).value;
            q.Sound(start) && q.position.item <= end && (q == p || q.Follows(p))
  {
    if chunks != [] {
      TakenSound(p, chunks[..|chunks| - 1], end, codec, start);
      NextSound(Taken(p, chunks[..|chunks| - 1], end, codec).value, chunks[|chunks| - 1], end, codec, start);
    }
  }

  lemma {:induction false} TakenTracks(p: Progress, chunks: seq<ReadChunk>, end: nat, codec: Codec, source: seq<Bytes>,
                                       start: nat)
    requires p.Sound(start) && p.position.item <= end && Taken(p, chunks, end, codec).Some?
    requires p.Tracks(codec, source, start)
    requires forall i | 0 <= i < |chunks| :: HonestChunk(chunks[i], source)
    ensures Taken(p, chunks, end, codec).value.Tracks(codec, source, start)
  {
    if chunks != [] {
      var rest := chunks[..|chunks| - 1];
      assert forall i | 0 <= i < |rest| :: rest[i] == chunks[i];
      TakenTracks(p, rest, end, codec, source, start);
      TakenSound(p, rest, end, codec, start);
      NextTracks(Taken(p, rest, end, codec).value, chunks[|chunks| - 1], end, codec, source, start);
    }
  }

  /** A chunk finishes one item at most. */
  lemma {:induction false} TakenCount(p: Progress, chunks: seq<ReadChunk>, end: nat, codec: Codec, start: nat)
    requires p.Sound(start) && p.position.item <= end && Taken(p, chunks, end, codec).Some?
    ensures Taken(p, chunks, end, codec).value.position.item <= p.position.item + |chunks|
  {
    if chunks != [] {
      TakenCount(p, chunks[..|chunks| - 1], end, codec, start);
      TakenSound(p, chunks[..|chunks| - 1], end, codec, start);
    }
  }

  /** The chunks are whole items of the source that follow the assembly, and memory suffices for them. */
  ghost predicate Smooth(p: Progress, chunks: seq<ReadChunk>, end: nat, used: nat, codec: Codec, source: seq<Bytes>) {
    var i := p.position.item;
    && AreReadable(codec, source) && p.position.offset == 0 && i + |chunks| <= end
    && AreWhole(chunks, source, i, i + |chunks|)
    && used + Costs(codec, source, i, i + |chunks|) <= READ_WORKSPACE_BYTES
  }

  lemma SmoothNext(p: Progress, chunks: seq<ReadChunk>, n: nat, end: nat, used: nat, codec: Codec,
                   source: seq<Bytes>)
    requires Smooth(p, chunks, end, used, codec, source) && n < |chunks|
    ensures var i := p.position.item;
            && IsWhole(chunks[n], codec) && chunks[n].index == i + n
            && Costs(codec, source, i, i + n + 1) == Costs(codec, source, i, i + n) + Cost(codec, chunks[n].data)
            && used + Costs(codec, source, i, i + n + 1) <= READ_WORKSPACE_BYTES
  {
    CostsSplit(codec, source, p.position.item, p.position.item + n + 1, p.position.item + |chunks|);
    assert chunks[n] == WholeChunk(source, p.position.item + n);
    assert IsReadable(codec, source[p.position.item + n]);
  }

  method PushChunks(assembly: Assembly, chunks: seq<ReadChunk>, end: nat, workspace: ReadWorkspace, codec: Codec,
                    ghost source: seq<Bytes>, ghost start: nat, ghost floor: nat)
    returns (result: Result<Option<ReadPartial>, RpcError>)
    requires assembly.Valid(start) && assembly.position.item <= end
    requires workspace.Valid() && assembly.Held(codec, workspace.used - floor) && PAGE_WORKSPACE_RESERVE <= floor
    modifies assembly, assembly.assembler, workspace
    ensures result.Err? ==> result.error.InvalidRead?
    ensures workspace.Valid() && floor <= workspace.used
    ensures result == Ok(None) ==>
              && assembly.Valid(start) && assembly.Held(codec, workspace.used - floor)
              && Taken(old(assembly.View()), chunks, end, codec) == Some(assembly.View())
    ensures result.Ok? && result.value.Some? ==> result.value == Some(WorkspaceLimit)
    ensures result.Err? ==> Taken(old(assembly.View()), chunks, end, codec).None?
    ensures Smooth(old(assembly.View()), chunks, end, old(workspace.used), codec, source) ==>
              var i := old(assembly.position.item);
              && result == Ok(None)
              && assembly.position == ReadCursor(i + |chunks|, 0) && assembly.oversized == old(assembly.oversized)
              && workspace.used <= old(workspace.used) + Costs(codec, source, i, i + |chunks|)
  {
    hide Smooth;
    hide IsWhole;
    hide Costs;
    hide Cost;
    hide HeapBytes;
    hide Progress.Next;
    hide Progress.Accepts;
    hide Progress.Sound;
    hide Assembler.Push;
    ghost var before := assembly.View();
    ghost var smooth := Smooth(before, chunks, end, workspace.used, codec, source);
    ghost var from := assembly.position.item;
    if smooth {
      SmoothBounds(before, chunks, end, workspace.used, codec, source);
    }
    var i := 0;
    while i < |chunks|
      invariant 0 <= i <= |chunks|
      invariant workspace.Valid() && assembly.Valid(start) && assembly.Held(codec, workspace.used - floor)
      invariant Taken(before, chunks[..i], end, codec) == Some(assembly.View())
      invariant smooth ==>
                  && assembly.position == ReadCursor(from + i, 0) && assembly.oversized == before.oversized
                  && workspace.used <= old(workspace.used) + Costs(codec, source, from, from + i)
    {
      if smooth {
        SmoothNext(before, chunks, i, end, old(workspace.used), codec, source);
        WholeIsKept(assembly.View(), chunks[i], end, codec, start);
      }
      result := assembly.Push(chunks[i], end, workspace, codec, start, floor);
      assert chunks[..i + 1][..i] == chunks[..i];
      if result != Ok(None) {
        if result.Err? {
          TakenStops(before, chunks, i + 1, end, codec);
        }
        return;
      }
      i := i + 1;
    }
    assert chunks[..i] == chunks;
    return Ok(None);
  }

  lemma SmoothBounds(p: Progress, chunks: seq<ReadChunk>, end: nat, used: nat, codec: Codec, source: seq<Bytes>)
    requires Smooth(p, chunks, end, used, codec, source)
    ensures p.position.offset == 0 && p.position.item + |chunks| <= Min(end, |source|)
  {
  }

  lemma {:induction false} TakenStops(p: Progress, chunks: seq<ReadChunk>, n: nat, end: nat, codec: Codec)
    requires n <= |chunks| && Taken(p, chunks[..n], end, codec).None?
    ensures Taken(p, chunks, end, codec).None?
  {
    if n == |chunks| {
      assert chunks[..n] == chunks;
    } else {
      assert chunks[..|chunks| - 1][..n] == chunks[..n];
      TakenStops(p, chunks[..|chunks| - 1], n, end, codec);
    }
  }

  /** Whether a page that began at `start` ended where its cursor says, having made progress. */
  predicate PageEnds(p: Progress, start: ReadCursor, next: Option<ReadCursor>, total: nat) {
    && !(p.position == start && start.item < total)
    && next == (if p.position.item < total then Some(p.position) else None)
    && (next.Some? ==> start.Before(next.value))
    && (next.None? ==> !p.assembler.active)
  }

  method PageEnd(assembly: Assembly, start: ReadCursor, next: Option<ReadCursor>, total: nat)
    returns (error: Option<RpcError>)
    ensures error.None? <==> PageEnds(assembly.View(), start, next, total)
    ensures error.Some? ==> error.value.InvalidRead?
  {
    if assembly.position == start && start.item < total {
      return Some(InvalidRead("read page made no progress"));
    }
    var expected := if assembly.position.item < total then Some(assembly.position) else None;
    if next != expected || (next.Some? && !start.Before(next.value)) {
      return Some(InvalidRead("cursor does not match the assembled items"));
    }
    var cursor := assembly.assembler.NextCursor();
    if next.None? && cursor.Some? {
      return Some(InvalidRead("the final item is incomplete"));
    }
    return None;
  }

  /** Adds the turn records of a page, charging each new one; a record that contradicts another of its
      turn is an error, and nothing else is. */
  method MergeRecords(known: seq<TurnRecord>, added: seq<TurnRecord>, workspace: ReadWorkspace, codec: Codec,
                      ghost serving: Serving)
    returns (records: seq<TurnRecord>, result: Result<Option<ReadPartial>, RpcError>)
    requires workspace.Valid()
    modifies workspace
    ensures result.Err? ==> result.error.InvalidRead?
    ensures workspace.Valid() && old(workspace.used) <= workspace.used
    ensures result == Ok(None) ==>
              && RecordCharges(codec, records) - RecordCharges(codec, known) == workspace.used - old(workspace.used)
              && known <= records && (forall r :: r in records <==> r in known || r in added)
    ensures OnePerTurn(known) ==>
              && (result == Ok(None) ==> OnePerTurn(records) && Agree(known, added))
              && (result.Err? ==> !Agree(known, added))
    ensures result.Ok? && result.value.Some? ==> result.value == Some(WorkspaceLimit)
    // records of one server never contradict each other
    ensures FromFacts(known, serving) && FromFacts(added, serving)
            && old(workspace.used) + RecordCharges(codec, added) <= READ_WORKSPACE_BYTES ==>
              && result == Ok(None) && FromFacts(records, serving)
              && workspace.used <= old(workspace.used) + RecordCharges(codec, added)
  {
    hide RecordCharges;
    hide Agree;
    records := known;
    ghost var fit := FromFacts(known, serving) && FromFacts(added, serving)
                     && workspace.used + RecordCharges(codec, added) <= READ_WORKSPACE_BYTES;
    NoCharges(codec, added);
    var i := 0;
    while i < |added|
      invariant 0 <= i <= |added| && workspace.Valid() && known <= records
      invariant RecordCharges(codec, records) - RecordCharges(codec, known) == workspace.used - old(workspace.used)
      invariant forall r :: r in records <==> r in known || r in added[..i]
      invariant OnePerTurn(known) ==> OnePerTurn(records)
      invariant old(workspace.used) <= workspace.used
      invariant fit ==> FromFacts(records, serving)
                        && workspace.used <= old(workspace.used) + RecordCharges(codec, added[..i])
    {
      ChargesNext(codec, added, i);
      var record := added[i];
      assert added[..i + 1] == added[..i] + [record];
      if exists j :: 0 <= j < |records| && records[j].loopId == record.loopId {
        if record !in records {
          assert !fit;
          var j :| 0 <= j < |records| && records[j].loopId == record.loopId;
          Contradict(known, added, records[j], record);
          return records, Err(InvalidRead("history turn metadata changed between pages"));
        }
      } else {
        var refused := workspace.Charge(codec.recordCharge(record));
        if refused.Some? {
          return records, Ok(refused);
        }
        ChargesMore(codec, records, record);
        records := records + [record];
      }
      i := i + 1;
    }
    assert added[..i] == added;
    if OnePerTurn(known) {
      MergedAgree(known, added, records);
    }
    return records, Ok(None);
  }

  lemma Contradict(known: seq<TurnRecord>, added: seq<TurnRecord>, a: TurnRecord, b: TurnRecord)
    requires (a in known || a in added) && (b in known || b in added) && a.loopId == b.loopId && a != b
    ensures !Agree(known, added)
  {
    assert a in known + added && b in known + added;
  }

  lemma NoCharges(codec: Codec, added: seq<TurnRecord>)
    ensures RecordCharges(codec, added[..0]) == 0
  {
  }

  lemma ChargesMore(codec: Codec, records: seq<TurnRecord>, record: TurnRecord)
    ensures RecordCharges(codec, records + [record]) == RecordCharges(codec, records) + codec.recordCharge(record)
  {
    assert (records + [record])[..|records|] == records;
  }

  lemma ChargesNext(codec: Codec, added: seq<TurnRecord>, n: nat)
    requires n < |added|
    ensures RecordCharges(codec, added[..n + 1]) == RecordCharges(codec, added[..n]) + codec.recordCharge(added[n])
    ensures RecordCharges(codec, added[..n + 1]) <= RecordCharges(codec, added)
  {
    ChargesMore(codec, added[..n], added[n]);
    assert added[..n + 1] == added[..n] + [added[n]];
    ChargesGrow(codec, added, n + 1);
  }

  lemma {:induction false} ChargesGrow(codec: Codec, added: seq<TurnRecord>, n: nat)
    requires n <= |added|
    ensures RecordCharges(codec, added[..n]) <= RecordCharges(codec, added)
  {
    if n == |added| {
      assert added[..n] == added;
    } else {
      ChargesGrow(codec, added[..|added| - 1], n);
      assert added[..|added| - 1][..n] == added[..n];
    }
  }

  // ---- one window -----------------------------------------------------

  ghost predicate HonestChunks(chunks: seq<ReadChunk>, source: seq<Bytes>) {
    forall i | 0 <= i < |chunks| :: HonestChunk(chunks[i], source)
  }

  /** No page holds more chunks than the items it was asked for. */
  ghost predicate Obeys(server: (nat, Request) -> Reply) {
    forall n, request :: server(n, request).Answered? ==> |server(n, request).page.items| <= request.limit
  }

  /** The items of the page that begins at the start of one fit the bound. */
  ghost predicate FitsPage(position: ReadCursor, end: nat, maxBytes: nat, source: seq<Bytes>) {
    && position.offset == 0 && position.item < end <= |source|
    && Sizes(source, position.item, PageStop(position.item, end)) <= maxBytes
  }

  lemma PageIsServed(server: (nat, Request) -> Reply, n: nat, request: Request, sessionId: string, pin: SnapshotPin,
                     codec: Codec, source: seq<Bytes>, serving: Serving, end: nat)
    requires Serves(server, sessionId, pin, codec, source, serving) && end <= pin.total
    requires request.pin == Some(pin) && request.cursor.Some?
    requires FitsPage(request.cursor.value, end, request.maxBytes, source)
    requires request.limit == Min(PAGE_LIMIT, end - request.cursor.value.item)
    ensures var i := request.cursor.value.item;
            && server(n, request).Answered?
            && server(n, request).page.sessionId == sessionId && server(n, request).page.pin == pin
            && HoldsWhole(server(n, request).page, codec, source, i, PageStop(i, end), pin.total, serving)
            && DataBytes(server(n, request).page.items) <= request.maxBytes
  {
    var i := request.cursor.value.item;
    assert Min(i + request.limit, pin.total) == PageStop(i, end);
    assert AsksWhole(request, pin, source);
    WholeBytes(server(n, request).page.items, source, i, PageStop(i, end));
  }

  /** The request for the items from `position` on, at most a page and none from `end` on. */
  function PageRequest(view: View, pin: SnapshotPin, position: ReadCursor, end: nat, maxBytes: nat): Request
    requires position.item < end
  {
    Request(view, Min(PAGE_LIMIT, end - position.item), maxBytes, Some(position), Some(pin))
  }

  /** Requests one page of a pinned window and checks its size and identity; an accepted page
      is paid for before anything else is looked at. */
  method FetchPage(client: Client, sessionId: string, view: View, pin: SnapshotPin, position: ReadCursor, end: nat,
                   maxBytes: nat, budget: HistoryBudget?, ghost codec: Codec,
                   ghost history: SnapshotPin -> seq<Bytes>, ghost serving: Serving)
    returns (result: Result<Page, RpcError>)
    requires position.item < end && (budget != null ==> maxBytes <= budget.bytes)
    modifies client, budget
    ensures Reports(client.Refusal(), result)
    ensures client.calls == old(client.calls) + 1 && old(client.charged) <= client.charged
    ensures client.asked == old(client.asked) + [PageRequest(view, pin, position, end, maxBytes)]
    ensures budget != null ==>
              budget.pages == old(budget.pages)
              && client.charged - old(client.charged) == old(budget.bytes) - budget.bytes
    ensures result.Ok? ==> result.value.pin == pin && DataBytes(result.value.items) <= maxBytes
    ensures result.Ok? ==> client.charged == old(client.charged) + DataBytes(result.value.items)
    ensures result.Ok? && HonestServer(client.server, history) ==> HonestChunks(result.value.items, history(pin))
    ensures result.Ok? && Obeys(client.server) ==> |result.value.items| <= PAGE_LIMIT
    ensures Serves(client.server, sessionId, pin, codec, history(pin), serving)
            && end <= pin.total && FitsPage(position, end, maxBytes, history(pin)) ==>
              && result.Ok?
              && HoldsWhole(result.value, codec, history(pin), position.item, PageStop(position.item, end), pin.total,
                            serving)
  {
    hide HoldsWhole;
    hide Sizes;
    var request := PageRequest(view, pin, position, end, maxBytes);
    var reply := client.Call(request);
    if Serves(client.server, sessionId, pin, codec, history(pin), serving)
       && end <= pin.total && FitsPage(position, end, maxBytes, history(pin)) {
      PageIsServed(client.server, old(client.calls), request, sessionId, pin, codec, history(pin), serving, end);
    }
    if reply.Refused? {
      return Err(reply.error);
    }
    var page := reply.page;
    if DataBytes(page.items) > maxBytes {
      return Err(InvalidRead("read page exceeds the requested byte budget"));
    }
    ChargeHistoryBytes(budget, DataBytes(page.items));
    client.charged := client.charged + DataBytes(page.items);
    if page.sessionId != sessionId || page.pin != pin {
      return Err(InvalidRead("history page does not match its pinned snapshot"));
    }
    assert client.server(old(client.calls), request) == Answered(page);
    return Ok(page);
  }

  /** Takes the records and chunks of one page and checks that its cursor matches. */
  method TakePage(page: Page, assembly: Assembly, records: seq<TurnRecord>, end: nat, total: nat,
                  workspace: ReadWorkspace, codec: Codec, ghost source: seq<Bytes>, ghost serving: Serving,
                  ghost start: nat, ghost floor: nat)
    returns (merged: seq<TurnRecord>, result: Result<Option<ReadPartial>, RpcError>)
    requires assembly.Valid(start) && assembly.position.item < end <= total && workspace.Valid()
    requires assembly.Held(codec, workspace.used - floor - RecordCharges(codec, records))
    requires PAGE_WORKSPACE_RESERVE <= floor
    modifies assembly, assembly.assembler, workspace
    ensures result.Err? ==> result.error.InvalidRead?
    ensures workspace.Valid() && floor <= workspace.used
    ensures result == Ok(None) ==>
              && assembly.Valid(start) && assembly.position.item <= end
              && assembly.Held(codec, workspace.used - floor - RecordCharges(codec, merged))
              && Taken(old(assembly.View()), page.items, end, codec) == Some(assembly.View())
              && assembly.View().Follows(old(assembly.View()))
              && (OnePerTurn(records) ==> OnePerTurn(merged))
    ensures result.Ok? && result.value.Some? ==> result.value == Some(WorkspaceLimit)
    ensures var i := old(assembly.position.item); var m := PageStop(i, end);
            && HoldsWhole(page, codec, source, i, m, total, serving) && old(assembly.position.offset) == 0
            && AreReadable(codec, source) && FromFacts(records, serving)
            && old(workspace.used) + Costs(codec, source, i, m) + serving.room <= READ_WORKSPACE_BYTES ==>
              && result == Ok(None) && assembly.position == ReadCursor(m, 0)
              && assembly.oversized == old(assembly.oversized) && FromFacts(merged, serving)
              && workspace.used <= old(workspace.used) + Costs(codec, source, i, m) + serving.room
  {
    hide Taken;
    hide Costs;
    hide RecordCharges;
    hide FromFacts;
    hide AreReadable;
    hide HeapBytes;
    hide Progress.Sound;
    merged, result := MergeRecords(records, page.records, workspace, codec, serving);
    if result != Ok(None) {
      return;
    }
    ghost var before := assembly.View();
    var position := assembly.position;
    result := PushChunks(assembly, page.items, end, workspace, codec, source, start,
                         floor + RecordCharges(codec, merged));
    if result != Ok(None) {
      return;
    }
    TakenSound(before, page.items, end, codec, start);
    var error := PageEnd(assembly, position, page.nextCursor, total);
    if error.Some? {
      result := Err(error.value);
    }
  }

  /** One round of a window: a page is requested, paid for, checked and taken. */
  method ReadPage(client: Client, sessionId: string, view: View, pin: SnapshotPin, maxBytes: nat, assembly: Assembly,
                  records: seq<TurnRecord>, end: nat, workspace: ReadWorkspace, budget: HistoryBudget?, codec: Codec,
                  ghost history: SnapshotPin -> seq<Bytes>, ghost serving: Serving, ghost start: nat, ghost floor: nat)
    returns (merged: seq<TurnRecord>, result: Result<Option<ReadPartial>, RpcError>)
    requires assembly.Valid(start) && assembly.position.item < end <= pin.total && workspace.Valid()
    requires assembly.Held(codec, workspace.used - floor - RecordCharges(codec, records))
    requires PAGE_WORKSPACE_RESERVE <= floor
    requires budget != null ==> maxBytes <= budget.bytes
    modifies client, workspace, budget, assembly, assembly.assembler
    ensures Reports(client.Refusal(), result)
    ensures client.calls == old(client.calls) + 1 && old(client.charged) <= client.charged
    ensures workspace.Valid() && floor <= workspace.used
    ensures client.asked == old(client.asked) + [PageRequest(view, pin, old(assembly.position), end, maxBytes)]
    ensures budget != null ==>
              budget.pages == old(budget.pages)
              && client.charged - old(client.charged) == old(budget.bytes) - budget.bytes
    ensures result == Ok(None) ==>
              && assembly.Valid(start) && assembly.position.item <= end
              && assembly.Held(codec, workspace.used - floor - RecordCharges(codec, merged))
              && assembly.View().Follows(old(assembly.View()))
              && (OnePerTurn(records) ==> OnePerTurn(merged))
    ensures result == Ok(None) && HonestServer(client.server, history)
            && old(assembly.View()).Tracks(codec, history(pin), start) ==>
              assembly.View().Tracks(codec, history(pin), start)
    ensures result == Ok(None) && Obeys(client.server) ==>
              assembly.position.item <= old(assembly.position.item) + PAGE_LIMIT
    ensures result.Ok? && result.value.Some? ==> result.value == Some(WorkspaceLimit)
    ensures var i := old(assembly.position.item); var m := PageStop(i, end); var source := history(pin);
            && Serves(client.server, sessionId, pin, codec, source, serving) && AreReadable(codec, source)
            && FitsPage(old(assembly.position), end, maxBytes, source) && FromFacts(records, serving)
            && old(workspace.used) + Costs(codec, source, i, m) + serving.room <= READ_WORKSPACE_BYTES ==>
              && result == Ok(None) && assembly.position == ReadCursor(m, 0)
              && assembly.oversized == old(assembly.oversized) && FromFacts(merged, serving)
              && workspace.used <= old(workspace.used) + Costs(codec, source, i, m) + serving.room
              && client.charged == old(client.charged) + Sizes(source, i, m)
  {
    hide Serves;
    hide AreReadable;
    hide HoldsWhole;
    hide Costs;
    hide Sizes;
    hide FromFacts;
    hide HeapBytes;
    hide Obeys;
    hide HonestServer;
    hide Taken;
    hide DataBytes;
    hide RecordCharges;
    hide Progress.Tracks;
    hide Progress.Sound;
    merged := records;
    var page := FetchPage(client, sessionId, view, pin, assembly.position, end, maxBytes, budget, codec, history,
                          serving);
    if page.Err? {
      return merged, Err(page.error);
    }
    ghost var before := assembly.View();
    ServedBytes(page.value, codec, history(pin), before.position.item, end, pin.total, serving);
    merged, result := TakePage(page.value, assembly, records, end, pin.total, workspace, codec, history(pin),
                               serving, start, floor);
    if result == Ok(None) {
      TakenCount(before, page.value.items, end, codec, start);
    }
    if result == Ok(None) && HonestServer(client.server, history) && before.Tracks(codec, history(pin), start) {
      TakenTracks(before, page.value.items, end, codec, history(pin), start);
    }
  }

  lemma ServedBytes(page: Page, codec: Codec, source: seq<Bytes>, i: nat, end: nat, total: nat, serving: Serving)
    ensures HoldsWhole(page, codec, source, i, PageStop(i, end), total, serving) ==>
              && i <= PageStop(i, end) <= |source|
              && DataBytes(page.items) == Sizes(source, i, PageStop(i, end))
  {
    if HoldsWhole(page, codec, source, i, PageStop(i, end), total, serving) {
      WholeBytes(page.items, source, i, PageStop(i, end));
    }
  }

  /** The server answers in whole items that can all be read. */
  ghost predicate CanServe(server: (nat, Request) -> Reply, sessionId: string, pin: SnapshotPin, codec: Codec,
                           source: seq<Bytes>, serving: Serving) {
    Serves(server, sessionId, pin, codec, source, serving) && AreReadable(codec, source) && PagesFit(source)
  }

  /** The memory in use, the pages and bytes left if they are limited, and the calls made and bytes charged. */
  datatype Means = Means(used: nat, limited: bool, pages: nat, bytes: nat, calls: nat, charged: nat)

  /** A window to read, with the means and the assembly it begins with. `obeys` and `served` say that the
      server keeps to the limits, and that it serves all of the window for these means. */
  datatype Way = Way(view: View, pin: SnapshotPin, start: nat, end: nat, means: Means, before: Progress, codec: Codec,
                     source: seq<Bytes>, serving: Serving, obeys: bool, served: bool)

  ghost function MeansOf(client: Client, workspace: ReadWorkspace, budget: HistoryBudget?): Means
    reads client, workspace, budget
  {
    if budget == null then Means(workspace.used, false, 0, 0, client.calls, client.charged)
    else Means(workspace.used, true, budget.pages, budget.bytes, client.calls, client.charged)
  }

  /** Every call took a page from the budget, and every byte that was charged. */
  predicate Balanced(before: Means, after: Means) {
    && after.limited == before.limited && before.calls <= after.calls && before.charged <= after.charged
    && (before.limited ==>
          && after.calls - before.calls == before.pages - after.pages
          && after.charged - before.charged == before.bytes - after.bytes)
  }

  /** No more than a page of items for every page taken. */
  predicate Within(items: int, before: Means, after: Means) {
    before.limited ==> items <= (before.pages - after.pages) * PAGE_LIMIT
  }

  /** The means are enough for the items `[i..end)`, and the bytes for one more probe. */
  predicate Suffice(means: Means, codec: Codec, source: seq<Bytes>, i: nat, end: nat, serving: Serving) {
    && i <= end <= |source|
    && means.used + Demand(codec, source, i, end, serving.room) <= READ_WORKSPACE_BYTES
    && (means.limited ==>
          Pages(end - i) <= means.pages && Sizes(source, i, end) + PROBE_MAX_BYTES <= means.bytes)
  }

  /** From `before` to `after` the items `[i..m)` were paid for and no more. */
  predicate Paid(before: Means, after: Means, codec: Codec, source: seq<Bytes>, i: nat, m: nat, end: nat,
                 serving: Serving)
    requires i <= m <= end <= |source|
  {
    && after.limited == before.limited
    && after.used + Demand(codec, source, m, end, serving.room)
       <= before.used + Demand(codec, source, i, end, serving.room)
    && (before.limited ==>
          && before.pages - after.pages == Pages(end - i) - Pages(end - m)
          && before.bytes - after.bytes == Sizes(source, i, end) - Sizes(source, m, end))
  }

  /** All of `[i..end)` was paid for. */
  lemma PaidAll(before: Means, after: Means, codec: Codec, source: seq<Bytes>, i: nat, end: nat, serving: Serving)
    requires Suffice(before, codec, source, i, end, serving)
    requires Paid(before, after, codec, source, i, end, end, serving)
    ensures i <= end <= |source| && after.used <= before.used + Demand(codec, source, i, end, serving.room)
    ensures before.limited ==>
              after.pages == before.pages - Pages(end - i) && after.bytes == before.bytes - Sizes(source, i, end)
  {
  }

  /** The means are enough for the next page. */
  lemma PageSuffices(means: Means, codec: Codec, source: seq<Bytes>, i: nat, end: nat, serving: Serving)
    requires Suffice(means, codec, source, i, end, serving) && i < end && PagesFit(source)
    ensures var m := PageStop(i, end);
            && means.used + Costs(codec, source, i, m) + serving.room <= READ_WORKSPACE_BYTES
            && FitsPage(ReadCursor(i, 0), end, PAGE_MAX_BYTES, source)
            && (means.limited ==> 0 < means.pages && PROBE_MAX_BYTES <= means.bytes)
            && (means.limited ==> FitsPage(ReadCursor(i, 0), end, Min(PAGE_MAX_BYTES, means.bytes), source))
  {
    var m := PageStop(i, end);
    DemandNext(codec, source, i, end, serving.room);
    SizesSplit(source, i, m, end);
    PagesNext(end - i);
  }

  lemma PagePaid(first: Means, before: Means, after: Means, codec: Codec, source: seq<Bytes>, start: nat, i: nat,
                 end: nat, serving: Serving)
    requires start <= i < end <= |source| && Paid(first, before, codec, source, start, i, end, serving)
    requires var m := PageStop(i, end);
             && after.used <= before.used + Costs(codec, source, i, m) + serving.room
             && after.limited == before.limited
             && (before.limited ==>
                   after.pages == before.pages - 1 && after.bytes == before.bytes - Sizes(source, i, m))
    ensures Paid(first, after, codec, source, start, PageStop(i, end), end, serving)
  {
    var m := PageStop(i, end);
    DemandNext(codec, source, i, end, serving.room);
    SizesSplit(source, i, m, end);
    PagesNext(end - i);
    assert end - m == end - i - Min(PAGE_LIMIT, end - i);
  }

  /** The means admit one more page. */
  predicate Admits(means: Means) {
    means.limited ==> 0 < means.pages && PROBE_MAX_BYTES <= means.bytes
  }

  /** The byte bound of the next page. */
  function PageBound(means: Means): nat {
    if means.limited then Min(PAGE_MAX_BYTES, means.bytes) else PAGE_MAX_BYTES
  }

  /** One call was made, for one page of the budget. */
  predicate OnePage(before: Means, after: Means) {
    && Balanced(before, after) && after.calls == before.calls + 1
  }

  lemma OnePageMore(first: Means, before: Means, after: Means, items: int, more: int)
    requires Balanced(first, before) && OnePage(before, after)
    ensures Balanced(first, after) && after.calls == before.calls + 1
    ensures Within(items, first, before) && more <= PAGE_LIMIT ==> Within(items + more, first, after)
  {
  }

  /** One page of whole items was taken and paid for. */
  ghost predicate Advances(p: Progress, q: Progress, now: Means, after: Means, codec: Codec, source: seq<Bytes>,
                           end: nat, serving: Serving) {
    var i := p.position.item; var m := PageStop(i, end);
    && i < m <= |source|
    && q.position == ReadCursor(m, 0) && q.oversized == p.oversized
    && after.used <= now.used + Costs(codec, source, i, m) + serving.room
    && after.limited == now.limited
    && (now.limited ==> after.pages == now.pages - 1 && after.bytes == now.bytes - Sizes(source, i, m))
  }

  /** The assembly is on the source of the pin if the server is honest. */
  ghost predicate Faithful(server: (nat, Request) -> Reply, history: SnapshotPin -> seq<Bytes>, pin: SnapshotPin,
                           codec: Codec, p: Progress, start: nat) {
    HonestServer(server, history) ==> p.Tracks(codec, history(pin), start)
  }

  /** The loop may go on: the assembly stands inside the window, its items and the records are paid for. */
  ghost predicate Ready(server: (nat, Request) -> Reply, history: SnapshotPin -> seq<Bytes>, pin: SnapshotPin,
                        assembly: Assembly, workspace: ReadWorkspace, codec: Codec, records: seq<TurnRecord>,
                        start: nat, end: nat, floor: nat)
    reads assembly, assembly.assembler, workspace
  {
    && assembly.Valid(start) && assembly.position.item <= end
    && assembly.Held(codec, workspace.used - floor - RecordCharges(codec, records))
    && OnePerTurn(records)
    && Faithful(server, history, pin, codec, assembly.View(), start)
  }

  /** Moving on, inside an item too, leaves less to read. */
  ghost predicate Shrinks(p: Progress, q: Progress) {
    || p.position.item < q.position.item
    || (p.position.item == q.position.item && q.assembler.active
        && (p.assembler.active ==> Monus(q.assembler.totalBytes, q.assembler.nextOffset)
                                   < Monus(p.assembler.totalBytes, p.assembler.nextOffset)))
  }

  lemma FollowsShrinks(p: Progress, q: Progress, start: nat)
    requires p.Sound(start) && q.Sound(start) && q.Follows(p)
    ensures Shrinks(p, q)
  {
  }

  /** One round, unless the budget admits no page. */
  method ReadNextPage(client: Client, sessionId: string, view: View, pin: SnapshotPin, assembly: Assembly,
                      records: seq<TurnRecord>, end: nat, workspace: ReadWorkspace, budget: HistoryBudget?,
                      codec: Codec, ghost history: SnapshotPin -> seq<Bytes>, ghost serving: Serving,
                      ghost start: nat, ghost floor: nat)
    returns (merged: seq<TurnRecord>, exhausted: bool, result: Result<Option<ReadPartial>, RpcError>)
    requires assembly.position.item < end <= pin.total && workspace.Valid()
    requires Ready(client.server, history, pin, assembly, workspace, codec, records, start, end, floor)
    requires PAGE_WORKSPACE_RESERVE <= floor
    requires client.Refusal().None?
    modifies client, workspace, budget, assembly, assembly.assembler
    ensures Reports(client.Refusal(), result)
    ensures workspace.Valid() && floor <= workspace.used
    ensures exhausted <==> !Admits(old(MeansOf(client, workspace, budget)))
    ensures exhausted ==>
              && result == Ok(None) && merged == records
              && MeansOf(client, workspace, budget) == old(MeansOf(client, workspace, budget))
              && client.asked == old(client.asked) && workspace.used == old(workspace.used)
              && assembly.View() == old(assembly.View())
    ensures !exhausted ==>
              && client.asked == old(client.asked) + [PageRequest(view, pin, old(assembly.position), end,
                                                                  PageBound(old(MeansOf(client, workspace, budget))))]
              && OnePage(old(MeansOf(client, workspace, budget)), MeansOf(client, workspace, budget))
    ensures result == Ok(None) ==>
              Ready(client.server, history, pin, assembly, workspace, codec, merged, start, end, floor)
    ensures !exhausted && result == Ok(None) ==>
              && Shrinks(old(assembly.View()), assembly.View())
              && (Obeys(client.server) ==> assembly.position.item <= old(assembly.position.item) + PAGE_LIMIT)
    ensures result.Ok? && result.value.Some? ==> result.value == Some(WorkspaceLimit)
    ensures var i, source := old(assembly.position.item), history(pin);
            && CanServe(client.server, sessionId, pin, codec, source, serving) && FromFacts(records, serving)
            && old(assembly.position.offset) == 0
            && Suffice(old(MeansOf(client, workspace, budget)), codec, source, i, end, serving) ==>
              && !exhausted && result == Ok(None) && FromFacts(merged, serving)
              && Advances(old(assembly.View()), assembly.View(), old(MeansOf(client, workspace, budget)),
                          MeansOf(client, workspace, budget), codec, source, end, serving)
  {
    hide Obeys;
    hide HonestServer;
    hide OnePerTurn;
    hide HeapBytes;
    hide RecordCharges;
    hide Progress.Tracks;
    hide Serves;
    hide AreReadable;
    hide PagesFit;
    hide Suffice;
    hide FitsPage;
    hide Costs;
    hide Sizes;
    hide FromFacts;
    ghost var p, before := assembly.View(), MeansOf(client, workspace, budget);
    if CanServe(client.server, sessionId, pin, codec, history(pin), serving)
       && Suffice(before, codec, history(pin), assembly.position.item, end, serving) {
      PageSuffices(before, codec, history(pin), assembly.position.item, end, serving);
    }
    var bound := HistoryPageBound(budget, PAGE_MAX_BYTES);
    if bound.None? {
      return records, true, Ok(None);
    }
    exhausted := false;
    merged, result := ReadPage(client, sessionId, view, pin, bound.value, assembly, records, end, workspace, budget,
                               codec, history, serving, start, floor);
    if result == Ok(None) {
      FollowsShrinks(p, assembly.View(), start);
    }
  }

  /** The requests are for pages of the window, the first one for its start, and there are none exactly if
      the window is empty or the budget admits no page. */
  ghost predicate AsksFor(asked: seq<Request>, view: View, pin: SnapshotPin, start: nat, end: nat, means: Means) {
    && (asked == [] <==> end <= start || !Admits(means))
    && (asked != [] ==> start < end && asked[0] == PageRequest(view, pin, ReadCursor(start, 0), end, PageBound(means)))
    && AllWithin(asked, view, pin, start, end)
  }

  ghost predicate AllWithin(asked: seq<Request>, view: View, pin: SnapshotPin, start: nat, end: nat) {
    forall k | 0 <= k < |asked| ::
      && asked[k].view == view && asked[k].pin == Some(pin) && asked[k].cursor.Some?
      && start <= asked[k].cursor.value.item < asked[k].cursor.value.item + asked[k].limit <= end
  }

  /** The page loop of a window: ends at `end`, or `exhausted` when the budget admits no page. */
  method ReadPages(client: Client, sessionId: string, view: View, pin: SnapshotPin, assembly: Assembly, start: nat,
                   end: nat, workspace: ReadWorkspace, budget: HistoryBudget?, codec: Codec,
                   ghost history: SnapshotPin -> seq<Bytes>, ghost serving: Serving)
    returns (records: seq<TurnRecord>, exhausted: bool, result: Result<Option<ReadPartial>, RpcError>,
             ghost asked: seq<Request>)
    requires start <= end <= pin.total && workspace.Valid()
    requires assembly.Valid(start) && assembly.position == ReadCursor(start, 0) && assembly.Held(codec, 0)
    requires Faithful(client.server, history, pin, codec, assembly.View(), start)
    requires client.Refusal().None?
    modifies client, workspace, budget, assembly, assembly.assembler
    ensures Reports(client.Refusal(), result)
    ensures workspace.Valid() && old(workspace.used) <= workspace.used
    ensures Balanced(old(MeansOf(client, workspace, budget)), MeansOf(client, workspace, budget))
    ensures MeansOf(client, workspace, budget).calls == old(MeansOf(client, workspace, budget)).calls + |asked|
    ensures client.asked == old(client.asked) + asked
    ensures AsksFor(asked, view, pin, start, end, old(MeansOf(client, workspace, budget)))
    ensures asked == [] ==> assembly.position == ReadCursor(start, 0)
    ensures result == Ok(None) ==>
              && assembly.Valid(start) && assembly.position.item <= end
              && assembly.Held(codec, workspace.used - old(workspace.used) - RecordCharges(codec, records))
              && OnePerTurn(records)
              && Faithful(client.server, history, pin, codec, assembly.View(), start)
              && (if exhausted then
                    assembly.position.item < end && !Admits(MeansOf(client, workspace, budget))
                  else
                    assembly.position.item == end)
              && (Obeys(client.server) ==>
                    Within(assembly.position.item - start, old(MeansOf(client, workspace, budget)),
                           MeansOf(client, workspace, budget)))
    ensures result.Ok? && result.value.Some? ==> result.value == Some(WorkspaceLimit)
    // with pages, bytes and memory enough nothing stops the loop, and it takes no page too many
    ensures CanServe(client.server, sessionId, pin, codec, history(pin), serving)
            && Suffice(old(MeansOf(client, workspace, budget)), codec, history(pin), start, end, serving) ==>
              && result == Ok(None) && !exhausted
              && assembly.oversized == old(assembly.oversized) && FromFacts(records, serving)
              && Paid(old(MeansOf(client, workspace, budget)), MeansOf(client, workspace, budget), codec, history(pin),
                      start, end, end, serving)
  {
    hide Client.Refusal;
    hide Reports;
    hide Obeys;
    hide Faithful;
    hide OnePerTurn;
    hide RecordCharges;
    hide CanServe;
    hide Suffice;
    hide Going;
    hide Gone;
    hide FromFacts;
    hide Paid;
    hide AsksFor;
    hide Ready;
    hide Progress.Sound;
    hide Advances;
    hide MeansOf;
    hide Balanced;
    hide OnePage;
    hide Within;
    hide Assembly.Held;
    hide Admits;
    hide PageBound;
    hide PageRequest;
    ghost var floor := workspace.used;
    ghost var way := Way(view, pin, start, end, MeansOf(client, workspace, budget), assembly.View(), codec,
                         history(pin), serving, Obeys(client.server),
                         CanServe(client.server, sessionId, pin, codec, history(pin), serving)
                         && Suffice(MeansOf(client, workspace, budget), codec, history(pin), start, end, serving));
    records, exhausted, result, asked := [], false, Ok(None), [];
    GoingFirst(way);
    Unrefused(client.Refusal(), result);
    ReadyFirst(client.server, history, pin, assembly, workspace, codec, start, end, floor);
    while assembly.position.item < end && !exhausted && result == Ok(None)
      invariant workspace.Valid() && floor <= workspace.used
      invariant client.asked == old(client.asked) + asked
      invariant Reports(client.Refusal(), result)
      invariant Gone(way, assembly.View(), MeansOf(client, workspace, budget), asked)
      invariant result.Ok? && result.value.Some? ==> result.value == Some(WorkspaceLimit)
      invariant exhausted ==>
                  result == Ok(None) && assembly.position.item < end && !Admits(MeansOf(client, workspace, budget))
      invariant way.served ==> result == Ok(None) && !exhausted
      invariant asked == [] ==> result == Ok(None)
      invariant result == Ok(None) ==>
                  && client.Refusal().None?
                  && Ready(client.server, history, pin, assembly, workspace, codec, records, start, end, floor)
                  && Going(way, assembly.View(), MeansOf(client, workspace, budget), records, asked)
      decreases if exhausted || result != Ok(None) then 0 else 1,
                end - assembly.position.item,
                if assembly.assembler.active then 0 else 1,
                Monus(assembly.assembler.totalBytes, assembly.assembler.nextOffset)
    {
      ghost var p, now, known := assembly.View(), MeansOf(client, workspace, budget), records;
      GoingSuffices(way, p, now, records, asked);
      records, exhausted, result := ReadNextPage(client, sessionId, view, pin, assembly, records, end, workspace,
                                                 budget, codec, history, serving, start, floor);
      ReportsOn(client.Refusal(), result, result);
      if !exhausted {
        GoingNext(way, p, assembly.View(), now, MeansOf(client, workspace, budget), known, records, asked,
                  result == Ok(None));
        asked := asked + [PageRequest(view, pin, p.position, end, PageBound(now))];
      }
    }
    if result == Ok(None) {
      ReadyIs(client.server, history, pin, assembly, workspace, codec, records, start, end, floor);
    }
    GoneIsTold(way, assembly.View(), MeansOf(client, workspace, budget), asked);
    if result == Ok(None) {
      GoingIsTold(way, assembly.View(), MeansOf(client, workspace, budget), records, asked);
    }
  }

  lemma ReadyFirst(server: (nat, Request) -> Reply, history: SnapshotPin -> seq<Bytes>, pin: SnapshotPin,
                   assembly: Assembly, workspace: ReadWorkspace, codec: Codec, start: nat, end: nat, floor: nat)
    requires assembly.Valid(start) && assembly.position.item <= end && assembly.Held(codec, 0)
    requires workspace.used == floor && Faithful(server, history, pin, codec, assembly.View(), start)
    ensures Ready(server, history, pin, assembly, workspace, codec, [], start, end, floor)
  {
  }

  lemma ReadyIs(server: (nat, Request) -> Reply, history: SnapshotPin -> seq<Bytes>, pin: SnapshotPin,
                assembly: Assembly, workspace: ReadWorkspace, codec: Codec, records: seq<TurnRecord>, start: nat,
                end: nat, floor: nat)
    requires Ready(server, history, pin, assembly, workspace, codec, records, start, end, floor)
    ensures assembly.Valid(start) && assembly.position.item <= end && OnePerTurn(records)
    ensures assembly.Held(codec, workspace.used - floor - RecordCharges(codec, records))
    ensures Faithful(server, history, pin, codec, assembly.View(), start)
  {
  }

  /** What was asked for so far, when something was. */
  ghost predicate Logged(asked: seq<Request>, view: View, pin: SnapshotPin, start: nat, end: nat, means: Means) {
    && (asked != [] ==>
          && Admits(means) && start < end
          && asked[0] == PageRequest(view, pin, ReadCursor(start, 0), end, PageBound(means)))
    && AllWithin(asked, view, pin, start, end)
  }

  lemma NothingTaken(means: Means)
    ensures Balanced(means, means) && Within(0, means, means)
  {
  }

  lemma LoggedNext(asked: seq<Request>, position: ReadCursor, view: View, pin: SnapshotPin, start: nat, end: nat,
                   means: Means, now: Means)
    requires Logged(asked, view, pin, start, end, means) && start <= position.item < end && Admits(now)
    requires asked == [] ==> position == ReadCursor(start, 0) && now == means
    ensures Logged(asked + [PageRequest(view, pin, position, end, PageBound(now))], view, pin, start, end, means)
  {
  }

  /** The loop is on its way: at the start of an item, none oversized, everything so far just paid for. */
  ghost predicate OnWay(before: Progress, p: Progress, means: Means, now: Means, codec: Codec, source: seq<Bytes>,
                        start: nat, end: nat, records: seq<TurnRecord>, serving: Serving) {
    && start <= p.position.item <= end <= |source|
    && p.position.offset == 0 && p.oversized == before.oversized && FromFacts(records, serving)
    && Paid(means, now, codec, source, start, p.position.item, end, serving)
  }

  /** What was asked for and paid so far. */
  ghost predicate Gone(w: Way, p: Progress, now: Means, asked: seq<Request>) {
    && Balanced(w.means, now) && now.calls == w.means.calls + |asked|
    && (asked == [] ==> p.position == ReadCursor(w.start, 0) && now == w.means)
    && Logged(asked, w.view, w.pin, w.start, w.end, w.means)
  }

  /** And what was taken for it. */
  ghost predicate Going(w: Way, p: Progress, now: Means, records: seq<TurnRecord>, asked: seq<Request>) {
    && Gone(w, p, now, asked)
    && (w.obeys ==> Within(p.position.item - w.start, w.means, now))
    && (w.served ==> OnWay(w.before, p, w.means, now, w.codec, w.source, w.start, w.end, records, w.serving))
  }

  lemma GoingFirst(w: Way)
    requires w.before.position == ReadCursor(w.start, 0)
    requires w.served ==> Suffice(w.means, w.codec, w.source, w.start, w.end, w.serving)
    ensures Going(w, w.before, w.means, [], []) && Gone(w, w.before, w.means, [])
  {
  }

  lemma GoingSuffices(w: Way, p: Progress, now: Means, records: seq<TurnRecord>, asked: seq<Request>)
    requires Going(w, p, now, records, asked)
    requires w.served ==> Suffice(w.means, w.codec, w.source, w.start, w.end, w.serving)
    ensures w.served ==>
              && Suffice(now, w.codec, w.source, p.position.item, w.end, w.serving)
              && p.position.offset == 0 && FromFacts(records, w.serving)
  {
  }

  /** One more page was asked for, and perhaps taken. */
  lemma GoingNext(w: Way, p: Progress, q: Progress, now: Means, after: Means, records: seq<TurnRecord>,
                  merged: seq<TurnRecord>, asked: seq<Request>, taken: bool)
    requires Going(w, p, now, records, asked) && OnePage(now, after) && Admits(now)
    requires w.start <= p.position.item < w.end
    requires taken && w.obeys ==> q.position.item <= p.position.item + PAGE_LIMIT
    requires taken && w.served ==>
               Advances(p, q, now, after, w.codec, w.source, w.end, w.serving) && FromFacts(merged, w.serving)
    ensures var more := asked + [PageRequest(w.view, w.pin, p.position, w.end, PageBound(now))];
            Gone(w, q, after, more) && (taken ==> Going(w, q, after, merged, more))
  {
    hide Logged;
    hide Advances;
    OnePageMore(w.means, now, after, p.position.item - w.start, q.position.item - p.position.item);
    LoggedNext(asked, p.position, w.view, w.pin, w.start, w.end, w.means, now);
    if taken && w.served {
      PagePaid(w.means, now, after, w.codec, w.source, w.start, p.position.item, w.end, w.serving) by {
        AdvancesPays(p, q, now, after, w);
      }
      AdvancesPays(p, q, now, after, w);
    }
  }

  lemma AdvancesPays(p: Progress, q: Progress, now: Means, after: Means, w: Way)
    requires Advances(p, q, now, after, w.codec, w.source, w.end, w.serving)
    ensures var i := p.position.item; var m := PageStop(i, w.end);
            && i < m <= |w.source| && q.position == ReadCursor(m, 0) && q.oversized == p.oversized
            && after.used <= now.used + Costs(w.codec, w.source, i, m) + w.serving.room
            && after.limited == now.limited
            && (now.limited ==> after.pages == now.pages - 1 && after.bytes == now.bytes - Sizes(w.source, i, m))
  {
  }

  lemma GoneIsTold(w: Way, p: Progress, now: Means, asked: seq<Request>)
    requires Gone(w, p, now, asked)
    ensures Balanced(w.means, now) && now.calls == w.means.calls + |asked|
    ensures asked == [] ==> p.position == ReadCursor(w.start, 0) && now == w.means
    ensures p.position.item >= w.end || !Admits(now) || asked != [] ==>
              AsksFor(asked, w.view, w.pin, w.start, w.end, w.means)
  {
  }

  lemma GoingIsTold(w: Way, p: Progress, now: Means, records: seq<TurnRecord>, asked: seq<Request>)
    requires Going(w, p, now, records, asked)
    ensures w.obeys ==> Within(p.position.item - w.start, w.means, now)
    ensures w.served && p.position.item == w.end ==>
              && w.start <= w.end <= |w.source|
              && Paid(w.means, now, w.codec, w.source, w.start, w.end, w.end, w.serving)
              && p.oversized == w.before.oversized && FromFacts(records, w.serving)
  {
  }

  lemma StartTracks(server: (nat, Request) -> Reply, history: SnapshotPin -> seq<Bytes>, pin: SnapshotPin, codec: Codec,
                    start: nat)
    requires start <= pin.total
    ensures HonestServer(server, history) ==>
              |history(pin)| == pin.total
              && Progress(Idle, ReadCursor(start, 0), [], None).Tracks(codec, history(pin), start)
  {
  }

  /** How many items are paid for before the first page of a window. */
  function Reservation(start: nat, end: nat, means: Means): nat
    requires start <= end
  {
    if means.limited then Min(end - start, means.pages * PAGE_LIMIT) else end - start
  }

  /** The means once that is paid. */
  function Reserved(start: nat, end: nat, means: Means, codec: Codec): Means
    requires start <= end
  {
    means.(used := means.used + Reservation(start, end, means) * codec.itemSize)
  }

  /** Reads the pages of a window and takes what they gave. */
  method CollectWindow(client: Client, sessionId: string, view: View, pin: SnapshotPin, assembly: Assembly, start: nat,
                       end: nat, workspace: ReadWorkspace, budget: HistoryBudget?, codec: Codec,
                       ghost history: SnapshotPin -> seq<Bytes>, ghost serving: Serving)
    returns (result: Result<WindowRead, RpcError>, ghost asked: seq<Request>)
    requires start <= end <= pin.total && workspace.Valid()
    requires assembly.Valid(start) && assembly.View() == Progress(Idle, ReadCursor(start, 0), [], None)
    requires assembly.Held(codec, 0)
    requires client.Refusal().None?
    modifies client, workspace, budget, assembly, assembly.assembler
    ensures Reports(client.Refusal(), result)
    ensures workspace.Valid() && old(workspace.used) <= workspace.used
    ensures Balanced(old(MeansOf(client, workspace, budget)), MeansOf(client, workspace, budget))
    ensures client.calls == old(client.calls) + |asked| && client.asked == old(client.asked) + asked
    ensures AsksFor(asked, view, pin, start, end, old(MeansOf(client, workspace, budget)))
    ensures result.Ok? ==> Meets(result.value, start, end)
    ensures result.Ok? && HonestServer(client.server, history) ==>
              MeetsSource(result.value, codec, history(pin), start, end)
    ensures result.Ok? && result.value.Complete? ==>
              old(workspace.used) + HeapBytes(codec, result.value.items) + RecordCharges(codec, result.value.records)
              <= workspace.used
    ensures result.Ok? && result.value.Limited? ==> !Admits(MeansOf(client, workspace, budget))
    ensures result.Ok? && !result.value.Partial? && asked == [] ==> result.value.items == []
    ensures result.Ok? && !result.value.Partial? && Obeys(client.server) ==>
              Within(|result.value.items|, old(MeansOf(client, workspace, budget)),
                     MeansOf(client, workspace, budget))
    ensures CanServe(client.server, sessionId, pin, codec, history(pin), serving)
            && Suffice(old(MeansOf(client, workspace, budget)), codec, history(pin), start, end, serving) ==>
              && result.Ok? && result.value.Complete? && FromFacts(result.value.records, serving)
              && Paid(old(MeansOf(client, workspace, budget)), MeansOf(client, workspace, budget), codec, history(pin),
                      start, end, end, serving)
  {
    hide Client.Refusal;
    hide Reports;
    hide Obeys;
    hide Slice;
    hide FirstOversized;
    hide HonestServer;
    hide Progress.Tracks;
    hide CanServe;
    hide Suffice;
    hide FromFacts;
    hide AsksFor;
    hide HeapBytes;
    hide RecordCharges;
    StartTracks(client.server, history, pin, codec, start);
    var records, exhausted, read;
    records, exhausted, read, asked := ReadPages(client, sessionId, view, pin, assembly, start, end, workspace, budget,
                                                 codec, history, serving);
    result := if read.Err? then Err(read.error) else Ok(Partial(WorkspaceLimit));
    ReportsOn(client.Refusal(), read, result);
    if read.Err? {
      return;
    }
    if read.value.Some? {
      return Ok(Partial(read.value.value)), asked;
    }
    var window := Finish(assembly, records, exhausted, start, end, workspace, codec, history(pin));
    result := Ok(window);
    Unrefused(client.Refusal(), result);
  }

  /** Reads `[start..end)` of a pinned history: all of it, as much as the budget allows, or nothing. */
  method ReadWindow(client: Client, sessionId: string, view: View, pin: SnapshotPin, start: nat, end: nat,
                    workspace: ReadWorkspace, budget: HistoryBudget?, codec: Codec,
                    ghost history: SnapshotPin -> seq<Bytes>, ghost serving: Serving)
    returns (result: Result<WindowRead, RpcError>, ghost asked: seq<Request>)
    requires start <= end <= pin.total && workspace.Valid()
    requires client.Refusal().None?
    modifies client, workspace, budget
    ensures Reports(client.Refusal(), result)
    ensures workspace.Valid() && old(workspace.used) <= workspace.used
    ensures Balanced(old(MeansOf(client, workspace, budget)), MeansOf(client, workspace, budget))
    ensures client.calls == old(client.calls) + |asked| && client.asked == old(client.asked) + asked
    // the window is asked for unless its memory is refused or the budget admits no page
    ensures var reserved := Reserved(start, end, old(MeansOf(client, workspace, budget)), codec);
            if reserved.used > READ_WORKSPACE_BYTES then asked == [] && result == Ok(Partial(WorkspaceLimit))
            else AsksFor(asked, view, pin, start, end, reserved)
    ensures result.Ok? ==> Meets(result.value, start, end)
    ensures result.Ok? && HonestServer(client.server, history) ==>
              MeetsSource(result.value, codec, history(pin), start, end)
    ensures result.Ok? && result.value.Complete? ==>
              Reserved(start, end, old(MeansOf(client, workspace, budget)), codec).used
              + HeapBytes(codec, result.value.items) + RecordCharges(codec, result.value.records) <= workspace.used
    ensures result.Ok? && result.value.Limited? ==> !Admits(MeansOf(client, workspace, budget))
    ensures result.Ok? && !result.value.Partial? && asked == [] ==> result.value.items == []
    // the items never outgrow what was paid for them, if that is the whole window or no page is overfull
    ensures var means := old(MeansOf(client, workspace, budget));
            result.Ok? && !result.value.Partial?
            && (Reservation(start, end, means) == end - start || !Admits(means) || Obeys(client.server)) ==>
              |result.value.items| <= Reservation(start, end, means)
    // with pages, bytes and memory enough the window is complete and takes no page too many
    ensures var reserved := Reserved(start, end, old(MeansOf(client, workspace, budget)), codec);
            CanServe(client.server, sessionId, pin, codec, history(pin), serving)
            && Suffice(reserved, codec, history(pin), start, end, serving) ==>
              && result.Ok? && result.value.Complete? && FromFacts(result.value.records, serving)
              && Paid(reserved, MeansOf(client, workspace, budget), codec, history(pin), start, end, end, serving)
  {
    hide Client.Refusal;
    hide Reports;
    hide Obeys;
    hide HonestServer;
    hide Meets;
    hide MeetsSource;
    hide HeapBytes;
    hide RecordCharges;
    hide Progress.Tracks;
    hide CanServe;
    hide Suffice;
    hide Paid;
    hide FromFacts;
    hide AsksFor;
    hide Balanced;
    hide Within;
    ghost var means := MeansOf(client, workspace, budget);
    var assembly := new Assembly(start);
    assert assembly.View() == Progress(Idle, ReadCursor(start, 0), [], None);
    NoHeap(assembly, codec);
    NothingTaken(means);
    var count := if budget == null then end - start else Min(end - start, budget.pages * PAGE_LIMIT);
    var refused := assembly.ReserveItems(count, workspace, codec);
    if refused.Some? {
      RefusalMeets(codec, history(pin), start, end, Reserved(start, end, means, codec), serving);
      result := Ok(Partial(refused.value));
      Unrefused(client.Refusal(), result);
      return result, [];
    }
    assert MeansOf(client, workspace, budget) == Reserved(start, end, means, codec);
    result, asked := CollectWindow(client, sessionId, view, pin, assembly, start, end, workspace, budget, codec,
                                   history, serving);
    ReservedBalance(start, end, means, MeansOf(client, workspace, budget), codec);
    if result.Ok? && !result.value.Partial? {
      ItemsArePaid(result.value, asked, view, pin, start, end, means, MeansOf(client, workspace, budget), codec);
    }
  }

  lemma ReservedBalance(start: nat, end: nat, means: Means, after: Means, codec: Codec)
    requires start <= end && Balanced(Reserved(start, end, means, codec), after)
    ensures Balanced(means, after)
  {
  }

  lemma ItemsArePaid(read: WindowRead, asked: seq<Request>, view: View, pin: SnapshotPin, start: nat, end: nat,
                     means: Means, after: Means, codec: Codec)
    requires start <= end && !read.Partial? && Meets(read, start, end)
    requires AsksFor(asked, view, pin, start, end, Reserved(start, end, means, codec))
    requires asked == [] ==> read.items == []
    ensures || Reservation(start, end, means) == end - start || !Admits(means)
            || Within(|read.items|, Reserved(start, end, means, codec), after) ==>
              |read.items| <= Reservation(start, end, means)
  {
  }

  lemma RefusalMeets(codec: Codec, source: seq<Bytes>, start: nat, end: nat, means: Means, serving: Serving)
    ensures Meets(Partial(WorkspaceLimit), start, end)
    ensures MeetsSource(Partial(WorkspaceLimit), codec, source, start, end)
    ensures Suffice(means, codec, source, start, end, serving) ==> means.used <= READ_WORKSPACE_BYTES
  {
  }

  lemma NoHeap(assembly: Assembly, codec: Codec)
    requires assembly.items == [] && assembly.reservedItem == 0
    ensures assembly.Held(codec, 0)
  {
  }

  method Finish(assembly: Assembly, records: seq<TurnRecord>, exhausted: bool, start: nat, ghost end: nat,
                workspace: ReadWorkspace, codec: Codec, ghost source: seq<Bytes>)
    returns (window: WindowRead)
    requires workspace.Valid() && assembly.Valid(start) && start <= end
    requires assembly.Held(codec, workspace.used - PAGE_WORKSPACE_RESERVE)
    requires if exhausted then assembly.position.item < end else assembly.position.item == end
    requires OnePerTurn(records)
    modifies workspace
    ensures workspace.Valid()
    ensures workspace.used == old(workspace.used) - (if window.Limited? then assembly.reservedItem else 0)
    ensures Meets(window, start, end)
    ensures end <= |source| && assembly.View().Tracks(codec, source, start) ==>
              MeetsSource(window, codec, source, start, end)
    ensures !window.Partial? ==> window.items == assembly.items && window.records == records
    ensures window.Limited? ==> exhausted
    ensures window.Complete? <==> !exhausted && assembly.oversized.None?
  {
    if assembly.oversized.Some? {
      return Partial(assembly.oversized.value);
    }
    if exhausted {
      workspace.Release(assembly.reservedItem);
      return Limited(assembly.items, records, start, start + |assembly.items|, HistoryLimit);
    }
    return Complete(assembly.items, records);
  }
}
