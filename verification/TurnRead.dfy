/** A completion's whole result, read page by page under one result identity. */
module TurnReads {
  import opened Wrappers
  import opened ChunkAssemblers
  import opened ReadModel
  import opened Servings
  import opened Assemblies
  import opened PagedReads
  import opened ToolFacts

  datatype Availability = Live | Stored | Waiting | Gone

  /** What has to stay the same on every page of one result. */
  datatype TurnMeta = TurnMeta(total: nat, outcome: string, persistence: string, uncertain: bool,
                               interrupted: Option<string>, resultId: string)

  datatype TurnPage = TurnPage(
    turn: string, load: Option<string>, availability: Availability, items: seq<ReadChunk>,
    nextCursor: Option<ReadCursor>, total: nat, outcome: Option<string>, persistence: Option<string>,
    uncertain: bool, interrupted: Option<string>, resultId: Option<string>, usage: Option<string>)

  /** `Expired` stands for a turn that is not found or not retained any more. */
  datatype TurnReply = Answered(page: TurnPage) | Expired | Refused(error: RpcError)

  datatype TurnRequest = TurnRequest(cursor: Option<ReadCursor>, resultId: Option<string>)

  datatype TurnRead =
    | Whole(meta: TurnMeta, items: seq<RawHistoryItem>, usage: Option<string>, facts: Facts)
    | PartOnly(reason: ReadPartial)
    | Unavailable(persistence: Option<string>, uncertain: bool)
    | Pending

  class TurnClient {
    const server: (nat, TurnRequest) -> TurnReply
    var calls: nat
    ghost var asked: seq<TurnRequest>

    constructor (server: (nat, TurnRequest) -> TurnReply)
      ensures this.server == server && calls == 0 && asked == []
    {
      this.server, calls, asked := server, 0, [];
    }

    method Call(request: TurnRequest) returns (reply: TurnReply)
      modifies this
      ensures calls == old(calls) + 1 && asked == old(asked) + [request] && reply == server(old(calls), request)
    {
      reply := server(calls, request);
      calls := calls + 1;
      asked := asked + [request];
    }
  }

  /** Whatever the server answers, pages that name one result are cut from one source. */
  ghost predicate HonestResults(server: (nat, TurnRequest) -> TurnReply, results: string -> seq<Bytes>) {
    forall n, request :: server(n, request).Answered? && server(n, request).page.resultId.Some? ==>
      var page := server(n, request).page;
      page.total == |results(page.resultId.value)| && HonestChunks(page.items, results(page.resultId.value))
  }

  // ---- one page --------------------------------------------------------

  predicate IsHex(c: char) {
    '0' <= c <= '9' || 'a' <= c <= 'f' || 'A' <= c <= 'F'
  }

  predicate IsResultId(id: string) {
    |id| == 67 && id[..3] == "r1:" && forall i | 3 <= i < 67 :: IsHex(id[i])
  }

  /** The checks made of every page before its kind is looked at. */
  predicate PageIsFor(page: TurnPage, turn: string, load: string) {
    && DataBytes(page.items) <= PAGE_MAX_BYTES
    && page.turn == turn && page.load == Some(load)
    && (page.availability.Waiting? ==>
          && page.items == [] && page.nextCursor.None? && page.outcome.None? && page.persistence.None?
          && page.interrupted.None? && page.total == 0 && page.resultId.None?)
    && (page.availability.Gone? ==> page.items == [] && page.nextCursor.None? && page.total == 0 && page.resultId.None?)
  }

  /** What a page with a body says of the whole result, if it says all of it. */
  function Identity(page: TurnPage): Option<TurnMeta> {
    if page.outcome.Some? && page.persistence.Some? && page.resultId.Some? && IsResultId(page.resultId.value) then
      Some(TurnMeta(page.total, page.outcome.value, page.persistence.value, page.uncertain, page.interrupted,
                    page.resultId.value))
    else None
  }

  /** The page makes progress where there is some to make, and its cursor is behind its items from `i` on. */
  predicate PointsBehind(page: TurnPage, i: nat) {
    var m := i + |page.items|;
    (i < page.total ==> i < m) && page.nextCursor == if m < page.total then Some(ReadCursor(m, 0)) else None
  }

  /** Takes the chunks of one page and checks that its cursor matches. */
  method TakeTurnPage(page: TurnPage, assembly: Assembly, workspace: ReadWorkspace, codec: Codec,
                      ghost source: seq<Bytes>, ghost floor: nat)
    returns (result: Result<Option<ReadPartial>, RpcError>)
    requires assembly.Valid(0) && assembly.position.item <= page.total && workspace.Valid()
    requires assembly.Held(codec, workspace.used - floor) && PAGE_WORKSPACE_RESERVE <= floor
    modifies assembly, assembly.assembler, workspace
    ensures workspace.Valid() && floor <= workspace.used
    ensures result == Ok(None) ==>
              && assembly.Valid(0) && assembly.position.item <= page.total
              && assembly.Held(codec, workspace.used - floor)
              && (page.nextCursor.None? ==> assembly.position.item == page.total)
              && (page.nextCursor.Some? ==>
                    assembly.position.item < page.total && assembly.View().Follows(old(assembly.View())))
    ensures result == Ok(None) && HonestChunks(page.items, source) && old(assembly.View()).Tracks(codec, source, 0) ==>
              assembly.View().Tracks(codec, source, 0)
    ensures result.Ok? && result.value.Some? ==> result.value == Some(WorkspaceLimit)
    ensures result.Err? ==> result.error.InvalidRead?
    ensures Smooth(old(assembly.View()), page.items, page.total, old(workspace.used), codec, source)
            && old(assembly.position.offset) == 0 && PointsBehind(page, old(assembly.position.item)) ==>
              var i := old(assembly.position.item); var m := i + |page.items|;
              && result == Ok(None) && m <= |source|
              && assembly.position == ReadCursor(m, 0) && assembly.oversized == old(assembly.oversized)
              && workspace.used <= old(workspace.used) + Costs(codec, source, i, m)
  {
    hide Smooth;
    hide Costs;
    hide HeapBytes;
    hide Taken;
    hide Progress.Tracks;
    if Smooth(assembly.View(), page.items, page.total, workspace.used, codec, source) {
      SmoothBounds(assembly.View(), page.items, page.total, workspace.used, codec, source);
    }
    ghost var before := assembly.View();
    var position := assembly.position;
    result := PushChunks(assembly, page.items, page.total, workspace, codec, source, 0, floor);
    if result != Ok(None) {
      return;
    }
    TakenSound(before, page.items, page.total, codec, 0);
    if HonestChunks(page.items, source) && before.Tracks(codec, source, 0) {
      TakenTracks(before, page.items, page.total, codec, source, 0);
    }
    var error := PageEnd(assembly, position, page.nextCursor, page.total);
    if error.Some? {
      result := Err(error.value);
    }
  }

  /** The first page of a result is charged for its facts and for all its items. */
  method Admit(meta: TurnMeta, metaBytes: nat, assembly: Assembly, workspace: ReadWorkspace, codec: Codec)
    returns (refused: Option<ReadPartial>)
    requires workspace.Valid()
    modifies workspace
    ensures workspace.Valid() && old(workspace.used) <= workspace.used
    ensures refused.Some? ==> refused == Some(WorkspaceLimit)
    ensures old(workspace.used) + metaBytes + meta.total * codec.itemSize <= READ_WORKSPACE_BYTES ==>
              refused.None? && workspace.used == old(workspace.used) + metaBytes + meta.total * codec.itemSize
  {
    refused := workspace.Charge(metaBytes);
    if refused.None? {
      refused := assembly.ReserveItems(meta.total, workspace, codec);
    }
  }

  /** What a page without a body ends the read with. */
  function WithoutBody(page: TurnPage, expected: Option<TurnMeta>): Result<TurnRead, RpcError>
    requires page.availability.Waiting? || page.availability.Gone?
  {
    if page.availability.Waiting? then
      if expected.Some? then Err(InvalidRead("pending turn contains completed result data")) else Ok(TurnRead.Pending)
    else
      Ok(Unavailable(if page.persistence.Some? then page.persistence
                     else if expected.Some? then Some(expected.value.persistence) else None,
                     page.uncertain || (expected.Some? && expected.value.uncertain)))
  }

  /** How one page leaves the read: ended, or identified as part of one result. */
  datatype Fetched = Ended(read: Result<TurnRead, RpcError>) | Body(page: TurnPage, meta: TurnMeta)

  /** The identity of the result whose page the reply brings: one for this turn and load, with a body, and
      the same result as before. */
  function BodyOf(reply: TurnReply, turn: string, load: string, expected: Option<TurnMeta>): Option<TurnMeta> {
    if reply.Answered? && PageIsFor(reply.page, turn, load)
       && (reply.page.availability.Live? || reply.page.availability.Stored?)
       && (expected.Some? ==> Identity(reply.page) == expected)
    then Identity(reply.page) else None
  }

  /** How a read ends on a reply that brings no page of its result. A refusal is the error it is; an expired
      result and a page that says so are unavailable; a pending one is pending unless pages came before;
      and a page that is not for this turn and load, has no identity or another one, is an error. */
  ghost predicate EndsOn(reply: TurnReply, turn: string, load: string, expected: Option<TurnMeta>,
                         read: Result<TurnRead, RpcError>) {
    match reply
    case Refused(error) => read == Err(error)
    case Expired => read == Ok(Unavailable(None, false))
    case Answered(page) =>
      if PageIsFor(page, turn, load) && page.availability.Waiting? && expected.None? then read == Ok(TurnRead.Pending)
      else if PageIsFor(page, turn, load) && page.availability.Gone? then
        && read.Ok? && read.value.Unavailable?
        && (page.persistence.Some? ==> read.value.persistence == page.persistence)
        && (page.persistence.None? ==>
              read.value.persistence == if expected.Some? then Some(expected.value.persistence) else None)
        && (read.value.uncertain <==> page.uncertain || (expected.Some? && expected.value.uncertain))
      else read.Err? && read.error.InvalidRead?
  }

  /** The request for the page at `position`: a continuation names the result the pages before belong to. */
  function PageRequest(position: ReadCursor, expected: Option<TurnMeta>): TurnRequest {
    if expected.None? then TurnRequest(None, None) else TurnRequest(Some(position), Some(expected.value.resultId))
  }

  method FetchTurnPage(client: TurnClient, turn: string, load: string, position: ReadCursor, expected: Option<TurnMeta>,
                       ghost results: string -> seq<Bytes>)
    returns (fetched: Fetched)
    requires expected.None? <==> position == ReadCursor(0, 0)
    modifies client
    ensures client.asked == old(client.asked) + [PageRequest(position, expected)]
    ensures client.calls == old(client.calls) + 1
    ensures var reply := client.server(old(client.calls), PageRequest(position, expected));
            match BodyOf(reply, turn, load, expected)
            case Some(meta) => fetched == Body(reply.page, meta)
            case None => fetched.Ended? && EndsOn(reply, turn, load, expected, fetched.read)
    ensures fetched.Body? && HonestResults(client.server, results) ==>
              |results(fetched.meta.resultId)| == fetched.meta.total
              && HonestChunks(fetched.page.items, results(fetched.meta.resultId))
  {
    var request := TurnRequest(None, None);
    if position != ReadCursor(0, 0) {
      request := TurnRequest(Some(position), Some(expected.value.resultId));
    }
    ghost var n := client.calls;
    var reply := client.Call(request);
    match reply {
      case Expired => return Ended(Ok(Unavailable(None, false)));
      case Refused(error) => return Ended(Err(error));
      case Answered(page) =>
        if !PageIsFor(page, turn, load) {
          return Ended(Err(InvalidRead("turn identity changed")));
        }
        if page.availability.Waiting? || page.availability.Gone? {
          return Ended(WithoutBody(page, expected));
        }
        var meta := Identity(page);
        if meta.None? {
          return Ended(Err(InvalidRead("completed turn result identity is missing")));
        }
        if expected.Some? && expected.value != meta.value {
          return Ended(Err(InvalidRead("turn metadata changed between pages")));
        }
        assert client.server(n, request) == TurnReply.Answered(page);
        return Body(page, meta.value);
    }
  }

  // ---- a whole result --------------------------------------------------

  /** The page holds whole items of the result from `i` on, some unless there are none, and points behind
      them. */
  ghost predicate HoldsResult(reply: TurnReply, turn: string, load: string, meta: TurnMeta, source: seq<Bytes>,
                              i: nat) {
    && BodyOf(reply, turn, load, Some(meta)).Some?
    && var page := reply.page; var m := i + |page.items|;
       && AreWhole(page.items, source, i, m)
       && (i < meta.total ==> i < m)
       && page.nextCursor == if m < meta.total then Some(ReadCursor(m, 0)) else None
  }

  /** Every request for the result, and every continuation at the start of an item, is answered with whole
      items from there on. */
  ghost predicate ServesResult(server: (nat, TurnRequest) -> TurnReply, turn: string, load: string, meta: TurnMeta,
                               source: seq<Bytes>) {
    && |source| == meta.total
    && (forall n :: HoldsResult(server(n, TurnRequest(None, None)), turn, load, meta, source, 0))
    && (forall n, i: nat | i < meta.total ::
          HoldsResult(server(n, TurnRequest(Some(ReadCursor(i, 0)), Some(meta.resultId))), turn, load, meta, source, i))
  }

  /** All items can be read, and those that name a turn name this one. */
  ghost predicate IsResultOf(codec: Codec, source: seq<Bytes>, turn: string) {
    && AreReadable(codec, source)
    && forall i | 0 <= i < |source| :: BelongTo([codec.decode(source[i]).value], turn)
  }

  /** What the first page is charged for besides its items. */
  function Admission(meta: TurnMeta, metaBytes: TurnMeta -> nat, codec: Codec): nat {
    metaBytes(meta) + meta.total * codec.itemSize
  }

  /** What is left of the result from `i` on does not take the memory in use beyond `limit`. */
  predicate HasRoom(used: nat, limit: nat, expected: Option<TurnMeta>, meta: TurnMeta, metaBytes: TurnMeta -> nat,
                    codec: Codec, source: seq<Bytes>, i: nat) {
    && i <= |source| && limit <= READ_WORKSPACE_BYTES
    && used + (if expected.None? then Admission(meta, metaBytes, codec) else 0) + Costs(codec, source, i, |source|)
       <= limit
  }

  // ---- the page loop ---------------------------------------------------

  /** A continuation names the result the pages before belong to, and resumes behind them. */
  ghost predicate Continues(asked: seq<TurnRequest>, resultId: string) {
    && (forall k | 0 <= k < |asked| :: asked[k].cursor.None? <==> k == 0)
    && (forall k | 0 < k < |asked| :: asked[k].resultId == Some(resultId))
    && (forall k | 1 < k < |asked| :: asked[k - 1].cursor.value.Before(asked[k].cursor.value))
  }

  /** Every item that names a turn names this one. */
  predicate BelongTo(items: seq<RawHistoryItem>, turn: string) {
    forall i | 0 <= i < |items| :: items[i].loopId.Some? ==> items[i].loopId.value == turn
  }

  lemma ContinuesNext(asked: seq<TurnRequest>, resultId: string, position: ReadCursor)
    requires asked != [] && Continues(asked, resultId)
    requires |asked| > 1 ==> asked[|asked| - 1].cursor.value.Before(position)
    ensures Continues(asked + [TurnRequest(Some(position), Some(resultId))], resultId)
  {
  }

  /** The read ends with every item of the result, the first oversized one, or an error. */
  function Conclude(items: seq<RawHistoryItem>, oversized: Option<ReadPartial>, meta: TurnMeta, turn: string,
                    usage: Option<string>):
    Result<TurnRead, RpcError>
  {
    if !BelongTo(items, turn) then Err(InvalidRead("item belongs to another turn"))
    else if oversized.Some? then Ok(PartOnly(oversized.value))
    else Ok(Whole(meta, items, usage, []))
  }

  /** What a finished read promises about the result it names. */
  ghost predicate Promised(read: TurnRead, turn: string, codec: Codec, results: string -> seq<Bytes>,
                           resultId: string) {
    match read
    case Whole(meta, items, _, _) =>
      meta.resultId == resultId && BelongTo(items, turn) && Slice(codec, results(resultId), 0, meta.total, items)
    case PartOnly(reason) =>
      reason.Oversized? ==> FirstOversized(results(resultId), 0, |results(resultId)|, reason)
    case _ => true
  }

  /** The identity all pages so far agree on, and that what was assembled is its source. */
  ghost predicate OnSource(p: Progress, expected: Option<TurnMeta>, codec: Codec, results: string -> seq<Bytes>) {
    expected.Some? ==>
      p.Tracks(codec, results(expected.value.resultId), 0) && |results(expected.value.resultId)| == expected.value.total
  }

  /** How a round ends on a page of the result: with the page taken, or for want of memory, or in error. */
  ghost predicate EndsOnBody(fetched: Fetched, page: TurnPage, meta: TurnMeta) {
    match fetched
    case Body(taken, identity) => taken == page && identity == meta
    case Ended(read) => read == Ok(PartOnly(WorkspaceLimit)) || (read.Err? && read.error.InvalidRead?)
  }

  /** The reply decides how a round ends. */
  ghost predicate Decides(reply: TurnReply, turn: string, load: string, expected: Option<TurnMeta>, fetched: Fetched) {
    match BodyOf(reply, turn, load, expected)
    case Some(meta) => EndsOnBody(fetched, reply.page, meta)
    case None => fetched.Ended? && EndsOn(reply, turn, load, expected, fetched.read)
  }

  lemma ServedPage(server: (nat, TurnRequest) -> TurnReply, n: nat, turn: string, load: string, meta: TurnMeta,
                   source: seq<Bytes>, i: nat, expected: Option<TurnMeta>)
    requires ServesResult(server, turn, load, meta, source)
    requires if expected.None? then i == 0 else expected == Some(meta) && i < meta.total
    ensures var reply := server(n, PageRequest(ReadCursor(i, 0), expected));
            HoldsResult(reply, turn, load, meta, source, i) && BodyOf(reply, turn, load, expected) == Some(meta)
  {
  }

  lemma ServedIsSmooth(reply: TurnReply, turn: string, load: string, meta: TurnMeta, source: seq<Bytes>, p: Progress,
                       used: nat, codec: Codec)
    requires HoldsResult(reply, turn, load, meta, source, p.position.item) && p.position.offset == 0
    requires |source| == meta.total && p.position.item <= meta.total && AreReadable(codec, source)
    requires used + Costs(codec, source, p.position.item, |source|) <= READ_WORKSPACE_BYTES
    ensures var page, i := reply.page, p.position.item; var m := i + |page.items|;
            && page.total == meta.total && m <= |source|
            && Smooth(p, page.items, page.total, used, codec, source) && PointsBehind(page, i)
            && Costs(codec, source, i, |source|) == Costs(codec, source, i, m) + Costs(codec, source, m, |source|)
  {
    var i := p.position.item;
    CostsSplit(codec, source, i, i + |reply.page.items|, |source|);
  }

  /** Pays for a page of the result and takes it; `last` says nothing comes after it. */
  method TakeBody(page: TurnPage, meta: TurnMeta, assembly: Assembly, expected: Option<TurnMeta>,
                  workspace: ReadWorkspace, codec: Codec, metaBytes: TurnMeta -> nat, ghost source: seq<Bytes>,
                  ghost turn: string, ghost load: string, ghost limit: nat, ghost floor: nat)
    returns (ended: Option<Result<TurnRead, RpcError>>, last: bool)
    requires assembly.Valid(0) && workspace.Valid() && assembly.Held(codec, workspace.used - floor)
    requires PAGE_WORKSPACE_RESERVE <= floor
    requires assembly.position.item <= meta.total == page.total
    modifies workspace, assembly, assembly.assembler
    ensures workspace.Valid() && floor <= workspace.used
    ensures ended.Some? ==>
              ended.value == Ok(PartOnly(WorkspaceLimit)) || (ended.value.Err? && ended.value.error.InvalidRead?)
    ensures ended.None? ==>
              && assembly.Valid(0) && assembly.Held(codec, workspace.used - floor)
              && (last ==> assembly.position.item == meta.total)
              && (!last ==> assembly.position.item < meta.total && assembly.View().Follows(old(assembly.View())))
    ensures ended.None? && HonestChunks(page.items, source) && old(assembly.View()).Tracks(codec, source, 0) ==>
              assembly.View().Tracks(codec, source, 0)
    ensures HoldsResult(TurnReply.Answered(page), turn, load, meta, source, old(assembly.position.item))
            && |source| == meta.total && AreReadable(codec, source) && old(assembly.position.offset) == 0
            && HasRoom(old(workspace.used), limit, expected, meta, metaBytes, codec, source,
                       old(assembly.position.item)) ==>
              && ended.None? && assembly.oversized == old(assembly.oversized) && assembly.position.offset == 0
              && HasRoom(workspace.used, limit, Some(meta), meta, metaBytes, codec, source, assembly.position.item)
  {
    hide HoldsResult;
    hide AreReadable;
    hide Costs;
    hide Smooth;
    hide HeapBytes;
    hide HonestChunks;
    hide Progress.Tracks;
    ghost var before := assembly.View();
    ghost var good := && HoldsResult(TurnReply.Answered(page), turn, load, meta, source, before.position.item)
                      && |source| == meta.total && AreReadable(codec, source) && before.position.offset == 0
                      && HasRoom(workspace.used, limit, expected, meta, metaBytes, codec, source, before.position.item);
    if expected.None? {
      var refused := Admit(meta, metaBytes(meta), assembly, workspace, codec);
      if refused.Some? {
        return Some(Ok(PartOnly(refused.value))), true;
      }
    }
    if good {
      ServedIsSmooth(TurnReply.Answered(page), turn, load, meta, source, before, workspace.used, codec);
    }
    var taken := TakeTurnPage(page, assembly, workspace, codec, source, floor);
    if taken.Err? {
      return Some(Err(taken.error)), true;
    }
    if taken.value.Some? {
      return Some(Ok(PartOnly(taken.value.value))), true;
    }
    return None, page.nextCursor.None?;
  }

  /** One round: a page is requested, checked, paid for and taken. `last` says nothing comes after it. */
  method ReadTurnPage(client: TurnClient, turn: string, load: string, assembly: Assembly, expected: Option<TurnMeta>,
                      workspace: ReadWorkspace, codec: Codec, metaBytes: TurnMeta -> nat,
                      ghost results: string -> seq<Bytes>, ghost meta: TurnMeta, ghost limit: nat, ghost floor: nat)
    returns (fetched: Fetched, last: bool)
    requires assembly.Valid(0) && workspace.Valid() && assembly.Held(codec, workspace.used - floor)
    requires PAGE_WORKSPACE_RESERVE <= floor
    requires expected.None? <==> assembly.position == ReadCursor(0, 0)
    requires expected.None? ==> assembly.oversized.None?
    requires expected.Some? ==> assembly.position.item < expected.value.total
    modifies client, workspace, assembly, assembly.assembler
    ensures client.asked == old(client.asked) + [PageRequest(old(assembly.position), expected)]
    ensures client.calls == old(client.calls) + 1
    ensures Decides(client.server(old(client.calls), PageRequest(old(assembly.position), expected)), turn, load,
                    expected, fetched)
    ensures workspace.Valid() && floor <= workspace.used
    ensures fetched.Body? ==>
              && (expected.Some? ==> expected.value == fetched.meta)
              && assembly.Valid(0) && assembly.Held(codec, workspace.used - floor)
              && (last ==> assembly.position.item == fetched.meta.total)
              && (!last ==> assembly.position.item < fetched.meta.total
                            && assembly.View().Follows(old(assembly.View())))
    ensures fetched.Body? && HonestResults(client.server, results)
            && old(OnSource(assembly.View(), expected, codec, results)) ==>
              OnSource(assembly.View(), Some(fetched.meta), codec, results)
    // a result that is served whole goes on as long as there is memory for the rest of it
    ensures var source := results(meta.resultId);
            && ServesResult(client.server, turn, load, meta, source) && AreReadable(codec, source)
            && old(assembly.position.offset) == 0 && (expected.Some? ==> expected.value == meta)
            && HasRoom(old(workspace.used), limit, expected, meta, metaBytes, codec, source,
                       old(assembly.position.item)) ==>
              && fetched.Body? && fetched.meta == meta && assembly.oversized == old(assembly.oversized)
              && assembly.position.offset == 0
              && HasRoom(workspace.used, limit, Some(meta), meta, metaBytes, codec, source, assembly.position.item)
  {
    hide HonestResults;
    hide ServesResult;
    hide HoldsResult;
    hide AreReadable;
    hide BodyOf;
    hide EndsOn;
    hide HasRoom;
    hide HeapBytes;
    hide HonestChunks;
    hide Progress.Tracks;
    hide Progress.Sound;
    last := true;
    ghost var before := assembly.View();
    ghost var good := && ServesResult(client.server, turn, load, meta, results(meta.resultId))
                      && before.position.offset == 0 && (expected.Some? ==> expected.value == meta);
    ghost var reply := client.server(client.calls, PageRequest(before.position, expected));
    if good {
      assert before.position == ReadCursor(before.position.item, 0);
      ServesAll(client.server, turn, load, meta, results(meta.resultId));
      ServedPage(client.server, client.calls, turn, load, meta, results(meta.resultId), before.position.item, expected);
    }
    fetched := FetchTurnPage(client, turn, load, assembly.position, expected, results);
    if fetched.Ended? {
      return;
    }
    var page, identity := fetched.page, fetched.meta;
    BodyIs(reply, turn, load, expected);
    if OnSource(before, expected, codec, results) {
      SourceIs(before, expected, identity, codec, results);
    }
    var ended;
    ended, last := TakeBody(page, identity, assembly, expected, workspace, codec, metaBytes, results(identity.resultId),
                            turn, load, limit, floor);
    if ended.Some? {
      return Ended(ended.value), true;
    }
  }

  lemma BodyIs(reply: TurnReply, turn: string, load: string, expected: Option<TurnMeta>)
    requires BodyOf(reply, turn, load, expected).Some?
    ensures var meta := BodyOf(reply, turn, load, expected).value;
            && reply.Answered? && reply.page.total == meta.total && (expected.Some? ==> expected.value == meta)
  {
  }

  lemma SourceIs(p: Progress, expected: Option<TurnMeta>, meta: TurnMeta, codec: Codec, results: string -> seq<Bytes>)
    requires p.Sound(0) && OnSource(p, expected, codec, results) && (expected.Some? ==> expected.value == meta)
    requires expected.None? ==> p.position == ReadCursor(0, 0) && p.oversized.None?
    ensures p.Tracks(codec, results(meta.resultId), 0)
  {
  }

  lemma ServesAll(server: (nat, TurnRequest) -> TurnReply, turn: string, load: string, meta: TurnMeta,
                  source: seq<Bytes>)
    requires ServesResult(server, turn, load, meta, source)
    ensures |source| == meta.total
  {
  }

  /** What the server replied to the requests, the first of which was the `n`-th call. */
  ghost function Heard(server: (nat, TurnRequest) -> TurnReply, n: nat, asked: seq<TurnRequest>): seq<TurnReply> {
    seq(|asked|, k requires 0 <= k < |asked| => server(n + k, asked[k]))
  }

  /** Every reply brought a page of one result. */
  ghost predicate Bodies(replies: seq<TurnReply>, turn: string, load: string, expected: Option<TurnMeta>) {
    && (expected.None? <==> replies == [])
    && forall k | 0 <= k < |replies| :: BodyOf(replies[k], turn, load, expected) == expected
  }

  /** All replies but the last brought pages of one result, and the last one decides: either it is such a
      page too and the answer is the whole result, the part that is known, or an error, or the answer is what
      that reply says. */
  ghost predicate Settles(replies: seq<TurnReply>, turn: string, load: string, result: Result<TurnRead, RpcError>) {
    && replies != []
    && var last := replies[|replies| - 1];
       var expected := if |replies| == 1 then None else BodyOf(replies[0], turn, load, None);
       && Bodies(replies[..|replies| - 1], turn, load, expected)
       && if BodyOf(last, turn, load, expected).Some? then
            if result.Ok? then result.value.Whole? || result.value.PartOnly? else result.error.InvalidRead?
          else EndsOn(last, turn, load, expected, result)
  }

  lemma BodiesNext(server: (nat, TurnRequest) -> TurnReply, n: nat, asked: seq<TurnRequest>, request: TurnRequest,
                   turn: string, load: string, expected: Option<TurnMeta>, meta: TurnMeta)
    requires Bodies(Heard(server, n, asked), turn, load, expected)
    requires BodyOf(server(n + |asked|, request), turn, load, expected) == Some(meta)
    ensures Bodies(Heard(server, n, asked + [request]), turn, load, Some(meta))
  {
    var replies := Heard(server, n, asked + [request]);
    forall k | 0 <= k < |replies|
      ensures BodyOf(replies[k], turn, load, Some(meta)) == Some(meta)
    {
      if k < |asked| {
        assert replies[k] == Heard(server, n, asked)[k];
      }
    }
  }

  /** A round that ends the read settles it. */
  lemma LastSettles(server: (nat, TurnRequest) -> TurnReply, n: nat, asked: seq<TurnRequest>, request: TurnRequest,
                    turn: string, load: string, expected: Option<TurnMeta>, read: Result<TurnRead, RpcError>)
    requires Bodies(Heard(server, n, asked), turn, load, expected)
    requires var reply := server(n + |asked|, request);
             if BodyOf(reply, turn, load, expected).Some? then
               if read.Ok? then read.value.Whole? || read.value.PartOnly? else read.error.InvalidRead?
             else EndsOn(reply, turn, load, expected, read)
    ensures Settles(Heard(server, n, asked + [request]), turn, load, read)
  {
    var replies := Heard(server, n, asked + [request]);
    assert replies[..|replies| - 1] == Heard(server, n, asked);
    if asked != [] {
      assert replies[0] == Heard(server, n, asked)[0];
      assert BodyOf(replies[0], turn, load, expected) == expected;
    }
  }

  lemma EndSettles(server: (nat, TurnRequest) -> TurnReply, n: nat, asked: seq<TurnRequest>, request: TurnRequest,
                   turn: string, load: string, expected: Option<TurnMeta>, fetched: Fetched)
    requires Bodies(Heard(server, n, asked), turn, load, expected)
    requires fetched.Ended? && Decides(server(n + |asked|, request), turn, load, expected, fetched)
    ensures Settles(Heard(server, n, asked + [request]), turn, load, fetched.read)
    ensures fetched.read.Ok? ==>
              || fetched.read.value == PartOnly(WorkspaceLimit) || fetched.read.value.Unavailable?
              || fetched.read.value.Pending?
  {
    LastSettles(server, n, asked, request, turn, load, expected, fetched.read);
  }

  /** The answer is unavailable exactly if the last reply says that the result expired or is gone; pending
      exactly if the only reply says so; and a refusal of any request is the answer's own error. */
  lemma AnswerIff(replies: seq<TurnReply>, turn: string, load: string, result: Result<TurnRead, RpcError>)
    requires Settles(replies, turn, load, result)
    ensures var last := replies[|replies| - 1];
            && (result.Ok? && result.value.Unavailable? <==>
                  last.Expired? || (last.Answered? && PageIsFor(last.page, turn, load) && last.page.availability.Gone?))
            && (result == Ok(TurnRead.Pending) <==>
                  |replies| == 1 && last.Answered? && PageIsFor(last.page, turn, load)
                  && last.page.availability.Waiting?)
            && (result.Err? && result.error.Remote? ==> last == TurnReply.Refused(result.error))
            && (last.Refused? ==> result == Err(last.error))
            && (last.Answered? && !PageIsFor(last.page, turn, load) ==> result.Err?)
            && (forall k | 0 <= k < |replies| - 1 ::
                  replies[k].Answered? && Identity(replies[k].page).Some?
                  && Identity(replies[k].page) == Identity(replies[0].page))
  {
    var before := replies[..|replies| - 1];
    assert forall k | 0 <= k < |replies| - 1 :: replies[k] == before[k];
  }

  /** A round of the loop of a read on course: it ends the read, brings its last page, or goes on. */
  method ReadNextTurnPage(client: TurnClient, assembly: Assembly, expected: Option<TurnMeta>, workspace: ReadWorkspace,
                          ghost course: Course, turn: string, load: string, codec: Codec, metaBytes: TurnMeta -> nat,
                          ghost floor: nat, ghost before: seq<TurnRequest>)
    returns (fetched: Fetched, last: bool, ghost resultId: string, ghost asked: seq<TurnRequest>)
    requires assembly.Valid(0) && workspace.Valid() && assembly.Held(codec, workspace.used - floor)
    requires PAGE_WORKSPACE_RESERVE <= floor
    requires OnCourse(course, assembly.View(), workspace.used, expected, before)
    requires course.server == client.server && course.n + |before| == client.calls
    requires course.turn == turn && course.load == load && course.codec == codec && course.metaBytes == metaBytes
    requires course.honest ==> HonestResults(client.server, course.results)
    modifies client, workspace, assembly, assembly.assembler
    ensures client.calls == old(client.calls) + 1
    ensures client.asked == old(client.asked) + [PageRequest(old(assembly.position), expected)]
    ensures asked == before + [PageRequest(old(assembly.position), expected)]
    ensures workspace.Valid() && floor <= workspace.used && Continues(asked, resultId)
    ensures fetched.Ended? ==>
              && Settles(Heard(client.server, course.n, asked), turn, load, fetched.read)
              && !course.served && (fetched.read.Ok? && fetched.read.value.Pending? ==> |asked| == 1)
              && (fetched.read.Ok? ==>
                    !fetched.read.value.Whole? && Promised(fetched.read.value, turn, codec, course.results, resultId))
    ensures fetched.Body? ==>
              && (expected.Some? ==> expected.value == fetched.meta) && resultId == fetched.meta.resultId
              && assembly.Valid(0) && assembly.Held(codec, workspace.used - floor)
              && if last then Concluded(course, assembly.View(), workspace.used, asked, fetched.meta)
                 else
                   && OnCourse(course, assembly.View(), workspace.used, Some(fetched.meta), asked)
                   && (expected.Some? ==> old(assembly.position.item) < expected.value.total)
                   && Shrinks(old(assembly.View()), assembly.View())
  {
    hide HonestResults;
    hide HasRoom;
    hide AreReadable;
    hide IsServed;
    hide ServesResult;
    hide PageRequest;
    hide Settles;
    hide Continues;
    hide Promised;
    hide OnCourse;
    hide OnSource;
    hide Concluded;
    hide Decides;
    hide HeapBytes;
    hide Heard;
    hide Assembly.Held;
    hide Progress.Sound;
    hide Progress.Follows;
    ghost var p, used := assembly.View(), workspace.used;
    OnCourseAsks(course, p, used, expected, before);
    fetched, last := ReadTurnPage(client, turn, load, assembly, expected, workspace, codec, metaBytes, course.results,
                                  course.meta, course.limit, floor);
    asked := before + [PageRequest(p.position, expected)];
    if fetched.Ended? {
      resultId := if expected.Some? then expected.value.resultId else "";
      CourseEnds(course, p, used, expected, before, fetched, resultId);
      return;
    }
    resultId := fetched.meta.resultId;
    if last {
      CourseLast(course, p, assembly.View(), used, workspace.used, expected, before, fetched);
    } else {
      FollowsShrinks(p, assembly.View(), 0);
      OnCourseNext(course, p, assembly.View(), used, workspace.used, expected, before, fetched);
    }
  }

  /** The page loop: every item of the result, or why not. */
  method ReadResult(client: TurnClient, turn: string, load: string, workspace: ReadWorkspace, codec: Codec,
                    metaBytes: TurnMeta -> nat, ghost results: string -> seq<Bytes>, ghost meta: TurnMeta,
                    ghost limit: nat)
    returns (result: Result<TurnRead, RpcError>, ghost resultId: string, ghost asked: seq<TurnRequest>)
    requires workspace.Valid()
    modifies client, workspace
    ensures workspace.Valid() && old(workspace.used) <= workspace.used
    ensures client.calls == old(client.calls) + |asked|
    ensures client.asked == old(client.asked) + asked && asked != [] && Continues(asked, resultId)
    ensures Settles(Heard(client.server, old(client.calls), asked), turn, load, result)
    ensures result.Ok? && result.value.Whole? ==> |result.value.items| == result.value.meta.total
    ensures result.Ok? && result.value.Pending? ==> |asked| == 1
    ensures result.Ok? && HonestResults(client.server, results) ==>
              Promised(result.value, turn, codec, results, resultId)
    // a result that is served whole is read whole when its memory suffices
    ensures var source := results(meta.resultId);
            && HonestResults(client.server, results) && ServesResult(client.server, turn, load, meta, source)
            && IsResultOf(codec, source, turn)
            && HasRoom(old(workspace.used), limit, None, meta, metaBytes, codec, source, 0) ==>
              result.Ok? && result.value.Whole? && result.value.meta == meta && workspace.used <= limit
  {
    hide HonestResults;
    hide ServesResult;
    hide IsResultOf;
    hide HasRoom;
    hide Settles;
    hide Continues;
    hide Promised;
    hide OnCourse;
    hide OnSource;
    hide Concluded;
    hide Conclude;
    hide HeapBytes;
    hide Heard;
    hide Assembly.Held;
    hide PageRequest;
    hide Progress.Sound;
    var assembly := new Assembly(0);
    var expected: Option<TurnMeta> := None;
    var usage: Option<string> := None;
    ghost var floor := workspace.used;
    ghost var course := Course(client.server, client.calls, turn, load, codec, metaBytes, results, meta, limit,
                               HonestResults(client.server, results),
                               HonestResults(client.server, results)
                               && ServesResult(client.server, turn, load, meta, results(meta.resultId))
                               && IsResultOf(codec, results(meta.resultId), turn)
                               && HasRoom(floor, limit, None, meta, metaBytes, codec, results(meta.resultId), 0));
    resultId, asked := "", [];
    NoHeap(assembly, codec);
    OnCourseFirst(course, assembly.View(), floor);
    while true
      invariant workspace.Valid() && floor <= workspace.used && assembly.Valid(0)
      invariant assembly.Held(codec, workspace.used - floor)
      invariant client.asked == old(client.asked) + asked && client.calls == old(client.calls) + |asked|
      invariant OnCourse(course, assembly.View(), workspace.used, expected, asked)
      invariant fresh(assembly) && fresh(assembly.assembler)
      decreases if expected.None? then 1 else 0,
                if expected.Some? then Monus(expected.value.total, assembly.position.item) else 0,
                if assembly.assembler.active then 0 else 1,
                Monus(assembly.assembler.totalBytes, assembly.assembler.nextOffset)
    {
      var fetched, last;
      fetched, last, resultId, asked := ReadNextTurnPage(client, assembly, expected, workspace, course, turn, load,
                                                         codec, metaBytes, floor, asked);
      if fetched.Ended? {
        return fetched.read, resultId, asked;
      }
      expected := Some(fetched.meta);
      if usage.None? {
        usage := fetched.page.usage;
      }
      if last {
        result := Conclude(assembly.items, assembly.oversized, fetched.meta, turn, usage);
        CourseConcludes(course, assembly.View(), workspace.used, asked, fetched.meta, usage, result);
        return result, resultId, asked;
      }
    }
  }

  /** A read of one result: what is asked of whom, and whether the server is honest and serves it whole. */
  datatype Course = Course(server: (nat, TurnRequest) -> TurnReply, n: nat, turn: string, load: string, codec: Codec,
                           metaBytes: TurnMeta -> nat, results: string -> seq<Bytes>, meta: TurnMeta, limit: nat,
                           honest: bool, served: bool)

  /** All pages so far belong to one result and were taken, and there is more of it. */
  ghost predicate OnCourse(c: Course, p: Progress, used: nat, expected: Option<TurnMeta>, asked: seq<TurnRequest>) {
    && (expected.None? <==> p.position == ReadCursor(0, 0))
    && (expected.None? <==> asked == [])
    && (expected.None? ==> p.oversized.None?)
    && (expected.Some? ==> p.position.item < expected.value.total)
    && Continues(asked, if expected.Some? then expected.value.resultId else "")
    && (|asked| > 1 ==> asked[|asked| - 1].cursor.value.Before(p.position))
    && Bodies(Heard(c.server, c.n, asked), c.turn, c.load, expected)
    && (c.honest ==> OnSource(p, expected, c.codec, c.results))
    && (c.served ==>
          && IsServed(c) && p.position.offset == 0 && p.oversized.None?
          && (expected.Some? ==> expected.value == c.meta)
          && HasRoom(used, c.limit, expected, c.meta, c.metaBytes, c.codec, c.results(c.meta.resultId),
                     p.position.item))
  }

  /** What a course that is served rests on. */
  ghost predicate IsServed(c: Course) {
    && c.honest && ServesResult(c.server, c.turn, c.load, c.meta, c.results(c.meta.resultId))
    && IsResultOf(c.codec, c.results(c.meta.resultId), c.turn)
  }

  lemma OnCourseFirst(c: Course, p: Progress, used: nat)
    requires p.position == ReadCursor(0, 0) && p.oversized.None?
    requires c.served ==>
               IsServed(c) && HasRoom(used, c.limit, None, c.meta, c.metaBytes, c.codec, c.results(c.meta.resultId), 0)
    ensures OnCourse(c, p, used, None, [])
  {
  }

  lemma OnCourseAsks(c: Course, p: Progress, used: nat, expected: Option<TurnMeta>, asked: seq<TurnRequest>)
    requires OnCourse(c, p, used, expected, asked)
    ensures expected.None? <==> p.position == ReadCursor(0, 0)
    ensures expected.None? ==> p.oversized.None?
    ensures expected.Some? ==> p.position.item < expected.value.total
    ensures c.honest ==> OnSource(p, expected, c.codec, c.results)
    ensures c.served ==>
              && p.position.offset == 0 && p.oversized.None? && (expected.Some? ==> expected.value == c.meta)
              && ServesResult(c.server, c.turn, c.load, c.meta, c.results(c.meta.resultId))
              && AreReadable(c.codec, c.results(c.meta.resultId))
              && HasRoom(used, c.limit, expected, c.meta, c.metaBytes, c.codec, c.results(c.meta.resultId),
                         p.position.item)
    ensures Continues(asked + [PageRequest(p.position, expected)],
                      if expected.Some? then expected.value.resultId else "")
  {
    hide HasRoom;
    hide OnSource;
    hide Bodies;
    hide ServesResult;
    if expected.Some? {
      ContinuesNext(asked, expected.value.resultId, p.position);
    }
  }

  lemma OnCourseNext(c: Course, p: Progress, q: Progress, used: nat, after: nat, expected: Option<TurnMeta>,
                     asked: seq<TurnRequest>, fetched: Fetched)
    requires OnCourse(c, p, used, expected, asked) && fetched.Body?
    requires expected.Some? ==> expected.value == fetched.meta
    requires q.Follows(p) && q.position.item < fetched.meta.total
    requires var request := PageRequest(p.position, expected);
             Decides(c.server(c.n + |asked|, request), c.turn, c.load, expected, fetched)
    requires c.honest ==> OnSource(q, Some(fetched.meta), c.codec, c.results)
    requires c.served ==>
               && fetched.meta == c.meta && q.position.offset == 0 && q.oversized.None?
               && HasRoom(after, c.limit, Some(c.meta), c.meta, c.metaBytes, c.codec, c.results(c.meta.resultId),
                          q.position.item)
    ensures OnCourse(c, q, after, Some(fetched.meta), asked + [PageRequest(p.position, expected)])
    ensures Continues(asked + [PageRequest(p.position, expected)], fetched.meta.resultId)
  {
    hide HasRoom;
    hide OnSource;
    hide BodyOf;
    hide Bodies;
    hide Heard;
    hide EndsOn;
    hide IsServed;
    var request := PageRequest(p.position, expected);
    BodiesNext(c.server, c.n, asked, request, c.turn, c.load, expected, fetched.meta);
    if expected.Some? {
      ContinuesNext(asked, expected.value.resultId, p.position);
    }
  }

  /** A read that ends before the result does promises nothing of its items. */
  lemma CourseEnds(c: Course, p: Progress, used: nat, expected: Option<TurnMeta>, asked: seq<TurnRequest>,
                   fetched: Fetched, resultId: string)
    requires OnCourse(c, p, used, expected, asked) && fetched.Ended?
    requires var request := PageRequest(p.position, expected);
             Decides(c.server(c.n + |asked|, request), c.turn, c.load, expected, fetched)
    ensures Settles(Heard(c.server, c.n, asked + [PageRequest(p.position, expected)]), c.turn, c.load, fetched.read)
    ensures fetched.read.Ok? ==>
              !fetched.read.value.Whole? && Promised(fetched.read.value, c.turn, c.codec, c.results, resultId)
    ensures fetched.read.Ok? && fetched.read.value.Pending? ==> asked == []
  {
    hide Settles;
    hide HasRoom;
    hide OnSource;
    hide BodyOf;
    EndSettles(c.server, c.n, asked, PageRequest(p.position, expected), c.turn, c.load, expected, fetched);
  }

  /** All pages were taken. */
  ghost predicate Concluded(c: Course, q: Progress, used: nat, asked: seq<TurnRequest>, meta: TurnMeta) {
    && q.Sound(0) && q.position.item == meta.total
    && Bodies(Heard(c.server, c.n, asked), c.turn, c.load, Some(meta))
    && (c.honest ==> OnSource(q, Some(meta), c.codec, c.results))
    && (c.served ==> IsServed(c) && meta == c.meta && q.oversized.None? && used <= c.limit)
  }

  lemma CourseLast(c: Course, p: Progress, q: Progress, used: nat, after: nat, expected: Option<TurnMeta>,
                   asked: seq<TurnRequest>, fetched: Fetched)
    requires OnCourse(c, p, used, expected, asked) && fetched.Body?
    requires var request := PageRequest(p.position, expected);
             Decides(c.server(c.n + |asked|, request), c.turn, c.load, expected, fetched)
    requires q.Sound(0) && q.position.item == fetched.meta.total
    requires c.honest ==> OnSource(q, Some(fetched.meta), c.codec, c.results)
    requires c.served ==>
               && fetched.meta == c.meta && q.oversized.None?
               && HasRoom(after, c.limit, Some(c.meta), c.meta, c.metaBytes, c.codec, c.results(c.meta.resultId),
                          q.position.item)
    requires expected.Some? ==> expected.value == fetched.meta
    ensures Concluded(c, q, after, asked + [PageRequest(p.position, expected)], fetched.meta)
    ensures Continues(asked + [PageRequest(p.position, expected)], fetched.meta.resultId)
  {
    hide HasRoom;
    hide OnSource;
    hide BodyOf;
    hide Bodies;
    hide Heard;
    hide EndsOn;
    hide IsServed;
    hide Progress.Sound;
    BodiesNext(c.server, c.n, asked, PageRequest(p.position, expected), c.turn, c.load, expected, fetched.meta);
    if expected.Some? {
      ContinuesNext(asked, expected.value.resultId, p.position);
    }
    if c.served {
      RoomIsLeft(after, c.limit, c.meta, c.metaBytes, c.codec, c.results(c.meta.resultId), q.position.item);
    }
  }

  /** After the last page the read is what the items make of it. */
  lemma CourseConcludes(c: Course, q: Progress, used: nat, asked: seq<TurnRequest>, meta: TurnMeta,
                        usage: Option<string>, result: Result<TurnRead, RpcError>)
    requires asked != [] && Concluded(c, q, used, asked, meta)
    requires result == Conclude(q.items, q.oversized, meta, c.turn, usage)
    ensures Settles(Heard(c.server, c.n, asked), c.turn, c.load, result)
    ensures result.Ok? && result.value.Whole? ==> |result.value.items| == result.value.meta.total
    ensures result.Ok? ==> !result.value.Pending?
    ensures result.Ok? && c.honest ==> Promised(result.value, c.turn, c.codec, c.results, meta.resultId)
    ensures c.served ==> result.Ok? && result.value.Whole? && result.value.meta == c.meta && used <= c.limit
  {
    hide OnSource;
    hide Settles;
    hide Bodies;
    hide Heard;
    hide Conclude;
    hide Promised;
    hide BelongTo;
    ConcludeIs(q, meta, c.turn, usage, c.codec, c.results);
    BodiesSettle(Heard(c.server, c.n, asked), c.turn, c.load, meta, result);
    if c.served {
      ResultBelongs(q, c.codec, c.results, c.meta, c.turn);
    }
  }

  lemma BodiesSettle(replies: seq<TurnReply>, turn: string, load: string, meta: TurnMeta,
                     result: Result<TurnRead, RpcError>)
    requires Bodies(replies, turn, load, Some(meta))
    requires if result.Ok? then result.value.Whole? || result.value.PartOnly? else result.error.InvalidRead?
    ensures Settles(replies, turn, load, result)
  {
    assert forall k | 0 <= k < |replies| - 1 :: replies[..|replies| - 1][k] == replies[k];
    assert BodyOf(replies[0], turn, load, Some(meta)) == Some(meta);
    assert BodyOf(replies[|replies| - 1], turn, load, Some(meta)) == Some(meta);
  }

  lemma RoomIsLeft(used: nat, limit: nat, meta: TurnMeta, metaBytes: TurnMeta -> nat, codec: Codec,
                   source: seq<Bytes>, i: nat)
    requires HasRoom(used, limit, Some(meta), meta, metaBytes, codec, source, i)
    ensures used <= limit
  {
  }

  lemma ResultBelongs(p: Progress, codec: Codec, results: string -> seq<Bytes>, meta: TurnMeta, turn: string)
    requires var source := results(meta.resultId);
             IsResultOf(codec, source, turn) && OnSource(p, Some(meta), codec, results) && p.oversized.None?
    ensures BelongTo(p.items, turn)
  {
    var source := results(meta.resultId);
    forall i | 0 <= i < |p.items|
      ensures p.items[i].loopId.Some? ==> p.items[i].loopId.value == turn
    {
      assert codec.decode(source[i]) == Ok(p.items[i]);
      assert BelongTo([codec.decode(source[i]).value], turn);
      assert [codec.decode(source[i]).value][0] == p.items[i];
    }
  }

  lemma ConcludeIs(p: Progress, meta: TurnMeta, turn: string, usage: Option<string>, codec: Codec,
                   results: string -> seq<Bytes>)
    requires p.Sound(0) && p.position.item == meta.total
    ensures var read := Conclude(p.items, p.oversized, meta, turn, usage);
            && (if read.Ok? then read.value.Whole? || read.value.PartOnly? else read.error.InvalidRead?)
            && (read.Ok? && read.value.Whole? ==> |read.value.items| == read.value.meta.total)
            && (p.oversized.None? && BelongTo(p.items, turn) ==> read == Ok(Whole(meta, p.items, usage, [])))
            && (OnSource(p, Some(meta), codec, results) && read.Ok? ==>
                  Promised(read.value, turn, codec, results, meta.resultId))
  {
  }

  /** The facts are those of the first 64 open calls of the items, as far as they were answered. */
  ghost predicate FactsOf(read: TurnRead, contents: Contents, tools: seq<Call>, n: nat,
                          server: (nat, Call) -> Option<string>) {
    read.Whole? ==>
      var open := OpenCalls(read.items, contents, Finished(read.items, contents));
      && tools == open[..Min(MAX_TOOL_READS, |open|)]
      && read.facts == Answers(tools, n, server)
  }

  /** A whole result is completed with the facts of its open calls; any other end stands. */
  method AddFacts(client: ToolClient, read: Result<TurnRead, RpcError>, workspace: ReadWorkspace, contents: Contents,
                  ghost room: nat)
    returns (result: Result<TurnRead, RpcError>, ghost tools: seq<Call>)
    requires workspace.Valid()
    modifies client, workspace
    ensures workspace.Valid() && old(workspace.used) <= workspace.used
    ensures client.asked == old(client.asked) + tools && |tools| <= MAX_TOOL_READS
    ensures result.Ok? ==> FactsOf(result.value, contents, tools, old(client.calls), client.server)
    ensures if read.Ok? && read.value.Whole? then
              && (result.Ok? ==> result.value == PartOnly(WorkspaceLimit)
                                 || (result.value.Whole? && read == Ok(result.value.(facts := read.value.facts))))
              && (result.Err? ==> tools != [] && Undecodable(client, tools[|tools| - 1], contents))
            else
              result == read && tools == []
    ensures result.Err? && read.Ok? ==> result.error.InvalidRead?
    ensures read.Ok? && read.value.Whole? && Tame(client.server, contents, room)
            && old(workspace.used) + |read.value.items| * RESULT_BYTES + RoomFor(MAX_TOOL_READS, room)
               <= READ_WORKSPACE_BYTES ==>
              result.Ok? && result.value.Whole?
  {
    hide Tame;
    hide RoomFor;
    if read.Err? || !read.value.Whole? {
      return read, [];
    }
    ResultsAreItems(read.value.items, contents);
    var outcome;
    outcome, tools := ReadToolFacts(client, read.value.items, workspace, contents, room);
    if outcome.Err? {
      return Err(outcome.error), tools;
    }
    if outcome.value.None? {
      return Ok(PartOnly(WorkspaceLimit)), tools;
    }
    return Ok(read.value.(facts := outcome.value.value)), tools;
  }

  /** The memory in use, the result, its facts and `room` for each answer about its open calls fit the limit. */
  predicate FitsWhole(used: nat, meta: TurnMeta, metaBytes: TurnMeta -> nat, codec: Codec, source: seq<Bytes>,
                      room: nat) {
    used + Admission(meta, metaBytes, codec) + Costs(codec, source, 0, |source|) + meta.total * RESULT_BYTES
    + RoomFor(MAX_TOOL_READS, room) <= READ_WORKSPACE_BYTES
  }

  /** A whole result that is completed, or cut for want of memory, or found bad, settles as the result does. */
  lemma WholeSettles(replies: seq<TurnReply>, turn: string, load: string, read: Result<TurnRead, RpcError>,
                     result: Result<TurnRead, RpcError>)
    requires Settles(replies, turn, load, read)
    requires result == read
             || (&& read.Ok? && read.value.Whole?
                 && if result.Ok? then result.value.Whole? || result.value.PartOnly? else result.error.InvalidRead?)
    ensures Settles(replies, turn, load, result)
  {
  }

  /** Reads and checks a completion's whole result before anything of it is returned. */
  method ReadTurn(client: TurnClient, turn: string, load: string, workspace: ReadWorkspace, codec: Codec,
                  metaBytes: TurnMeta -> nat, toolClient: ToolClient, contents: Contents,
                  ghost results: string -> seq<Bytes>, ghost meta: TurnMeta, ghost room: nat)
    returns (result: Result<TurnRead, RpcError>, ghost resultId: string, ghost asked: seq<TurnRequest>,
             ghost tools: seq<Call>)
    requires workspace.Valid()
    modifies client, workspace, toolClient
    ensures workspace.Valid() && old(workspace.used) <= workspace.used
    ensures client.asked == old(client.asked) + asked && asked != [] && Continues(asked, resultId)
    ensures Settles(Heard(client.server, old(client.calls), asked), turn, load, result)
    ensures result.Ok? && result.value.Whole? ==> |result.value.items| == result.value.meta.total
    ensures result.Ok? && result.value.Pending? ==> |asked| == 1
    ensures result.Ok? && HonestResults(client.server, results) ==>
              Promised(result.value, turn, codec, results, resultId)
    ensures toolClient.asked == old(toolClient.asked) + tools && |tools| <= MAX_TOOL_READS
    ensures result.Ok? ==> FactsOf(result.value, contents, tools, old(toolClient.calls), toolClient.server)
    // a result that is served whole, with items that can be read, is returned whole if it fits
    ensures var source := results(meta.resultId);
            && HonestResults(client.server, results) && ServesResult(client.server, turn, load, meta, source)
            && IsResultOf(codec, source, turn) && Tame(toolClient.server, contents, room)
            && FitsWhole(old(workspace.used), meta, metaBytes, codec, source, room) ==>
              result.Ok? && result.value.Whole? && result.value.meta == meta
  {
    hide HonestResults;
    hide Continues;
    hide OpenCalls;
    hide Answers;
    hide BelongTo;
    hide Slice;
    hide FirstOversized;
    hide Settles;
    hide Heard;
    hide ServesResult;
    hide IsResultOf;
    hide Tame;
    hide RoomFor;
    hide Costs;
    ghost var limit := workspace.used + Admission(meta, metaBytes, codec)
                       + Costs(codec, results(meta.resultId), 0, |results(meta.resultId)|);
    var read;
    read, resultId, asked := ReadResult(client, turn, load, workspace, codec, metaBytes, results, meta, limit);
    ghost var heard := Heard(client.server, old(client.calls), asked);
    result, tools := AddFacts(toolClient, read, workspace, contents, room);
    WholeSettles(heard, turn, load, read, result);
  }
}
