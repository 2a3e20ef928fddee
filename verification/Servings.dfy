/**
 A server that answers in whole items: what it takes for a read of it to succeed. Nothing here
 mentions how the reads work.
 */
module Servings {
  import opened Wrappers
  import opened ChunkAssemblers
  import opened ReadModel

  // ---- what items cost --------------------------------------------------

  /** The memory one item is charged until it is decoded. */
  function Cost(codec: Codec, data: Bytes): nat {
    ItemCharge(codec, |data|) + codec.structures(data) * 512
  }

  /** The item is not oversized, decodes, and its heap is within what it was charged. */
  predicate IsReadable(codec: Codec, data: Bytes) {
    && |data| <= MAX_AUTO_ITEM_BYTES
    && codec.decode(data).Ok?
    && codec.heap(codec.decode(data).value) <= Cost(codec, data)
  }

  ghost predicate AreReadable(codec: Codec, source: seq<Bytes>) {
    forall i | 0 <= i < |source| :: IsReadable(codec, source[i])
  }

  /** The memory the items `[i..m)` are charged. */
  function Costs(codec: Codec, source: seq<Bytes>, i: nat, m: nat): nat
    requires i <= m <= |source|
  {
    if i == m then 0 else Costs(codec, source, i, m - 1) + Cost(codec, source[m - 1])
  }

  /** The bytes of the items `[i..m)`. */
  function Sizes(source: seq<Bytes>, i: nat, m: nat): nat
    requires i <= m <= |source|
  {
    if i == m then 0 else Sizes(source, i, m - 1) + |source[m - 1]|
  }

  lemma {:induction false} CostsSplit(codec: Codec, source: seq<Bytes>, i: nat, m: nat, end: nat)
    requires i <= m <= end <= |source|
    ensures Costs(codec, source, i, end) == Costs(codec, source, i, m) + Costs(codec, source, m, end)
  {
    if m < end {
      CostsSplit(codec, source, i, m, end - 1);
    }
  }

  lemma {:induction false} SizesSplit(source: seq<Bytes>, i: nat, m: nat, end: nat)
    requires i <= m <= end <= |source|
    ensures Sizes(source, i, end) == Sizes(source, i, m) + Sizes(source, m, end)
  {
    if m < end {
      SizesSplit(source, i, m, end - 1);
    }
  }

  // ---- whole items ------------------------------------------------------

  /** The item in one piece. */
  function WholeChunk(source: seq<Bytes>, i: nat): ReadChunk
    requires i < |source|
  {
    ReadChunk(i, 0, |source[i]|, Utf8Json(), source[i], true)
  }

  /** The chunk is a whole item that can be kept. */
  predicate IsWhole(chunk: ReadChunk, codec: Codec) {
    && chunk.offset == 0 && chunk.complete && chunk.encoding == Utf8Json() && chunk.totalBytes == |chunk.data|
    && IsReadable(codec, chunk.data)
  }

  /** The items `[i..m)`, each in one piece. */
  predicate AreWhole(chunks: seq<ReadChunk>, source: seq<Bytes>, i: nat, m: nat) {
    && i <= m <= |source| && |chunks| == m - i
    && forall k | 0 <= k < m - i :: chunks[k] == WholeChunk(source, i + k)
  }

  lemma {:induction false} DataBytesConcat(a: seq<ReadChunk>, b: seq<ReadChunk>)
    ensures DataBytes(a + b) == DataBytes(a) + DataBytes(b)
  {
    if a == [] {
      assert a + b == b;
    } else {
      DataBytesConcat(a[1..], b);
      assert (a + b)[1..] == a[1..] + b;
    }
  }

  lemma {:induction false} WholeBytes(chunks: seq<ReadChunk>, source: seq<Bytes>, i: nat, m: nat)
    requires AreWhole(chunks, source, i, m)
    ensures DataBytes(chunks) == Sizes(source, i, m)
    decreases m
  {
    if i < m {
      var last := [chunks[m - 1 - i]];
      WholeBytes(chunks[..m - 1 - i], source, i, m - 1);
      DataBytesConcat(chunks[..m - 1 - i], last);
      assert chunks == chunks[..m - 1 - i] + last;
      assert last[1..] == [] && DataBytes(last) == |source[m - 1]|;
    }
  }

  /** Kept items take no more than they were charged. */
  lemma {:induction false} HeapWithinCosts(codec: Codec, source: seq<Bytes>, i: nat, m: nat,
                                           items: seq<RawHistoryItem>)
    requires AreReadable(codec, source) && Slice(codec, source, i, m, items)
    ensures HeapBytes(codec, items) <= Costs(codec, source, i, m)
    decreases m
  {
    if i < m {
      assert IsReadable(codec, source[m - 1]) && codec.decode(source[m - 1]) == Ok(items[m - 1 - i]);
      assert Slice(codec, source, i, m - 1, items[..m - 1 - i]);
      HeapWithinCosts(codec, source, i, m - 1, items[..m - 1 - i]);
    }
  }

  // ---- pages of a pinned history ----------------------------------------

  /** What the server says of turns, and the memory the records of one page need. */
  datatype Serving = Serving(facts: string -> string, room: nat)

  /** The records say what the server says of their turns. */
  predicate FromFacts(records: seq<TurnRecord>, serving: Serving) {
    forall i | 0 <= i < |records| :: records[i].facts == serving.facts(records[i].loopId)
  }

  /** The page holds exactly the items `[i..m)` of `total`, each whole, and points behind them. */
  ghost predicate HoldsWhole(page: Page, codec: Codec, source: seq<Bytes>, i: nat, m: nat, total: nat,
                             serving: Serving) {
    && AreWhole(page.items, source, i, m)
    && page.nextCursor == (if m < total then Some(ReadCursor(m, 0)) else None)
    && FromFacts(page.records, serving) && RecordCharges(codec, page.records) <= serving.room
  }

  /** The request asks for items of the pin from the start of one on, and they fit its byte bound. */
  predicate AsksWhole(request: Request, pin: SnapshotPin, source: seq<Bytes>)
    requires |source| == pin.total
  {
    && request.pin == Some(pin) && request.cursor.Some? && request.cursor.value.offset == 0
    && request.cursor.value.item < pin.total
    && Sizes(source, request.cursor.value.item, Min(request.cursor.value.item + request.limit, pin.total))
       <= request.maxBytes
  }

  /** Every request for items of the pin that fit its bound is answered with them whole, up to its limit or
      the end. */
  ghost predicate Serves(server: (nat, Request) -> Reply, sessionId: string, pin: SnapshotPin, codec: Codec,
                         source: seq<Bytes>, serving: Serving) {
    && |source| == pin.total
    && forall n, request | AsksWhole(request, pin, source) ::
         var i := request.cursor.value.item;
         && server(n, request).Answered?
         && server(n, request).page.sessionId == sessionId && server(n, request).page.pin == pin
         && HoldsWhole(server(n, request).page, codec, source, i, Min(i + request.limit, pin.total), pin.total, serving)
  }

  /** Where the page that begins at `i` ends. */
  function PageStop(i: nat, end: nat): nat {
    Min(i + PAGE_LIMIT, end)
  }

  /** How many pages `n` items take. */
  function Pages(n: nat): nat {
    (n + PAGE_LIMIT - 1) / PAGE_LIMIT
  }

  /** The memory the items `[i..end)` and the records of their pages need. */
  function Demand(codec: Codec, source: seq<Bytes>, i: nat, end: nat, room: nat): nat
    requires i <= end <= |source|
  {
    Costs(codec, source, i, end) + Pages(end - i) * room
  }

  /** Any page of items fits the largest page there is. */
  ghost predicate PagesFit(source: seq<Bytes>) {
    forall i: nat, m: nat | i <= m <= |source| && m <= i + PAGE_LIMIT :: Sizes(source, i, m) <= PAGE_MAX_BYTES
  }

  lemma PagesNext(n: nat)
    requires 0 < n
    ensures Pages(n) == 1 + Pages(n - Min(PAGE_LIMIT, n))
  {
  }

  lemma DemandNext(codec: Codec, source: seq<Bytes>, i: nat, end: nat, room: nat)
    requires i < end <= |source|
    ensures var m := PageStop(i, end);
            Demand(codec, source, i, end, room)
            == Costs(codec, source, i, m) + room + Demand(codec, source, m, end, room)
  {
    var m := PageStop(i, end);
    CostsSplit(codec, source, i, m, end);
    PagesNext(end - i);
    assert end - m == end - i - Min(PAGE_LIMIT, end - i);
  }
}
