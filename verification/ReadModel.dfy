/**
 What a paged read exchanges with the Agent, and the simple specification it has to meet:
 the items it returns are a slice of the pinned source.
 */
module ReadModel {
  import opened Wrappers
  import opened ChunkAssemblers

  const PAGE_LIMIT: nat := 20
  const TAIL_ITEMS: nat := 60
  const PROBE_LIMIT: nat := 1
  const PAGE_MAX_BYTES: nat := 262_144
  const PROBE_MAX_BYTES: nat := 65_536
  const READ_WORKSPACE_BYTES: nat := 64 * 1024 * 1024
  const PAGE_WORKSPACE_RESERVE: nat := PAGE_MAX_BYTES * 8
  const HISTORY_CATCHUP_MAX_PAGES: nat := 64
  const HISTORY_CATCHUP_MAX_BYTES: nat := 16 * 1024 * 1024
  const INVALID_STATE: int := -32005

  /** A decoded history item; only the turn it belongs to matters to the reads. */
  datatype RawHistoryItem = RawHistoryItem(loopId: Option<string>, content: string)

  datatype TurnRecord = TurnRecord(loopId: string, facts: string)

  datatype SnapshotPin = SnapshotPin(capturedEnd: nat, historyRevision: string, projectionRevision: Option<string>,
                                     total: nat, firstItem: nat)

  datatype ReadPartial = Oversized(index: nat, totalBytes: nat) | WorkspaceLimit | HistoryLimit

  datatype RpcError = InvalidRead(reason: string) | Remote(code: int, message: string)
  {
    predicate IsStalePin() {
      Remote? && code == INVALID_STATE
    }
  }

  datatype View = Display | Canonical

  /** One `session.read`: a probe carries no cursor and no pin. */
  datatype Request = Request(view: View, limit: nat, maxBytes: nat, cursor: Option<ReadCursor>,
                             pin: Option<SnapshotPin>)

  datatype Page = Page(sessionId: string, items: seq<ReadChunk>, nextCursor: Option<ReadCursor>, pin: SnapshotPin,
                       records: seq<TurnRecord>, recordBytes: nat, projected: bool)

  datatype Reply = Answered(page: Page) | Refused(error: RpcError)

  /** Decoding and its memory estimates, taken as given. */
  datatype Codec = Codec(
    decode: Bytes -> Result<RawHistoryItem, string>,
    structures: Bytes -> nat,
    heap: RawHistoryItem -> nat,
    recordCharge: TurnRecord -> nat,
    pinCharge: SnapshotPin -> nat,
    itemSize: nat)

  function DataBytes(chunks: seq<ReadChunk>): nat {
    if chunks == [] then 0 else |chunks[0].data| + DataBytes(chunks[1..])
  }

  function HeapBytes(codec: Codec, items: seq<RawHistoryItem>): nat {
    if items == [] then 0 else HeapBytes(codec, items[..|items| - 1]) + codec.heap(items[|items| - 1])
  }

  function RecordCharges(codec: Codec, records: seq<TurnRecord>): nat {
    if records == [] then 0
    else RecordCharges(codec, records[..|records| - 1]) + codec.recordCharge(records[|records| - 1])
  }

  /** No turn has two records. */
  ghost predicate OnePerTurn(records: seq<TurnRecord>) {
    forall i, j | 0 <= i < j < |records| :: records[i].loopId != records[j].loopId
  }

  /** Records of one turn say the same, in one list and across both. */
  ghost predicate Agree(known: seq<TurnRecord>, added: seq<TurnRecord>) {
    forall a, b | a in known + added && b in known + added && a.loopId == b.loopId :: a == b
  }

  /** A list with one record a turn that holds all of both shows that they agree. */
  lemma MergedAgree(known: seq<TurnRecord>, added: seq<TurnRecord>, records: seq<TurnRecord>)
    requires OnePerTurn(records) && forall r | r in known || r in added :: r in records
    ensures Agree(known, added)
  {
    forall a, b | a in known + added && b in known + added && a.loopId == b.loopId
      ensures a == b
    {
      var i :| 0 <= i < |records| && records[i] == a;
      var j :| 0 <= j < |records| && records[j] == b;
    }
  }

  /** The charge for one item's bytes before its first chunk is buffered. */
  function ItemCharge(codec: Codec, totalBytes: nat): nat {
    if totalBytes > MAX_AUTO_ITEM_BYTES then 512 else totalBytes * 4 + 2 * codec.itemSize
  }

  // ---- the specification ----------------------------------------------

  /** `items` are the decoded source items `[from..end)`, in order, none oversized. */
  ghost predicate Slice(codec: Codec, source: seq<Bytes>, from: nat, end: nat, items: seq<RawHistoryItem>) {
    && from <= end <= |source|
    && |items| == end - from
    && forall i | from <= i < end ::
         |source[i]| <= MAX_AUTO_ITEM_BYTES && codec.decode(source[i]) == Ok(items[i - from])
  }

  /** A chunk cut from the pinned source. */
  ghost predicate HonestChunk(chunk: ReadChunk, source: seq<Bytes>) {
    && chunk.index < |source|
    && chunk.totalBytes == |source[chunk.index]| <= USIZE_MAX
    && chunk.offset + |chunk.data| <= chunk.totalBytes
    && chunk.data == source[chunk.index][chunk.offset..chunk.offset + |chunk.data|]
    && (chunk.complete <==> chunk.offset + |chunk.data| == chunk.totalBytes)
  }

  /** Whatever the server answers, and however it cuts, pages of one pin are cut from one source. */
  ghost predicate HonestServer(server: (nat, Request) -> Reply, history: SnapshotPin -> seq<Bytes>) {
    && (forall pin :: |history(pin)| == pin.total)
    && (forall n, request ::
          server(n, request).Answered? ==>
            forall i | 0 <= i < |server(n, request).page.items| ::
              HonestChunk(server(n, request).page.items[i], history(server(n, request).page.pin)))
  }

  lemma {:induction false} HeapBytesConcat(codec: Codec, a: seq<RawHistoryItem>, b: seq<RawHistoryItem>)
    ensures HeapBytes(codec, a + b) == HeapBytes(codec, a) + HeapBytes(codec, b)
  {
    if b == [] {
      assert a + b == a;
    } else {
      HeapBytesConcat(codec, a, b[..|b| - 1]);
      assert (a + b)[..|a + b| - 1] == a + b[..|b| - 1];
    }
  }

  /** Adjacent slices join. */
  lemma SlicesJoin(codec: Codec, source: seq<Bytes>, from: nat, mid: nat, end: nat, a: seq<RawHistoryItem>,
                   b: seq<RawHistoryItem>)
    requires Slice(codec, source, from, mid, a) && Slice(codec, source, mid, end, b)
    ensures Slice(codec, source, from, end, a + b)
  {
  }

  function Reverse<T>(s: seq<T>): seq<T> {
    if s == [] then [] else [s[|s| - 1]] + Reverse(s[..|s| - 1])
  }

  lemma {:induction false} ReverseConcat<T>(a: seq<T>, b: seq<T>)
    ensures Reverse(a + b) == Reverse(b) + Reverse(a)
  {
    if b == [] {
      assert a + b == a;
    } else {
      ReverseConcat(a, b[..|b| - 1]);
      assert (a + b)[..|a + b| - 1] == a + b[..|b| - 1];
    }
  }

  lemma {:induction false} ReverseTwice<T>(s: seq<T>)
    ensures Reverse(Reverse(s)) == s && |Reverse(s)| == |s|
  {
    if s != [] {
      var last := [s[|s| - 1]];
      ReverseTwice(s[..|s| - 1]);
      ReverseConcat(last, Reverse(s[..|s| - 1]));
      assert Reverse(last) == last;
    }
  }
}
