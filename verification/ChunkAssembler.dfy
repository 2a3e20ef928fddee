/** Reassembly of one history item from the chunks of a paged read. */
module ChunkAssemblers {
  import opened Wrappers

  type Bytes = seq<Byte>

  const USIZE_MAX: nat := 0xFFFF_FFFF_FFFF_FFFF
  /** Items above this size are skipped instead of being buffered. */
  const MAX_AUTO_ITEM_BYTES: nat := 8 * 1024 * 1024

  datatype ReadChunk = ReadChunk(index: nat, offset: nat, totalBytes: nat, encoding: string, data: Bytes,
                                 complete: bool)

  /** A read position: an item and a byte offset inside it. */
  datatype ReadCursor = ReadCursor(item: nat, offset: nat)
  {
    /** The derived order: by item, then by offset. */
    predicate Before(other: ReadCursor) {
      item < other.item || (item == other.item && offset < other.offset)
    }
  }

  datatype ChunkOutcome = Pending | Item(index: nat, data: Bytes) | Oversized(index: nat, totalBytes: nat)

  datatype ReadError =
    | Encoding(name: string)
    | OutOfOrder(expected: nat, found: nat)
    | OffsetMismatch(expected: nat, found: nat)
    | ByteCount(index: nat, declared: nat, delivered: nat)
    | EmptyChunk
    | IncompleteAtEnd

  /** The one encoding of chunk data. */
  function Utf8Json(): string {
    "utf8_json"
  }

  /** The assembler's fields as a value. */
  datatype Assembler = Assembler(index: nat, nextOffset: nat, totalBytes: nat, buffer: Bytes, active: bool,
                                 skipping: bool)
  {
    function NextCursor(): Option<ReadCursor> {
      if active then Some(ReadCursor(index, nextOffset)) else None
    }

    /** Why `chunk` is refused before anything changes, if it is. */
    function Refusal(chunk: ReadChunk): Option<ReadError> {
      if chunk.encoding != Utf8Json() then Some(Encoding(chunk.encoding))
      else if |chunk.data| == 0 && !chunk.complete then Some(EmptyChunk)
      else if active && chunk.index != index then Some(OutOfOrder(index, chunk.index))
      else if !active && chunk.offset != 0 then Some(OffsetMismatch(0, chunk.offset))
      else if active && chunk.totalBytes != totalBytes then
        Some(ByteCount(index, totalBytes, Min(USIZE_MAX, nextOffset + |chunk.data|)))
      else if active && chunk.offset != nextOffset then Some(OffsetMismatch(nextOffset, chunk.offset))
      else None
    }

    /** The assembler with the item of `chunk` open. */
    function Opened(chunk: ReadChunk): Assembler {
      if active then this
      else Assembler(chunk.index, nextOffset, chunk.totalBytes, [], true, chunk.totalBytes > MAX_AUTO_ITEM_BYTES)
    }

    /** What an open item makes of the next piece. */
    function Extended(chunk: ReadChunk): (Assembler, Result<ChunkOutcome, ReadError>) {
      var next := nextOffset + |chunk.data|;
      if next > USIZE_MAX then (this, Err(ByteCount(index, totalBytes, USIZE_MAX)))
      else
        var advanced := this.(nextOffset := next);
        var extended := if skipping then advanced else advanced.(buffer := buffer + chunk.data);
        if next > totalBytes then (advanced, Err(ByteCount(index, totalBytes, next)))
        else if !chunk.complete then
          if next == totalBytes then (advanced, Err(IncompleteAtEnd)) else (extended, Ok(Pending))
        else if next != totalBytes then (advanced, Err(ByteCount(index, totalBytes, next)))
        else (Idle, Ok(if skipping then Oversized(index, totalBytes) else Item(index, extended.buffer)))
    }

    function Push(chunk: ReadChunk): (Assembler, Result<ChunkOutcome, ReadError>) {
      match Refusal(chunk)
      case Some(error) => (this, Err(error))
      case None => Opened(chunk).Extended(chunk)
    }
  }

  const Idle := Assembler(0, 0, 0, [], false, false)

  class ChunkAssembler {
    var index: nat
    var nextOffset: nat
    var totalBytes: nat
    var buffer: Bytes
    var active: bool
    var skipping: bool

    ghost function View(): Assembler
      reads this
    {
      Assembler(index, nextOffset, totalBytes, buffer, active, skipping)
    }

    /** Between items nothing is left over. */
    ghost predicate Valid()
      reads this
    {
      active || View() == Idle
    }

    constructor ()
      ensures View() == Idle
    {
      index, nextOffset, totalBytes, buffer, active, skipping := 0, 0, 0, [], false, false;
    }

    method NextCursor() returns (cursor: Option<ReadCursor>)
      ensures cursor == View().NextCursor()
    {
      return if active then Some(ReadCursor(index, nextOffset)) else None;
    }

    method Discard()
      modifies this
      ensures View() == Idle
    {
      index, nextOffset, totalBytes, buffer, active, skipping := 0, 0, 0, [], false, false;
    }

    method Push(chunk: ReadChunk) returns (result: Result<ChunkOutcome, ReadError>)
      requires Valid()
      modifies this
      ensures Valid() && (View(), result) == old(View()).Push(chunk)
    {
      if chunk.encoding != Utf8Json() {
        return Err(Encoding(chunk.encoding));
      }
      var delivered := |chunk.data|;
      if delivered == 0 && !chunk.complete {
        return Err(EmptyChunk);
      }
      if active && chunk.index != index {
        return Err(OutOfOrder(index, chunk.index));
      }
      if !active {
        if chunk.offset != 0 {
          return Err(OffsetMismatch(0, chunk.offset));
        }
        index := chunk.index;
        totalBytes := chunk.totalBytes;
        buffer := [];
        active := true;
        skipping := chunk.totalBytes > MAX_AUTO_ITEM_BYTES;
      } else if chunk.totalBytes != totalBytes {
        return Err(ByteCount(index, totalBytes, Min(USIZE_MAX, nextOffset + delivered)));
      }
      if chunk.offset != nextOffset {
        return Err(OffsetMismatch(nextOffset, chunk.offset));
      }
      if nextOffset + delivered > USIZE_MAX {
        return Err(ByteCount(index, totalBytes, USIZE_MAX));
      }
      nextOffset := nextOffset + delivered;
      if nextOffset > totalBytes {
        return Err(ByteCount(index, totalBytes, nextOffset));
      }
      if !chunk.complete {
        if nextOffset == totalBytes {
          return Err(IncompleteAtEnd);
        }
        if !skipping {
          buffer := buffer + chunk.data;
        }
        return Ok(Pending);
      }
      if nextOffset != totalBytes {
        return Err(ByteCount(index, totalBytes, nextOffset));
      }
      if skipping {
        result := Ok(Oversized(index, totalBytes));
        Discard();
        return;
      }
      buffer := buffer + chunk.data;
      result := Ok(Item(index, buffer));
      Discard();
    }
  }
}

/** Assembly undoes splitting, exactly: which chunk sequences yield an item, and which item. */
module ChunkLaws {
  import opened Wrappers
  import opened ChunkAssemblers

  // ---- splitting ------------------------------------------------------

  function Flatten(pieces: seq<Bytes>): Bytes {
    if pieces == [] then [] else Flatten(pieces[..|pieces| - 1]) + pieces[|pieces| - 1]
  }

  /** The `i`-th chunk of an item cut into `pieces`. */
  function ChunkOf(index: nat, pieces: seq<Bytes>, i: nat): ReadChunk
    requires i < |pieces|
  {
    ReadChunk(index, |Flatten(pieces[..i])|, |Flatten(pieces)|, Utf8Json(), pieces[i], i == |pieces| - 1)
  }

  function ChunksOf(index: nat, pieces: seq<Bytes>): seq<ReadChunk> {
    seq(|pieces|, i requires 0 <= i < |pieces| => ChunkOf(index, pieces, i))
  }

  /** A cut the protocol accepts: an empty piece only stands for an empty item. */
  predicate WellCut(pieces: seq<Bytes>) {
    |pieces| == 1 || (pieces != [] && forall i | 0 <= i < |pieces| :: pieces[i] != [])
  }

  /** Pushes every chunk; the result is the last outcome, or the first error. */
  function PushAll(a: Assembler, chunks: seq<ReadChunk>): (Assembler, Result<ChunkOutcome, ReadError>) {
    if chunks == [] then (a, Ok(Pending))
    else
      var (before, outcome) := PushAll(a, chunks[..|chunks| - 1]);
      match outcome
      case Ok(Pending) => before.Push(chunks[|chunks| - 1])
      case _ => (before, outcome)
  }

  lemma {:induction false} FlattenGrows(pieces: seq<Bytes>, i: nat)
    requires i <= |pieces|
    ensures |Flatten(pieces[..i])| <= |Flatten(pieces)|
    ensures i < |pieces| ==> |Flatten(pieces[..i])| + |pieces[i]| <= |Flatten(pieces)|
    ensures i < |pieces| && pieces[|pieces| - 1] != [] ==> |Flatten(pieces[..i])| < |Flatten(pieces)|
  {
    if i == |pieces| {
      assert pieces[..i] == pieces;
    } else {
      FlattenGrows(pieces[..|pieces| - 1], i);
      assert pieces[..|pieces| - 1][..i] == pieces[..i];
    }
  }

  lemma FlattenNext(pieces: seq<Bytes>, i: nat)
    requires i < |pieces|
    ensures Flatten(pieces[..i + 1]) == Flatten(pieces[..i]) + pieces[i]
  {
    assert pieces[..i + 1][..i] == pieces[..i];
  }

  // ---- assembly undoes splitting --------------------------------------

  /** The assembler after the first `i` pieces of an item. */
  function Midway(index: nat, pieces: seq<Bytes>, i: nat): Assembler
    requires i <= |pieces|
  {
    if i == 0 then Idle
    else
      var total := |Flatten(pieces)|;
      var skipping := total > MAX_AUTO_ITEM_BYTES;
      Assembler(index, |Flatten(pieces[..i])|, total, if skipping then [] else Flatten(pieces[..i]), true, skipping)
  }

  /** An assembler in the middle of an item of `total` bytes, holding what came so far. */
  function OpenAt(index: nat, total: nat, held: Bytes): Assembler {
    var skipping := total > MAX_AUTO_ITEM_BYTES;
    Assembler(index, |held|, total, if skipping then [] else held, true, skipping)
  }

  lemma OpenPush(index: nat, total: nat, held: Bytes, piece: Bytes)
    requires piece != [] && |held| + |piece| < total <= USIZE_MAX
    ensures OpenAt(index, total, held).Push(ReadChunk(index, |held|, total, Utf8Json(), piece, false)) ==
            (OpenAt(index, total, held + piece), Ok(Pending))
  {
    hide Utf8Json;
  }

  lemma FirstPush(index: nat, total: nat, piece: Bytes)
    requires piece != [] && |piece| < total <= USIZE_MAX
    ensures Idle.Push(ReadChunk(index, 0, total, Utf8Json(), piece, false))
            == (OpenAt(index, total, piece), Ok(Pending))
  {
    hide Utf8Json;
    assert [] + piece == piece;
  }

  lemma MidwayPush(index: nat, pieces: seq<Bytes>, i: nat)
    requires WellCut(pieces) && i + 1 < |pieces| && |Flatten(pieces)| <= USIZE_MAX
    ensures Midway(index, pieces, i).Push(ChunkOf(index, pieces, i)) == (Midway(index, pieces, i + 1), Ok(Pending))
  {
    assert pieces[..0] == [] && Flatten([]) == [];
    assert pieces[i] != [] && pieces[|pieces| - 1] != [];
    hide Flatten;
    hide Utf8Json;
    hide Assembler.Push;
    var total, held := |Flatten(pieces)|, Flatten(pieces[..i]);
    FlattenNext(pieces, i);
    FlattenGrows(pieces, i + 1);
    if i == 0 {
      assert held + pieces[i] == pieces[i];
      FirstPush(index, total, pieces[i]);
    } else {
      OpenPush(index, total, held, pieces[i]);
    }
  }

  lemma PushOneMore(a: Assembler, chunks: seq<ReadChunk>, i: nat)
    requires i < |chunks| && PushAll(a, chunks[..i]).1 == Ok(Pending)
    ensures PushAll(a, chunks[..i + 1]) == PushAll(a, chunks[..i]).0.Push(chunks[i])
  {
    hide Assembler.Push;
    assert chunks[..i + 1][..i] == chunks[..i];
  }

  lemma {:induction false} PrefixIsPending(index: nat, pieces: seq<Bytes>, i: nat)
    requires WellCut(pieces) && i < |pieces| && |Flatten(pieces)| <= USIZE_MAX
    ensures PushAll(Idle, ChunksOf(index, pieces)[..i]) == (Midway(index, pieces, i), Ok(Pending))
  {
    if i != 0 {
      hide PushAll;
      hide Midway;
      hide ChunkOf;
      hide Flatten;
      hide Assembler.Push;
      PrefixIsPending(index, pieces, i - 1);
      MidwayPush(index, pieces, i - 1);
      PushOneMore(Idle, ChunksOf(index, pieces), i - 1);
    }
  }

  /** Any accepted cut of an item is put back together exactly, and an oversized item is
      reported with nothing buffered. */
  lemma AssemblyUndoesSplitting(index: nat, pieces: seq<Bytes>)
    requires WellCut(pieces) && |Flatten(pieces)| <= USIZE_MAX
    ensures PushAll(Idle, ChunksOf(index, pieces)) ==
            (Idle, Ok(if |Flatten(pieces)| > MAX_AUTO_ITEM_BYTES then Oversized(index, |Flatten(pieces)|)
                      else Item(index, Flatten(pieces))))
    ensures forall i | 0 <= i < |pieces| :: var (a, outcome) := PushAll(Idle, ChunksOf(index, pieces)[..i]);
              && outcome == Ok(Pending)
              && |a.buffer| <= MAX_AUTO_ITEM_BYTES
  {
    var chunks := ChunksOf(index, pieces);
    var last := |pieces| - 1;
    forall i | 0 <= i < |pieces|
      ensures PushAll(Idle, chunks[..i]) == (Midway(index, pieces, i), Ok(Pending))
      ensures |Midway(index, pieces, i).buffer| <= MAX_AUTO_ITEM_BYTES
    {
      PrefixIsPending(index, pieces, i);
      FlattenGrows(pieces, i);
    }
    assert chunks[last] == ChunkOf(index, pieces, last);
    FlattenNext(pieces, last);
    assert pieces[..last + 1] == pieces;
    assert pieces[..0] == [];
  }

  // ---- only splits assemble -------------------------------------------

  function Pieces(chunks: seq<ReadChunk>): seq<Bytes> {
    seq(|chunks|, i requires 0 <= i < |chunks| => chunks[i].data)
  }

  /** A chunk that continues an item without completing it. */
  ghost predicate Continues(chunk: ReadChunk, index: nat, offset: nat, total: nat) {
    && chunk.index == index && chunk.offset == offset && chunk.totalBytes == total && chunk.encoding == Utf8Json()
    && chunk.data != [] && !chunk.complete
  }

  /** While a sequence is pending, it is a gap-free prefix of one item, buffered unless skipped. */
  ghost predicate Prefix(a: Assembler, chunks: seq<ReadChunk>)
    requires chunks != []
  {
    var pieces := Pieces(chunks);
    var total := chunks[0].totalBytes;
    && a == Assembler(chunks[0].index, |Flatten(pieces)|, total,
                      if total > MAX_AUTO_ITEM_BYTES then [] else Flatten(pieces), true, total > MAX_AUTO_ITEM_BYTES)
    && |Flatten(pieces)| < total
    && forall j | 0 <= j < |chunks| :: Continues(chunks[j], chunks[0].index, |Flatten(pieces[..j])|, total)
  }

  lemma PendingPush(a: Assembler, chunk: ReadChunk)
    requires a.Push(chunk).1 == Ok(Pending) && (a == Idle || a.active)
    ensures var open := a.Opened(chunk);
            && Continues(chunk, open.index, open.nextOffset, open.totalBytes)
            && open.nextOffset + |chunk.data| < open.totalBytes
            && a.Push(chunk).0 == open.(nextOffset := open.nextOffset + |chunk.data|,
                                        buffer := if open.skipping then open.buffer else open.buffer + chunk.data)
  {
  }

  lemma FinalPush(a: Assembler, chunk: ReadChunk)
    requires a.Push(chunk).1.Ok? && a.Push(chunk).1 != Ok(Pending) && (a == Idle || a.active)
    ensures var open := a.Opened(chunk);
            && chunk == ReadChunk(open.index, open.nextOffset, open.totalBytes, Utf8Json(), chunk.data, true)
            && open.nextOffset + |chunk.data| == open.totalBytes
            && a.Push(chunk).1 == Ok(if open.skipping then Oversized(open.index, open.totalBytes)
                                     else Item(open.index, open.buffer + chunk.data))
  {
  }

  lemma PiecesSplit(chunks: seq<ReadChunk>)
    requires chunks != []
    ensures var n := |chunks| - 1;
            && Flatten(Pieces(chunks)) == Flatten(Pieces(chunks[..n])) + chunks[n].data
            && Pieces(chunks)[..n] == Pieces(chunks[..n])
  {
    assert Pieces(chunks)[..|chunks| - 1] == Pieces(chunks[..|chunks| - 1]);
  }

  lemma PrefixStarts(chunk: ReadChunk)
    requires Idle.Push(chunk).1 == Ok(Pending)
    ensures Prefix(Idle.Push(chunk).0, [chunk])
  {
    PendingPush(Idle, chunk);
    PiecesSplit([chunk]);
    assert Pieces([chunk]) == [chunk.data] && Pieces([chunk])[..0] == [];
  }

  lemma PrefixContinues(before: Assembler, rest: seq<ReadChunk>, chunk: ReadChunk)
    requires rest != [] && Prefix(before, rest) && before.Push(chunk).1 == Ok(Pending)
    ensures var chunks := rest + [chunk]; var pieces := Pieces(chunks);
            forall j | 0 <= j < |chunks| ::
              Continues(chunks[j], chunks[0].index, |Flatten(pieces[..j])|, chunks[0].totalBytes)
  {
    var chunks := rest + [chunk];
    var pieces := Pieces(chunks);
    PendingPush(before, chunk);
    forall j | 0 <= j < |chunks|
      ensures Continues(chunks[j], chunks[0].index, |Flatten(pieces[..j])|, chunks[0].totalBytes)
    {
      if j < |rest| {
        assert pieces[..j] == Pieces(rest)[..j];
        assert Continues(rest[j], rest[0].index, |Flatten(Pieces(rest)[..j])|, rest[0].totalBytes);
      } else {
        assert pieces[..j] == Pieces(rest);
      }
    }
  }

  lemma PrefixExtends(before: Assembler, rest: seq<ReadChunk>, chunk: ReadChunk)
    requires rest != [] && Prefix(before, rest) && before.Push(chunk).1 == Ok(Pending)
    ensures Prefix(before.Push(chunk).0, rest + [chunk])
  {
    PendingPush(before, chunk);
    PrefixContinues(before, rest, chunk);
    PiecesSplit(rest + [chunk]);
    assert (rest + [chunk])[..|rest|] == rest;
  }

  lemma {:induction false} PendingIsPrefix(chunks: seq<ReadChunk>)
    requires chunks != [] && PushAll(Idle, chunks).1 == Ok(Pending)
    ensures Prefix(PushAll(Idle, chunks).0, chunks)
  {
    var n := |chunks| - 1;
    var rest := chunks[..n];
    assert chunks == rest + [chunks[n]];
    if n == 0 {
      assert rest == [];
      PrefixStarts(chunks[0]);
    } else {
      PendingIsPrefix(rest);
      PrefixExtends(PushAll(Idle, rest).0, rest, chunks[n]);
    }
  }

  /** The last chunk of an assembled item, after `rest`. */
  lemma FinalChunk(chunks: seq<ReadChunk>)
    requires chunks != []
    requires PushAll(Idle, chunks[..|chunks| - 1]).1 == Ok(Pending)
    requires PushAll(Idle, chunks).1.Ok? && PushAll(Idle, chunks).1 != Ok(Pending)
    ensures var pieces := Pieces(chunks); var n := |chunks| - 1;
            && chunks[0].totalBytes == |Flatten(pieces)|
            && chunks[n] == ReadChunk(chunks[0].index, |Flatten(pieces[..n])|, |Flatten(pieces)|, Utf8Json(),
                                      pieces[n], true)
            && (n != 0 ==> pieces[n] != [])
            && PushAll(Idle, chunks).1
               == Ok(if |Flatten(pieces)| > MAX_AUTO_ITEM_BYTES then Oversized(chunks[0].index, |Flatten(pieces)|)
                                             else Item(chunks[0].index, Flatten(pieces)))
  {
    var n := |chunks| - 1;
    var before := PushAll(Idle, chunks[..n]).0;
    PiecesSplit(chunks);
    if n == 0 {
      assert chunks[..n] == [];
      FinalPush(Idle, chunks[0]);
    } else {
      PendingIsPrefix(chunks[..n]);
      FinalPush(before, chunks[n]);
    }
  }

  /** A prefix of an item and its last chunk are the chunks of a cut. */
  lemma CutFrom(chunks: seq<ReadChunk>)
    requires chunks != []
    requires var pieces := Pieces(chunks); var n := |chunks| - 1;
             && chunks[n] == ReadChunk(chunks[0].index, |Flatten(pieces[..n])|, |Flatten(pieces)|, Utf8Json(),
                                       pieces[n], true)
             && (n != 0 ==> pieces[n] != [])
             && (forall j | 0 <= j < n ::
                   Continues(chunks[j], chunks[0].index, |Flatten(pieces[..j])|, |Flatten(pieces)|))
    ensures WellCut(Pieces(chunks)) && chunks == ChunksOf(chunks[0].index, Pieces(chunks))
  {
    var pieces := Pieces(chunks);
    forall j | 0 <= j < |chunks|
      ensures chunks[j] == ChunkOf(chunks[0].index, pieces, j)
    {
    }
  }

  /** Whatever chunks arrive, an assembled item is the gap-free concatenation of exactly the
      declared bytes: the chunks are an accepted cut of it. */
  lemma OnlySplitsAssemble(chunks: seq<ReadChunk>)
    requires chunks != []
    requires PushAll(Idle, chunks[..|chunks| - 1]).1 == Ok(Pending)
    requires PushAll(Idle, chunks).1.Ok? && PushAll(Idle, chunks).1 != Ok(Pending)
    ensures var pieces := Pieces(chunks);
            && WellCut(pieces) && chunks == ChunksOf(chunks[0].index, pieces)
            && PushAll(Idle, chunks).1
               == Ok(if |Flatten(pieces)| > MAX_AUTO_ITEM_BYTES then Oversized(chunks[0].index, |Flatten(pieces)|)
                                             else Item(chunks[0].index, Flatten(pieces)))
  {
    var rest := chunks[..|chunks| - 1];
    var pieces := Pieces(chunks);
    FinalChunk(chunks);
    if rest != [] {
      PendingIsPrefix(rest);
      PiecesSplit(chunks);
      forall j | 0 <= j < |rest|
        ensures Continues(chunks[j], chunks[0].index, |Flatten(pieces[..j])|, |Flatten(pieces)|)
      {
        assert pieces[..j] == Pieces(rest)[..j];
        assert Continues(rest[j], rest[0].index, |Flatten(Pieces(rest)[..j])|, rest[0].totalBytes);
      }
    }
    CutFrom(chunks);
  }

  lemma {:induction false} EarlierErrorStays(a: Assembler, chunks: seq<ReadChunk>, i: nat)
    requires i <= |chunks| && PushAll(a, chunks[..i]).1 != Ok(Pending)
    ensures PushAll(a, chunks).1 == PushAll(a, chunks[..i]).1
  {
    if i == |chunks| {
      assert chunks[..i] == chunks;
    } else {
      assert chunks[..|chunks| - 1][..i] == chunks[..i];
      EarlierErrorStays(a, chunks[..|chunks| - 1], i);
    }
  }

  /** A cut is accepted exactly when no piece is empty, unless it is the only one. */
  lemma SplitAcceptedIff(index: nat, pieces: seq<Bytes>)
    requires pieces != [] && |Flatten(pieces)| <= USIZE_MAX
    ensures PushAll(Idle, ChunksOf(index, pieces)).1.Ok? <==> WellCut(pieces)
  {
    if WellCut(pieces) {
      AssemblyUndoesSplitting(index, pieces);
    } else if PushAll(Idle, ChunksOf(index, pieces)).1.Ok? {
      var chunks := ChunksOf(index, pieces);
      var rest := chunks[..|chunks| - 1];
      if PushAll(Idle, rest).1 != Ok(Pending) {
        EarlyCompletion(index, pieces, |rest|);
      } else {
        assert chunks[|chunks| - 1].complete;
        assert Pieces(chunks) == pieces;
        OnlySplitsAssemble(chunks);
      }
    }
  }

  /** Only the last chunk of a cut completes the item, so an earlier result is an error. */
  lemma {:induction false} EarlyCompletion(index: nat, pieces: seq<Bytes>, i: nat)
    requires i < |pieces| && PushAll(Idle, ChunksOf(index, pieces)[..i]).1 != Ok(Pending)
    ensures PushAll(Idle, ChunksOf(index, pieces)).1.Err?
  {
    var chunks := ChunksOf(index, pieces);
    EarlierErrorStays(Idle, chunks, i);
    if i != 0 {
      assert chunks[..i][..i - 1] == chunks[..i - 1];
      assert chunks[..i][i - 1] == ChunkOf(index, pieces, i - 1);
      if PushAll(Idle, chunks[..i - 1]).1 != Ok(Pending) {
        EarlyCompletion(index, pieces, i - 1);
      }
    }
  }

  // ---- errors ---------------------------------------------------------

  /** Between chunks of an error-free sequence. */
  ghost predicate Sound(a: Assembler) {
    a == Idle || (a.active && a.nextOffset < a.totalBytes)
  }

  /** A chunk that continues the item but contradicts its declared size. */
  ghost predicate Contradicts(a: Assembler, chunk: ReadChunk) {
    var next := a.nextOffset + |chunk.data|;
    a.Refusal(chunk).None? && (next > chunk.totalBytes || (next == chunk.totalBytes) != chunk.complete)
  }

  /** The chunk ends past the last offset the machine can count to. */
  predicate Overflows(a: Assembler, chunk: ReadChunk) {
    a.nextOffset + |chunk.data| > USIZE_MAX
  }

  /** An error leaves the assembler unchanged exactly when the chunk was refused for its encoding,
      emptiness, order, offset or declared total, or met an open item and brought no bytes or more than
      can be counted. */
  lemma ErrorLeavesUnchangedIff(a: Assembler, chunk: ReadChunk)
    requires Sound(a) && chunk.totalBytes <= USIZE_MAX
    ensures a.Push(chunk).1.Err? <==> a.Refusal(chunk).Some? || Contradicts(a, chunk)
    ensures a.Push(chunk).1.Err? ==>
              (a.Push(chunk).0 == a <==>
                 a.Refusal(chunk).Some? || (a.active && (chunk.data == [] || Overflows(a, chunk))))
    ensures a.Push(chunk).1.Ok? ==> Sound(a.Push(chunk).0)
  {
  }

  /** Reused after a size contradiction, the assembler can yield an item shorter than declared:
      a caller has to drop it with the error. */
  lemma ReuseAfterErrorFails(letter: Byte)
    ensures var full := ReadChunk(0, 0, 1, Utf8Json(), [letter], false);
            var rest := ReadChunk(0, 1, 1, Utf8Json(), [], true);
            && Idle.Push(full).1 == Err(IncompleteAtEnd)
            && Idle.Push(full).0.Push(rest).1 == Ok(Item(0, []))
  {
    var full := ReadChunk(0, 0, 1, Utf8Json(), [letter], false);
    assert Idle.Push(full).0 == Assembler(0, 1, 1, [], true, false);
    var nothing: Bytes := [];
    assert nothing + [] == [];
  }
}
