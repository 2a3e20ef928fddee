/** Backwards catch-up over a pinned history, and the read that probes, pins and retries once. */
module CatchUps {
  import opened Wrappers
  import opened ChunkAssemblers
  import opened ReadModel
  import opened Servings
  import opened Assemblies
  import opened PagedReads
  import Completion

  type Coverage = Completion.Coverage

  /** The memory the kept items and records of a catch-up need. */
  function Retained(codec: Codec, items: seq<RawHistoryItem>, records: seq<TurnRecord>): nat {
    HeapBytes(codec, items) + RecordCharges(codec, records)
  }

  lemma {:induction false} HeapBytesReverse(codec: Codec, items: seq<RawHistoryItem>)
    ensures HeapBytes(codec, Reverse(items)) == HeapBytes(codec, items)
  {
    if items != [] {
      var last := [items[|items| - 1]];
      HeapBytesReverse(codec, items[..|items| - 1]);
      HeapBytesConcat(codec, last, Reverse(items[..|items| - 1]));
      assert last[..0] == [];
    }
  }

  /** Adds the records of one window unless two of a turn contradict each other; what is new is among
      what that window was charged for. */
  method KeepRecords(known: seq<TurnRecord>, added: seq<TurnRecord>, codec: Codec)
    returns (records: seq<TurnRecord>, retained: nat, consistent: bool)
    ensures consistent ==> retained == RecordCharges(codec, records) - RecordCharges(codec, known)
    ensures consistent ==> retained <= RecordCharges(codec, added)
    ensures consistent ==> known <= records && forall r :: r in records <==> r in known || r in added
    ensures OnePerTurn(known) ==> (consistent <==> Agree(known, added)) && (consistent ==> OnePerTurn(records))
  {
    records, retained := known, 0;
    var i := 0;
    assert added[..0] == [];
    while i < |added|
      invariant 0 <= i <= |added| && known <= records
      invariant retained == RecordCharges(codec, records) - RecordCharges(codec, known)
      invariant retained <= RecordCharges(codec, added[..i])
      invariant forall r :: r in records <==> r in known || r in added[..i]
      invariant OnePerTurn(known) ==> OnePerTurn(records)
    {
      var record := added[i];
      assert added[..i + 1] == added[..i] + [record];
      assert added[..i + 1][..i] == added[..i];
      if exists j :: 0 <= j < |records| && records[j].loopId == record.loopId {
        if record !in records {
          var j :| 0 <= j < |records| && records[j].loopId == record.loopId;
          assert records[j] in known + added && record in known + added;
          return records, retained, false;
        }
      } else {
        retained := retained + codec.recordCharge(record);
        assert (records + [record])[..|records|] == records;
        records := records + [record];
      }
      i := i + 1;
    }
    assert added[..i] == added;
    if OnePerTurn(known) {
      MergedAgree(known, added, records);
    }
    return records, retained, true;
  }

  /** The means a page of items that ends at `at` is read with: one page, and its reservation paid. */
  function Preview(at: nat, means: Means, codec: Codec): Means {
    Reserved(Monus(at, PAGE_LIMIT), at, means.(pages := Min(means.pages, 1)), codec)
  }

  /** The requests for the window that ends at `at`: first for the page of items that ends there, unless its
      memory is refused or the budget admits no page, and then at most for the last item alone. */
  ghost predicate AsksBackwards(page: seq<Request>, item: seq<Request>, pin: SnapshotPin, at: nat, means: Means,
                                codec: Codec)
    requires 0 < at
  {
    && (if Preview(at, means, codec).used > READ_WORKSPACE_BYTES then page == []
        else AsksFor(page, Canonical, pin, Monus(at, PAGE_LIMIT), at, Preview(at, means, codec)))
    && |page| <= 1
    && AllWithin(item, Canonical, pin, at - 1, at)
    && (item != [] ==> item[0].cursor == Some(ReadCursor(at - 1, 0)))
  }

  /** The page of items that ends at `at` is read and its means are those left after it. */
  ghost predicate ReadsPage(read: Result<WindowRead, RpcError>, at: nat, means: Means, after: Means, codec: Codec,
                            source: seq<Bytes>, serving: Serving)
    requires at <= |source|
  {
    var first := Monus(at, PAGE_LIMIT);
    && read.Ok? && read.value.Complete? && FromFacts(read.value.records, serving)
    && Retained(codec, read.value.items, read.value.records) <= Demand(codec, source, first, at, serving.room)
    && after.used <= Preview(at, means, codec).used + Demand(codec, source, first, at, serving.room)
    && after.pages == means.pages - 1 && after.bytes == means.bytes - Sizes(source, first, at)
  }

  /** Reads the page of items that ends at `at`, with one page of the budget. */
  method ReadPreview(client: Client, sessionId: string, pin: SnapshotPin, at: nat, workspace: ReadWorkspace,
                     budget: HistoryBudget, codec: Codec, ghost history: SnapshotPin -> seq<Bytes>,
                     ghost serving: Serving)
    returns (result: Result<WindowRead, RpcError>, ghost page: seq<Request>)
    requires 0 < at <= pin.total && workspace.Valid()
    requires client.Refusal().None?
    modifies client, workspace, budget
    ensures Reports(client.Refusal(), result)
    ensures workspace.Valid() && old(workspace.used) <= workspace.used
    ensures Balanced(old(MeansOf(client, workspace, budget)), MeansOf(client, workspace, budget))
    ensures client.calls == old(client.calls) + |page| && client.asked == old(client.asked) + page
    ensures AsksBackwards(page, [], pin, at, old(MeansOf(client, workspace, budget)), codec)
    ensures result.Ok? ==> Meets(result.value, Monus(at, PAGE_LIMIT), at)
    ensures result.Ok? && HonestServer(client.server, history) ==>
              MeetsSource(result.value, codec, history(pin), Monus(at, PAGE_LIMIT), at)
    ensures result.Ok? && result.value.Complete? ==>
              && old(workspace.used) + Retained(codec, result.value.items, result.value.records) <= workspace.used
              && page != []
    ensures CanServe(client.server, sessionId, pin, codec, history(pin), serving)
            && Suffice(Preview(at, old(MeansOf(client, workspace, budget)), codec), codec, history(pin),
                       Monus(at, PAGE_LIMIT), at, serving) ==>
              && at <= |history(pin)|
              && ReadsPage(result, at, old(MeansOf(client, workspace, budget)), MeansOf(client, workspace, budget),
                           codec, history(pin), serving)
  {
    hide AllWithin;
    hide AsksFor;
    hide Pages;
    hide OnePerTurn;
    hide HonestServer;
    hide MeetsSource;
    hide PageBound;
    hide CanServe;
    hide Suffice;
    hide Paid;
    hide Demand;
    hide Sizes;
    hide FromFacts;
    hide HeapBytes;
    hide RecordCharges;
    ghost var preview := Preview(at, MeansOf(client, workspace, budget), codec);
    var start := Monus(at, PAGE_LIMIT);
    var available := budget.pages;
    budget.pages := Min(available, 1);
    NothingWithin(pin, at);
    result, page := ReadWindow(client, sessionId, Canonical, pin, start, at, workspace, budget, codec, history,
                               serving);
    if CanServe(client.server, sessionId, pin, codec, history(pin), serving)
       && Suffice(preview, codec, history(pin), start, at, serving) {
      PaidAll(preview, MeansOf(client, workspace, budget), codec, history(pin), start, at, serving);
      PagesBelow(at);
    }
    budget.pages := budget.pages + (available - Min(available, 1));
  }

  /** Not even one item is asked for: the budget admits no page, or the memory in use leaves no room for it. */
  predicate GivesUp(used: nat, means: Means, codec: Codec) {
    !Admits(means) || used + codec.itemSize > READ_WORKSPACE_BYTES
  }

  /** Reads the window that ends at `at`: a page of it when one page suffices, else one item.
      Returns where the window starts. */
  method ReadBackwards(client: Client, sessionId: string, pin: SnapshotPin, at: nat,
                       workspace: ReadWorkspace, budget: HistoryBudget, codec: Codec,
                       ghost history: SnapshotPin -> seq<Bytes>, ghost serving: Serving)
    returns (start: nat, result: Result<WindowRead, RpcError>, ghost page: seq<Request>, ghost item: seq<Request>)
    requires 0 < at <= pin.total && workspace.Valid()
    requires client.Refusal().None?
    modifies client, workspace, budget
    ensures Reports(client.Refusal(), result)
    ensures workspace.Valid() && old(workspace.used) <= workspace.used
    ensures Balanced(old(MeansOf(client, workspace, budget)), MeansOf(client, workspace, budget))
    ensures client.calls == old(client.calls) + |page| + |item| && client.asked == old(client.asked) + page + item
    ensures AsksBackwards(page, item, pin, at, old(MeansOf(client, workspace, budget)), codec)
    ensures start == at - 1 || (start == Monus(at, PAGE_LIMIT) && item == [])
    ensures result.Ok? && !result.value.Complete? ==> start == at - 1
    ensures result.Ok? && !result.value.Complete? && item == [] ==>
              GivesUp(old(workspace.used), MeansOf(client, workspace, budget), codec)
    ensures result.Ok? ==> Meets(result.value, start, at)
    ensures result.Ok? && HonestServer(client.server, history) ==>
              MeetsSource(result.value, codec, history(pin), start, at)
    ensures result.Ok? && result.value.Complete? ==>
              && old(workspace.used) + Retained(codec, result.value.items, result.value.records) <= workspace.used
              && page + item != []
    // a page that is served whole and paid for is the window
    ensures CanServe(client.server, sessionId, pin, codec, history(pin), serving)
            && Suffice(Preview(at, old(MeansOf(client, workspace, budget)), codec), codec, history(pin),
                       Monus(at, PAGE_LIMIT), at, serving) ==>
              && start == Monus(at, PAGE_LIMIT) && at <= |history(pin)|
              && ReadsPage(result, at, old(MeansOf(client, workspace, budget)), MeansOf(client, workspace, budget),
                           codec, history(pin), serving)
  {
    hide AllWithin;
    hide AsksFor;
    hide HonestServer;
    hide MeetsSource;
    hide CanServe;
    hide Suffice;
    hide Preview;
    hide Paid;
    hide FromFacts;
    hide Demand;
    hide Sizes;
    hide HeapBytes;
    hide RecordCharges;
    var charged := workspace.used;
    start, item := Monus(at, PAGE_LIMIT), [];
    result, page := ReadPreview(client, sessionId, pin, at, workspace, budget, codec, history, serving);
    if result.Ok? && !result.value.Complete? {
      workspace.Release(workspace.used - charged);
      start := at - 1;
      ghost var means := Reserved(start, at, MeansOf(client, workspace, budget), codec);
      result, item := ReadWindow(client, sessionId, Canonical, pin, start, at, workspace, budget, codec, history,
                                 serving);
      AsksWithin(item, pin, at, means, MeansOf(client, workspace, budget), charged, codec);
    }
  }

  lemma AsksWithin(item: seq<Request>, pin: SnapshotPin, at: nat, means: Means, after: Means, used: nat, codec: Codec)
    requires 0 < at && Balanced(means, after) && after.calls == means.calls + |item| && means.limited
    requires means.used == used + Min(1, means.pages * PAGE_LIMIT) * codec.itemSize
    requires if means.used > READ_WORKSPACE_BYTES then item == []
             else AsksFor(item, Canonical, pin, at - 1, at, means)
    ensures AllWithin(item, Canonical, pin, at - 1, at)
    ensures item != [] ==> item[0].cursor == Some(ReadCursor(at - 1, 0))
    ensures item == [] ==> GivesUp(used, after, codec)
  {
  }

  lemma NothingWithin(pin: SnapshotPin, at: nat)
    requires 0 < at
    ensures AllWithin([], Canonical, pin, at - 1, at)
  {
  }

  /** A window read before the kept ones joins them in source order. */
  lemma WindowJoins(codec: Codec, source: seq<Bytes>, start: nat, at: nat, end: nat,
                    decoded: seq<RawHistoryItem>, items: seq<RawHistoryItem>)
    requires Slice(codec, source, start, at, decoded) && Slice(codec, source, at, end, Reverse(items))
    ensures Slice(codec, source, start, end, Reverse(items + Reverse(decoded)))
  {
    SlicesJoin(codec, source, start, at, end, decoded, Reverse(items));
    ReverseConcat(items, Reverse(decoded));
    ReverseTwice(decoded);
  }

  /** The outcome of a catch-up over `[0..end)`. */
  ghost predicate CaughtUp(read: WindowRead, end: nat) {
    match read
    case Complete(items, records) => |items| == end && OnePerTurn(records)
    case Limited(items, records, from, through, _) =>
      0 < from <= through == end && |items| == end - from && OnePerTurn(records)
    case Partial(reason) => reason == WorkspaceLimit
  }

  /** What was read is the contiguous suffix of `[0..end)` it names; an oversized item stops it
      exactly below the items it returns. */
  ghost predicate CaughtUpOn(read: WindowRead, codec: Codec, source: seq<Bytes>, end: nat) {
    match read
    case Complete(items, _) => Slice(codec, source, 0, end, items)
    case Limited(items, _, from, _, reason) =>
      && Slice(codec, source, from, end, items)
      && (reason.Oversized? ==>
            reason.index == from - 1 && |source[from - 1]| == reason.totalBytes > MAX_AUTO_ITEM_BYTES)
    case Partial(_) => true
  }

  lemma NothingCaughtUp(server: (nat, Request) -> Reply, history: SnapshotPin -> seq<Bytes>, pin: SnapshotPin,
                        codec: Codec, end: nat, serving: Serving)
    requires end <= pin.total
    ensures KeptFrom(server, history, pin, codec, end, end, [])
    ensures OnePerTurn([]) && FromFacts([], serving)
  {
  }

  /** The means are enough to catch up on `[0..at)`: a page of the budget for twenty items, the bytes and the
      memory of all, and a page's reservation. */
  predicate SufficeBelow(means: Means, codec: Codec, source: seq<Bytes>, at: nat, serving: Serving) {
    && at <= |source| && means.limited && at <= means.pages * PAGE_LIMIT
    && Sizes(source, 0, at) + PROBE_MAX_BYTES <= means.bytes
    && means.used + PAGE_LIMIT * codec.itemSize + Demand(codec, source, 0, at, serving.room) <= READ_WORKSPACE_BYTES
  }

  lemma PagesBelow(at: nat)
    requires 0 < at
    ensures Pages(at) == Pages(Monus(at, PAGE_LIMIT)) + 1 && Pages(at - Monus(at, PAGE_LIMIT)) == 1
  {
  }

  lemma SplitBelow(codec: Codec, source: seq<Bytes>, at: nat, serving: Serving)
    requires 0 < at <= |source|
    ensures var first := Monus(at, PAGE_LIMIT);
            && Sizes(source, 0, at) == Sizes(source, 0, first) + Sizes(source, first, at)
            && Demand(codec, source, 0, at, serving.room)
               == Demand(codec, source, 0, first, serving.room) + Demand(codec, source, first, at, serving.room)
            && Pages(at) == Pages(first) + 1 && Pages(at - first) == 1
  {
    hide Pages;
    hide Costs;
    hide Sizes;
    var first := Monus(at, PAGE_LIMIT);
    SizesSplit(source, 0, first, at);
    CostsSplit(codec, source, 0, first, at);
    PagesBelow(at);
    assert (Pages(first) + 1) * serving.room == Pages(first) * serving.room + serving.room;
  }

  lemma TimesAtMost(a: nat, b: nat, n: nat)
    requires a <= b
    ensures a * n <= b * n
  {
  }

  lemma PreviewSuffices(means: Means, codec: Codec, source: seq<Bytes>, at: nat, serving: Serving)
    requires 0 < at && SufficeBelow(means, codec, source, at, serving)
    ensures Suffice(Preview(at, means, codec), codec, source, Monus(at, PAGE_LIMIT), at, serving)
  {
    hide Demand;
    hide Sizes;
    hide Pages;
    var first := Monus(at, PAGE_LIMIT);
    SplitBelow(codec, source, at, serving);
    assert Preview(at, means, codec).used == means.used + (at - first) * codec.itemSize;
    TimesAtMost(at - first, PAGE_LIMIT, codec.itemSize);
  }

  /** A page below is read and kept: the means still are enough for what is left. */
  lemma StillSufficeBelow(means: Means, after: Means, codec: Codec, source: seq<Bytes>, at: nat, serving: Serving)
    requires 0 < at && SufficeBelow(means, codec, source, at, serving) && after.limited
    requires var first := Monus(at, PAGE_LIMIT);
             && after.used <= means.used + Demand(codec, source, first, at, serving.room)
             && after.pages == means.pages - 1 && after.bytes == means.bytes - Sizes(source, first, at)
    ensures SufficeBelow(after, codec, source, Monus(at, PAGE_LIMIT), serving)
    ensures after.pages - Pages(Monus(at, PAGE_LIMIT)) == means.pages - Pages(at)
  {
    hide Demand;
    hide Sizes;
    SplitBelow(codec, source, at, serving);
  }

  lemma FactsAgree(known: seq<TurnRecord>, added: seq<TurnRecord>, serving: Serving)
    requires FromFacts(known, serving) && FromFacts(added, serving)
    ensures Agree(known, added)
    ensures forall records | (forall r | r in records :: r in known || r in added) :: FromFacts(records, serving)
  {
    forall a | a in known + added
      ensures a.facts == serving.facts(a.loopId)
    {
      assert a in known || a in added;
    }
  }

  /** Every request continues at the pin. */
  ghost predicate AllPinned(asked: seq<Request>, pin: SnapshotPin) {
    forall k | 0 <= k < |asked| :: asked[k].pin == Some(pin) && asked[k].cursor.Some?
  }

  lemma PinnedNext(done: seq<Request>, page: seq<Request>, item: seq<Request>, pin: SnapshotPin, at: nat, means: Means,
                   codec: Codec)
    requires 0 < at && AllPinned(done, pin) && AsksBackwards(page, item, pin, at, means, codec)
    ensures AllPinned(done + page + item, pin)
  {
    var asked := done + page + item;
    forall k | 0 <= k < |asked|
      ensures asked[k].pin == Some(pin) && asked[k].cursor.Some?
    {
      assert asked[k] == if k < |done| then done[k] else if k < |done| + |page| then page[k - |done|]
                         else item[k - |done| - |page|];
    }
  }

  /** The last requests of a catch-up that was cut short below `from`: for the page of items that ends there
      and for the item below it alone, with `n` requests made before, the means of that time. */
  ghost predicate StopsAt(asked: seq<Request>, n: nat, m: nat, pin: SnapshotPin, from: nat, first: Means, last: Means,
                          before: Means, codec: Codec)
  {
    && 0 < from && n <= m <= |asked|
    && AsksBackwards(asked[n..m], asked[m..], pin, from, before, codec)
    && Balanced(first, before) && before.calls == first.calls + n
    && before.used == last.used && last.bytes <= before.bytes
    && (asked[m..] == [] ==> GivesUp(last.used, last, codec))
  }

  ghost predicate Stops(asked: seq<Request>, pin: SnapshotPin, from: nat, first: Means, last: Means, codec: Codec) {
    exists n, m, before :: StopsAt(asked, n, m, pin, from, first, last, before, codec)
  }

  /** What one round leaves of a catch-up. */
  datatype Kept = Kept(items: seq<RawHistoryItem>, records: seq<TurnRecord>)

  /** Keeps a window read below the kept items and gives back what its read took beyond that. */
  method KeepWindow(kept: Kept, decoded: seq<RawHistoryItem>, added: seq<TurnRecord>, charged: nat,
                    workspace: ReadWorkspace, codec: Codec, ghost serving: Serving)
    returns (next: Kept, consistent: bool)
    requires workspace.Valid() && OnePerTurn(kept.records)
    requires PAGE_WORKSPACE_RESERVE <= charged && charged + Retained(codec, decoded, added) <= workspace.used
    modifies workspace
    ensures workspace.Valid() && charged <= workspace.used
    ensures consistent <==> Agree(kept.records, added)
    ensures consistent ==>
              && next.items == kept.items + Reverse(decoded) && OnePerTurn(next.records)
              && kept.records <= next.records
              && (forall r :: r in next.records <==> r in kept.records || r in added)
              && workspace.used - charged
                 == Retained(codec, decoded, next.records) - RecordCharges(codec, kept.records)
              && workspace.used - charged <= Retained(codec, decoded, added)
    ensures FromFacts(kept.records, serving) && FromFacts(added, serving) ==>
              consistent && FromFacts(next.records, serving)
  {
    hide OnePerTurn;
    hide Agree;
    hide HeapBytes;
    hide RecordCharges;
    if FromFacts(kept.records, serving) && FromFacts(added, serving) {
      FactsAgree(kept.records, added, serving);
    }
    hide FromFacts;
    var retained := HeapBytes(codec, decoded);
    var records, more, agree := KeepRecords(kept.records, added, codec);
    consistent := agree;
    if !consistent {
      return kept, false;
    }
    workspace.Release(workspace.used - charged);
    var recharged := workspace.Charge(retained + more);
    // What is kept is part of what the window was charged for, so it always fits.
    assert recharged.None?;
    next := Kept(kept.items + Reverse(decoded), records);
  }

  /** How one round leaves a catch-up: with more items kept, cut short, or failed. */
  datatype Round = More(kept: Kept, at: nat) | Short(reason: ReadPartial) | Failed(error: RpcError)

  /** The kept items are the source from `at` to `end`, if the server is honest. */
  ghost predicate KeptFrom(server: (nat, Request) -> Reply, history: SnapshotPin -> seq<Bytes>, pin: SnapshotPin,
                           codec: Codec, at: nat, end: nat, items: seq<RawHistoryItem>) {
    |items| == end - at && (HonestServer(server, history) ==> Slice(codec, history(pin), at, end, Reverse(items)))
  }

  /** The item below `at` is why the catch-up was cut short, if it is an oversized one. */
  ghost predicate CutBelow(server: (nat, Request) -> Reply, history: SnapshotPin -> seq<Bytes>, pin: SnapshotPin,
                           codec: Codec, at: nat, reason: ReadPartial) {
    HonestServer(server, history) && reason.Oversized? ==>
      && reason.index == at - 1 < |history(pin)|
      && |history(pin)[at - 1]| == reason.totalBytes > MAX_AUTO_ITEM_BYTES
  }

  /** One round: the window that ends at `at` is read and kept. */
  method CatchUpRound(client: Client, sessionId: string, pin: SnapshotPin, at: nat, kept: Kept,
                      workspace: ReadWorkspace, budget: HistoryBudget, codec: Codec,
                      ghost history: SnapshotPin -> seq<Bytes>, ghost serving: Serving, ghost end: nat)
    returns (round: Round, ghost page: seq<Request>, ghost item: seq<Request>)
    requires 0 < at <= pin.total && workspace.Valid() && OnePerTurn(kept.records)
    requires KeptFrom(client.server, history, pin, codec, at, end, kept.items)
    requires client.Refusal().None?
    modifies client, workspace, budget
    ensures client.Refusal().Some? ==> round == Failed(client.Refusal().value)
    ensures round.Failed? && round.error.Remote? ==> client.Refusal() == Some(round.error)
    ensures workspace.Valid() && old(workspace.used) <= workspace.used
    ensures Balanced(old(MeansOf(client, workspace, budget)), MeansOf(client, workspace, budget))
    ensures client.calls == old(client.calls) + |page| + |item| && client.asked == old(client.asked) + page + item
    ensures AsksBackwards(page, item, pin, at, old(MeansOf(client, workspace, budget)), codec)
    ensures budget.pages <= old(budget.pages)
    ensures round.More? ==>
              && round.at < at && OnePerTurn(round.kept.records)
              && KeptFrom(client.server, history, pin, codec, round.at, end, round.kept.items)
              && at - round.at + budget.pages * PAGE_LIMIT <= old(budget.pages) * PAGE_LIMIT
    ensures round.Short? && item == [] ==>
              GivesUp(workspace.used, MeansOf(client, workspace, budget), codec)
    ensures round.Short? ==>
              workspace.used == old(workspace.used) && CutBelow(client.server, history, pin, codec, at, round.reason)
    ensures CanServe(client.server, sessionId, pin, codec, history(pin), serving) && FromFacts(kept.records, serving)
            && SufficeBelow(old(MeansOf(client, workspace, budget)), codec, history(pin), at, serving) ==>
              && round.More? && round.at == Monus(at, PAGE_LIMIT) && FromFacts(round.kept.records, serving)
              && SufficeBelow(MeansOf(client, workspace, budget), codec, history(pin), round.at, serving)
              && budget.pages - Pages(round.at) == old(budget.pages) - Pages(at)
  {
    hide OnePerTurn;
    hide Agree;
    hide HonestServer;
    hide CanServe;
    hide SufficeBelow;
    hide Suffice;
    hide Preview;
    hide AsksBackwards;
    hide GivesUp;
    hide Demand;
    hide Sizes;
    hide FromFacts;
    hide HeapBytes;
    hide RecordCharges;
    hide Slice;
    hide FirstOversized;
    hide Pages;
    hide KeptFrom;
    hide CutBelow;
    var charged := workspace.used;
    ghost var means := MeansOf(client, workspace, budget);
    ghost var good := CanServe(client.server, sessionId, pin, codec, history(pin), serving)
                      && SufficeBelow(means, codec, history(pin), at, serving);
    if good {
      PreviewSuffices(means, codec, history(pin), at, serving);
    }
    var start, window;
    start, window, page, item := ReadBackwards(client, sessionId, pin, at, workspace, budget, codec, history, serving);
    if window.Err? {
      return Failed(window.error), page, item;
    }
    if !window.value.Complete? {
      workspace.Release(workspace.used - charged);
      CutShort(client.server, history, pin, codec, at, window.value, charged, MeansOf(client, workspace, budget));
      return Short(window.value.reason), page, item;
    }
    var decoded := window.value.items;
    var next, consistent := KeepWindow(kept, decoded, window.value.records, charged, workspace, codec, serving);
    if !consistent {
      return Failed(InvalidRead("history turn metadata changed between pages")), page, item;
    }
    KeptJoins(client.server, history, pin, codec, start, at, end, decoded, kept.items);
    if good && FromFacts(kept.records, serving) {
      StillSufficeBelow(means, MeansOf(client, workspace, budget), codec, history(pin), at, serving);
    }
    round := More(next, start);
  }

  lemma CutShort(server: (nat, Request) -> Reply, history: SnapshotPin -> seq<Bytes>, pin: SnapshotPin, codec: Codec,
                 at: nat, window: WindowRead, used: nat, means: Means)
    requires 0 < at && !window.Complete? && Meets(window, at - 1, at)
    requires HonestServer(server, history) ==> MeetsSource(window, codec, history(pin), at - 1, at)
    ensures CutBelow(server, history, pin, codec, at, window.reason)
    ensures forall more: nat :: GivesUp(used, means.(used := more), codec) ==> GivesUp(used, means, codec)
  {
    hide HonestServer;
  }

  lemma KeptJoins(server: (nat, Request) -> Reply, history: SnapshotPin -> seq<Bytes>, pin: SnapshotPin, codec: Codec,
                  start: nat, at: nat, end: nat, decoded: seq<RawHistoryItem>, items: seq<RawHistoryItem>)
    requires KeptFrom(server, history, pin, codec, at, end, items) && start <= at && |decoded| == at - start
    requires HonestServer(server, history) ==> Slice(codec, history(pin), start, at, decoded)
    ensures KeptFrom(server, history, pin, codec, start, end, items + Reverse(decoded))
  {
    hide HonestServer;
    ReverseTwice(decoded);
    if HonestServer(server, history) {
      WindowJoins(codec, history(pin), start, at, end, decoded, items);
    }
  }

  /** The means once room for a page of items is reserved for every page left. */
  function Prepaid(means: Means, codec: Codec): Means {
    means.(used := means.used + means.pages * PAGE_LIMIT * codec.itemSize)
  }

  /** Reads `[0..end)` backwards until it is complete or a limit stops it; what was read stays
      a contiguous suffix in source order. */
  method ReadCatchup(client: Client, sessionId: string, pin: SnapshotPin, end: nat,
                     workspace: ReadWorkspace, budget: HistoryBudget, codec: Codec,
                     ghost history: SnapshotPin -> seq<Bytes>, ghost serving: Serving)
    returns (result: Result<WindowRead, RpcError>, ghost asked: seq<Request>)
    requires end <= pin.total && workspace.Valid()
    requires client.Refusal().None?
    modifies client, workspace, budget
    ensures Reports(client.Refusal(), result)
    ensures workspace.Valid() && old(workspace.used) <= workspace.used
    ensures Balanced(old(MeansOf(client, workspace, budget)), MeansOf(client, workspace, budget))
    ensures client.calls == old(client.calls) + |asked| && client.asked == old(client.asked) + asked
    ensures AllPinned(asked, pin)
    ensures result.Ok? ==> CaughtUp(result.value, end)
    ensures result.Ok? && HonestServer(client.server, history) ==> CaughtUpOn(result.value, codec, history(pin), end)
    // the pages read and the pages left pay for the items returned
    ensures result.Ok? && !result.value.Partial? ==>
              |result.value.items| + budget.pages * PAGE_LIMIT <= old(budget.pages) * PAGE_LIMIT
    ensures result == Ok(Partial(WorkspaceLimit)) <==>
              Prepaid(old(MeansOf(client, workspace, budget)), codec).used > READ_WORKSPACE_BYTES
    // it is cut short only after the page below was asked for, and the item below alone
    ensures result.Ok? && result.value.Limited? ==>
              Stops(asked, pin, result.value.from, Prepaid(old(MeansOf(client, workspace, budget)), codec),
                    MeansOf(client, workspace, budget), codec)
    // with memory, bytes, and a page left for every twenty items, it is complete and takes no page too many
    ensures CanServe(client.server, sessionId, pin, codec, history(pin), serving)
            && SufficeBelow(Prepaid(old(MeansOf(client, workspace, budget)), codec), codec, history(pin), end,
                            serving) ==>
              && result.Ok? && result.value.Complete?
              && budget.pages == old(budget.pages) - Pages(end)
  {
    hide OnePerTurn;
    hide HonestServer;
    hide CanServe;
    hide SufficeBelow;
    hide AsksBackwards;
    hide GivesUp;
    hide AllPinned;
    hide FromFacts;
    hide Balanced;
    hide KeptFrom;
    hide CutBelow;
    hide Pages;
    hide Stops;
    hide CaughtUp;
    hide CaughtUpOn;
    asked := [];
    NothingPinned(pin);
    var count := budget.pages * PAGE_LIMIT;
    ghost var given := MeansOf(client, workspace, budget);
    NothingTaken(given);
    NeverSuffices(Prepaid(given, codec), codec, history(pin), end, serving);
    var refused := workspace.Charge(count * codec.itemSize);
    if refused.Some? {
      return Ok(Partial(refused.value)), asked;
    }
    ghost var first := MeansOf(client, workspace, budget);
    assert first == Prepaid(given, codec);
    ghost var good := CanServe(client.server, sessionId, pin, codec, history(pin), serving)
                      && SufficeBelow(first, codec, history(pin), end, serving);
    NothingTaken(first);
    BalancedJoins(first, first, first, given);
    NothingCaughtUp(client.server, history, pin, codec, end, serving);
    var kept := Kept([], []);
    var at: nat := end;
    while at > 0
      invariant at <= end && workspace.Valid() && first.used <= workspace.used && client.Refusal().None?
      invariant OnePerTurn(kept.records) && KeptFrom(client.server, history, pin, codec, at, end, kept.items)
      invariant Balanced(first, MeansOf(client, workspace, budget))
      invariant Balanced(given, MeansOf(client, workspace, budget)) && AllPinned(asked, pin)
      invariant client.calls == old(client.calls) + |asked| && client.asked == old(client.asked) + asked
      invariant end - at + budget.pages * PAGE_LIMIT <= count
      invariant good ==>
                  && SufficeBelow(MeansOf(client, workspace, budget), codec, history(pin), at, serving)
                  && FromFacts(kept.records, serving) && budget.pages - Pages(at) == old(budget.pages) - Pages(end)
      decreases at
    {
      ghost var means, done := MeansOf(client, workspace, budget), asked;
      var round, page, item := CatchUpRound(client, sessionId, pin, at, kept, workspace, budget, codec, history,
                                            serving, end);
      asked := done + page + item;
      PinnedNext(done, page, item, pin, at, means, codec);
      BalancedJoins(first, means, MeansOf(client, workspace, budget), given);
      match round {
        case Failed(error) => return Err(error), asked;
        case Short(reason) =>
          StopsHere(done, page, item, pin, at, first, MeansOf(client, workspace, budget), means, codec);
          CaughtUpTo(client.server, history, pin, codec, at, end, kept, Some(reason));
          return Ok(Limited(Reverse(kept.items), kept.records, at, end, reason)), asked;
        case More(next, start) => kept, at := next, start;
      }
    }
    CaughtUpTo(client.server, history, pin, codec, 0, end, kept, None);
    return Ok(Complete(Reverse(kept.items), kept.records)), asked;
  }

  lemma NothingPinned(pin: SnapshotPin)
    ensures AllPinned([], pin)
  {
  }

  /** What was kept is the answer, complete from the first item on and cut short above it. */
  lemma CaughtUpTo(server: (nat, Request) -> Reply, history: SnapshotPin -> seq<Bytes>, pin: SnapshotPin,
                   codec: Codec, at: nat, end: nat, kept: Kept, reason: Option<ReadPartial>)
    requires OnePerTurn(kept.records) && KeptFrom(server, history, pin, codec, at, end, kept.items)
    requires if reason.None? then at == 0 else 0 < at && CutBelow(server, history, pin, codec, at, reason.value)
    ensures var read := if reason.None? then Complete(Reverse(kept.items), kept.records)
                        else Limited(Reverse(kept.items), kept.records, at, end, reason.value);
            && Pages(0) == 0 && CaughtUp(read, end) && |Reverse(kept.items)| == end - at
            && (HonestServer(server, history) ==> CaughtUpOn(read, codec, history(pin), end))
  {
    hide HonestServer;
    hide OnePerTurn;
    ReverseTwice(kept.items);
  }

  /** A catch-up whose reservation is refused reads nothing. */
  lemma NeverSuffices(means: Means, codec: Codec, source: seq<Bytes>, end: nat, serving: Serving)
    ensures CaughtUp(Partial(WorkspaceLimit), end) && CaughtUpOn(Partial(WorkspaceLimit), codec, source, end)
    ensures means.used > READ_WORKSPACE_BYTES ==> !SufficeBelow(means, codec, source, end, serving)
  {
  }

  lemma BalancedJoins(a: Means, b: Means, c: Means, given: Means)
    requires Balanced(a, b) && Balanced(b, c) && a == given.(used := a.used)
    ensures Balanced(a, c) && Balanced(given, c)
  {
  }

  lemma StopsHere(done: seq<Request>, page: seq<Request>, item: seq<Request>, pin: SnapshotPin, from: nat,
                  first: Means, last: Means, before: Means, codec: Codec)
    requires 0 < from && AsksBackwards(page, item, pin, from, before, codec)
    requires Balanced(first, before) && before.calls == first.calls + |done|
    requires Balanced(before, last) && before.limited && before.used == last.used
    requires item == [] ==> GivesUp(last.used, last, codec)
    ensures Stops(done + page + item, pin, from, first, last, codec)
  {
    var asked, n, m := done + page + item, |done|, |done| + |page|;
    assert asked[n..m] == page && asked[m..] == item;
    assert StopsAt(asked, n, m, pin, from, first, last, before, codec);
  }

  // ---- the whole read -------------------------------------------------

  /** Whether a verified range was read at this pin. */
  predicate Matches(covered: Coverage, pin: SnapshotPin) {
    covered.capturedEnd == pin.capturedEnd && covered.historyRevision == pin.historyRevision
    && covered.total == pin.total
  }

  datatype Window = Tail | CatchUp(covered: Option<Coverage>) | Before(end: nat) | CanonicalBefore(end: nat)

  datatype History = History(items: seq<RawHistoryItem>, from: nat, end: nat, pin: SnapshotPin, canonical: bool,
                             records: seq<TurnRecord>)
  {
    function Covered(): Coverage {
      Completion.Coverage(pin.capturedEnd, pin.historyRevision, pin.total, from, end)
    }
  }

  datatype HistoryRead =
    | PartialRead(reason: ReadPartial)
    | LimitedRead(page: History, reason: ReadPartial)
    | CompleteRead(page: History)

  /** The range a window asks for at a pin; a catch-up continues below what it already covered. */
  function RangeOf(window: Window, pin: SnapshotPin): (nat, nat) {
    match window
    case CatchUp(covered) => (0, if covered.Some? && Matches(covered.value, pin) then covered.value.from else pin.total)
    case Tail => (Max(Monus(pin.total, TAIL_ITEMS), pin.firstItem), pin.total)
    case Before(end) => (Min(Max(Monus(end, PAGE_LIMIT), pin.firstItem), end), end)
    case CanonicalBefore(end) => (Monus(end, PAGE_LIMIT), end)
  }

  /** Whether a probe's answer may pin the window. */
  predicate ProbeIsValid(page: Page, sessionId: string, view: View, maxBytes: nat) {
    && DataBytes(page.items) <= maxBytes
    && (page.records != [] ==> page.recordBytes <= PROBE_MAX_BYTES)
    && page.sessionId == sessionId
    && (view.Display? <==> page.projected)
    && page.pin.firstItem <= page.pin.total
    && |page.items| <= 1
    && (if page.items == [] then page.pin.total <= page.pin.firstItem
        else page.items[0].index == page.pin.firstItem && page.items[0].offset == 0
             && page.items[0].encoding == "utf8_json")
  }

  /** A one-item read that pins the snapshot the window is read from; the answer counts exactly if it is
      for the session and the view asked for, within the bound, and starts at the pin's first item. */
  method Probe(client: Client, sessionId: string, view: View, maxBytes: nat)
    returns (result: Result<(SnapshotPin, nat), RpcError>)
    modifies client
    ensures Reports(client.Refusal(), result)
    ensures client.calls == old(client.calls) + 1 && client.charged == old(client.charged)
    ensures client.asked == old(client.asked) + [Request(view, PROBE_LIMIT, maxBytes, None, None)]
    ensures var reply := client.server(old(client.calls), Request(view, PROBE_LIMIT, maxBytes, None, None));
            && (result.Ok? <==> reply.Answered? && ProbeIsValid(reply.page, sessionId, view, maxBytes))
            && (result.Ok? ==> result.value == (reply.page.pin, DataBytes(reply.page.items)))
    ensures result.Ok? ==> result.value.0.firstItem <= result.value.0.total && result.value.1 <= maxBytes
  {
    var reply := client.Call(Request(view, PROBE_LIMIT, maxBytes, None, None));
    if reply.Refused? {
      return Err(reply.error);
    }
    if !ProbeIsValid(reply.page, sessionId, view, maxBytes) {
      return Err(InvalidRead("history probe"));
    }
    return Ok((reply.page.pin, DataBytes(reply.page.items)));
  }

  predicate IsCanonical(window: Window) {
    window.CatchUp? || window.CanonicalBefore?
  }

  /** A page is the range the window asks for at the page's pin, or for a catch-up the end of it. */
  predicate Answers(read: HistoryRead, window: Window)
    requires !read.PartialRead?
  {
    match read
    case CompleteRead(page) => (page.from, page.end) == RangeOf(window, page.pin)
    case LimitedRead(page, _) => window.CatchUp? && 0 < page.from && page.end == RangeOf(window, page.pin).1
  }

  function ViewOf(window: Window): View {
    if IsCanonical(window) then Canonical else Display
  }

  function ProbeRequest(window: Window, bound: nat): Request {
    Request(ViewOf(window), PROBE_LIMIT, bound, None, None)
  }

  /** The means after a probe that pinned the snapshot. */
  function AfterProbe(means: Means, page: Page, codec: Codec): Means
    requires means.limited ==> DataBytes(page.items) <= means.bytes
  {
    means.(used := means.used + codec.pinCharge(page.pin), calls := means.calls + 1,
           charged := means.charged + DataBytes(page.items),
           bytes := if means.limited then means.bytes - DataBytes(page.items) else means.bytes)
  }

  /** The server serves the whole range the window asks for at the pin, and the means are enough for it. */
  ghost predicate RangeServed(server: (nat, Request) -> Reply, sessionId: string, window: Window, pin: SnapshotPin,
                              means: Means, codec: Codec, source: seq<Bytes>, serving: Serving) {
    var (start, end) := RangeOf(window, pin);
    && CanServe(server, sessionId, pin, codec, source, serving) && start <= end <= pin.total
    && (if window.CatchUp? then SufficeBelow(Prepaid(means, codec), codec, source, end, serving)
        else Suffice(Reserved(start, end, means, codec), codec, source, start, end, serving))
  }

  /** The `n`-th request is a probe the server answers properly, and then it serves all of the window. */
  ghost predicate WindowServed(server: (nat, Request) -> Reply, n: nat, sessionId: string, window: Window, bound: nat,
                               means: Means, codec: Codec, history: SnapshotPin -> seq<Bytes>, serving: Serving) {
    var reply := server(n, ProbeRequest(window, bound));
    && (means.limited ==> bound <= means.bytes)
    && reply.Answered? && ProbeIsValid(reply.page, sessionId, ViewOf(window), bound)
    && AfterProbe(means, reply.page, codec).used <= READ_WORKSPACE_BYTES
    && RangeServed(server, sessionId, window, reply.page.pin, AfterProbe(means, reply.page, codec), codec,
                   history(reply.page.pin), serving)
  }

  /** The requests of one attempt: a probe, then pinned ones. */
  ghost predicate ProbesFirst(asked: seq<Request>, window: Window, bound: nat) {
    && asked != [] && asked[0] == ProbeRequest(window, bound)
    && forall k | 0 < k < |asked| :: asked[k].pin.Some? && asked[k].cursor.Some?
  }

  /** Reads the window's range at the pin. */
  method ReadRange(client: Client, sessionId: string, window: Window, pin: SnapshotPin, start: nat, end: nat,
                   workspace: ReadWorkspace, budget: HistoryBudget?, codec: Codec,
                   ghost history: SnapshotPin -> seq<Bytes>, ghost serving: Serving)
    returns (read: Result<WindowRead, RpcError>, ghost asked: seq<Request>)
    requires workspace.Valid() && (window.CatchUp? <==> budget != null) && client.Refusal().None?
    requires start <= end <= pin.total && (start, end) == RangeOf(window, pin)
    modifies client, workspace, budget
    ensures workspace.Valid() && Reports(client.Refusal(), read)
    ensures Balanced(old(MeansOf(client, workspace, budget)), MeansOf(client, workspace, budget))
    ensures client.calls == old(client.calls) + |asked| && client.asked == old(client.asked) + asked
    ensures AllPinned(asked, pin)
    ensures read.Ok? && read.value.Limited? ==>
              window.CatchUp? && 0 < read.value.from && read.value.end == end
    ensures read.Ok? ==> AttemptMeets((read.value, start, end, pin), client.server, codec, history)
    ensures var means := old(MeansOf(client, workspace, budget));
            RangeServed(client.server, sessionId, window, pin, means, codec, history(pin), serving) ==>
              read.Ok? && read.value.Complete?
  {
    hide HonestServer;
    hide CanServe;
    hide Suffice;
    hide SufficeBelow;
    hide Slice;
    hide FirstOversized;
    hide HeapBytes;
    hide RecordCharges;
    hide AsksFor;
    hide Stops;
    hide Paid;
    hide FromFacts;
    hide OnePerTurn;
    if window.CatchUp? {
      read, asked := ReadCatchup(client, sessionId, pin, end, workspace, budget, codec, history, serving);
    } else {
      ghost var means := Reserved(start, end, MeansOf(client, workspace, budget), codec);
      read, asked := ReadWindow(client, sessionId, ViewOf(window), pin, start, end, workspace, null, codec, history,
                                serving);
      WindowPinned(asked, ViewOf(window), pin, start, end, means);
    }
  }

  lemma WindowPinned(asked: seq<Request>, view: View, pin: SnapshotPin, start: nat, end: nat, means: Means)
    requires asked == [] || AsksFor(asked, view, pin, start, end, means)
    ensures AllPinned(asked, pin)
  {
  }

  /** Probes for the pin and pays for the answer; `refused` says that the pin's memory was. */
  method PinSnapshot(client: Client, sessionId: string, window: Window, bound: nat, workspace: ReadWorkspace,
                     budget: HistoryBudget?, codec: Codec)
    returns (result: Result<SnapshotPin, RpcError>, refused: Option<ReadPartial>)
    requires workspace.Valid() && (budget != null ==> bound <= budget.bytes)
    modifies client, workspace, budget
    ensures workspace.Valid() && Reports(client.Refusal(), result)
    ensures client.calls == old(client.calls) + 1
    ensures client.asked == old(client.asked) + [ProbeRequest(window, bound)]
    ensures budget != null ==>
              && budget.pages == old(budget.pages)
              && client.charged - old(client.charged) == old(budget.bytes) - budget.bytes
    ensures var reply := client.server(old(client.calls), ProbeRequest(window, bound));
            && (result.Ok? <==> reply.Answered? && ProbeIsValid(reply.page, sessionId, ViewOf(window), bound))
            && (result.Ok? ==> result.value == reply.page.pin && DataBytes(reply.page.items) <= bound)
    ensures var reply := client.server(old(client.calls), ProbeRequest(window, bound));
            result.Ok? ==>
              var after := AfterProbe(old(MeansOf(client, workspace, budget)), reply.page, codec);
              && (refused.Some? <==> after.used > READ_WORKSPACE_BYTES)
              && (refused.None? ==> MeansOf(client, workspace, budget) == after)
    ensures result.Ok? ==> result.value.firstItem <= result.value.total
  {
    hide DataBytes;
    hide ProbeIsValid;
    refused := None;
    var probed := Probe(client, sessionId, ViewOf(window), bound);
    if probed.Err? {
      return Err(probed.error), None;
    }
    var (pin, bytes) := probed.value;
    ChargeHistoryBytes(budget, bytes);
    client.charged := client.charged + bytes;
    refused := workspace.Charge(codec.pinCharge(pin));
    result := Ok(pin);
  }

  /** One attempt: probe, pin, then read the window's range. */
  method Attempt(client: Client, sessionId: string, window: Window, probeBound: nat, workspace: ReadWorkspace,
                 budget: HistoryBudget?, codec: Codec, ghost history: SnapshotPin -> seq<Bytes>, ghost serving: Serving)
    returns (result: Result<(WindowRead, nat, nat, SnapshotPin), RpcError>, ghost asked: seq<Request>)
    requires workspace.Valid() && (window.CatchUp? <==> budget != null)
    requires (budget != null ==> probeBound <= budget.bytes)
    modifies client, workspace, budget
    ensures workspace.Valid() && Reports(client.Refusal(), result)
    ensures budget != null ==>
              && client.calls - old(client.calls) == 1 + old(budget.pages) - budget.pages
              && client.charged - old(client.charged) == old(budget.bytes) - budget.bytes
    ensures client.calls == old(client.calls) + |asked| && client.asked == old(client.asked) + asked
    ensures ProbesFirst(asked, window, probeBound)
    ensures result.Ok? && result.value.0.Limited? ==>
              window.CatchUp? && 0 < result.value.0.from && result.value.0.end == result.value.2
    ensures result.Ok? && !result.value.0.Partial? ==>
              (result.value.1, result.value.2) == RangeOf(window, result.value.3)
    ensures result.Ok? ==> AttemptMeets(result.value, client.server, codec, history)
    // a window that is served whole and paid for is complete at the pin of the probe
    ensures WindowServed(client.server, old(client.calls), sessionId, window, probeBound,
                         old(MeansOf(client, workspace, budget)), codec, history, serving) ==>
              && result.Ok? && result.value.0.Complete?
              && result.value.3 == client.server(old(client.calls), ProbeRequest(window, probeBound)).page.pin
  {
    hide RangeServed;
    hide AttemptMeets;
    hide DataBytes;
    hide ProbeIsValid;
    asked := [ProbeRequest(window, probeBound)];
    var pinned, refused := PinSnapshot(client, sessionId, window, probeBound, workspace, budget, codec);
    if pinned.Err? {
      return Err(pinned.error), asked;
    }
    var pin := pinned.value;
    if refused.Some? {
      PartialMeets(refused.value, pin, client.server, codec, history);
      return Ok((Partial(refused.value), 0, 0, pin)), asked;
    }
    var (start, end) := RangeOf(window, pin);
    if end > pin.total {
      RangeIsServed(client.server, sessionId, window, pin, MeansOf(client, workspace, budget), codec, history(pin),
                    serving);
      return Err(InvalidRead("history window exceeds its pinned total")), asked;
    }
    var read;
    ghost var more;
    read, more := ReadRange(client, sessionId, window, pin, start, end, workspace, budget, codec, history, serving);
    asked := asked + more;
    if read.Err? {
      return Err(read.error), asked;
    }
    return Ok((read.value, start, end, pin)), asked;
  }

  lemma PartialMeets(reason: ReadPartial, pin: SnapshotPin, server: (nat, Request) -> Reply, codec: Codec,
                     history: SnapshotPin -> seq<Bytes>)
    ensures AttemptMeets((Partial(reason), 0, 0, pin), server, codec, history)
  {
  }

  lemma RangeIsServed(server: (nat, Request) -> Reply, sessionId: string, window: Window, pin: SnapshotPin,
                      means: Means, codec: Codec, source: seq<Bytes>, serving: Serving)
    ensures RangeServed(server, sessionId, window, pin, means, codec, source, serving) ==>
              RangeOf(window, pin).1 <= pin.total
  {
  }

  /** The items an attempt returns are the slice of the pinned source it names. */
  ghost predicate AttemptMeets(attempt: (WindowRead, nat, nat, SnapshotPin), server: (nat, Request) -> Reply,
                               codec: Codec, history: SnapshotPin -> seq<Bytes>) {
    match attempt.0
    case Complete(items, records) =>
      && attempt.1 + |items| == attempt.2 <= attempt.3.total && OnePerTurn(records)
      && (HonestServer(server, history) ==> Slice(codec, history(attempt.3), attempt.1, attempt.2, items))
    case Limited(items, records, from, through, _) =>
      && from + |items| == through <= attempt.3.total && OnePerTurn(records)
      && (HonestServer(server, history) ==> Slice(codec, history(attempt.3), from, through, items))
    case Partial(_) => true
  }

  /** The last of the requests, the first of which was the `n`-th call, was refused for a stale pin. */
  ghost predicate WentStale(server: (nat, Request) -> Reply, n: nat, asked: seq<Request>) {
    && asked != []
    && var reply := server(n + |asked| - 1, asked[|asked| - 1]);
       reply.Refused? && reply.error.IsStalePin()
  }

  /** The means a round begins with. */
  function RoundMeans(window: Window, calls: nat, charged: nat): Means {
    if window.CatchUp? then
      Means(PAGE_WORKSPACE_RESERVE, true, HISTORY_CATCHUP_MAX_PAGES - 1, HISTORY_CATCHUP_MAX_BYTES, calls, charged)
    else Means(PAGE_WORKSPACE_RESERVE, false, 0, 0, calls, charged)
  }

  /** Up to 1260 items that are served whole fit a round of a catch-up, if their bytes leave room for the
      probe's and another's, and their memory beside what the round reserves is within the limit. */
  lemma RoundSuffices(server: (nat, Request) -> Reply, n: nat, sessionId: string, window: Window, charged: nat,
                      codec: Codec, history: SnapshotPin -> seq<Bytes>, serving: Serving)
    requires window.CatchUp?
    requires var reply := server(n, ProbeRequest(window, PROBE_MAX_BYTES));
             && reply.Answered? && ProbeIsValid(reply.page, sessionId, Canonical, PROBE_MAX_BYTES)
             && var source, pin := history(reply.page.pin), reply.page.pin;
                var end := RangeOf(window, pin).1;
                && CanServe(server, sessionId, pin, codec, source, serving)
                && end <= pin.total && end <= 1260
                && Sizes(source, 0, end) + 2 * PROBE_MAX_BYTES <= HISTORY_CATCHUP_MAX_BYTES
                && PAGE_WORKSPACE_RESERVE + codec.pinCharge(pin) + 1280 * codec.itemSize
                   + Demand(codec, source, 0, end, serving.room) <= READ_WORKSPACE_BYTES
    ensures WindowServed(server, n, sessionId, window, PROBE_MAX_BYTES, RoundMeans(window, n, charged), codec, history,
                         serving)
  {
    hide Demand;
    hide Sizes;
    hide DataBytes;
    hide AreReadable;
    hide PagesFit;
    var page := server(n, ProbeRequest(window, PROBE_MAX_BYTES)).page;
    var after := AfterProbe(RoundMeans(window, n, charged), page, codec);
    assert after.pages * PAGE_LIMIT * codec.itemSize == 1260 * codec.itemSize;
    assert SufficeBelow(Prepaid(after, codec), codec, history(page.pin), RangeOf(window, page.pin).1, serving);
  }

  /** What a finished attempt answers. */
  function Told(attempt: (WindowRead, nat, nat, SnapshotPin), window: Window): HistoryRead {
    var (read, start, end, pin) := attempt;
    match read
    case Partial(reason) => PartialRead(reason)
    case Complete(items, records) => CompleteRead(History(items, start, end, pin, IsCanonical(window), records))
    case Limited(items, records, from, through, reason) =>
      LimitedRead(History(items, from, through, pin, IsCanonical(window), records), reason)
  }

  /** A page that was read is the slice of the pinned source it names. */
  ghost predicate IsSlice(read: HistoryRead, server: (nat, Request) -> Reply, codec: Codec,
                          history: SnapshotPin -> seq<Bytes>) {
    !read.PartialRead? ==>
      var page := read.page;
      && page.from <= page.end <= page.pin.total && |page.items| == page.end - page.from
      && OnePerTurn(page.records)
      && (HonestServer(server, history) ==> Slice(codec, history(page.pin), page.from, page.end, page.items))
  }

  lemma ToldIs(attempt: (WindowRead, nat, nat, SnapshotPin), window: Window, server: (nat, Request) -> Reply,
               codec: Codec, history: SnapshotPin -> seq<Bytes>)
    requires AttemptMeets(attempt, server, codec, history)
    requires attempt.0.Limited? ==> window.CatchUp? && 0 < attempt.0.from && attempt.0.end == attempt.2
    requires !attempt.0.Partial? ==> (attempt.1, attempt.2) == RangeOf(window, attempt.3)
    ensures IsSlice(Told(attempt, window), server, codec, history)
    ensures !Told(attempt, window).PartialRead? ==>
              Answers(Told(attempt, window), window) && Told(attempt, window).page.canonical == IsCanonical(window)
    ensures attempt.0.Complete? ==> Told(attempt, window).CompleteRead? && Told(attempt, window).page.pin == attempt.3
  {
    hide HonestServer;
    hide Slice;
    hide OnePerTurn;
  }

  /** Reads one history window and retries once when its pin becomes stale. A catch-up issues at
      most 64 requests and is charged at most 16 MiB, its retry included. */
  method ReadHistory(client: Client, sessionId: string, window: Window, codec: Codec,
                     ghost history: SnapshotPin -> seq<Bytes>, ghost serving: Serving)
    returns (result: Result<HistoryRead, RpcError>, ghost first: seq<Request>, ghost second: seq<Request>)
    modifies client
    ensures window.CatchUp? ==> client.calls - old(client.calls) <= HISTORY_CATCHUP_MAX_PAGES
    ensures window.CatchUp? ==> client.charged - old(client.charged) <= HISTORY_CATCHUP_MAX_BYTES
    ensures result.Ok? ==> IsSlice(result.value, client.server, codec, history)
    ensures result.Ok? && !result.value.PartialRead? ==>
              result.value.page.canonical == IsCanonical(window) && Answers(result.value, window)
    // it starts over once, and only after a refusal for a stale pin, unless the budget is used up
    ensures client.calls == old(client.calls) + |first| + |second| && client.asked == old(client.asked) + first + second
    ensures ProbesFirst(first, window, PROBE_MAX_BYTES)
    ensures second != [] ==> ProbesFirst(second, window, PROBE_MAX_BYTES)
    ensures second != [] ==> WentStale(client.server, old(client.calls), first)
    ensures second == [] && WentStale(client.server, old(client.calls), first) ==>
              && window.CatchUp? && result == Ok(PartialRead(HistoryLimit))
              && (|first| == HISTORY_CATCHUP_MAX_PAGES
                  || client.charged - old(client.charged) > HISTORY_CATCHUP_MAX_BYTES - PROBE_MAX_BYTES)
    ensures second != [] || !WentStale(client.server, old(client.calls), first) ==> Reports(client.Refusal(), result)
    // a window that is served whole and fits a round is complete at the pin of the probe
    ensures WindowServed(client.server, old(client.calls), sessionId, window, PROBE_MAX_BYTES,
                         RoundMeans(window, old(client.calls), old(client.charged)), codec, history, serving) ==>
              && result.Ok? && result.value.CompleteRead? && second == []
              && result.value.page.pin
                 == client.server(old(client.calls), ProbeRequest(window, PROBE_MAX_BYTES)).page.pin
  {
    hide WindowServed;
    hide AttemptMeets;
    hide IsSlice;
    hide Answers;
    hide RangeOf;
    hide ProbesFirst;
    hide WentStale;
    hide Reports;
    hide Client.Refusal;
    hide Told;
    var workspace := new ReadWorkspace();
    var budget: HistoryBudget? := null;
    if window.CatchUp? {
      budget := new HistoryBudget(HISTORY_CATCHUP_MAX_PAGES, HISTORY_CATCHUP_MAX_BYTES);
    }
    var bound := HistoryPageBound(budget, PROBE_MAX_BYTES);
    assert MeansOf(client, workspace, budget) == RoundMeans(window, client.calls, client.charged);
    var attempt;
    attempt, first := Attempt(client, sessionId, window, bound.value, workspace, budget, codec, history, serving);
    second := [];
    ProbesSomething(first, window);
    assert client.asked[|client.asked| - |first|..] == first;
    StaleIsTold(client, old(client.calls), first, attempt);
    if attempt.Err? && attempt.error.IsStalePin() {
      workspace.Reset();
      bound := HistoryPageBound(budget, PROBE_MAX_BYTES);
      if bound.None? {
        LimitIsSlice(client.server, codec, history);
        return Ok(PartialRead(HistoryLimit)), first, second;
      }
      attempt, second := Attempt(client, sessionId, window, bound.value, workspace, budget, codec, history, serving);
      ProbesSomething(second, window);
    }
    result := if attempt.Err? then Err(attempt.error) else Ok(Told(attempt.value, window));
    ReportsOn(client.Refusal(), attempt, result);
    if attempt.Ok? {
      ToldIs(attempt.value, window, client.server, codec, history);
    }
  }

  lemma StaleIsTold<A>(client: Client, n: nat, asked: seq<Request>, attempt: Result<A, RpcError>)
    requires asked != [] && client.calls == n + |asked| && |asked| <= |client.asked|
    requires client.asked[|client.asked| - |asked|..] == asked
    requires Reports(client.Refusal(), attempt)
    ensures attempt.Err? && attempt.error.IsStalePin() <==> WentStale(client.server, n, asked)
  {
    assert client.asked[|client.asked| - 1] == asked[|asked| - 1];
  }

  lemma ProbesSomething(asked: seq<Request>, window: Window)
    ensures ProbesFirst(asked, window, PROBE_MAX_BYTES) ==> asked != []
  {
  }

  lemma LimitIsSlice(server: (nat, Request) -> Reply, codec: Codec, history: SnapshotPin -> seq<Bytes>)
    ensures IsSlice(PartialRead(HistoryLimit), server, codec, history)
  {
  }

  // ---- what a catch-up does to the coverage ----------------------------

  /** Where the items of a coverage begin and end. */
  ghost predicate InOrder(covered: Option<Coverage>) {
    covered.Some? ==> covered.value.from <= covered.value.end
  }

  /** What is covered after the page of a catch-up that was told of the coverage before: at an unchanged
      pin the coverage grows down to the page's start and leaves no item between the two unread; at a
      new pin the page replaces it and ends at the new total. */
  lemma CatchUpJoinsCoverage(st: Completion.State, read: HistoryRead)
    requires InOrder(st.historyCoverage) && !read.PartialRead? && Answers(read, CatchUp(st.historyCoverage))
    requires read.page.from <= read.page.end
    ensures var page, after := read.page, st.CoverHistory(read.page.Covered(), true);
            var joins := st.historyCoverage.Some? && Matches(st.historyCoverage.value, page.pin);
            && after.historyCoverage
               == Some(if joins then st.historyCoverage.value.(from := page.from) else page.Covered())
            && (forall item :: after.historyCoverage.value.Holds(item) <==>
                  page.Covered().Holds(item) || (joins && st.historyCoverage.value.Holds(item)))
            && (after.GapIsProven() <==>
                  read.CompleteRead? && (joins ==> st.historyCoverage.value.end == page.pin.total))
  {
  }

  /** Pages of catch-ups, each told of the coverage the ones before left. */
  ghost predicate CatchesUp(st: Completion.State, answers: seq<HistoryRead>)
    decreases |answers|
  {
    answers != [] ==>
      && !answers[0].PartialRead? && Answers(answers[0], CatchUp(st.historyCoverage))
      && answers[0].page.from <= answers[0].page.end
      && CatchesUp(st.CoverHistory(answers[0].page.Covered(), true), answers[1..])
  }

  function Covering(st: Completion.State, answers: seq<HistoryRead>): Completion.State
    requires forall read | read in answers :: !read.PartialRead?
    decreases |answers|
  {
    if answers == [] then st else Covering(st.CoverHistory(answers[0].page.Covered(), true), answers[1..])
  }

  lemma {:induction false} NoPartialReads(st: Completion.State, answers: seq<HistoryRead>)
    requires CatchesUp(st, answers)
    ensures forall read | read in answers :: !read.PartialRead?
    decreases |answers|
  {
    if answers != [] {
      NoPartialReads(st.CoverHistory(answers[0].page.Covered(), true), answers[1..]);
      assert answers == [answers[0]] + answers[1..];
    }
  }

  /** The coverage reaches the end of its history. */
  ghost predicate ReachesEnd(covered: Option<Coverage>) {
    covered.Some? ==> covered.value.from <= covered.value.end == covered.value.total
  }

  /** However often a catch-up is cut short, retried, or started over at a new pin: the coverage always
      reaches the end of its history, so it is whole after the last page exactly if that page was complete. */
  lemma {:induction false} CatchUpsProveTheGap(st: Completion.State, answers: seq<HistoryRead>)
    requires ReachesEnd(st.historyCoverage) && CatchesUp(st, answers) && answers != []
    ensures forall read | read in answers :: !read.PartialRead?
    ensures ReachesEnd(Covering(st, answers).historyCoverage)
    ensures Covering(st, answers).GapIsProven() <==> answers[|answers| - 1].CompleteRead?
    decreases |answers|
  {
    NoPartialReads(st, answers);
    var next := st.CoverHistory(answers[0].page.Covered(), true);
    CatchUpJoinsCoverage(st, answers[0]);
    if |answers| > 1 {
      CatchUpsProveTheGap(next, answers[1..]);
    }
  }

  /** A page loaded for reading keeps that up unless it ends below the total and the coverage it meets
      is an empty one at its own pin, which it then replaces. */
  lemma LoadedPageReachesEndIff(st: Completion.State, covered: Coverage)
    requires ReachesEnd(st.historyCoverage) && covered.from <= covered.end <= covered.total
    ensures ReachesEnd(st.CoverHistory(covered, false).historyCoverage) <==>
              !(&& st.historyCoverage.Some? && st.historyCoverage.value.SamePin(covered)
                && st.historyCoverage.value.from == st.historyCoverage.value.end && covered.end < covered.total)
  {
  }

  /** A complete catch-up at that pin then proves no gap: here items 8 and 9 stay unread. */
  lemma LoadedPageCanStrand(st: Completion.State, pin: SnapshotPin, read: HistoryRead)
    requires pin.total == 10
    requires st.historyCoverage == Some(Completion.Coverage(pin.capturedEnd, pin.historyRevision, 10, 10, 10))
    requires var loaded := st.CoverHistory(Completion.Coverage(pin.capturedEnd, pin.historyRevision, 10, 4, 8), false);
             read.CompleteRead? && read.page.pin == pin && Answers(read, CatchUp(loaded.historyCoverage))
    ensures var loaded := st.CoverHistory(Completion.Coverage(pin.capturedEnd, pin.historyRevision, 10, 4, 8), false);
            && (read.page.from, read.page.end) == (0, 4)
            && loaded.CoverHistory(read.page.Covered(), true).historyCoverage
               == Some(Completion.Coverage(pin.capturedEnd, pin.historyRevision, 10, 0, 8))
            && !loaded.CoverHistory(read.page.Covered(), true).GapIsProven()
  {
    var loaded := st.CoverHistory(Completion.Coverage(pin.capturedEnd, pin.historyRevision, 10, 4, 8), false);
    assert loaded.historyCoverage.value == Completion.Coverage(pin.capturedEnd, pin.historyRevision, 10, 4, 8);
  }
}
