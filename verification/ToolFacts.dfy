/**
 The facts a finished turn is completed with: what the Agent knows of tool calls that have no result
 among the turn's own items.
 */
module ToolFacts {
  import opened Wrappers
  import opened ReadModel
  import opened Assemblies

  const MAX_TOOL_READS: nat := 64
  const RESULT_BYTES: nat := 128

  /** A tool call: the model request it was made in, and its id. */
  datatype Call = Call(request: nat, id: string)

  /** What the items and the answers say, taken as given. */
  datatype Contents = Contents(
    result: RawHistoryItem -> Option<Call>,       // the call an item is the result of
    calls: RawHistoryItem -> seq<Call>,           // the calls an item makes
    size: string -> nat,
    decodes: string -> bool)

  type Facts = seq<(Call, string)>

  class ToolClient {
    const server: (nat, Call) -> Option<string>
    var calls: nat
    ghost var asked: seq<Call>

    constructor (server: (nat, Call) -> Option<string>)
      ensures this.server == server && calls == 0 && asked == []
    {
      this.server, calls, asked := server, 0, [];
    }

    /** A failed read gives nothing. */
    method Read(call: Call) returns (answer: Option<string>)
      modifies this
      ensures calls == old(calls) + 1 && asked == old(asked) + [call] && answer == server(old(calls), call)
    {
      answer := server(calls, call);
      calls := calls + 1;
      asked := asked + [call];
    }
  }

  // ---- what is asked ---------------------------------------------------

  function ResultCount(items: seq<RawHistoryItem>, contents: Contents): nat {
    if items == [] then 0
    else ResultCount(items[..|items| - 1], contents) + if contents.result(items[|items| - 1]).Some? then 1 else 0
  }

  function Finished(items: seq<RawHistoryItem>, contents: Contents): set<Call> {
    set i | 0 <= i < |items| && contents.result(items[i]).Some? :: contents.result(items[i]).value
  }

  function Without(calls: seq<Call>, finished: set<Call>): seq<Call> {
    if calls == [] then []
    else Without(calls[..|calls| - 1], finished) + if calls[|calls| - 1] in finished then [] else [calls[|calls| - 1]]
  }

  /** The calls without a result, in the order the items make them. */
  function OpenCalls(items: seq<RawHistoryItem>, contents: Contents, finished: set<Call>): seq<Call> {
    if items == [] then []
    else OpenCalls(items[..|items| - 1], contents, finished) + Without(contents.calls(items[|items| - 1]), finished)
  }

  /** What comes of asking for `calls` when `n` reads were made before. */
  function Answers(calls: seq<Call>, n: nat, server: (nat, Call) -> Option<string>): Facts {
    if calls == [] then []
    else
      var before, last := Answers(calls[..|calls| - 1], n, server), calls[|calls| - 1];
      match server(n + |calls| - 1, last)
      case None => before
      case Some(fact) => before + [(last, fact)]
  }

  function Sizes(facts: Facts, contents: Contents): nat {
    if facts == [] then 0 else Sizes(facts[..|facts| - 1], contents) + contents.size(facts[|facts| - 1].1)
  }

  lemma {:induction false} WithoutGrows(calls: seq<Call>, n: nat, finished: set<Call>)
    requires n <= |calls|
    ensures Without(calls[..n], finished) <= Without(calls, finished)
    decreases |calls|
  {
    if n == |calls| {
      assert calls[..n] == calls;
    } else {
      WithoutGrows(calls[..|calls| - 1], n, finished);
      assert calls[..|calls| - 1][..n] == calls[..n];
    }
  }

  lemma {:induction false} OpenCallsGrow(items: seq<RawHistoryItem>, n: nat, contents: Contents, finished: set<Call>)
    requires n <= |items|
    ensures OpenCalls(items[..n], contents, finished) <= OpenCalls(items, contents, finished)
    decreases |items|
  {
    if n == |items| {
      assert items[..n] == items;
    } else {
      OpenCallsGrow(items[..|items| - 1], n, contents, finished);
      assert items[..|items| - 1][..n] == items[..n];
    }
  }

  /** The open calls up to the `j`-th call of the `i`-th item. */
  function OpenTo(items: seq<RawHistoryItem>, i: nat, j: nat, contents: Contents, finished: set<Call>): seq<Call>
    requires i < |items| && j <= |contents.calls(items[i])|
  {
    OpenCalls(items[..i], contents, finished) + Without(contents.calls(items[i])[..j], finished)
  }

  lemma OpenToNext(items: seq<RawHistoryItem>, i: nat, j: nat, contents: Contents, finished: set<Call>)
    requires i < |items| && j < |contents.calls(items[i])|
    ensures var call := contents.calls(items[i])[j];
            OpenTo(items, i, j + 1, contents, finished)
            == OpenTo(items, i, j, contents, finished) + if call in finished then [] else [call]
    ensures OpenTo(items, i, j + 1, contents, finished) <= OpenCalls(items, contents, finished)
  {
    var calls := contents.calls(items[i]);
    assert calls[..j + 1][..j] == calls[..j];
    assert items[..i + 1][..i] == items[..i];
    WithoutGrows(calls, j + 1, finished);
    OpenCallsGrow(items, i + 1, contents, finished);
  }

  lemma OpenToStart(items: seq<RawHistoryItem>, i: nat, contents: Contents, finished: set<Call>)
    requires i < |items|
    ensures OpenTo(items, i, 0, contents, finished) == OpenCalls(items[..i], contents, finished)
  {
  }

  lemma OpenToEnd(items: seq<RawHistoryItem>, i: nat, contents: Contents, finished: set<Call>)
    requires i < |items|
    ensures OpenTo(items, i, |contents.calls(items[i])|, contents, finished)
            == OpenCalls(items[..i + 1], contents, finished)
  {
    var calls := contents.calls(items[i]);
    assert calls[..|calls|] == calls;
    assert items[..i + 1][..i] == items[..i];
  }

  // ---- the reads -------------------------------------------------------

  /** How a read of the facts ends: with the facts, out of memory, or with one that cannot be decoded. */
  type Outcome = Result<Option<Facts>, RpcError>

  /** Every answer decodes and takes no more than `room`. */
  ghost predicate Tame(server: (nat, Call) -> Option<string>, contents: Contents, room: nat) {
    forall n, call :: server(n, call).Some? ==>
      contents.decodes(server(n, call).value) && contents.size(server(n, call).value) <= room
  }

  /** The memory `n` answers may take. */
  function RoomFor(n: nat, room: nat): nat {
    n * room
  }

  lemma RoomForNext(n: nat, room: nat)
    ensures RoomFor(n + 1, room) == RoomFor(n, room) + room
  {
  }

  /** One open call is asked for; an answer is paid for and kept. */
  method ReadFact(client: ToolClient, call: Call, facts: Facts, workspace: ReadWorkspace, contents: Contents,
                  ghost before: seq<Call>, ghost room: nat)
    returns (outcome: Outcome)
    requires workspace.Valid() && |before| <= client.calls
    requires facts == Answers(before, client.calls - |before|, client.server)
    modifies client, workspace
    ensures outcome.Err? ==> outcome.error.InvalidRead?
    ensures client.calls == old(client.calls) + 1 && client.asked == old(client.asked) + [call]
    ensures workspace.Valid() && old(workspace.used) <= workspace.used
    ensures outcome.Ok? && outcome.value.Some? ==>
              && outcome.value.value == Answers(before + [call], client.calls - |before| - 1, client.server)
              && workspace.used - old(workspace.used) == Sizes(outcome.value.value, contents) - Sizes(facts, contents)
    ensures outcome.Err? ==>
              client.server(old(client.calls), call).Some?
              && !contents.decodes(client.server(old(client.calls), call).value)
    ensures Tame(client.server, contents, room) && old(workspace.used) + room <= READ_WORKSPACE_BYTES ==>
              outcome.Ok? && outcome.value.Some? && workspace.used <= old(workspace.used) + room
  {
    assert (before + [call])[..|before|] == before;
    var answer := client.Read(call);
    if answer.None? {
      return Ok(Some(facts));
    }
    var refused := workspace.Charge(contents.size(answer.value));
    if refused.Some? {
      return Ok(None);
    }
    if !contents.decodes(answer.value) {
      return Err(InvalidRead("tool metadata"));
    }
    assert (facts + [(call, answer.value)])[..|facts|] == facts;
    return Ok(Some(facts + [(call, answer.value)]));
  }

  /** The reads of one item's calls; `full` says a further one would have been one too many. */
  method ReadCalls(client: ToolClient, items: seq<RawHistoryItem>, i: nat, finished: set<Call>, known: Facts, made: nat,
                   workspace: ReadWorkspace, contents: Contents, ghost before: seq<Call>,
                   ghost room: nat)
    returns (outcome: Outcome, count: nat, full: bool, ghost asked: seq<Call>)
    requires i < |items| && workspace.Valid() && made == |before| <= client.calls && made <= MAX_TOOL_READS
    requires before == OpenCalls(items[..i], contents, finished)
    requires known == Answers(before, client.calls - |before|, client.server)
    modifies client, workspace
    ensures outcome.Err? ==> outcome.error.InvalidRead?
    ensures workspace.Valid() && old(workspace.used) <= workspace.used
    ensures before <= asked <= OpenCalls(items, contents, finished) && |asked| <= MAX_TOOL_READS
    ensures count == |asked|
    ensures client.asked == old(client.asked) + asked[|before|..]
    ensures client.calls == old(client.calls) + |asked| - |before|
    ensures outcome.Ok? && outcome.value.Some? ==>
              && outcome.value.value == Answers(asked, client.calls - |asked|, client.server)
              && workspace.used - old(workspace.used) == Sizes(outcome.value.value, contents) - Sizes(known, contents)
              && (if full then |asked| == MAX_TOOL_READS else asked == OpenCalls(items[..i + 1], contents, finished))
    ensures outcome.Err? ==> asked != [] && Undecodable(client, asked[|asked| - 1], contents)
    ensures Tame(client.server, contents, room)
            && old(workspace.used) + RoomFor(MAX_TOOL_READS - |before|, room) <= READ_WORKSPACE_BYTES ==>
              && outcome.Ok? && outcome.value.Some?
              && workspace.used + RoomFor(MAX_TOOL_READS - |asked|, room)
                 <= old(workspace.used) + RoomFor(MAX_TOOL_READS - |before|, room)
  {
    hide OpenCalls;
    hide Answers;
    hide Sizes;
    hide Without;
    hide Tame;
    hide RoomFor;
    ghost var tame := Tame(client.server, contents, room)
                      && workspace.used + RoomFor(MAX_TOOL_READS - |before|, room) <= READ_WORKSPACE_BYTES;
    var calls := contents.calls(items[i]);
    var facts := known;
    OpenToStart(items, i, contents, finished);
    count, full, asked := made, false, before;
    OpenCallsGrow(items, i, contents, finished);
    var j := 0;
    while j < |calls|
      invariant 0 <= j <= |calls|
      invariant workspace.Valid() && old(workspace.used) <= workspace.used
      invariant asked == OpenTo(items, i, j, contents, finished) && count == |asked| <= MAX_TOOL_READS
      invariant before <= asked <= OpenCalls(items, contents, finished)
      invariant client.asked == old(client.asked) + asked[|before|..]
      invariant client.calls == old(client.calls) + |asked| - |before|
      invariant facts == Answers(asked, client.calls - |asked|, client.server)
      invariant workspace.used - old(workspace.used) == Sizes(facts, contents) - Sizes(known, contents)
      invariant tame ==> workspace.used + RoomFor(MAX_TOOL_READS - |asked|, room)
                         <= old(workspace.used) + RoomFor(MAX_TOOL_READS - |before|, room)
    {
      OpenToNext(items, i, j, contents, finished);
      var call := calls[j];
      j := j + 1;
      if call in finished {
        continue;
      }
      if count == MAX_TOOL_READS {
        full := true;
        break;
      }
      RoomForNext(MAX_TOOL_READS - |asked| - 1, room);
      outcome := ReadFact(client, call, facts, workspace, contents, asked, room);
      count, asked := count + 1, asked + [call];
      if outcome.Err? || outcome.value.None? {
        return;
      }
      facts := outcome.value.value;
    }
    OpenToEnd(items, i, contents, finished);
    outcome := Ok(Some(facts));
  }

  /** The last answer cannot be decoded. */
  ghost predicate Undecodable(client: ToolClient, call: Call, contents: Contents)
    reads client
  {
    client.calls > 0
    && client.server(client.calls - 1, call).Some? && !contents.decodes(client.server(client.calls - 1, call).value)
  }

  /** Finishes the items of a turn with the facts of its open calls, at most 64 of them. */
  method ReadToolFacts(client: ToolClient, items: seq<RawHistoryItem>, workspace: ReadWorkspace, contents: Contents,
                       ghost room: nat)
    returns (outcome: Outcome, ghost asked: seq<Call>)
    requires workspace.Valid()
    modifies client, workspace
    ensures outcome.Err? ==> outcome.error.InvalidRead?
    ensures workspace.Valid() && old(workspace.used) <= workspace.used
    ensures client.asked == old(client.asked) + asked && client.calls == old(client.calls) + |asked|
    ensures asked <= OpenCalls(items, contents, Finished(items, contents)) && |asked| <= MAX_TOOL_READS
    ensures outcome.Ok? && outcome.value.Some? ==>
              && |asked| == Min(MAX_TOOL_READS, |OpenCalls(items, contents, Finished(items, contents))|)
              && outcome.value.value == Answers(asked, old(client.calls), client.server)
              && workspace.used == old(workspace.used) + ResultCount(items, contents) * RESULT_BYTES
                  + Sizes(outcome.value.value, contents)
    ensures outcome.Err? ==> asked != [] && Undecodable(client, asked[|asked| - 1], contents)
    // answers that decode and fit are all kept
    ensures Tame(client.server, contents, room)
            && old(workspace.used) + ResultCount(items, contents) * RESULT_BYTES + RoomFor(MAX_TOOL_READS, room)
               <= READ_WORKSPACE_BYTES ==>
              outcome.Ok? && outcome.value.Some?
  {
    hide Tame;
    hide RoomFor;
    hide OpenCalls;
    hide Answers;
    hide Sizes;
    asked := [];
    NothingAsked(items, contents, Finished(items, contents), client.calls, client.server);
    var results := CountResults(items, contents);
    var refused := workspace.Charge(results * RESULT_BYTES);
    if refused.Some? {
      return Ok(None), asked;
    }
    var finished := Finished(items, contents);
    var facts: Facts, count := [], 0;
    ghost var floor := workspace.used;
    ghost var tame := Tame(client.server, contents, room)
                      && floor + RoomFor(MAX_TOOL_READS, room) <= READ_WORKSPACE_BYTES;
    var i := 0;
    while i < |items|
      invariant 0 <= i <= |items| && workspace.Valid() && count == |asked| <= MAX_TOOL_READS
      invariant asked == OpenCalls(items[..i], contents, finished)
      invariant client.asked == old(client.asked) + asked && client.calls == old(client.calls) + |asked|
      invariant facts == Answers(asked, old(client.calls), client.server)
      invariant workspace.used == floor + Sizes(facts, contents)
      invariant tame ==>
                  workspace.used + RoomFor(MAX_TOOL_READS - |asked|, room) <= floor + RoomFor(MAX_TOOL_READS, room)
    {
      OpenCallsGrow(items, i, contents, finished);
      ghost var before := asked;
      var read, more, full;
      read, more, full, asked := ReadCalls(client, items, i, finished, facts, count, workspace, contents, before,
                                           room);
      assert before + asked[|before|..] == asked;
      if read.Err? || read.value.None? || full {
        return read, asked;
      }
      facts, count := read.value.value, more;
      i := i + 1;
    }
    assert items[..i] == items;
    return Ok(Some(facts)), asked;
  }

  lemma NothingAsked(items: seq<RawHistoryItem>, contents: Contents, finished: set<Call>, n: nat,
                     server: (nat, Call) -> Option<string>)
    ensures OpenCalls(items[..0], contents, finished) == [] && Answers([], n, server) == []
    ensures Sizes([], contents) == 0
  {
  }

  lemma {:induction false} ResultsAreItems(items: seq<RawHistoryItem>, contents: Contents)
    ensures ResultCount(items, contents) <= |items|
  {
    if items != [] {
      ResultsAreItems(items[..|items| - 1], contents);
    }
  }

  method CountResults(items: seq<RawHistoryItem>, contents: Contents) returns (count: nat)
    ensures count == ResultCount(items, contents)
  {
    count := 0;
    assert items[..0] == [];
    for i := 0 to |items|
      invariant count == ResultCount(items[..i], contents)
    {
      assert items[..i + 1][..i] == items[..i];
      if contents.result(items[i]).Some? {
        count := count + 1;
      }
    }
    assert items[..|items|] == items;
  }
}
