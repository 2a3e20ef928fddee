/**
 The JSON-RPC client as interleaved atomic sections: callers, the stdout reader, the writer and
 whatever closes the connection share the pending map, the closed slot and the outbound queue.
 Responses are correlated by id, section 5 of the JSON-RPC 2.0 specification.
 */
module Rpc {
  import opened Wrappers

  const OUTBOUND_CAPACITY: nat := 64

  datatype Acceptance = Rejected

  datatype RpcError = RpcError(message: string, acceptance: Option<Acceptance>)

  datatype Response = Response(id: nat, body: string)

  /** How a call ends: the Agent's answer, an error made before the line was queued, or one after it. */
  datatype Outcome = Answer(response: Response) | Local(error: RpcError) | Lost(error: RpcError)

  datatype Phase =
    | Encoding                     // it has an id
    | Ready                        // the line is encoded
    | Sending                      // registered; waits for room in the queue
    | Awaiting                     // the line is queued; waits for an answer
    | Returning(outcome: Outcome)  // its guard still has to drop the registration
    | Returned(outcome: Outcome)
    | Cancelled

  /** `push` says the method is `input.push`; `inbox` is what its channel delivered. */
  datatype Call = Call(id: nat, push: bool, phase: Phase, inbox: Option<Response>)

  type Calls = map<nat, Call>

  /** The shared slots: senders by id, and why the connection closed. */
  datatype Registry = Registry(
    pending: map<nat, nat>,
    closed: Option<string>,
    clearing: bool,      // the first failure has yet to clear `pending`
    cleared: bool
  )

  datatype Outbound = Outbound(
    queue: seq<nat>,
    receiving: bool,     // the writer still holds its end
    entered: set<nat>    // every call whose line was ever queued
  )

  /** Callers by name. A sender lives in `pending` or is `held` by the reader; otherwise it is gone. */
  datatype Client = Client(
    nextId: nat,
    calls: Calls,
    registry: Registry,
    held: Option<(nat, Response)>,
    outbound: Outbound
  )

  datatype Step =
    | Begin(caller: nat, push: bool)
    | EncodeFails(caller: nat, error: string)
    | Encode(caller: nat)
    | Register(caller: nat)
    | Enqueue(caller: nat)
    | EnqueueFails(caller: nat)
    | Resume(caller: nat)
    | Leave(caller: nat)
    | Cancel(caller: nat)
    | Receive(response: Response)
    | Deliver
    | Close(reason: string)
    | Clear
    | Write
    | StopWriting

  function BeforeWrite(push: bool, error: RpcError): RpcError {
    if push then error.(acceptance := Some(Rejected)) else error
  }

  function ClosedError(reason: string): RpcError {
    RpcError(reason, None)
  }

  function InPhase(calls: Calls, c: nat, phase: Phase): Calls
    requires c in calls
  {
    calls[c := calls[c].(phase := phase)]
  }

  predicate Registered(id: nat, c: nat, pending: map<nat, nat>) {
    id in pending && pending[id] == c
  }

  /** The sender is neither registered nor held: the channel is closed. */
  predicate SenderGone(id: nat, c: nat, pending: map<nat, nat>, held: Option<(nat, Response)>) {
    !Registered(id, c, pending) && !(held.Some? && held.value.0 == c)
  }

  predicate At(calls: Calls, c: nat, phase: Phase) {
    c in calls && calls[c].phase == phase
  }

  predicate CanResume(s: Client, c: nat) {
    && At(s.calls, c, Awaiting)
    && (s.calls[c].inbox.Some? || SenderGone(s.calls[c].id, c, s.registry.pending, s.held))
  }

  /** A future that can be dropped before it returns. */
  predicate Running(phase: Phase) {
    phase.Encoding? || phase.Ready? || phase.Sending? || phase.Awaiting?
  }

  predicate Enabled(s: Client, step: Step) {
    match step
    case Begin(c, _) => c !in s.calls
    case EncodeFails(c, _) => At(s.calls, c, Encoding)
    case Encode(c) => At(s.calls, c, Encoding)
    case Register(c) => At(s.calls, c, Ready)
    case Enqueue(c) => At(s.calls, c, Sending) && s.outbound.receiving && |s.outbound.queue| < OUTBOUND_CAPACITY
    case EnqueueFails(c) => At(s.calls, c, Sending) && !s.outbound.receiving
    case Resume(c) => CanResume(s, c)
    case Leave(c) => c in s.calls && s.calls[c].phase.Returning?
    case Cancel(c) => c in s.calls && Running(s.calls[c].phase)
    case Receive(_) => s.held.None?
    case Deliver => s.held.Some?
    case Close(_) => true
    case Clear => s.registry.clearing
    case Write => s.outbound.receiving && s.outbound.queue != []
    case StopWriting => s.outbound.receiving && s.registry.closed.Some?
  }

  function Begun(s: Client, c: nat, push: bool): Client {
    s.(nextId := s.nextId + 1, calls := s.calls[c := Call(s.nextId, push, Encoding, None)])
  }

  function Moved(s: Client, c: nat, phase: Phase): Client
    requires c in s.calls
  {
    s.(calls := InPhase(s.calls, c, phase))
  }

  /** Registration checks the closed slot and inserts in one atomic section. */
  function TryRegister(s: Client, c: nat): Client
    requires c in s.calls
  {
    if s.registry.closed.Some? then
      Moved(s, c, Returned(Local(BeforeWrite(s.calls[c].push, ClosedError(s.registry.closed.value)))))
    else
      s.(calls := InPhase(s.calls, c, Sending),
         registry := s.registry.(pending := s.registry.pending[s.calls[c].id := c]))
  }

  function Enqueued(s: Client, c: nat): Client
    requires c in s.calls
  {
    s.(calls := InPhase(s.calls, c, Awaiting),
       outbound := Outbound(s.outbound.queue + [c], s.outbound.receiving, s.outbound.entered + {c}))
  }

  function WhyLost(closed: Option<string>): RpcError {
    ClosedError(if closed.Some? then closed.value else "agent closed before answering")
  }

  function Resumed(s: Client, c: nat): Client
    requires c in s.calls
  {
    Moved(s, c, Returning(if s.calls[c].inbox.Some? then Answer(s.calls[c].inbox.value)
                          else Lost(WhyLost(s.registry.closed))))
  }

  /** The guard of a registered call removes its id. */
  function Unregistered(s: Client, c: nat, phase: Phase): Client
    requires c in s.calls
  {
    s.(calls := InPhase(s.calls, c, phase),
       registry := s.registry.(pending := s.registry.pending - {s.calls[c].id}))
  }

  function Abandoned(s: Client, c: nat): Client
    requires c in s.calls
  {
    if s.calls[c].phase.Sending? || s.calls[c].phase.Awaiting? then Unregistered(s, c, Cancelled)
    else Moved(s, c, Cancelled)
  }

  /** The reader takes the sender registered for a response's id, if any. */
  function Received(s: Client, r: Response): Client {
    if r.id in s.registry.pending then
      s.(held := Some((s.registry.pending[r.id], r)),
         registry := s.registry.(pending := s.registry.pending - {r.id}))
    else s
  }

  /** It then sends; the answer is dropped if the caller has gone. */
  function Delivered(s: Client): Client
    requires s.held.Some?
  {
    var c := s.held.value.0;
    if c in s.calls && (s.calls[c].phase.Sending? || s.calls[c].phase.Awaiting?) then
      s.(held := None, calls := s.calls[c := s.calls[c].(inbox := Some(s.held.value.1))])
    else s.(held := None)
  }

  /** Only the first reason is kept. */
  function Closed(r: Registry, reason: string): Registry {
    if r.closed.Some? then r else r.(closed := Some(reason), clearing := true)
  }

  function Cleared(r: Registry): Registry {
    r.(pending := map[], clearing := false, cleared := true)
  }

  function Next(s: Client, step: Step): Client
    requires Enabled(s, step)
  {
    match step
    case Begin(c, push) => Begun(s, c, push)
    case EncodeFails(c, error) => Moved(s, c, Returned(Local(BeforeWrite(s.calls[c].push, RpcError(error, None)))))
    case Encode(c) => Moved(s, c, Ready)
    case Register(c) => TryRegister(s, c)
    case Enqueue(c) => Enqueued(s, c)
    case EnqueueFails(c) =>
      Moved(s, c, Returning(Local(BeforeWrite(s.calls[c].push, ClosedError("agent is not accepting requests")))))
    case Resume(c) => Resumed(s, c)
    case Leave(c) => Unregistered(s, c, Returned(s.calls[c].phase.outcome))
    case Cancel(c) => Abandoned(s, c)
    case Receive(r) => Received(s, r)
    case Deliver => Delivered(s)
    case Close(reason) => s.(registry := Closed(s.registry, reason))
    case Clear => s.(registry := Cleared(s.registry))
    case Write => s.(outbound := s.outbound.(queue := s.outbound.queue[1..]))
    case StopWriting => s.(outbound := s.outbound.(receiving := false, queue := []))
  }

  const START: Client := Client(1, map[], Registry(map[], None, false, false), None, Outbound([], true, {}))

  /** Every step of the run can happen when its turn comes. */
  predicate Allowed(s: Client, steps: seq<Step>)
    decreases |steps|
  {
    steps != [] ==> Enabled(s, steps[0]) && Allowed(Next(s, steps[0]), steps[1..])
  }

  function After(s: Client, steps: seq<Step>): Client
    requires Allowed(s, steps)
    decreases |steps|
  {
    if steps == [] then s else After(Next(s, steps[0]), steps[1..])
  }
}

/** What every interleaving keeps. */
module RpcLaws {
  import opened Wrappers
  import opened Rpc

  // ---- invariants ------------------------------------------------------

  predicate IdsBelow(calls: Calls, nextId: nat) {
    forall c | c in calls :: calls[c].id < nextId
  }

  predicate IdsDistinct(calls: Calls) {
    forall c, d | c in calls && d in calls && calls[c].id == calls[d].id :: c == d
  }

  predicate Guarded(phase: Phase) {
    phase.Sending? || phase.Awaiting? || phase.Returning?
  }

  predicate OwnSender(calls: Calls, id: nat, c: nat) {
    c in calls && calls[c].id == id && Guarded(calls[c].phase) && calls[c].inbox.None?
  }

  /** An id is registered only for the call that has it, while its guard lives. */
  predicate PendingIsOwn(calls: Calls, pending: map<nat, nat>) {
    forall id | id in pending :: OwnSender(calls, id, pending[id])
  }

  predicate Launched(phase: Phase) {
    !phase.Encoding? && !phase.Ready?
  }

  /** The reader holds a response with the id of the call whose sender it took. */
  predicate HeldIsOwn(calls: Calls, pending: map<nat, nat>, held: Option<(nat, Response)>) {
    held.Some? ==>
      var (c, r) := held.value;
      c in calls && calls[c].id == r.id && r.id !in pending && Launched(calls[c].phase) && calls[c].inbox.None?
  }

  /** A call returns what its channel delivered, and reports a loss only when nothing was. */
  predicate OwnOutcome(inbox: Option<Response>, outcome: Outcome) {
    match outcome
    case Answer(response) => inbox == Some(response)
    case Local(_) => true
    case Lost(_) => inbox.None?
  }

  predicate OwnAnswer(call: Call) {
    && (call.inbox.Some? ==> call.inbox.value.id == call.id && Launched(call.phase))
    && (call.phase.Returning? || call.phase.Returned? ==> OwnOutcome(call.inbox, call.phase.outcome))
  }

  /** Whatever a call was answered with has its id. */
  predicate AnswersAreOwn(calls: Calls) {
    forall c | c in calls :: OwnAnswer(calls[c])
  }

  predicate RightAcceptance(push: bool, outcome: Outcome) {
    match outcome
    case Answer(_) => true
    case Local(error) => error.acceptance == if push then Some(Rejected) else None
    case Lost(error) => error.acceptance.None?
  }

  /** Local errors come before the queue, answers and losses after it. */
  predicate RightPlace(call: Call, entered: bool) {
    match call.phase
    case Encoding => !entered
    case Ready => !entered
    case Sending => !entered
    case Awaiting => entered
    case Cancelled => true
    case Returning(outcome) => (entered <==> !outcome.Local?) && RightAcceptance(call.push, outcome)
    case Returned(outcome) => (entered <==> !outcome.Local?) && RightAcceptance(call.push, outcome)
  }

  predicate QueueIsKnown(calls: Calls, entered: set<nat>) {
    && (forall c | c in calls :: RightPlace(calls[c], c in entered))
    && entered <= calls.Keys
  }

  /** The closed slot is set by the first failure, which then clears the registrations once. */
  predicate CloseIsOrdered(r: Registry) {
    && (r.closed.Some? <==> r.clearing || r.cleared)
    && (r.cleared ==> !r.clearing && r.pending == map[])
  }

  /** A waiting call has its answer, a live sender, or a connection that closed. */
  predicate Remembered(call: Call, c: nat, pending: map<nat, nat>, held: Option<(nat, Response)>, cleared: bool) {
    call.phase.Sending? || call.phase.Awaiting? ==>
      call.inbox.Some? || !SenderGone(call.id, c, pending, held) || cleared
  }

  predicate NobodyForgotten(calls: Calls, r: Registry, held: Option<(nat, Response)>) {
    forall c | c in calls :: Remembered(calls[c], c, r.pending, held, r.cleared)
  }

  predicate SaysWhy(phase: Phase, closed: Option<string>) {
    (phase.Returning? || phase.Returned?) && phase.outcome.Lost? ==>
      closed.Some? && phase.outcome.error == ClosedError(closed.value)
  }

  predicate LossesSayWhy(calls: Calls, closed: Option<string>) {
    forall c | c in calls :: SaysWhy(calls[c].phase, closed)
  }

  predicate Sound(s: Client) {
    && IdsBelow(s.calls, s.nextId) && IdsDistinct(s.calls)
    && PendingIsOwn(s.calls, s.registry.pending)
    && HeldIsOwn(s.calls, s.registry.pending, s.held)
    && AnswersAreOwn(s.calls)
    && QueueIsKnown(s.calls, s.outbound.entered)
    && CloseIsOrdered(s.registry)
    && NobodyForgotten(s.calls, s.registry, s.held)
    && LossesSayWhy(s.calls, s.registry.closed)
  }

  // ---- each step keeps them --------------------------------------------

  lemma BeginSound(s: Client, c: nat, push: bool)
    requires Sound(s) && c !in s.calls
    ensures Sound(Begun(s, c, push))
  {
  }

  /** A call changes phase without touching any registration. */
  lemma MoveSound(s: Client, c: nat, phase: Phase)
    requires Sound(s) && c in s.calls
    requires Launched(s.calls[c].phase) ==> Launched(phase)
    requires Guarded(s.calls[c].phase) ==> Guarded(phase)
    requires phase.Returning? || phase.Returned? ==> OwnOutcome(s.calls[c].inbox, phase.outcome)
    requires RightPlace(s.calls[c].(phase := phase), c in s.outbound.entered)
    requires !phase.Sending? && !phase.Awaiting? && SaysWhy(phase, s.registry.closed)
    ensures Sound(Moved(s, c, phase))
  {
  }

  lemma RegisterOpenOwn(s: Client, c: nat)
    requires Sound(s) && At(s.calls, c, Ready) && s.registry.closed.None?
    ensures PendingIsOwn(TryRegister(s, c).calls, TryRegister(s, c).registry.pending)
    ensures HeldIsOwn(TryRegister(s, c).calls, TryRegister(s, c).registry.pending, s.held)
  {
    var t := TryRegister(s, c);
    assert OwnAnswer(s.calls[c]);
    forall id | id in t.registry.pending ensures OwnSender(t.calls, id, t.registry.pending[id]) {
      if id != s.calls[c].id {
        assert OwnSender(s.calls, id, s.registry.pending[id]);
      }
    }
  }

  lemma RegisterOpenPlaces(s: Client, c: nat)
    requires Sound(s) && At(s.calls, c, Ready) && s.registry.closed.None?
    ensures QueueIsKnown(TryRegister(s, c).calls, s.outbound.entered) && AnswersAreOwn(TryRegister(s, c).calls)
  {
    var t := TryRegister(s, c);
    forall d | d in t.calls ensures RightPlace(t.calls[d], d in t.outbound.entered) && OwnAnswer(t.calls[d]) {
      assert RightPlace(s.calls[d], d in s.outbound.entered) && OwnAnswer(s.calls[d]);
    }
  }

  lemma RegisterOpenSound(s: Client, c: nat)
    requires Sound(s) && At(s.calls, c, Ready) && s.registry.closed.None?
    ensures Sound(TryRegister(s, c))
  {
    hide HeldIsOwn;
    hide AnswersAreOwn;
    hide QueueIsKnown;
    hide NobodyForgotten;
    var t := TryRegister(s, c);
    RegisterOpenOwn(s, c);
    RegisterOpenPlaces(s, c);
    RememberedStill(s, t);
  }

  /** Registrations and held senders only grew. */
  lemma RememberedStill(s: Client, t: Client)
    requires NobodyForgotten(s.calls, s.registry, s.held) && t.held == s.held
    requires t.registry.cleared == s.registry.cleared && t.calls.Keys == s.calls.Keys
    requires forall id | id in s.registry.pending ::
               id in t.registry.pending && t.registry.pending[id] == s.registry.pending[id]
    requires forall c | c in s.calls ::
      && t.calls[c].inbox == s.calls[c].inbox && t.calls[c].id == s.calls[c].id
      && (t.calls[c].phase.Sending? || t.calls[c].phase.Awaiting? ==>
            s.calls[c].phase.Sending? || s.calls[c].phase.Awaiting? || Registered(t.calls[c].id, c, t.registry.pending))
    ensures NobodyForgotten(t.calls, t.registry, t.held)
  {
    forall c | c in t.calls ensures Remembered(t.calls[c], c, t.registry.pending, t.held, t.registry.cleared) {
      assert Remembered(s.calls[c], c, s.registry.pending, s.held, s.registry.cleared);
    }
  }

  lemma RegisterSound(s: Client, c: nat)
    requires Sound(s) && At(s.calls, c, Ready)
    ensures Sound(TryRegister(s, c))
  {
    if s.registry.closed.Some? {
      assert RightPlace(s.calls[c], c in s.outbound.entered) && OwnAnswer(s.calls[c]);
      MoveSound(s, c, Returned(Local(BeforeWrite(s.calls[c].push, ClosedError(s.registry.closed.value)))));
    } else {
      RegisterOpenSound(s, c);
    }
  }

  lemma EnqueueSound(s: Client, c: nat)
    requires Sound(s) && At(s.calls, c, Sending)
    ensures Sound(Enqueued(s, c))
  {
    var t := Enqueued(s, c);
    RememberedStill(s, t);
    forall d | d in t.calls ensures RightPlace(t.calls[d], d in t.outbound.entered) {
      assert RightPlace(s.calls[d], d in s.outbound.entered);
    }
  }

  lemma ResumeSound(s: Client, c: nat)
    requires Sound(s) && CanResume(s, c)
    ensures Sound(Resumed(s, c))
  {
    assert RightPlace(s.calls[c], c in s.outbound.entered) && OwnAnswer(s.calls[c]);
    assert Remembered(s.calls[c], c, s.registry.pending, s.held, s.registry.cleared);
    MoveSound(s, c, Returning(if s.calls[c].inbox.Some? then Answer(s.calls[c].inbox.value)
                              else Lost(WhyLost(s.registry.closed))));
  }

  /** A call gives up its registration and leaves. */
  lemma UnregisterSound(s: Client, c: nat, phase: Phase)
    requires Sound(s) && c in s.calls && Launched(s.calls[c].phase)
    requires phase.Returned? || phase.Cancelled?
    requires phase.Returned? ==> OwnOutcome(s.calls[c].inbox, phase.outcome)
    requires RightPlace(s.calls[c].(phase := phase), c in s.outbound.entered) && SaysWhy(phase, s.registry.closed)
    ensures Sound(Unregistered(s, c, phase))
  {
    var id, t := s.calls[c].id, Unregistered(s, c, phase);
    forall d | d in t.calls
      ensures Remembered(t.calls[d], d, t.registry.pending, t.held, t.registry.cleared)
    {
      assert Remembered(s.calls[d], d, s.registry.pending, s.held, s.registry.cleared);
      assert d != c ==> s.calls[d].id != id;
    }
  }

  lemma LeaveSound(s: Client, c: nat)
    requires Sound(s) && c in s.calls && s.calls[c].phase.Returning?
    ensures Sound(Unregistered(s, c, Returned(s.calls[c].phase.outcome)))
  {
    assert RightPlace(s.calls[c], c in s.outbound.entered) && OwnAnswer(s.calls[c]);
    assert SaysWhy(s.calls[c].phase, s.registry.closed);
    UnregisterSound(s, c, Returned(s.calls[c].phase.outcome));
  }

  lemma CancelSound(s: Client, c: nat)
    requires Sound(s) && c in s.calls && Running(s.calls[c].phase)
    ensures Sound(Abandoned(s, c))
  {
    if s.calls[c].phase.Sending? || s.calls[c].phase.Awaiting? {
      UnregisterSound(s, c, Cancelled);
    } else {
      NotRegistered(s, c);
      MoveSound(s, c, Cancelled);
    }
  }

  lemma NotRegistered(s: Client, c: nat)
    requires Sound(s) && c in s.calls && !Launched(s.calls[c].phase)
    ensures s.calls[c].id !in s.registry.pending
  {
    forall id | id in s.registry.pending ensures id != s.calls[c].id {
      assert OwnSender(s.calls, id, s.registry.pending[id]);
    }
  }

  lemma ReceiveSound(s: Client, r: Response)
    requires Sound(s) && s.held.None?
    ensures Sound(Received(s, r))
  {
    if r.id in s.registry.pending {
      assert OwnSender(s.calls, r.id, s.registry.pending[r.id]);
      var t := Received(s, r);
      forall d | d in t.calls
        ensures Remembered(t.calls[d], d, t.registry.pending, t.held, t.registry.cleared)
      {
        assert Remembered(s.calls[d], d, s.registry.pending, s.held, s.registry.cleared);
      }
    }
  }

  lemma DeliverSound(s: Client)
    requires Sound(s) && s.held.Some?
    ensures Sound(Delivered(s))
  {
    var t := Delivered(s);
    HeldIsNotPending(s);
    forall d | d in t.calls
      ensures Remembered(t.calls[d], d, t.registry.pending, t.held, t.registry.cleared)
    {
      assert Remembered(s.calls[d], d, s.registry.pending, s.held, s.registry.cleared);
    }
  }

  lemma HeldIsNotPending(s: Client)
    requires Sound(s) && s.held.Some?
    ensures forall id | id in s.registry.pending :: s.registry.pending[id] != s.held.value.0
  {
    forall id | id in s.registry.pending ensures s.registry.pending[id] != s.held.value.0 {
      assert OwnSender(s.calls, id, s.registry.pending[id]);
    }
  }

  lemma CloseSound(s: Client, reason: string)
    requires Sound(s)
    ensures Sound(s.(registry := Closed(s.registry, reason)))
  {
  }

  lemma ClearSound(s: Client)
    requires Sound(s) && s.registry.clearing
    ensures Sound(s.(registry := Cleared(s.registry)))
  {
  }

  lemma FailEarly(s: Client, c: nat, error: RpcError, phase: Phase)
    requires Sound(s) && c in s.calls && error.acceptance.None? && c !in s.outbound.entered
    requires
      var outcome := Local(BeforeWrite(s.calls[c].push, error));
      || (At(s.calls, c, Encoding) && phase == Returned(outcome))
      || (At(s.calls, c, Sending) && phase == Returning(outcome))
    ensures Sound(Moved(s, c, phase))
  {
    MoveSound(s, c, phase);
  }

  /** Every step keeps the client sound. */
  lemma NextSound(s: Client, step: Step)
    requires Sound(s) && Enabled(s, step)
    ensures Sound(Next(s, step))
  {
    match step
    case Begin(c, push) => BeginSound(s, c, push);
    case EncodeFails(c, error) =>
      assert RightPlace(s.calls[c], c in s.outbound.entered);
      FailEarly(s, c, RpcError(error, None), Returned(Local(BeforeWrite(s.calls[c].push, RpcError(error, None)))));
    case Encode(c) =>
      assert RightPlace(s.calls[c], c in s.outbound.entered) && OwnAnswer(s.calls[c]);
      EncodeSound(s, c);
    case Register(c) => RegisterSound(s, c);
    case Enqueue(c) => EnqueueSound(s, c);
    case EnqueueFails(c) =>
      assert RightPlace(s.calls[c], c in s.outbound.entered);
      var error := ClosedError("agent is not accepting requests");
      FailEarly(s, c, error, Returning(Local(BeforeWrite(s.calls[c].push, error))));
    case Resume(c) => ResumeSound(s, c);
    case Leave(c) => LeaveSound(s, c);
    case Cancel(c) => CancelSound(s, c);
    case Receive(r) => ReceiveSound(s, r);
    case Deliver => DeliverSound(s);
    case Close(reason) => CloseSound(s, reason);
    case Clear => ClearSound(s);
    case Write =>
    case StopWriting =>
  }

  lemma EncodeSound(s: Client, c: nat)
    requires Sound(s) && At(s.calls, c, Encoding)
    ensures Sound(Moved(s, c, Ready))
  {
    assert RightPlace(s.calls[c], c in s.outbound.entered) && OwnAnswer(s.calls[c]);
    MoveSound(s, c, Ready);
  }

  lemma {:induction false} RunSound(s: Client, steps: seq<Step>)
    requires Sound(s) && Allowed(s, steps)
    ensures Sound(After(s, steps))
    decreases |steps|
  {
    if steps != [] {
      NextSound(s, steps[0]);
      RunSound(Next(s, steps[0]), steps[1..]);
    }
  }

  // ---- every run -------------------------------------------------------

  lemma Reachable(steps: seq<Step>)
    requires Allowed(START, steps)
    ensures Sound(After(START, steps))
  {
    RunSound(START, steps);
  }

  /** The first close reason is kept, and from then on nothing is registered. */
  lemma {:induction false} ClosedForGood(s: Client, steps: seq<Step>)
    requires s.registry.closed.Some? && Allowed(s, steps)
    ensures After(s, steps).registry.closed == s.registry.closed
    ensures forall id | id in After(s, steps).registry.pending ::
      Registered(id, After(s, steps).registry.pending[id], s.registry.pending)
    decreases |steps|
  {
    if steps != [] {
      var t := Next(s, steps[0]);
      ClosedStep(s, steps[0]);
      ClosedForGood(t, steps[1..]);
      var pending := After(s, steps).registry.pending;
      forall id | id in pending ensures Registered(id, pending[id], s.registry.pending) {
        assert Registered(id, pending[id], t.registry.pending);
      }
    }
  }

  lemma ClosedStep(s: Client, step: Step)
    requires s.registry.closed.Some? && Enabled(s, step)
    ensures Next(s, step).registry.closed == s.registry.closed
    ensures forall id | id in Next(s, step).registry.pending ::
      Registered(id, Next(s, step).registry.pending[id], s.registry.pending)
  {
  }

  /** Once the first failure has cleared the registrations there are none, ever. */
  lemma {:induction false} ClearedForGood(s: Client, steps: seq<Step>)
    requires Sound(s) && s.registry.cleared && Allowed(s, steps)
    ensures After(s, steps).registry.cleared && After(s, steps).registry.pending == map[]
    decreases |steps|
  {
    if steps != [] {
      NextSound(s, steps[0]);
      ClearedStep(s, steps[0]);
      ClearedForGood(Next(s, steps[0]), steps[1..]);
    }
  }

  lemma ClearedStep(s: Client, step: Step)
    requires s.registry.cleared && Enabled(s, step)
    ensures Next(s, step).registry.cleared
  {
  }

  // ---- answers ---------------------------------------------------------

  /** How often the reader sends to the call of `c`. */
  function Deliveries(s: Client, steps: seq<Step>, c: nat): nat
    requires Allowed(s, steps)
    decreases |steps|
  {
    if steps == [] then 0
    else
      (if steps[0].Deliver? && s.held.value.0 == c then 1 else 0) + Deliveries(Next(s, steps[0]), steps[1..], c)
  }

  /** A call not yet registered, or whose sender is still about, may still be sent to. */
  predicate Owed(s: Client, c: nat) {
    || c !in s.calls || !Launched(s.calls[c].phase)
    || Registered(s.calls[c].id, c, s.registry.pending)
    || (s.held.Some? && s.held.value.0 == c)
  }

  lemma OwedStep(s: Client, step: Step, c: nat)
    requires Sound(s) && Enabled(s, step)
    ensures Owed(Next(s, step), c) ==> Owed(s, c)
    ensures step.Deliver? && s.held.value.0 == c ==> Owed(s, c) && !Owed(Next(s, step), c)
  {
    hide AnswersAreOwn;
    hide QueueIsKnown;
    hide LossesSayWhy;
    hide CloseIsOrdered;
    hide Remembered;
    if step.Deliver? {
      HeldIsNotPending(s);
    } else if step.Receive? && step.response.id in s.registry.pending {
      assert OwnSender(s.calls, step.response.id, s.registry.pending[step.response.id]);
    }
  }

  /** Over any run a call is answered at most once. */
  lemma {:induction false} AnsweredAtMostOnce(s: Client, steps: seq<Step>, c: nat)
    requires Sound(s) && Allowed(s, steps)
    ensures Deliveries(s, steps, c) <= if Owed(s, c) then 1 else 0
    decreases |steps|
  {
    if steps != [] {
      NextSound(s, steps[0]);
      OwedStep(s, steps[0], c);
      AnsweredAtMostOnce(Next(s, steps[0]), steps[1..], c);
    }
  }

  /** A call whose line was queued returns exactly what was delivered to it, if anything was. */
  lemma QueuedCallReturnsDelivery(steps: seq<Step>, c: nat, outcome: Outcome)
    requires Allowed(START, steps) && At(After(START, steps).calls, c, Returned(outcome))
    requires c in After(START, steps).outbound.entered
    ensures var inbox := After(START, steps).calls[c].inbox;
            if inbox.Some? then outcome == Answer(inbox.value) else outcome.Lost?
  {
    var s := After(START, steps);
    Reachable(steps);
    assert OwnAnswer(s.calls[c]) && RightPlace(s.calls[c], c in s.outbound.entered);
  }

  /** An answer carries the id of the call it answers, and no other call has that id. */
  lemma AnsweredByOwnId(steps: seq<Step>, c: nat, r: Response)
    requires Allowed(START, steps) && At(After(START, steps).calls, c, Returned(Answer(r)))
    ensures After(START, steps).calls[c].id == r.id
    ensures forall d | d in After(START, steps).calls && After(START, steps).calls[d].id == r.id :: d == c
  {
    Reachable(steps);
    assert OwnAnswer(After(START, steps).calls[c]);
  }

  /** The caller dropped its call, or its line was never queued. */
  predicate GaveUp(phase: Phase) {
    phase.Cancelled? || ((phase.Returning? || phase.Returned?) && phase.outcome.Local?)
  }

  /** The reader holds the response for the call, which waits for it unless the caller gave up. */
  predicate InHand(s: Client, c: nat, r: Response) {
    && s.held == Some((c, r)) && c in s.calls
    && (s.calls[c].phase.Sending? || s.calls[c].phase.Awaiting? || GaveUp(s.calls[c].phase))
  }

  /** The response is what the call's channel delivered, unless the caller gave up. */
  predicate Arrived(s: Client, c: nat, r: Response) {
    c in s.calls && (s.calls[c].inbox == Some(r) || GaveUp(s.calls[c].phase))
  }

  /** A call that lost its answer has no sender any more. */
  predicate LostHasNoSender(s: Client, c: nat) {
    c in s.calls && s.calls[c].phase.Returning? && s.calls[c].phase.outcome.Lost? ==>
      SenderGone(s.calls[c].id, c, s.registry.pending, s.held)
  }

  predicate LostHaveNoSender(s: Client) {
    forall c | c in s.calls :: LostHasNoSender(s, c)
  }

  lemma LostStepAt(s: Client, step: Step, c: nat)
    requires Sound(s) && Enabled(s, step) && c in Next(s, step).calls
    requires c in s.calls ==> LostHasNoSender(s, c)
    ensures LostHasNoSender(Next(s, step), c)
  {
    hide AnswersAreOwn;
    hide QueueIsKnown;
    hide LossesSayWhy;
    hide NobodyForgotten;
    hide CloseIsOrdered;
    hide IdsDistinct;
    if step.Receive? && step.response.id in s.registry.pending {
      assert OwnSender(s.calls, step.response.id, s.registry.pending[step.response.id]);
    }
  }

  lemma LostStep(s: Client, step: Step)
    requires Sound(s) && LostHaveNoSender(s) && Enabled(s, step)
    ensures LostHaveNoSender(Next(s, step))
  {
    hide Sound;
    hide Next;
    hide LostHasNoSender;
    forall c | c in Next(s, step).calls
      ensures LostHasNoSender(Next(s, step), c)
    {
      LostStepAt(s, step, c);
    }
  }

  lemma {:induction false} LostRun(s: Client, steps: seq<Step>)
    requires Sound(s) && LostHaveNoSender(s) && Allowed(s, steps)
    ensures LostHaveNoSender(After(s, steps))
    decreases |steps|
  {
    if steps != [] {
      NextSound(s, steps[0]);
      LostStep(s, steps[0]);
      LostRun(Next(s, steps[0]), steps[1..]);
    }
  }

  lemma InHandStep(s: Client, step: Step, c: nat, r: Response)
    requires Sound(s) && Enabled(s, step) && InHand(s, c, r)
    ensures if step.Deliver? then Arrived(Next(s, step), c, r) else InHand(Next(s, step), c, r)
  {
  }

  lemma ArrivedStep(s: Client, step: Step, c: nat, r: Response)
    requires Sound(s) && Enabled(s, step) && Arrived(s, c, r)
    ensures Arrived(Next(s, step), c, r)
  {
    hide AnswersAreOwn;
    hide QueueIsKnown;
    hide LossesSayWhy;
    hide NobodyForgotten;
  }

  lemma {:induction false} ArrivedForGood(s: Client, steps: seq<Step>, c: nat, r: Response)
    requires Sound(s) && Allowed(s, steps) && Arrived(s, c, r)
    ensures Sound(After(s, steps)) && Arrived(After(s, steps), c, r)
    decreases |steps|
  {
    if steps != [] {
      NextSound(s, steps[0]);
      ArrivedStep(s, steps[0], c, r);
      ArrivedForGood(Next(s, steps[0]), steps[1..], c, r);
    }
  }

  lemma {:induction false} InHandUntilDelivered(s: Client, steps: seq<Step>, c: nat, r: Response)
    requires Sound(s) && Allowed(s, steps) && InHand(s, c, r)
    ensures Sound(After(s, steps))
    ensures if Deliver in steps then Arrived(After(s, steps), c, r) else InHand(After(s, steps), c, r)
    decreases |steps|
  {
    if steps != [] {
      NextSound(s, steps[0]);
      InHandStep(s, steps[0], c, r);
      assert steps == [steps[0]] + steps[1..];
      if steps[0].Deliver? {
        ArrivedForGood(Next(s, steps[0]), steps[1..], c, r);
      } else {
        InHandUntilDelivered(Next(s, steps[0]), steps[1..], c, r);
      }
    }
  }

  /** A response that comes in while its id is registered for a call reaches that call, and no other, with
      the next delivery. Until then the call waits for it, and afterwards it is what the call returns. */
  lemma ResponseReachesCaller(before: seq<Step>, r: Response, later: seq<Step>, c: nat)
    requires Allowed(START, before) && Registered(r.id, c, After(START, before).registry.pending)
    requires var s := After(START, before);
             Enabled(s, Receive(r)) && Allowed(Next(s, Receive(r)), later)
    ensures var t := After(Next(After(START, before), Receive(r)), later);
            && c in t.calls
            && (GaveUp(t.calls[c].phase)
                || (if Deliver in later then t.calls[c].inbox == Some(r)
                    else t.held == Some((c, r)) && (t.calls[c].phase.Sending? || t.calls[c].phase.Awaiting?)))
            && (t.calls[c].phase.Returned? && !GaveUp(t.calls[c].phase) ==>
                  t.calls[c].phase.outcome == Answer(r))
            && (Deliver in later && At(t.calls, c, Awaiting) ==>
                  CanResume(t, c) && Next(t, Resume(c)).calls[c].phase == Returning(Answer(r)))
  {
    var s := After(START, before);
    hide Sound;
    hide InHand;
    hide Arrived;
    hide GaveUp;
    hide CanResume;
    hide Next;
    Reachable(before);
    StartSound();
    LostRun(START, before);
    NextSound(s, Receive(r));
    RegisteredIsInHand(s, c, r);
    var u := Next(s, Receive(r));
    InHandUntilDelivered(u, later, c, r);
    ReachedIs(After(u, later), c, r, Deliver in later);
  }

  lemma StartSound()
    ensures Sound(START) && LostHaveNoSender(START)
  {
  }

  lemma ReachedIs(t: Client, c: nat, r: Response, delivered: bool)
    requires Sound(t) && if delivered then Arrived(t, c, r) else InHand(t, c, r)
    ensures c in t.calls
    ensures GaveUp(t.calls[c].phase)
            || (if delivered then t.calls[c].inbox == Some(r)
                else t.held == Some((c, r)) && (t.calls[c].phase.Sending? || t.calls[c].phase.Awaiting?))
    ensures t.calls[c].phase.Returned? && !GaveUp(t.calls[c].phase) ==> t.calls[c].phase.outcome == Answer(r)
    ensures delivered && At(t.calls, c, Awaiting) ==>
              CanResume(t, c) && Next(t, Resume(c)).calls[c].phase == Returning(Answer(r))
  {
    assert OwnAnswer(t.calls[c]);
  }

  lemma RegisteredIsInHand(s: Client, c: nat, r: Response)
    requires Sound(s) && LostHasNoSender(s, c) && s.held.None? && Registered(r.id, c, s.registry.pending)
    ensures InHand(Received(s, r), c, r)
  {
    assert OwnSender(s.calls, r.id, c) && OwnAnswer(s.calls[c]);
  }

  // ---- rejection -------------------------------------------------------

  predicate Over(call: Call) {
    call.phase.Returned? || call.phase.Cancelled?
  }

  /** A call that is over stays as it is. */
  lemma {:induction false} OverForGood(s: Client, steps: seq<Step>, c: nat)
    requires c in s.calls && Over(s.calls[c]) && Allowed(s, steps)
    ensures c in After(s, steps).calls && After(s, steps).calls[c] == s.calls[c]
    ensures c in After(s, steps).outbound.entered <==> c in s.outbound.entered
    decreases |steps|
  {
    if steps != [] {
      OverStep(s, steps[0], c);
      OverForGood(Next(s, steps[0]), steps[1..], c);
    }
  }

  lemma OverStep(s: Client, step: Step, c: nat)
    requires c in s.calls && Over(s.calls[c]) && Enabled(s, step)
    ensures c in Next(s, step).calls && Next(s, step).calls[c] == s.calls[c]
    ensures c in Next(s, step).outbound.entered <==> c in s.outbound.entered
  {
  }

  /** A client-made error says Rejected exactly for a push whose line was not, and never will be, queued. */
  lemma RejectedIffNeverQueued(steps: seq<Step>, later: seq<Step>, c: nat, outcome: Outcome)
    requires Allowed(START, steps) && At(After(START, steps).calls, c, Returned(outcome)) && !outcome.Answer?
    requires Allowed(After(START, steps), later)
    ensures
      var s := After(START, steps);
      outcome.error.acceptance == Some(Rejected) <==> s.calls[c].push && c !in After(s, later).outbound.entered
  {
    var s := After(START, steps);
    Reachable(steps);
    assert RightPlace(s.calls[c], c in s.outbound.entered);
    OverForGood(s, later, c);
  }

  // ---- progress --------------------------------------------------------

  /** After the connection failed, a waiting call can return, or can once the reader lets go of its sender. */
  lemma NobodyWaitsForever(steps: seq<Step>, c: nat)
    requires Allowed(START, steps) && After(START, steps).registry.cleared
    requires At(After(START, steps).calls, c, Awaiting)
    ensures
      var s := After(START, steps);
      CanResume(s, c) || (s.held.Some? && s.held.value.0 == c && CanResume(Next(s, Deliver), c))
  {
    var s := After(START, steps);
    Reachable(steps);
    assert Remembered(s.calls[c], c, s.registry.pending, s.held, s.registry.cleared);
  }

  /** A call that is over has no registration left behind. */
  lemma NothingLeaks(steps: seq<Step>, c: nat)
    requires Allowed(START, steps) && c in After(START, steps).calls && Over(After(START, steps).calls[c])
    ensures After(START, steps).calls[c].id !in After(START, steps).registry.pending
  {
    var s := After(START, steps);
    Reachable(steps);
    forall id | id in s.registry.pending ensures id != s.calls[c].id {
      assert OwnSender(s.calls, id, s.registry.pending[id]);
    }
  }

  /** A call that loses its answer reports the first close reason. */
  lemma LossTellsFirstReason(steps: seq<Step>, later: seq<Step>, c: nat, error: RpcError)
    requires Allowed(START, steps) && At(After(START, steps).calls, c, Returned(Lost(error)))
    requires Allowed(After(START, steps), later)
    ensures After(After(START, steps), later).registry.closed == Some(error.message)
  {
    var s := After(START, steps);
    Reachable(steps);
    assert SaysWhy(s.calls[c].phase, s.registry.closed);
    ClosedForGood(s, later);
  }
}

/** The slots the tasks share, changed in place one lock at a time. */
module RpcShared {
  import opened Wrappers
  import opened Rpc

  class Shared {
    var pending: map<nat, nat>
    var closed: Option<string>
    ghost var clearing: bool
    ghost var cleared: bool

    ghost function View(): Registry
      reads this
    {
      Registry(pending, closed, clearing, cleared)
    }

    constructor ()
      ensures View() == START.registry
    {
      pending, closed, clearing, cleared := map[], None, false, false;
    }

    /** Registers the call, or says why the connection closed. */
    method Register(id: nat, caller: nat) returns (reason: Option<string>)
      modifies this`pending
      ensures reason == old(closed)
      ensures View() == if reason.Some? then old(View()) else old(View()).(pending := old(pending)[id := caller])
    {
      reason := closed;
      if reason.None? {
        pending := pending[id := caller];
      }
    }

    /** Dropping the guard of a call. */
    method DropCall(id: nat)
      modifies this`pending
      ensures View() == old(View()).(pending := old(pending) - {id})
    {
      pending := pending - {id};
    }

    /** Takes the sender registered for `id`. */
    method TakeTarget(id: nat) returns (caller: Option<nat>)
      modifies this`pending
      ensures caller == if id in old(pending) then Some(old(pending)[id]) else None
      ensures View() == old(View()).(pending := old(pending) - {id})
    {
      caller := None;
      if id in pending {
        caller := Some(pending[id]);
        pending := pending - {id};
      }
    }

    method CloseFirst(reason: string) returns (first: bool)
      modifies this`closed, this`clearing
      ensures View() == Closed(old(View()), reason) && (first <==> old(closed).None?)
    {
      first := closed.None?;
      if first {
        closed := Some(reason);
        clearing := true;
      }
    }

    method ClearPending()
      modifies this`pending, this`clearing, this`cleared
      ensures View() == Cleared(old(View()))
    {
      pending := map[];
      clearing, cleared := false, true;
    }

    /** Without interleaving, a failure closes and clears, or finds the connection closed already. */
    method Fail(reason: string)
      modifies this
      ensures View() == if old(closed).Some? then old(View()) else Cleared(Closed(old(View()), reason))
    {
      var first := CloseFirst(reason);
      if first {
        ClearPending();
      }
    }
  }
}
