/**
 Shutting tracing down: the client repeats its request until a response holds no events,
 while the server, suspended inside the teardown of the tracing library, answers each
 repetition from a nested run of its own state machine.

 The two sides alternate strictly, as `Qlpc` shows, so the client is modelled by what it
 does between receiving a response and sending the next request.
 */
module ShutdownProtocol {

  import opened Common

  const INITIALIZE_TRACING_REQUEST: nat := 0
  const SHUTDOWN_TRACING_REQUEST: nat := 2
  const SHUTDOWN_TRACING_RESPONSE: nat := 3
  const INSTRUMENT_REQUEST: nat := 4
  const READ_TRACE_REQUEST: nat := 6
  const SHUTDOWN_REQUEST: nat := 8
  const COMMUNICATION_ERROR: nat := 10
  const HANDLER_COUNT: nat := 11
  const INVALID_MESSAGE_ID: nat := 0xFFFF_FFFF

  const STATUS_SIZE: nat := 4
  const EVENTS_OFFSET: nat := 16 // of the events, relative to the status
  const EVENT_SIZE: nat := 56
  const LARGEST_BATCH: nat := 1024 * 1024 - 32

  datatype Status =
    | Success | TimedOut | InvalidParameter | TracingNotInitialized | AlreadyInitialized | StillActive
    | StillPatched | PatchesActive | NoMemory | NotImplemented
    | InvalidPeerMessageFormat | UnexpectedPeerMessage | CallTimedOut

  predicate Succeeded(s: Status) {
    s == Success || s == TimedOut
  }

  datatype Event = Event(entry: bool, procedure: nat, context: seq<byte>, timestamp: nat)

  /** The events of one buffer, all of one thread. */
  datatype Batch = Batch(threadId: nat, events: seq<Event>)

  datatype Message = Message(
    messageId: nat, payloadSize: nat, status: Status, threadId: nat, eventCount: nat, events: seq<Event>)

  // ---------------------------------------------------------------- the client

  /** The size of a response up to its last event; the index of that event is computed in 32 bits. */
  function ExpectedPayload(eventCount: nat): nat {
    (EVENTS_OFFSET + EVENT_SIZE * ((eventCount - 1) % ULONG_RANGE) + EVENT_SIZE) % ULONG_RANGE
  }

  /** How the call itself went. */
  function TransportStatus(response: Message): Status {
    if response.messageId == COMMUNICATION_ERROR then response.status
    else if response.messageId != SHUTDOWN_TRACING_RESPONSE then UnexpectedPeerMessage
    else Success
  }

  /** What the request was answered with, as the loop of the client sees it. */
  function CallStatus(response: Message): Status {
    if TransportStatus(response) == TimedOut then CallTimedOut
    else if TransportStatus(response) != Success then TransportStatus(response)
    else if response.status == Success && response.payloadSize != ExpectedPayload(response.eventCount)
    then InvalidPeerMessageFormat
    else response.status
  }

  predicate Delivers(response: Message) {
    CallStatus(response) == Success && response.eventCount > 0
  }

  predicate Repeats(response: Message) {
    Succeeded(CallStatus(response)) && response.eventCount > 0
  }

  /** A response that the client takes for the answer to its request. */
  predicate Answers(response: Message) {
    response.messageId == 3 || (response.messageId == 10 && response.status == Success)
  }

  /** The size is that of the header and of 56 bytes for each event, in 32 bits; none is a size as well. */
  predicate SizeMatches(response: Message) {
    response.payloadSize == (16 + 56 * response.eventCount) % 0x1_0000_0000
  }

  lemma {:induction false} PayloadOfEvents(n: nat)
    ensures ExpectedPayload(n) == (16 + 56 * n) % 0x1_0000_0000
  {
    var q, r := (n - 1) / ULONG_RANGE, (n - 1) % ULONG_RANGE;
    assert 16 + 56 * n == 16 + 56 * r + 56 + ULONG_RANGE * (56 * q);
    SameRemainder(16 + 56 * r + 56, 56 * q);
  }

  lemma {:induction false} SameRemainder(x: int, k: int)
    ensures (x + ULONG_RANGE * k) % ULONG_RANGE == x % ULONG_RANGE
  {
    var q := x / ULONG_RANGE;
    assert x + ULONG_RANGE * k == ULONG_RANGE * (q + k) + x % ULONG_RANGE;
  }

  /** What the client makes of any message it may receive. */
  lemma {:induction false} Verdicts(response: Message)
    ensures Delivers(response) <==>
              Answers(response) && response.status == Success && SizeMatches(response) && response.eventCount > 0
    ensures CallStatus(response) == Success <==>
              Answers(response) && response.status == Success && SizeMatches(response)
    ensures Answers(response) && response.status == Success && !SizeMatches(response) ==>
              CallStatus(response) == InvalidPeerMessageFormat
    ensures response.messageId == 3 && response.status != Success ==> CallStatus(response) == response.status
    ensures response.messageId == 10 && response.status == TimedOut ==> CallStatus(response) == CallTimedOut
    ensures response.messageId == 10 && response.status !in {Success, TimedOut} ==> CallStatus(response) == response.status
    ensures response.messageId !in {3, 10} ==> CallStatus(response) == UnexpectedPeerMessage
    ensures Repeats(response) <==>
              Delivers(response) || (response.messageId == 3 && response.status == TimedOut && response.eventCount > 0)
  {
    PayloadOfEvents(response.eventCount);
    hide ExpectedPayload;
  }

  predicate IsShutdownRequest(message: Message) {
    message.messageId == SHUTDOWN_TRACING_REQUEST && message.payloadSize == 0
  }

  /** An application that shuts tracing down, and may do so again `callsLeft` times. */
  class Client {
    var callsLeft: nat
    var received: seq<Batch>
    var results: seq<Status>

    constructor (callsLeft: nat)
      ensures this.callsLeft == callsLeft && received == [] && results == []
    {
      this.callsLeft, received, results := callsLeft, [], [];
    }

    /** From a response to the next request, if there is one; a request leaves its body as it happens to be. */
    method Resume(response: Message) returns (request: Option<Message>)
      modifies this
      ensures received == old(received) + if Delivers(response) then [Batch(response.threadId, response.events)] else []
      ensures received != old(received) ==>
                Answers(response) && response.status == Success && SizeMatches(response) && response.eventCount > 0
      ensures Answers(response) && response.status == Success ==>
                if SizeMatches(response) && response.eventCount > 0
                then received == old(received) + [Batch(response.threadId, response.events)] && results == old(results)
                else received == old(received)
                     && results == old(results) + [if SizeMatches(response) then Success else InvalidPeerMessageFormat]
      ensures results == old(results) + if Repeats(response) then [] else [CallStatus(response)]
      ensures callsLeft == if Repeats(response) || old(callsLeft) == 0 then old(callsLeft) else old(callsLeft) - 1
      ensures request.Some? <==> Repeats(response) || old(callsLeft) > 0
      ensures request.Some? ==> IsShutdownRequest(request.value)
    {
      Verdicts(response);
      hide SizeMatches;
      var status := TransportStatus(response);
      if status == TimedOut {
        status := CallTimedOut;
      } else if Succeeded(status) {
        status := response.status;
        if status != TimedOut && Succeeded(status) {
          if response.payloadSize != ExpectedPayload(response.eventCount) {
            status := InvalidPeerMessageFormat;
          } else if response.eventCount > 0 {
            received := received + [Batch(response.threadId, response.events)];
          }
        }
      }
      if !(Succeeded(status) && response.eventCount > 0) {
        results := results + [status];
        if callsLeft == 0 {
          return None;
        }
        callsLeft := callsLeft - 1;
      }
      var local: Message := *;
      return Some(local.(messageId := SHUTDOWN_TRACING_REQUEST, payloadSize := 0));
    }
  }

  // ---------------------------------------------------------------- the server

  /** The response that carries a batch. */
  function Response(shared: Message, batch: Batch): Message {
    Message(SHUTDOWN_TRACING_RESPONSE, EVENTS_OFFSET + EVENT_SIZE * |batch.events|, Success,
            batch.threadId, |batch.events|, batch.events)
  }

  /** A batch that fits into a buffer of the tracing library, and that into the shared message. */
  predicate Fits(batch: Batch) {
    EVENT_SIZE * |batch.events| <= LARGEST_BATCH
  }

  /** The client accepts the response, and repeats its request iff the batch has events. */
  lemma {:induction false} ResponseAccepted(shared: Message, batch: Batch)
    requires Fits(batch)
    ensures var response := Response(shared, batch);
            && CallStatus(response) == Success
            && (Delivers(response) <==> batch.events != [])
            && (Repeats(response) <==> batch.events != [])
            && Batch(response.threadId, response.events) == batch
  {
  }

  // ---------------------------------------------------------------- what the client has seen

  datatype Progress = Progress(received: seq<Batch>, results: seq<Status>, callsLeft: nat)

  /** After the client was sent `response`. */
  function Sent(c: Progress, response: Message): Progress {
    Progress(c.received + if Delivers(response) then [Batch(response.threadId, response.events)] else [],
             c.results + if Repeats(response) then [] else [CallStatus(response)],
             if Repeats(response) || c.callsLeft == 0 then c.callsLeft else c.callsLeft - 1)
  }

  /** Whether the client asks again after `response`. */
  predicate Asks(c: Progress, response: Message) {
    Repeats(response) || c.callsLeft > 0
  }

  /** After a response that ends a call. */
  function Ended(c: Progress, status: Status): Progress {
    Progress(c.received, c.results + [status], if c.callsLeft == 0 then 0 else c.callsLeft - 1)
  }

  /** After the response that carries `batch`. */
  function Answered(c: Progress, batch: Batch): Progress {
    if batch.events == [] then Ended(c, Success) else c.(received := c.received + [batch])
  }

  /** Nobody asks for what comes after `batch`. */
  predicate Abandoned(c: Progress, batch: Batch) {
    batch.events == [] && c.callsLeft == 0
  }

  datatype Drain = Drained(client: Progress) | Stuck(client: Progress)

  /** One response for each batch, in order, as long as somebody asks. */
  function AnswerAll(c: Progress, batches: seq<Batch>): Drain
    decreases |batches|
  {
    if batches == [] then Drained(c)
    else if Abandoned(c, batches[0]) then Stuck(Answered(c, batches[0]))
    else AnswerAll(Answered(c, batches[0]), batches[1..])
  }

  /** The pending call and all later ones end with `status`. */
  function Refused(c: Progress, status: Status): Progress
    decreases c.callsLeft
  {
    if c.callsLeft == 0 then Ended(c, status) else Refused(Ended(c, status), status)
  }

  /** What becomes of the client, from a pending request on. */
  function ServeAll(c: Progress, tracing: bool, refusal: Option<Status>, batches: seq<Batch>): Drain {
    if !tracing then Drained(Refused(c, TracingNotInitialized))
    else if refusal.Some? then Drained(Refused(c, refusal.value))
    else
      match AnswerAll(c, batches)
      case Stuck(d) => Stuck(d)
      case Drained(d) =>
        Drained(if d.callsLeft == 0 then Ended(d, Success) else Refused(Ended(d, Success), TracingNotInitialized))
  }

  lemma {:induction false} SentResponse(c: Progress, shared: Message, batch: Batch)
    requires Fits(batch)
    ensures Sent(c, Response(shared, batch)) == Answered(c, batch)
    ensures Asks(c, Response(shared, batch)) <==> !Abandoned(c, batch)
  {
    ResponseAccepted(shared, batch);
  }

  /** A response after which the client's call is over, with `status`. */
  predicate EndsCall(response: Message, status: Status) {
    CallStatus(response) == status && !Repeats(response)
  }

  lemma {:induction false} SentLast(c: Progress, response: Message, status: Status)
    requires EndsCall(response, status)
    ensures Sent(c, response) == Ended(c, status) && (Asks(c, response) <==> c.callsLeft > 0)
  {
  }

  lemma {:induction false} CallsOnlyEnd(c: Progress, batches: seq<Batch>)
    ensures AnswerAll(c, batches).client.callsLeft <= c.callsLeft
    decreases |batches|
  {
    if batches != [] {
      CallsOnlyEnd(Answered(c, batches[0]), batches[1..]);
    }
  }

  lemma {:induction false} ErrorEnds(response: Message)
    requires response.messageId == COMMUNICATION_ERROR && !Succeeded(response.status)
    ensures EndsCall(response, response.status)
  {
  }

  lemma {:induction false} RefusedStep(c: Progress, status: Status)
    ensures Refused(c, status) == if c.callsLeft == 0 then Ended(c, status) else Refused(Ended(c, status), status)
  {
  }

  /** Why a request to shut down is refused, if it is. */
  function Refusal(request: Message, tracing: bool, refusal: Option<Status>): Option<Status> {
    if !tracing then Some(TracingNotInitialized)
    else if request.payloadSize != 0 then Some(InvalidParameter)
    else refusal
  }

  /** A response to another request ends the call as well. */
  lemma {:induction false} OtherEnds(response: Message)
    requires response.messageId !in {SHUTDOWN_TRACING_RESPONSE, COMMUNICATION_ERROR}
    ensures EndsCall(response, UnexpectedPeerMessage)
  {
  }

  predicate AnsweredByOthers(request: Message) {
    request.messageId in {INITIALIZE_TRACING_REQUEST, INSTRUMENT_REQUEST, READ_TRACE_REQUEST, SHUTDOWN_REQUEST}
  }

  /** The server is told to stop, and nothing keeps it from doing so. */
  predicate Stops(request: Message, tracing: bool) {
    request.messageId == SHUTDOWN_REQUEST && request.payloadSize == 0 && !tracing
  }

  /** How a client that waits to be told of the shutdown is told of anything else. */
  function Denial(request: Message, tracing: bool): (status: Status)
    ensures !Succeeded(status)
  {
    if request.messageId >= HANDLER_COUNT then NotImplemented
    else if AnsweredByOthers(request) then UnexpectedPeerMessage
    else if request.messageId == SHUTDOWN_TRACING_REQUEST && !tracing then TracingNotInitialized
    else InvalidParameter
  }

  // ---------------------------------------------------------------- the state machine

  class Server {
    const client: Client
    var message: Message
    var expectedMessageId: nat
    var tracingInitialized: bool
    var tempPointer: Option<Batch>
    var dirty: seq<Batch>       // what the tracing library has left to hand over, oldest first
    var refusal: Option<Status> // why the library refuses to be torn down, if it does
    var blocked: bool           // the server waits for a request that will not come

    constructor (client: Client, message: Message, dirty: seq<Batch>, refusal: Option<Status>)
      ensures this.client == client && this.message == message && this.dirty == dirty && this.refusal == refusal
      ensures tracingInitialized && expectedMessageId == INVALID_MESSAGE_ID && tempPointer == None && !blocked
    {
      this.client, this.message, this.dirty, this.refusal := client, message, dirty, refusal;
      expectedMessageId, tracingInitialized, tempPointer, blocked := INVALID_MESSAGE_ID, true, None, false;
    }

    ghost function Peer(): Progress
      reads this, client
    {
      Progress(client.received, client.results, client.callsLeft)
    }

    predicate Requested()
      reads this
    {
      IsShutdownRequest(message)
    }

    ghost predicate WellFormed()
      reads this
    {
      && (forall b :: b in dirty ==> Fits(b))
      && (refusal.Some? ==> !Succeeded(refusal.value))
    }

    /** Sends the response and waits for the next request. */
    method SendReceive(wait: bool) returns (received: bool)
      requires !blocked
      modifies `message, `blocked, client
      ensures Peer() == Sent(old(Peer()), old(message))
      ensures received == (wait && Asks(old(Peer()), old(message))) && blocked == (wait && !received)
      ensures received ==> Requested()
    {
      var request := client.Resume(message);
      if request.Some? {
        message := request.value;
      }
      received := wait && request.Some?;
      blocked := wait && request.None?;
    }

    /** Makes the message the response that carries `batch`, whatever its id is. */
    method ProcessBuffer(batch: Batch)
      requires Fits(batch)
      modifies `message
      ensures message == Response(old(message), batch).(messageId := old(message.messageId))
    {
      var size := EVENT_SIZE * |batch.events|;
      message := message.(payloadSize := EVENTS_OFFSET + size, status := Success);
      assert message.payloadSize + 12 < 1024 * 1024;
      message := message.(threadId := batch.threadId, eventCount := size / EVENT_SIZE, events := batch.events);
    }

    /** The state in which a nested run of the state machine starts. */
    ghost predicate Pending()
      reads this
    {
      expectedMessageId == SHUTDOWN_TRACING_REQUEST && tracingInitialized && tempPointer.Some? && Fits(tempPointer.value)
    }

    ghost predicate AtRest()
      reads this
    {
      expectedMessageId == INVALID_MESSAGE_ID && tempPointer == None
    }

    /** The outcome of serving a client to the end: at rest, or stuck in the middle of the teardown. */
    ghost predicate ServedAs(outcome: Drain)
      reads this, client
    {
      match outcome
      case Stuck(c) => Peer() == c && expectedMessageId == SHUTDOWN_TRACING_REQUEST
      case Drained(c) => Peer() == c && AtRest() && (tracingInitialized ==> refusal.Some?)
    }

    /**
     Answers a shutdown request.  Within the teardown of the library it answers with the
     batch the library is handing over, and ends the nested run.  Otherwise it tears the
     library down, which may use up any number of further requests.
     */
    method ShutdownTracingHandler() returns (continueServing: bool)
      requires !blocked && WellFormed() && (Pending() || AtRest()) && message.messageId == SHUTDOWN_TRACING_REQUEST
      modifies this, client
      ensures refusal == old(refusal) && WellFormed()
      ensures old(Pending()) && old(message.payloadSize) == 0 ==>
                && !continueServing && !blocked && message == Response(old(message), old(tempPointer.value))
                && tempPointer == None && expectedMessageId == old(expectedMessageId) && tracingInitialized
                && dirty == old(dirty) && Peer() == old(Peer())
      ensures old(Pending()) && old(message.payloadSize) != 0 ==>
                && !continueServing && !blocked && EndsCall(message, InvalidParameter)
                && tempPointer == old(tempPointer) && expectedMessageId == old(expectedMessageId) && tracingInitialized
                && dirty == old(dirty) && Peer() == old(Peer())
      ensures old(AtRest()) ==>
                match Refusal(old(message), old(tracingInitialized), old(refusal))
                case Some(status) =>
                  && continueServing && !blocked && AtRest() && EndsCall(message, status) && Peer() == old(Peer())
                  && tracingInitialized == old(tracingInitialized) && dirty == old(dirty)
                case None => (
                  match AnswerAll(old(Peer()), old(dirty))
                  case Stuck(c) => blocked && Peer() == c && expectedMessageId == SHUTDOWN_TRACING_REQUEST
                  case Drained(c) =>
                    && continueServing && !blocked && AtRest() && EndsCall(message, Success) && Peer() == c
                    && !tracingInitialized && dirty == [])
      decreases expectedMessageId == INVALID_MESSAGE_ID, 1
    {
      var inShutdownStateMachine := expectedMessageId == SHUTDOWN_TRACING_REQUEST;
      if message.payloadSize != 0 || !tracingInitialized {
        message := message.(
          messageId := SHUTDOWN_TRACING_RESPONSE, payloadSize := STATUS_SIZE,
          status := if tracingInitialized then InvalidParameter else TracingNotInitialized);
        continueServing := !inShutdownStateMachine;
      } else if inShutdownStateMachine {
        var batch := tempPointer.value;
        tempPointer := None;
        message := message.(messageId := SHUTDOWN_TRACING_RESPONSE);
        ProcessBuffer(batch);
        continueServing := false;
      } else {
        expectedMessageId := SHUTDOWN_TRACING_REQUEST;
        var status := Uninitialize();
        continueServing := true;
        if blocked {
          return;
        }
        expectedMessageId := INVALID_MESSAGE_ID;
        if Succeeded(status) {
          message := message.(messageId := SHUTDOWN_TRACING_RESPONSE, payloadSize := EVENTS_OFFSET);
          message := message.(status := status, threadId := 0, eventCount := 0);
          tracingInitialized := false;
        } else {
          message := message.(messageId := SHUTDOWN_TRACING_RESPONSE, payloadSize := STATUS_SIZE, status := status);
        }
      }
    }

    /** Tears the tracing library down, which hands over what is left, unless it refuses. */
    method Uninitialize() returns (status: Status)
      requires !blocked && WellFormed() && Requested() && tracingInitialized
      requires expectedMessageId == SHUTDOWN_TRACING_REQUEST && tempPointer == None
      modifies this, client
      ensures refusal == old(refusal) && WellFormed()
      ensures expectedMessageId == SHUTDOWN_TRACING_REQUEST && tracingInitialized && tempPointer == None
      ensures refusal.Some? ==> status == refusal.value && !blocked && Peer() == old(Peer()) && dirty == old(dirty)
      ensures refusal.None? ==>
                match AnswerAll(old(Peer()), old(dirty))
                case Stuck(c) => blocked && Peer() == c
                case Drained(c) => status == Success && !blocked && Peer() == c && dirty == []
      decreases false, 5
    {
      if refusal.Some? {
        return refusal.value;
      }
      while dirty != []
        invariant WellFormed() && refusal.None? && Requested() && !blocked
        invariant expectedMessageId == SHUTDOWN_TRACING_REQUEST && tracingInitialized && tempPointer == None
        invariant AnswerAll(Peer(), dirty) == AnswerAll(old(Peer()), old(dirty))
        decreases |dirty|
      {
        var batch := dirty[0];
        dirty := dirty[1..];
        FlushBufferForShutdown(batch);
        if blocked {
          return Success;
        }
      }
      status := Success;
    }

    /** Called by the library for each of its buffers. */
    method FlushBufferForShutdown(batch: Batch)
      requires !blocked && WellFormed() && Requested() && tracingInitialized && Fits(batch)
      requires expectedMessageId == SHUTDOWN_TRACING_REQUEST && tempPointer == None
      modifies this, client
      ensures WellFormed() && refusal == old(refusal) && dirty == old(dirty)
      ensures expectedMessageId == SHUTDOWN_TRACING_REQUEST && tracingInitialized && tempPointer == None
      ensures Peer() == Answered(old(Peer()), batch)
      ensures blocked <==> Abandoned(old(Peer()), batch)
      ensures !blocked ==> Requested()
      decreases false, 4
    {
      tempPointer := Some(batch);
      RunServerStateMachine(true);
    }

    /**
     Answers any other request that has a handler.  Starting, changing and reading a trace is up
     to the library, so what it has left afterwards, and whether it refuses to be torn down, is open.
     */
    method OtherHandler() returns (continueServing: bool)
      requires WellFormed() && AtRest() && AnsweredByOthers(message)
      modifies `message, `tracingInitialized, `dirty, `refusal
      ensures WellFormed() && AtRest()
      ensures message.messageId == old(message.messageId) + 1
      ensures continueServing <==> !Stops(old(message), old(tracingInitialized))
      ensures old(message.messageId) == INITIALIZE_TRACING_REQUEST ==>
                tracingInitialized == (old(tracingInitialized) || Succeeded(message.status))
      ensures old(message.messageId) != INITIALIZE_TRACING_REQUEST ==> tracingInitialized == old(tracingInitialized)
      ensures old(message.messageId) == SHUTDOWN_REQUEST ==>
                && dirty == old(dirty) && refusal == old(refusal) && message.payloadSize == STATUS_SIZE
                && (message.status == Success <==> !continueServing)
    {
      var id := message.messageId;
      if id == SHUTDOWN_REQUEST {
        var status :=
          if message.payloadSize != 0 then InvalidParameter else if tracingInitialized then StillActive else Success;
        message := message.(messageId := id + 1, payloadSize := STATUS_SIZE, status := status);
        return status != Success;
      }
      var valid: bool, response: Message := *, *;
      if id == INITIALIZE_TRACING_REQUEST {
        if !valid {
          response := message.(payloadSize := STATUS_SIZE, status := InvalidParameter);
        } else if tracingInitialized {
          response := message.(payloadSize := STATUS_SIZE, status := AlreadyInitialized);
        } else {
          tracingInitialized := Succeeded(response.status);
        }
      }
      message := response.(messageId := id + 1);
      var left: seq<Batch>, reason: Option<Status> := *, *;
      if (forall b :: b in left ==> Fits(b)) && (reason.Some? ==> !Succeeded(reason.value)) {
        dirty, refusal := left, reason;
      }
      return true;
    }

    /** Dispatches one request, answers it, and waits for the next one. */
    method ServeRequest(goOn: bool, waitForFollowup: bool) returns (goOn': bool, received: bool)
      requires !blocked && WellFormed() && goOn
      requires if waitForFollowup then Pending() && Requested() else AtRest()
      modifies this, client
      ensures WellFormed() && (received ==> !blocked && Requested())
      ensures !AnsweredByOthers(old(message)) ==> refusal == old(refusal)
      ensures old(Pending()) ==>
                && !goOn' && dirty == old(dirty) && Peer() == Answered(old(Peer()), old(tempPointer.value))
                && expectedMessageId == SHUTDOWN_TRACING_REQUEST && tracingInitialized && tempPointer == None
                && (blocked <==> Abandoned(old(Peer()), old(tempPointer.value))) && (received <==> !blocked)
      ensures old(AtRest()) && received ==> goOn' && AtRest() && client.callsLeft < old(client.callsLeft)
      ensures old(AtRest()) && !received ==> (blocked <==> !Stops(old(message), old(tracingInitialized)))
      ensures old(AtRest()) && Stops(old(message), old(tracingInitialized)) ==> !received
      ensures old(AtRest()) && !old(Requested()) ==>
                AtRest() && Peer() == Ended(old(Peer()), Denial(old(message), old(tracingInitialized)))
      ensures old(AtRest()) && old(message.messageId) >= 11 ==> client.results == old(client.results) + [NotImplemented]
      ensures old(AtRest()) && old(message.messageId) in {1, 3, 5, 7, 9, 10} ==>
                client.results == old(client.results) + [InvalidParameter]
      ensures old(AtRest()) && old(message.messageId) in {0, 4, 6, 8} ==>
                client.results == old(client.results) + [UnexpectedPeerMessage]
      ensures old(AtRest()) && !AnsweredByOthers(old(message)) && refusal.Some? ==>
                tracingInitialized == old(tracingInitialized) && dirty == old(dirty)
      ensures old(AtRest()) && old(Requested()) ==>
                var served := ServeAll(old(Peer()), old(tracingInitialized), refusal, old(dirty));
                if received then ServeAll(Peer(), tracingInitialized, refusal, dirty) == served else ServedAs(served)
      decreases expectedMessageId == INVALID_MESSAGE_ID, 2
    {
      hide AnswerAll, EndsCall, CallStatus, Answered, Sent, Asks, Fits;
      goOn' := goOn;
      ghost var requested := Requested();
      ghost var denial := Denial(message, tracingInitialized);
      CallsOnlyEnd(Peer(), dirty);
      if message.messageId >= HANDLER_COUNT {
        message := message.(messageId := COMMUNICATION_ERROR, payloadSize := STATUS_SIZE, status := NotImplemented);
        ErrorEnds(message);
      } else if
        || (message.messageId != SHUTDOWN_TRACING_REQUEST && !AnsweredByOthers(message))
        || (expectedMessageId != INVALID_MESSAGE_ID && message.messageId != expectedMessageId)
      {
        message := message.(messageId := COMMUNICATION_ERROR, payloadSize := STATUS_SIZE, status := InvalidParameter);
        ErrorEnds(message);
      } else if message.messageId != SHUTDOWN_TRACING_REQUEST {
        goOn' := OtherHandler();
        OtherEnds(message);
      } else {
        ghost var m, batch := message, tempPointer;
        goOn' := ShutdownTracingHandler();
        if blocked {
          return goOn', false;
        }
        if batch.Some? {
          SentResponse(Peer(), m, batch.value);
        }
      }
      ghost var status := CallStatus(message);
      if tempPointer.None? && expectedMessageId == INVALID_MESSAGE_ID {
        SentLast(Peer(), message, status);
        RefusedStep(Peer(), status);
      }
      received := SendReceive(goOn' || waitForFollowup);
    }

    /**
     Dispatches one request and answers it, or several: until a handler asks it to stop, or
     nobody sends another request.
     */
    method RunServerStateMachine(waitForFollowup: bool)
      requires !blocked && WellFormed()
      requires if waitForFollowup then Pending() && Requested() else AtRest()
      modifies this, client
      ensures WellFormed() && (!AnsweredByOthers(old(message)) ==> refusal == old(refusal))
      ensures old(Pending()) ==>
                && dirty == old(dirty) && expectedMessageId == SHUTDOWN_TRACING_REQUEST
                && tracingInitialized && tempPointer == None
                && Peer() == Answered(old(Peer()), old(tempPointer.value))
                && (blocked <==> Abandoned(old(Peer()), old(tempPointer.value))) && (!blocked ==> Requested())
      ensures old(AtRest()) ==> (blocked <==> !Stops(old(message), old(tracingInitialized)))
      ensures old(AtRest()) && !AnsweredByOthers(old(message)) && refusal.Some? ==>
                tracingInitialized == old(tracingInitialized) && dirty == old(dirty)
      ensures old(AtRest()) && old(Requested()) ==>
                ServedAs(ServeAll(old(Peer()), old(tracingInitialized), refusal, old(dirty)))
      decreases expectedMessageId == INVALID_MESSAGE_ID, 3
    {
      hide ServeAll, Answered, Abandoned;
      ghost var requested := Requested();
      var goOn, received := ServeRequest(true, waitForFollowup);
      ghost var library := refusal;
      while goOn && received
        invariant WellFormed() && refusal == library && (received ==> !blocked && Requested())
        invariant old(Pending()) ==>
                    && !goOn && dirty == old(dirty) && expectedMessageId == SHUTDOWN_TRACING_REQUEST && tracingInitialized
                    && tempPointer == None && Peer() == Answered(old(Peer()), old(tempPointer.value))
                    && (blocked <==> Abandoned(old(Peer()), old(tempPointer.value))) && (received <==> !blocked)
        invariant old(AtRest()) && received ==> goOn && AtRest() && !Stops(old(message), old(tracingInitialized))
        invariant old(AtRest()) && !received ==> (blocked <==> !Stops(old(message), old(tracingInitialized)))
        invariant old(AtRest()) && !AnsweredByOthers(old(message)) && refusal.Some? ==>
                    tracingInitialized == old(tracingInitialized) && dirty == old(dirty)
        invariant old(AtRest()) && requested ==>
                    var served := ServeAll(old(Peer()), old(tracingInitialized), refusal, old(dirty));
                    if received then ServeAll(Peer(), tracingInitialized, refusal, dirty) == served else ServedAs(served)
        decreases received, client.callsLeft
      {
        goOn, received := ServeRequest(goOn, waitForFollowup);
      }
    }
  }

  // ---------------------------------------------------------------- nothing is lost

  function Empties(batches: seq<Batch>): nat {
    if batches == [] then 0 else (if batches[0].events == [] then 1 else 0) + Empties(batches[1..])
  }

  function NonEmpty(batches: seq<Batch>): seq<Batch> {
    if batches == [] then []
    else (if batches[0].events == [] then [] else [batches[0]]) + NonEmpty(batches[1..])
  }

  function Repeated(status: Status, n: nat): seq<Status> {
    if n == 0 then [] else [status] + Repeated(status, n - 1)
  }

  /**
   The teardown gets to its end iff the client calls once more for every buffer without events:
   such a buffer looks to the client like the last response.
   */
  lemma {:induction false} DrainedIff(c: Progress, batches: seq<Batch>)
    ensures AnswerAll(c, batches).Drained? <==> Empties(batches) <= c.callsLeft
    decreases |batches|
  {
    if batches != [] && !Abandoned(c, batches[0]) {
      DrainedIff(Answered(c, batches[0]), batches[1..]);
    }
  }

  /** Then every buffer with events has become one response, in order. */
  lemma {:induction false} DrainedAs(c: Progress, batches: seq<Batch>)
    requires Empties(batches) <= c.callsLeft
    ensures AnswerAll(c, batches).client ==
            Progress(c.received + NonEmpty(batches),
                     c.results + Repeated(Success, Empties(batches)),
                     c.callsLeft - Empties(batches))
    decreases |batches|
  {
    if batches == [] {
      Nothing(c.received);
      Nothing(c.results);
    } else {
      DrainedAs(Answered(c, batches[0]), batches[1..]);
      hide AnswerAll;
      Regroup(c.received, [batches[0]], NonEmpty(batches[1..]));
      Regroup(c.results, [Success], Repeated(Success, Empties(batches[1..])));
      Nothing(NonEmpty(batches[1..]));
      DrainStep(c, batches);
    }
  }

  lemma {:induction false} DrainStep(c: Progress, batches: seq<Batch>)
    requires batches != [] && !Abandoned(c, batches[0])
    ensures AnswerAll(c, batches) == AnswerAll(Answered(c, batches[0]), batches[1..])
  {
  }

  lemma {:induction false} Nothing<T>(a: seq<T>)
    ensures a + [] == a && [] + a == a
  {
  }

  lemma {:induction false} RefusedResults(c: Progress, status: Status)
    ensures Refused(c, status) == Progress(c.received, c.results + Repeated(status, c.callsLeft + 1), 0)
    decreases c.callsLeft
  {
    if c.callsLeft == 0 {
      assert Repeated(status, 1) == [status];
    } else {
      RefusedResults(Ended(c, status), status);
      assert c.results + [status] + Repeated(status, c.callsLeft) == c.results + Repeated(status, c.callsLeft + 1);
    }
  }

  lemma {:induction false} NoneEmpty(batches: seq<Batch>)
    requires forall b :: b in batches ==> b.events != []
    ensures Empties(batches) == 0 && NonEmpty(batches) == batches
    decreases |batches|
  {
    if batches != [] {
      assert batches[0] in batches;
      NoneEmpty(batches[1..]);
    }
  }

  /** What serving amounts to when every buffer holds events. */
  lemma {:induction false} ServedInFull(c: Progress, batches: seq<Batch>)
    requires forall b :: b in batches ==> b.events != []
    ensures ServeAll(c, true, None, batches) ==
            Drained(Progress(c.received + batches, c.results + [Success] + Repeated(TracingNotInitialized, c.callsLeft), 0))
  {
    NoneEmpty(batches);
    DrainedIff(c, batches);
    DrainedAs(c, batches);
    hide AnswerAll, Empties, NonEmpty;
    var d := Progress(c.received + batches, c.results, c.callsLeft);
    assert AnswerAll(c, batches) == Drained(d) by {
      assert c.results + Repeated(Success, 0) == c.results;
    }
    if d.callsLeft > 0 {
      RefusedResults(Ended(d, Success), TracingNotInitialized);
    }
  }

  /**
   Shutdown delivers everything: each buffer that is left becomes one response with events, in
   order, the client's call ends with success right after the last one, and the server is at
   rest with tracing off; later calls are told so.
   */
  method ShutDown(server: Server)
    requires server.AtRest() && !server.blocked && server.WellFormed() && server.Requested()
    requires server.tracingInitialized && server.refusal == None
    requires forall b :: b in server.dirty ==> b.events != []
    modifies server, server.client
    ensures server.client.received == old(server.client.received) + old(server.dirty)
    ensures server.client.results ==
            old(server.client.results) + [Success] + Repeated(TracingNotInitialized, old(server.client.callsLeft))
    ensures server.AtRest() && !server.tracingInitialized
  {
    hide ServeAll;
    ServedInFull(server.Peer(), server.dirty);
    server.RunServerStateMachine(false);
  }

  /**
   While the library refuses to be torn down, every call ends with its reason; nothing is handed
   over, and tracing stays on.
   */
  method ShutDownRefused(server: Server)
    requires server.AtRest() && !server.blocked && server.WellFormed() && server.Requested()
    requires server.tracingInitialized && server.refusal.Some?
    modifies server, server.client
    ensures server.client.received == old(server.client.received)
    ensures server.client.results ==
            old(server.client.results) + Repeated(old(server.refusal.value), old(server.client.callsLeft) + 1)
    ensures server.AtRest() && server.tracingInitialized && server.dirty == old(server.dirty)
  {
    RefusedResults(server.Peer(), server.refusal.value);
    hide Refused, AnswerAll, Repeated;
    server.RunServerStateMachine(false);
  }

  /**
   In general the server comes to rest iff there are no more buffers without events than calls
   the client has left; otherwise it waits, in the middle of the teardown, for a request that
   does not come.
   */
  method ShutDownInGeneral(server: Server)
    requires server.AtRest() && !server.blocked && server.WellFormed() && server.Requested()
    requires server.tracingInitialized && server.refusal == None
    modifies server, server.client
    ensures server.AtRest() <==> Empties(old(server.dirty)) <= old(server.client.callsLeft)
    ensures server.AtRest() ==> server.client.received == old(server.client.received) + NonEmpty(old(server.dirty))
  {
    hide AnswerAll, Refused;
    ghost var c, batches := server.Peer(), server.dirty;
    DrainedIff(c, batches);
    if Empties(batches) <= c.callsLeft {
      DrainedAs(c, batches);
    }
    ghost var drain := AnswerAll(c, batches);
    if drain.Drained? && drain.client.callsLeft > 0 {
      RefusedResults(Ended(drain.client, Success), TracingNotInitialized);
    }
    server.RunServerStateMachine(false);
  }
}
