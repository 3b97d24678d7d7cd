/**
 The half-duplex transfer of messages between two processes over one shared message and
 two events.

 Either side runs at any time; a side that has sent waits until the other side's event is
 signalled.  The module proves that, whatever the interleaving, exactly one side holds the
 message or is being handed it, and that a response always answers the latest request.
 */
module Qlpc {

  import opened Common

  const MESSAGE_HEADER: nat := 12

  datatype Side = Client | Server

  datatype Message = Message(totalSize: nat, payloadSize: nat, messageId: nat, body: seq<byte>)

  /** What the caller passes as the message to send. */
  datatype SendPointer = Null | IntoSharedMessage | SharedMessage | OwnMessage(message: Message)

  datatype Status = Success | InvalidParameter | InvalidOperation

  /**
   The shared memory, the two events, and where the two sides are.  An event is named after
   the side that signals it.  `sent` counts the requests of the client, `serving` is the one
   the server received last, and `about` is the one the shared message belongs to.
   */
  datatype Link = Link(
    size: nat, shared: Message, clientSignalled: bool, serverSignalled: bool,
    clientWaits: bool, serverWaits: bool, initialReceiveDone: bool,
    sent: nat, serving: nat, about: nat)

  /** The client runs; the server is, or is about to be, in its initial receive. */
  predicate Initial(l: Link) {
    && !l.clientSignalled && !l.serverSignalled && !l.clientWaits && l.serverWaits && !l.initialReceiveDone
    && l.shared.totalSize == l.size && l.sent == 0 && l.serving == 0 && l.about == 0
  }

  // ---------------------------------------------------------------- steps

  datatype Step =
    | Send(side: Side, what: SendPointer) // check, copy, signal, and begin to wait
    | Wake(side: Side)                    // the wait is satisfied, which resets the event
    | Write(side: Side, message: Message) // a side works on the shared message in place

  predicate Waits(l: Link, side: Side) {
    if side == Client then l.clientWaits else l.serverWaits
  }

  predicate Signalled(l: Link, side: Side) {
    if side == Client then l.clientSignalled else l.serverSignalled
  }

  function Peer(side: Side): Side {
    if side == Client then Server else Client
  }

  /** The checks made before a message is sent. */
  function SendStatus(l: Link, side: Side, what: SendPointer): Status {
    if what.Null? then InvalidParameter
    else if side == Server && !l.initialReceiveDone then InvalidOperation
    else if what.IntoSharedMessage? then InvalidParameter
    else
      var m := if what.OwnMessage? then what.message else l.shared;
      if m.totalSize > l.shared.totalSize || MESSAGE_HEADER + m.payloadSize > m.totalSize then InvalidParameter
      else if what.SharedMessage? && l.shared.totalSize != l.size then InvalidParameter
      else Success
  }

  predicate Enabled(l: Link, step: Step) {
    match step
    case Send(side, _) => !Waits(l, side)
    case Wake(side) => Waits(l, side) && Signalled(l, Peer(side))
    case Write(side, _) => !Waits(l, side)
  }

  function Next(l: Link, step: Step): Link {
    match step
    case Send(side, what) =>
      if SendStatus(l, side, what) != Success then l
      else
        var shared := if what.OwnMessage? then what.message.(totalSize := l.size) else l.shared;
        if side == Client
        then l.(shared := shared, clientSignalled := true, clientWaits := true, sent := l.sent + 1, about := l.sent + 1)
        else l.(shared := shared, serverSignalled := true, serverWaits := true, about := l.serving)
    case Wake(side) =>
      if side == Client then l.(serverSignalled := false, clientWaits := false)
      else l.(clientSignalled := false, serverWaits := false, initialReceiveDone := true, serving := l.about)
    case Write(_, message) => l.(shared := message)
  }

  ghost predicate Runs(l: Link, steps: seq<Step>, l': Link)
    decreases |steps|
  {
    if steps == [] then l' == l
    else Enabled(l, steps[0]) && Runs(Next(l, steps[0]), steps[1..], l')
  }

  // ---------------------------------------------------------------- the token

  /** Who has the message: a side that works on it, or nobody, while it is handed to a side. */
  datatype Holder = Held(owner: Side) | HandedTo(side: Side)

  /** The events and the waiting sides that go with that holder. */
  predicate HasToken(l: Link, h: Holder) {
    match h
    case Held(owner) => !Waits(l, owner) && Waits(l, Peer(owner)) && !l.clientSignalled && !l.serverSignalled
    case HandedTo(side) => l.clientWaits && l.serverWaits && Signalled(l, Peer(side)) && !Signalled(l, side)
  }

  /** The message belongs to the latest request, and has its full size whenever it is handed over. */
  predicate InStep(l: Link, h: Holder) {
    && (h.HandedTo? ==> l.shared.totalSize == l.size)
    && if h == Held(Server) then l.initialReceiveDone && l.serving == l.sent else l.about == l.sent
  }

  ghost predicate Consistent(l: Link) {
    exists h :: HasToken(l, h) && InStep(l, h)
  }

  lemma {:induction false} StepKeeps(l: Link, step: Step)
    requires Consistent(l) && Enabled(l, step)
    ensures Consistent(Next(l, step))
  {
    var h :| HasToken(l, h) && InStep(l, h);
    var h' := match step
      case Send(side, what) => if SendStatus(l, side, what) == Success then HandedTo(Peer(side)) else h
      case Wake(side) => Held(side)
      case Write(_, _) => h;
    assert HasToken(Next(l, step), h') && InStep(Next(l, step), h');
  }

  lemma {:induction false} RunKeeps(l: Link, steps: seq<Step>, l': Link)
    requires Consistent(l) && Runs(l, steps, l')
    ensures Consistent(l')
    decreases |steps|
  {
    if steps != [] {
      StepKeeps(l, steps[0]);
      RunKeeps(Next(l, steps[0]), steps[1..], l');
    }
  }

  lemma {:induction false} InitialConsistent(l: Link)
    requires Initial(l)
    ensures Consistent(l)
  {
    assert HasToken(l, Held(Client)) && InStep(l, Held(Client));
  }

  /** In every reachable state exactly one side holds the message or is being handed it. */
  lemma {:induction false} OneToken(l: Link, steps: seq<Step>, l': Link)
    requires Initial(l) && Runs(l, steps, l')
    ensures exists h :: HasToken(l', h) && forall h' :: HasToken(l', h') ==> h' == h
    ensures !(l'.clientSignalled && l'.serverSignalled)
    ensures !l'.clientWaits ==> l'.serverWaits
    ensures l'.clientWaits && l'.serverWaits ==> Enabled(l', Wake(Client)) != Enabled(l', Wake(Server))
  {
    InitialConsistent(l);
    RunKeeps(l, steps, l');
    var h :| HasToken(l', h);
    forall h' | HasToken(l', h') ensures h' == h {
    }
  }

  /**
   When the client's wait is over, the shared message is the answer to its latest request;
   when the server's is over, it is that request.  It has its full size in both cases.
   */
  lemma {:induction false} ReceivesLatest(l: Link, steps: seq<Step>, l': Link, side: Side)
    requires Initial(l) && Runs(l, steps, l') && Enabled(l', Wake(side))
    ensures l'.about == l'.sent && l'.shared.totalSize == l'.size
    ensures Next(l', Wake(side)).shared == l'.shared
    ensures side == Server ==> Next(l', Wake(side)).serving == l'.sent
  {
    InitialConsistent(l);
    RunKeeps(l, steps, l');
  }

  /**
   After a send nothing can happen but that the peer's wait ends, and what the peer then holds
   is the message that was sent, with the size of the region.
   */
  lemma {:induction false} SentIsReceived(l: Link, steps: seq<Step>, l': Link, side: Side, what: SendPointer)
    requires Initial(l) && Runs(l, steps, l') && Enabled(l', Send(side, what)) && SendStatus(l', side, what) == Success
    ensures var sent := Next(l', Send(side, what));
            && (forall step :: Enabled(sent, step) <==> step == Wake(Peer(side)))
            && var received := Next(sent, Wake(Peer(side)));
            && !Waits(received, Peer(side)) && Waits(received, side)
            && match what
               case OwnMessage(m) => received.shared == Message(l.size, m.payloadSize, m.messageId, m.body)
               case _ => received.shared == l'.shared && received.shared.totalSize == l.size
  {
    InitialConsistent(l);
    RunKeeps(l, steps, l');
    StepKeeps(l', Send(side, what));
    SizeStays(l, steps, l');
  }

  lemma {:induction false} SizeStays(l: Link, steps: seq<Step>, l': Link)
    requires Runs(l, steps, l')
    ensures l'.size == l.size
    decreases |steps|
  {
    if steps != [] {
      SizeStays(Next(l, steps[0]), steps[1..], l');
    }
  }

  /** A side that runs never finds its own event signalled when it sends. */
  lemma {:induction false} HostEventClear(l: Link, steps: seq<Step>, l': Link, side: Side, what: SendPointer)
    requires Initial(l) && Runs(l, steps, l') && Enabled(l', Send(side, what))
    ensures !Signalled(l', side)
  {
    InitialConsistent(l);
    RunKeeps(l, steps, l');
  }

  // ---------------------------------------------------------------- the ports

  /** The shared memory section and the pair of events, with what either port keeps for itself. */
  class Connection {
    const size: nat
    var shared: Message
    var clientSignalled: bool
    var serverSignalled: bool
    var clientWaits: bool
    var serverWaits: bool
    var initialReceiveDone: bool
    ghost var sent: nat
    ghost var serving: nat
    ghost var about: nat

    ghost function State(): Link
      reads this
    {
      Link(size, shared, clientSignalled, serverSignalled, clientWaits, serverWaits, initialReceiveDone, sent, serving, about)
    }

    constructor (size: nat, shared: Message)
      ensures Initial(State()) && this.size == size
    {
      this.size, this.shared := size, shared.(totalSize := size);
      clientSignalled, serverSignalled, clientWaits, serverWaits := false, false, false, true;
      initialReceiveDone, sent, serving, about := false, 0, 0, 0;
    }

    /** The first half of a call: it returns early, or it has signalled and now waits. */
    method SendReceive(side: Side, what: SendPointer, receiver: bool) returns (status: Status)
      requires Enabled(State(), Send(side, what))
      modifies this
      ensures status == if receiver then SendStatus(old(State()), side, what) else InvalidParameter
      ensures State() == if receiver then Next(old(State()), Send(side, what)) else old(State())
      ensures status != Success ==> State() == old(State())
      ensures status == Success <==>
                && receiver && (side == Server ==> old(initialReceiveDone))
                && match what
                   case OwnMessage(m) =>
                     m.totalSize <= old(shared.totalSize) && MESSAGE_HEADER + m.payloadSize <= m.totalSize
                   case SharedMessage =>
                     old(shared.totalSize) == size && MESSAGE_HEADER + old(shared.payloadSize) <= size
                   case _ => false
      ensures status == InvalidOperation <==> receiver && !what.Null? && side == Server && !old(initialReceiveDone)
      ensures status == Success ==>
                shared == if what.OwnMessage? then what.message.(totalSize := size) else old(shared)
    {
      if what.Null? || !receiver {
        return InvalidParameter;
      }
      if side == Server && !initialReceiveDone {
        return InvalidOperation;
      }
      if what.IntoSharedMessage? {
        return InvalidParameter;
      }
      var m := if what.OwnMessage? then what.message else shared;
      if m.totalSize > shared.totalSize || MESSAGE_HEADER + m.payloadSize > m.totalSize {
        return InvalidParameter;
      }
      if what.SharedMessage? {
        if shared.totalSize != size {
          return InvalidParameter;
        }
      } else {
        shared := m;
        shared := shared.(totalSize := size);
      }
      if side == Client {
        clientSignalled, clientWaits := true, true;
        sent := sent + 1;
        about := sent;
      } else {
        serverSignalled, serverWaits := true, true;
        about := serving;
      }
      return Success;
    }

    /** The second half: the wait is satisfied. */
    method EndWait(side: Side) returns (message: Message)
      requires Enabled(State(), Wake(side))
      modifies this
      ensures State() == Next(old(State()), Wake(side)) && message == shared == old(shared)
    {
      if side == Client {
        serverSignalled, clientWaits := false, false;
      } else {
        clientSignalled, serverWaits := false, false;
        initialReceiveDone := true;
        serving := about;
      }
      message := shared;
    }

    /** The server begins with a receive, and only the server does so, and only once. */
    method Receive(side: Side, receiver: bool) returns (status: Status, message: Option<Message>)
      requires side == Server && receiver && !initialReceiveDone ==> Enabled(State(), Wake(Server))
      modifies this
      ensures status == if !receiver || side == Client then InvalidParameter
                        else if old(initialReceiveDone) then InvalidOperation
                        else Success
      ensures status == Success ==> State() == Next(old(State()), Wake(Server)) && message == Some(old(shared))
      ensures status != Success ==> State() == old(State()) && message == None
    {
      if !receiver || side == Client {
        return InvalidParameter, None;
      }
      if initialReceiveDone {
        return InvalidOperation, None;
      }
      var received := EndWait(Server);
      return Success, Some(received);
    }
  }
}
