/** The multi-reactor server: an `Acceptor` hands each accepted client to
    one of several `WorkerReactor`s in turn, through a hand-off queue the
    worker drains before serving its selected keys. A worker runs the same
    read and write steps as the single reactor, so each handler is proved
    against the shared event specification in `Reactor`; the differences
    (an escaping exception instead of a close, invalid keys skipped instead
    of closed) are stated in the contracts. */
module MultiReactor {
  import opened JavaBytes
  import opened Wrappers
  import opened Nio
  import opened ServerContext
  import opened Reactor
  import opened JavaInts
  import opened RoundRobin

  type Key = SelectionKey<ServerClientContext>

  class WorkerReactor {
    const handlers: map<int, Handler>
    const errorHandler: Handler
    const headerSize: nat
    /** The hand-off queue filled by the acceptor, oldest first. */
    var newClients: seq<SocketChannel>
    /** The client keys registered with this worker's selector, in order. */
    var clients: seq<Key>

    /** `new WorkerReactor(config)`: an empty hand-off queue. */
    constructor (handlers: map<int, Handler>, errorHandler: Handler, headerSize: nat)
      requires headerSize == HEADER_SIZE
      ensures this.handlers == handlers && this.errorHandler == errorHandler
      ensures this.headerSize == headerSize && newClients == [] && clients == []
    {
      this.handlers := handlers;
      this.errorHandler := errorHandler;
      this.headerSize := headerSize;
      newClients, clients := [], [];
    }

    /** `registerNewClient`: the client joins the back of the queue. */
    method RegisterNewClient(client: SocketChannel)
      modifies this`newClients
      ensures newClients == old(newClients) + [client]
    {
      newClients := newClients + [client];
    }

    /** `registerPendingClients`: poll the queue until it is empty, giving
        each client, in queue order, a new context and a key registered for
        reads. */
    method RegisterPendingClients()
      requires headerSize == HEADER_SIZE
      modifies this`newClients, this`clients
      ensures newClients == []
      ensures |clients| == |old(clients)| + |old(newClients)|
      ensures clients[..|old(clients)|] == old(clients)
      ensures forall i :: |old(clients)| <= i < |clients| ==>
        && fresh(clients[i]) && fresh(clients[i].attachment)
        && clients[i].channel == old(newClients)[i - |old(clients)|]
        && clients[i].valid && clients[i].interest == OP_READ
        && clients[i].attachment.View() == NewConn() && Attached(clients[i])
    {
      ghost var start := |clients|;
      ghost var queue := newClients;
      while newClients != []
        invariant |clients| == start + |queue| - |newClients|
        invariant newClients == queue[|queue| - |newClients|..]
        invariant clients[..start] == old(clients)
        invariant forall i :: start <= i < |clients| ==>
          && fresh(clients[i]) && fresh(clients[i].attachment)
          && clients[i].channel == queue[i - start]
          && clients[i].valid && clients[i].interest == OP_READ
          && clients[i].attachment.View() == NewConn() && Attached(clients[i])
        decreases |newClients|
      {
        var client := newClients[0];
        newClients := newClients[1..];
        var ctx := new ServerClientContext(headerSize);
        var key := new SelectionKey.Register(client, OP_READ, ctx);
        clients := clients + [key];
      }
    }

    /** `closeChannel`: cancel the key and close its channel. */
    method CloseChannel(key: Key)
      modifies key`valid, key.channel`open, key.channel`connected
      ensures !key.valid && !key.channel.open && !key.channel.connected
    {
      key.Cancel();
      key.channel.Close();
    }

    /** `processMessage`: `handlers.getOrDefault(type, errorHandler)`
        answers the body; its buffer becomes the response and the key asks
        for writes. */
    method ProcessMessage(key: Key, tlvType: int, bodyBuffer: ByteBuffer)
      requires key.attachment.Valid() && key.attachment.bodyBuffer == bodyBuffer
      modifies key`interest, key.attachment
      ensures key.attachment.Valid()
      ensures key.attachment.View() == Dispatch(old(key.attachment.View()), WorkerRoute(handlers, errorHandler, tlvType))
      ensures key.interest == OP_WRITE
    {
      var handler: Handler := if tlvType in handlers then handlers[tlvType] else errorHandler;
      var ctx := key.attachment;
      var response := new ByteBuffer.Wrap(handler(bodyBuffer.data[..]));
      ctx.SetResponse(response);
      key.InterestOps(OP_WRITE);
    }

    /** One selected key of the worker's loop. An invalid key is skipped.
        A key ready for reading runs `handleRead`; the
        `IllegalArgumentException` of a negative length is not an
        `IOException`, so it leaves the loop, as does the
        `CancelledKeyException` of `isWritable()` on a key `handleRead`
        cancelled. A key ready for writing runs `handleWrite`; the
        `IOException` of a write on a reset connection is caught here, and
        the channel closed. */
    method OnSelected(key: Key) returns (result: Selected)
      requires key.valid ==> Attached(key)
      modifies key`valid, key`interest, key.channel`inbox, key.channel`sent, key.channel`window
      modifies key.channel`open, key.channel`connected, Footprint(key.attachment)
      ensures !old(key.valid) ==> result == Handled && !key.valid && key.channel.open == old(key.channel.open)
      ensures old(key.valid) && old(key.interest) == OP_READ ==>
        var s := ReadEvent(old(key.attachment.View()), old(key.channel.inbox), key.channel.eof, handlers, errorHandler);
        && key.attachment.View() == s.conn && key.channel.inbox == s.rest
        && (result == Escaped <==> s.outcome == PeerClosed || s.outcome == BadLength)
        && (s.outcome == BadLength ==> key.valid && key.channel.open == old(key.channel.open))
      ensures old(key.valid) && old(key.interest) == OP_WRITE ==>
        var s := WriteEvent(old(key.attachment.View()), old(key.channel.window), key.channel.broken);
        && result == Handled && key.attachment.View() == s.conn
        && key.channel.sent == old(key.channel.sent) + s.written
        && (s.outcome == WriteFailed ==> !key.valid && !key.channel.open)
      ensures result == Handled && key.valid ==> Attached(key)
    {
      if !key.valid {
        return Handled;
      }
      if key.interest == OP_READ {
        ReadEventKeepsInv(key.attachment.View(), key.channel.inbox, key.channel.eof, handlers, errorHandler);
        ReadEventPhase(key.attachment.View(), key.channel.inbox, key.channel.eof, handlers, errorHandler);
        var outcome := HandleRead(key);
        if outcome == BadLength || !key.valid {
          return Escaped;
        }
        return Handled;
      }
      WriteEventKeepsInv(key.attachment.View(), key.channel.window, key.channel.broken);
      WriteEventPhase(key.attachment.View(), key.channel.window, key.channel.broken);
      var outcome := HandleWrite(key);
      if outcome == WriteFailed {
        CloseChannel(key);
      }
      return Handled;
    }

    /** `handleRead`: the header branch, then the body branch; end of stream
        closes the channel, and the `IllegalArgumentException` of a negative
        length leaves the method with the channel open. */
    method HandleRead(key: Key) returns (outcome: ReadOutcome)
      requires key.attachment.Valid() && Inv(key.attachment.View()) && key.attachment.status != WRITING_RESPONSE
      modifies key`valid, key`interest, key.channel`inbox, key.channel`open, key.channel`connected
      modifies Footprint(key.attachment)
      ensures var s := ReadEvent(old(key.attachment.View()), old(key.channel.inbox), key.channel.eof, handlers, errorHandler);
        outcome == s.outcome && key.attachment.View() == s.conn && key.channel.inbox == s.rest
      ensures key.attachment.Valid() && key.channel.eof == old(key.channel.eof)
      ensures outcome == PeerClosed ==> !key.valid && !key.channel.open && key.interest == old(key.interest)
      ensures outcome == Waiting || outcome == BadLength ==>
        key.valid == old(key.valid) && key.channel.open == old(key.channel.open) && key.interest == old(key.interest)
      ensures outcome == Dispatched ==>
        key.valid == old(key.valid) && key.channel.open == old(key.channel.open) && key.interest == OP_WRITE
    {
      if key.attachment.status == READING_HEADER {
        outcome := ReadFromHeader(key);
      } else {
        outcome := ReadBodyBranch(key);
      }
    }

    /** `handleRead` on a connection in the header phase. */
    method ReadFromHeader(key: Key) returns (outcome: ReadOutcome)
      requires key.attachment.Valid() && Inv(key.attachment.View()) && key.attachment.status == READING_HEADER
      modifies key`valid, key`interest, key.channel`inbox, key.channel`open, key.channel`connected
      modifies Footprint(key.attachment)
      ensures var s := ReadEvent(old(key.attachment.View()), old(key.channel.inbox), key.channel.eof, handlers, errorHandler);
        outcome == s.outcome && key.attachment.View() == s.conn && key.channel.inbox == s.rest
      ensures key.attachment.Valid() && key.channel.eof == old(key.channel.eof)
      ensures outcome == PeerClosed ==> !key.valid && !key.channel.open && key.interest == old(key.interest)
      ensures outcome == Waiting || outcome == BadLength ==>
        key.valid == old(key.valid) && key.channel.open == old(key.channel.open) && key.interest == old(key.interest)
      ensures outcome == Dispatched ==>
        key.valid == old(key.valid) && key.channel.open == old(key.channel.open) && key.interest == OP_WRITE
    {
      var done;
      done, outcome := ReadHeaderBranch(key);
      if !done {
        outcome := ReadBodyBranch(key);
      }
    }

    /** The header branch of `handleRead`: `readHeader`, then -1 closes and
        0 returns; a negative length throws out of `readHeader` and the
        method, which `done` with `BadLength` stands for. */
    method ReadHeaderBranch(key: Key) returns (done: bool, outcome: ReadOutcome)
      requires key.attachment.Valid() && Inv(key.attachment.View()) && key.attachment.status == READING_HEADER
      modifies key`valid, key.channel`inbox, key.channel`open, key.channel`connected
      modifies key.attachment, key.attachment.headerBuffer, key.attachment.headerBuffer.data
      ensures key.attachment.Valid() && key.attachment.responseBuffer == null && key.channel.eof == old(key.channel.eof)
      ensures key.attachment.bodyBuffer != null ==> fresh(key.attachment.bodyBuffer) && fresh(key.attachment.bodyBuffer.data)
      ensures !done && key.attachment.status == READING_BODY ==> key.attachment.bodyBuffer != null
      ensures var s := ReadEvent(old(key.attachment.View()), old(key.channel.inbox), key.channel.eof, handlers, errorHandler);
        && (done ==> outcome == s.outcome && key.attachment.View() == s.conn && key.channel.inbox == s.rest)
        && (!done ==> outcome == Waiting && s == BodyBranch(key.attachment.View(), key.channel.inbox, key.channel.eof, handlers, errorHandler))
        && outcome != Dispatched
      ensures outcome == PeerClosed ==> !key.valid && !key.channel.open
      ensures outcome != PeerClosed ==> key.valid == old(key.valid) && key.channel.open == old(key.channel.open)
    {
      HeaderReadKeepsInv(key.attachment.View(), key.channel.inbox, key.channel.eof);
      var read, threw := key.attachment.ReadHeader(key.channel, key);
      if read < 0 {
        CloseChannel(key);
        return true, PeerClosed;
      }
      if read == 0 {
        return true, Waiting;
      }
      if threw {
        return true, BadLength;
      }
      return false, Waiting;
    }

    /** The body branch of `handleRead`, taken when the status is
        `READING_BODY`: -1 closes, 0 returns, and a read that fills the body
        buffer processes the message. */
    method ReadBodyBranch(key: Key) returns (outcome: ReadOutcome)
      requires key.attachment.Valid()
      requires key.attachment.status == READING_BODY ==> key.attachment.bodyBuffer != null
      modifies key`valid, key`interest, key.channel`inbox, key.channel`open, key.channel`connected
      modifies Footprint(key.attachment)
      ensures var s := BodyBranch(old(key.attachment.View()), old(key.channel.inbox), key.channel.eof, handlers, errorHandler);
        outcome == s.outcome && key.attachment.View() == s.conn && key.channel.inbox == s.rest
      ensures key.attachment.Valid() && key.channel.eof == old(key.channel.eof)
      ensures outcome != BadLength
      ensures outcome == PeerClosed ==> !key.valid && !key.channel.open && key.interest == old(key.interest)
      ensures outcome == Waiting ==>
        key.valid == old(key.valid) && key.channel.open == old(key.channel.open) && key.interest == old(key.interest)
      ensures outcome == Dispatched ==>
        key.valid == old(key.valid) && key.channel.open == old(key.channel.open) && key.interest == OP_WRITE
    {
      var channel := key.channel;
      var ctx := key.attachment;
      if ctx.status != READING_BODY {
        return Waiting;
      }
      var read := channel.Read(ctx.bodyBuffer);
      if read < 0 {
        CloseChannel(key);
        return PeerClosed;
      }
      if read == 0 {
        return Waiting;
      }
      if ctx.bodyBuffer.limit - ctx.bodyBuffer.position == 0 {
        ProcessMessage(key, ctx.tlvType, ctx.bodyBuffer);
        return Dispatched;
      }
      return Waiting;
    }

    /** `handleWrite`: a drained response resets a keep-alive connection
        for reads and closes any other; a partial write leaves the key as it
        is. On a reset connection `channel.write` throws `IOException`,
        which leaves the method with nothing changed (`WriteFailed`); its
        `written < 0` test never holds. */
    method HandleWrite(key: Key) returns (outcome: WriteOutcome)
      requires Attached(key) && key.interest == OP_WRITE
      modifies key`valid, key`interest, key.channel`sent, key.channel`window, key.channel`open, key.channel`connected
      modifies Footprint(key.attachment)
      ensures var s := WriteEvent(old(key.attachment.View()), old(key.channel.window), key.channel.broken);
        && outcome == s.outcome && key.attachment.View() == s.conn
        && key.channel.sent == old(key.channel.sent) + s.written
      ensures key.attachment.Valid() && key.channel.broken == old(key.channel.broken)
      ensures outcome == WriteFailed ==> key.valid == old(key.valid) && key.interest == old(key.interest)
      ensures outcome == Drained && old(key.attachment.keepAlive) ==>
        key.valid == old(key.valid) && key.interest == OP_READ
      ensures outcome == Drained && !old(key.attachment.keepAlive) ==> !key.valid && !key.channel.open
      ensures outcome == Partial ==> key.valid == old(key.valid) && key.interest == OP_WRITE
    {
      var channel := key.channel;
      var ctx := key.attachment;
      var written := channel.Write(ctx.responseBuffer);
      if written.None? {
        return WriteFailed;
      }
      if ctx.responseBuffer.limit - ctx.responseBuffer.position == 0 {
        if ctx.keepAlive {
          ctx.ResetCtx();
          key.InterestOps(OP_READ);
        } else {
          CloseChannel(key);
        }
        return Drained;
      }
      return Partial;
    }
  }

  /** How `accept` ends: the server socket had no client, the client was
      queued for the worker in slot `slot`, or `nextWorker` threw (no
      workers, or a negative remainder), which `accept` does not catch. */
  datatype Handoff = NoClient | HandedTo(slot: nat) | Threw

  /** The workers are distinct objects, as the array the server builds holds
      one new worker per slot. */
  predicate Distinct(workers: seq<WorkerReactor>) {
    forall i, j :: 0 <= i < j < |workers| ==> workers[i] != workers[j]
  }

  class Acceptor {
    const workers: seq<WorkerReactor>
    /** The `AtomicInteger` counter, a Java `int`. */
    var index: int
    /** The slot each call of `nextWorker` chose so far, `None` where it threw. */
    ghost var picks: seq<Option<nat>>

    /** The counter has been incremented once per call, and the calls chose
        the round-robin slots. */
    ghost predicate Valid()
      reads this
    {
      index == WrapInt(|picks|) && picks == Picks(|workers|, |picks|)
    }

    /** `new Acceptor(serverSocket, workers, onStart)`: the counter starts at 0. */
    constructor (workers: seq<WorkerReactor>)
      ensures this.workers == workers && index == 0 && picks == [] && Valid()
    {
      this.workers := workers;
      index := 0;
      picks := [];
    }

    /** `nextWorker`: `getAndIncrement` reads the counter and advances it,
        wrapping past `Integer.MAX_VALUE`; the slot is the value read, Java
        `%` the number of workers. */
    method NextWorker() returns (slot: Option<nat>)
      requires Valid()
      modifies this`index, this`picks
      ensures Valid()
      ensures slot == Pick(|workers|, old(index))
      ensures slot.Some? ==> slot.value < |workers|
      ensures index == WrapInt(old(index) + 1) && picks == old(picks) + [slot]
    {
      var current := index;
      WrapIncrement(|picks|);
      index := WrapInt(index + 1);
      if |workers| == 0 {
        slot := None;
      } else {
        var r := JavaRem(current, |workers|);
        slot := if r < 0 then None else Some(r);
      }
      picks := picks + [slot];
    }

    /** `accept`: a `null` from the server socket does nothing; any other
        client goes to the back of the next worker's hand-off queue, and to
        no other worker's. */
    method Accept(client: SocketChannel?) returns (handoff: Handoff)
      requires Valid() && Distinct(workers)
      modifies this`index, this`picks, workers`newClients
      ensures Valid()
      ensures client == null ==> handoff == NoClient && index == old(index) && picks == old(picks)
      ensures client != null ==>
        var slot := Pick(|workers|, old(index));
        && picks == old(picks) + [slot]
        && (slot.None? ==> handoff == Threw)
        && (slot.Some? ==> handoff == HandedTo(slot.value))
      ensures forall i :: 0 <= i < |workers| && handoff != HandedTo(i) ==>
        workers[i].newClients == old(workers[i].newClients)
      ensures handoff.HandedTo? ==>
        && client != null
        && workers[handoff.slot].newClients == old(workers[handoff.slot].newClients) + [client]
    {
      if client == null {
        return NoClient;
      }
      var slot := NextWorker();
      if slot.None? {
        return Threw;
      }
      var worker := workers[slot.value];
      worker.RegisterNewClient(client);
      handoff := HandedTo(slot.value);
    }
  }
}
