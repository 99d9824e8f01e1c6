/** The single-reactor `Server`: one selector thread accepts clients and,
    for each selected client key, runs `read` and then `write` on the
    connection's `ServerClientContext`. Each event handler is proved to do
    what the shared event specification in `Reactor` says, so the delivery
    and keep-alive theorems proved there hold of this class. */
module SingleReactor {
  import opened JavaBytes
  import opened Wrappers
  import opened Nio
  import opened ServerContext
  import opened Reactor

  type Key = SelectionKey<ServerClientContext>

  class Server {
    const handlers: map<int, Handler>
    const errorHandler: Handler
    const headerSize: nat
    /** The client keys `accept` has registered with the selector, in order. */
    var clients: seq<Key>

    /** `new Server(config)`, with the handlers, error handler and header
        size of the configuration. */
    constructor (handlers: map<int, Handler>, errorHandler: Handler, headerSize: nat)
      requires headerSize == HEADER_SIZE
      ensures this.handlers == handlers && this.errorHandler == errorHandler
      ensures this.headerSize == headerSize && clients == []
    {
      this.handlers := handlers;
      this.errorHandler := errorHandler;
      this.headerSize := headerSize;
      clients := [];
    }

    /** `accept`: a `null` from the server socket does nothing; otherwise
        the client is registered for reads with a new context. */
    method Accept(client: SocketChannel?) returns (key: SelectionKey?<ServerClientContext>)
      requires headerSize == HEADER_SIZE
      modifies this`clients
      ensures client == null ==> key == null && clients == old(clients)
      ensures client != null ==>
        && key != null && fresh(key) && fresh(key.attachment)
        && key.channel == client && key.valid && key.interest == OP_READ
        && key.attachment.View() == NewConn() && Attached(key)
        && clients == old(clients) + [key]
    {
      if client == null {
        return null;
      }
      var ctx := new ServerClientContext(headerSize);
      key := new SelectionKey.Register(client, OP_READ, ctx);
      clients := clients + [key];
    }

    /** `closeChannel`: cancel the key and close its channel. Every caller
        passes the selected key, so the method's guard against `null` is
        never taken. */
    method CloseChannel(key: Key)
      modifies key`valid, key.channel`open, key.channel`connected
      ensures !key.valid && !key.channel.open && !key.channel.connected
    {
      key.Cancel();
      key.channel.Close();
    }

    /** `processMessage`: the handler registered for the type, or the
        error handler when there is none, answers the body; its buffer
        becomes the response and the key asks for writes. */
    method ProcessMessage(key: Key, tlvType: int, bodyBuffer: ByteBuffer)
      requires key.attachment.Valid() && key.attachment.bodyBuffer == bodyBuffer
      modifies key`interest, key.attachment
      ensures key.attachment.Valid()
      ensures key.attachment.View() == Dispatch(old(key.attachment.View()), ServerRoute(handlers, errorHandler, tlvType))
      ensures key.interest == OP_WRITE
    {
      var found: Option<Handler> := if tlvType in handlers then Some(handlers[tlvType]) else None;
      var handler: Handler := if found.None? then errorHandler else found.value;
      var state := key.attachment;
      var response := new ByteBuffer.Wrap(handler(bodyBuffer.data[..]));
      state.SetResponse(response);
      key.InterestOps(OP_WRITE);
    }

    /** The selector callback for a client key. An invalid key is closed.
        An attached key asks for one operation at a time, so the ready set
        it was selected with is its interest set: a key ready for reading
        runs `read`, and a key ready for writing runs `write`. When `read`
        has cancelled the key, the `isWritable()` test that follows throws
        `CancelledKeyException`, which the callback does not catch. The
        `IOException` of a write on a reset connection is caught here, and
        the channel closed. */
    method OnSelected(key: Key) returns (result: Selected)
      requires key.valid ==> Attached(key)
      modifies key`valid, key`interest, key.channel`inbox, key.channel`sent, key.channel`window
      modifies key.channel`open, key.channel`connected, Footprint(key.attachment)
      ensures !old(key.valid) ==> result == Handled && !key.valid && !key.channel.open
      ensures old(key.valid) && old(key.interest) == OP_READ ==>
        var s := ReadEvent(old(key.attachment.View()), old(key.channel.inbox), key.channel.eof, handlers, errorHandler);
        && key.attachment.View() == s.conn && key.channel.inbox == s.rest
        && (result == Escaped <==> s.outcome == PeerClosed || s.outcome == BadLength)
      ensures old(key.valid) && old(key.interest) == OP_WRITE ==>
        var s := WriteEvent(old(key.attachment.View()), old(key.channel.window), key.channel.broken);
        && result == Handled && key.attachment.View() == s.conn
        && key.channel.sent == old(key.channel.sent) + s.written
        && (s.outcome == WriteFailed ==> !key.valid && !key.channel.open)
      ensures result == Handled && key.valid ==> Attached(key)
    {
      if !key.valid {
        CloseChannel(key);
        return Handled;
      }
      if key.interest == OP_READ {
        ReadEventKeepsInv(key.attachment.View(), key.channel.inbox, key.channel.eof, handlers, errorHandler);
        ReadEventPhase(key.attachment.View(), key.channel.inbox, key.channel.eof, handlers, errorHandler);
        var outcome := Read(key);
        if !key.valid {
          return Escaped;
        }
        return Handled;
      }
      WriteEventKeepsInv(key.attachment.View(), key.channel.window, key.channel.broken);
      WriteEventPhase(key.attachment.View(), key.channel.window, key.channel.broken);
      var outcome := Write(key);
      if outcome == WriteFailed {
        CloseChannel(key);
      }
      return Handled;
    }

    /** `read`: the header branch, then the body branch; end of stream and
        the `IllegalArgumentException` of a negative length close the
        channel. */
    method Read(key: Key) returns (outcome: ReadOutcome)
      requires key.attachment.Valid() && Inv(key.attachment.View()) && key.attachment.status != WRITING_RESPONSE
      modifies key`valid, key`interest, key.channel`inbox, key.channel`open, key.channel`connected
      modifies Footprint(key.attachment)
      ensures var s := ReadEvent(old(key.attachment.View()), old(key.channel.inbox), key.channel.eof, handlers, errorHandler);
        outcome == s.outcome && key.attachment.View() == s.conn && key.channel.inbox == s.rest
      ensures key.attachment.Valid() && key.channel.eof == old(key.channel.eof)
      ensures outcome == PeerClosed || outcome == BadLength ==>
        !key.valid && !key.channel.open && key.interest == old(key.interest)
      ensures outcome == Waiting ==>
        key.valid == old(key.valid) && key.channel.open == old(key.channel.open) && key.interest == old(key.interest)
      ensures outcome == Dispatched ==>
        key.valid == old(key.valid) && key.channel.open == old(key.channel.open) && key.interest == OP_WRITE
    {
      if key.attachment.status == READING_HEADER {
        outcome := ReadFromHeader(key);
      } else {
        outcome := ReadBodyBranch(key);
      }
    }

    /** `read` on a connection in the header phase: the header branch and,
        when it neither returns nor closes, the body branch. */
    method ReadFromHeader(key: Key) returns (outcome: ReadOutcome)
      requires key.attachment.Valid() && Inv(key.attachment.View()) && key.attachment.status == READING_HEADER
      modifies key`valid, key`interest, key.channel`inbox, key.channel`open, key.channel`connected
      modifies Footprint(key.attachment)
      ensures var s := ReadEvent(old(key.attachment.View()), old(key.channel.inbox), key.channel.eof, handlers, errorHandler);
        outcome == s.outcome && key.attachment.View() == s.conn && key.channel.inbox == s.rest
      ensures key.attachment.Valid() && key.channel.eof == old(key.channel.eof)
      ensures outcome == PeerClosed || outcome == BadLength ==>
        !key.valid && !key.channel.open && key.interest == old(key.interest)
      ensures outcome == Waiting ==>
        key.valid == old(key.valid) && key.channel.open == old(key.channel.open) && key.interest == old(key.interest)
      ensures outcome == Dispatched ==>
        key.valid == old(key.valid) && key.channel.open == old(key.channel.open) && key.interest == OP_WRITE
    {
      var done;
      done, outcome := ReadHeaderBranch(key);
      if !done {
        outcome := ReadBodyBranch(key);
      }
    }

    /** The header branch of `read`: `readHeader`, then -1 closes, 0
        returns, and the exception of a negative length is caught and
        closes; `done` says that `read` returns here with `outcome`. */
    method ReadHeaderBranch(key: Key) returns (done: bool, outcome: ReadOutcome)
      requires key.attachment.Valid() && Inv(key.attachment.View()) && key.attachment.status == READING_HEADER
      modifies key`valid, key.channel`inbox, key.channel`open, key.channel`connected
      modifies key.attachment, key.attachment.headerBuffer, key.attachment.headerBuffer.data
      ensures key.attachment.Valid() && key.attachment.responseBuffer == null && key.channel.eof == old(key.channel.eof)
      ensures key.attachment.bodyBuffer != null ==> fresh(key.attachment.bodyBuffer) && fresh(key.attachment.bodyBuffer.data)
      ensures !done && key.attachment.status == READING_BODY ==> key.attachment.bodyBuffer != null
      ensures var s := ReadEvent(old(key.attachment.View()), old(key.channel.inbox), key.channel.eof, handlers, errorHandler);
        && (done ==> outcome == s.outcome && key.attachment.View() == s.conn && key.channel.inbox == s.rest)
        && (!done ==> outcome == Waiting && s == BodyBranch(key.attachment.View(), key.channel.inbox, key.channel.eof, handlers, errorHandler))
        && outcome != Dispatched
      ensures done && outcome != Waiting ==> !key.valid && !key.channel.open
      ensures !done || outcome == Waiting ==> key.valid == old(key.valid) && key.channel.open == old(key.channel.open)
    {
      HeaderReadKeepsInv(key.attachment.View(), key.channel.inbox, key.channel.eof);
      var read, threw := key.attachment.ReadHeader(key.channel, key);
      if read < 0 {
        CloseChannel(key);
        return true, PeerClosed;
      }
      if read == 0 {
        return true, Waiting;
      }
      if threw {
        // the exception out of readHeader is caught and the channel closed
        CloseChannel(key);
        return true, BadLength;
      }
      return false, Waiting;
    }

    /** The body branch of `read`, taken when the status is `READING_BODY`:
        read into the body buffer; -1 closes, 0 returns, and a read that
        fills the buffer processes the message. */
    method ReadBodyBranch(key: Key) returns (outcome: ReadOutcome)
      requires key.attachment.Valid()
      requires key.attachment.status == READING_BODY ==> key.attachment.bodyBuffer != null
      modifies key`valid, key`interest, key.channel`inbox, key.channel`open, key.channel`connected
      modifies Footprint(key.attachment)
      ensures var s := BodyBranch(old(key.attachment.View()), old(key.channel.inbox), key.channel.eof, handlers, errorHandler);
        outcome == s.outcome && key.attachment.View() == s.conn && key.channel.inbox == s.rest
      ensures key.attachment.Valid() && key.channel.eof == old(key.channel.eof)
      ensures outcome != BadLength
      ensures outcome == PeerClosed ==> !key.valid && !key.channel.open && key.interest == old(key.interest)
      ensures outcome == Waiting ==>
        key.valid == old(key.valid) && key.channel.open == old(key.channel.open) && key.interest == old(key.interest)
      ensures outcome == Dispatched ==>
        key.valid == old(key.valid) && key.channel.open == old(key.channel.open) && key.interest == OP_WRITE
    {
      var channel := key.channel;
      var state := key.attachment;
      if state.status != READING_BODY {
        return Waiting;
      }
      var read := channel.Read(state.bodyBuffer);
      if read < 0 {
        CloseChannel(key);
        return PeerClosed;
      }
      if read == 0 {
        return Waiting;
      }
      if state.bodyBuffer.limit - state.bodyBuffer.position == 0 {
        ProcessMessage(key, state.tlvType, state.bodyBuffer);
        return Dispatched;
      }
      return Waiting;
    }

    /** `write`: write what the channel takes of the response; a drained
        response resets a keep-alive connection for reads and closes any
        other; a partial write keeps asking for writes. On a reset
        connection `channel.write` throws `IOException`, which leaves the
        method with nothing changed (`WriteFailed`); its `write < 0` test
        never holds, since `write` does not return a negative count. */
    method Write(key: Key) returns (outcome: WriteOutcome)
      requires Attached(key) && key.interest == OP_WRITE
      modifies key`valid, key`interest, key.channel`sent, key.channel`window, key.channel`open, key.channel`connected
      modifies Footprint(key.attachment)
      ensures var s := WriteEvent(old(key.attachment.View()), old(key.channel.window), key.channel.broken);
        && outcome == s.outcome && key.attachment.View() == s.conn
        && key.channel.sent == old(key.channel.sent) + s.written
      ensures key.attachment.Valid() && key.channel.broken == old(key.channel.broken)
      ensures outcome == WriteFailed ==> key.valid == old(key.valid) && key.interest == old(key.interest)
      ensures outcome == Drained && old(key.attachment.keepAlive) ==>
        key.valid == old(key.valid) && key.interest == OP_READ
      ensures outcome == Drained && !old(key.attachment.keepAlive) ==> !key.valid && !key.channel.open
      ensures outcome == Partial ==> key.valid == old(key.valid) && key.interest == OP_WRITE
    {
      var channel := key.channel;
      var state := key.attachment;
      var written := channel.Write(state.responseBuffer);
      if written.None? {
        return WriteFailed;
      }
      if state.responseBuffer.limit - state.responseBuffer.position == 0 {
        if state.keepAlive {
          state.ResetCtx();
          key.InterestOps(OP_READ);
        } else {
          CloseChannel(key);
        }
        return Drained;
      }
      key.InterestOps(OP_WRITE);
      return Partial;
    }
  }
}
