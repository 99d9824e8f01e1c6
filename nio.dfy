/** The parts of `java.nio` the reactors use, reduced to what they do to
    bytes: a `ByteBuffer` is an array with a position and a limit; a socket
    channel holds the bytes that have arrived from the peer (and whether the
    peer has shut down after them) and the bytes written to it; a selection
    key holds its channel, interest set, validity and attachment. Readiness,
    the operating system and timing are not modelled: what a non-blocking
    call can move in one event is given by the channel's fields. */
module Nio {
  import opened JavaBytes
  import opened Wrappers

  /** The value of a `ByteBuffer`: backing bytes, position and limit. */
  datatype Buf = Buf(data: seq<Byte>, position: nat, limit: nat) {
    predicate Valid() {
      position <= limit <= |data|
    }

    function Remaining(): nat
      requires Valid()
    {
      limit - position
    }

    /** The bytes between position and limit, which a read would return. */
    function Pending(): seq<Byte>
      requires Valid()
    {
      data[position..limit]
    }
  }

  /** A freshly allocated buffer of the given capacity. */
  function Allocated(capacity: nat): (b: Buf)
    ensures b.Valid() && b.position == 0 && b.limit == capacity && |b.data| == capacity
  {
    Buf(Zeros(capacity), 0, capacity)
  }

  /** `bytes` stored at the position of `b`, and the position moved past them. */
  function Store(b: Buf, bytes: seq<Byte>): (r: Buf)
    requires b.Valid() && |bytes| <= b.Remaining()
    ensures r.Valid() && r.limit == b.limit && |r.data| == |b.data|
    ensures r.position == b.position + |bytes|
  {
    Buf(b.data[..b.position] + bytes + b.data[b.position + |bytes|..], b.position + |bytes|, b.limit)
  }

  /** `Store` writes `bytes` between the old and the new position and
      leaves every other byte as it was. */
  lemma StoreWrites(b: Buf, bytes: seq<Byte>)
    requires b.Valid() && |bytes| <= b.Remaining()
    ensures var r := Store(b, bytes);
      && r.data[b.position..r.position] == bytes
      && r.data[..b.position] == b.data[..b.position]
      && r.data[r.position..] == b.data[r.position..]
  {
  }

  /** The outcome of `SocketChannel.read(dst)`: the count it returns, the
      buffer afterwards and the bytes still waiting in the socket. */
  datatype Transfer = Transfer(count: int, buf: Buf, rest: seq<Byte>)

  function Min(a: int, b: int): int {
    if a <= b then a else b
  }

  /** A non-blocking read into `b` when `inbox` has arrived and `eof` says
      whether the peer shut down after it: a buffer with nothing remaining
      reads 0 without looking at the socket; otherwise as many bytes as both
      allow are moved; with none available the read returns -1 at end of
      stream and 0 otherwise. */
  function ReadInto(b: Buf, inbox: seq<Byte>, eof: bool): (t: Transfer)
    requires b.Valid()
    ensures t.buf.Valid() && |t.buf.data| == |b.data| && t.buf.limit == b.limit
    ensures t.count == -1 <==> b.Remaining() > 0 && inbox == [] && eof
    ensures t.count > 0 <==> b.Remaining() > 0 && inbox != []
    ensures t.count <= 0 ==> t.buf == b && t.rest == inbox
    ensures t.count >= 0 ==> t.count == Min(b.Remaining(), |inbox|)
    ensures t.count >= 0 ==> t.buf.position == b.position + t.count
  {
    if b.Remaining() == 0 then Transfer(0, b, inbox)
    else if inbox == [] then Transfer(if eof then -1 else 0, b, inbox)
    else
      var n := Min(b.Remaining(), |inbox|);
      Transfer(n, Store(b, inbox[..n]), inbox[n..])
  }

  /** No byte is lost or reordered by a read: what the buffer took, followed
      by what is left in the socket, is what had arrived. */
  lemma ReadIntoSplitsInbox(b: Buf, inbox: seq<Byte>, eof: bool)
    requires b.Valid()
    ensures var t := ReadInto(b, inbox, eof);
      t.count >= 0 ==> inbox == t.buf.data[b.position..t.buf.position] + t.rest
  {
    var t := ReadInto(b, inbox, eof);
    if t.count > 0 {
      StoreWrites(b, inbox[..t.count]);
    }
  }

  class ByteBuffer {
    const data: array<Byte>
    var position: nat
    var limit: nat
    /** The bytes of `data`, kept beside it so that the value of a buffer
        depends on the buffer object alone. */
    ghost var contents: seq<Byte>

    ghost predicate Valid()
      reads this, data
    {
      contents == data[..] && position <= limit <= data.Length
    }

    ghost function View(): (b: Buf)
      reads this
    {
      Buf(contents, position, limit)
    }

    function Remaining(): nat
      reads this
      requires position <= limit
    {
      limit - position
    }

    /** `ByteBuffer.allocate(capacity)` for a non-negative capacity. */
    constructor Allocate(capacity: nat)
      ensures Valid() && fresh(data)
      ensures View() == Allocated(capacity)
    {
      data := new Byte[capacity](_ => 0);
      position, limit := 0, capacity;
      contents := Zeros(capacity);
    }

    /** `ByteBuffer.wrap(bytes)`: position 0, limit at the end. */
    constructor Wrap(bytes: seq<Byte>)
      ensures Valid() && fresh(data)
      ensures View() == Buf(bytes, 0, |bytes|)
    {
      data := new Byte[|bytes|](i requires 0 <= i < |bytes| => bytes[i]);
      position, limit := 0, |bytes|;
      contents := bytes;
    }

    /** `flip()`: the limit becomes the position, the position 0. */
    method Flip()
      requires Valid()
      modifies this
      ensures Valid() && View() == Buf(old(contents), 0, old(position))
    {
      limit := position;
      position := 0;
    }

    /** `clear()`: position 0, limit at capacity; the bytes stay. */
    method Clear()
      requires Valid()
      modifies this
      ensures Valid() && View() == Buf(old(contents), 0, data.Length)
    {
      position := 0;
      limit := data.Length;
    }

    /** Relative `get()`; the callers only use it with a byte remaining. */
    method Get() returns (b: Byte)
      requires Valid() && position < limit
      modifies this
      ensures Valid() && View() == old(View()).(position := old(position) + 1)
      ensures b == contents[old(position)]
    {
      b := data[position];
      position := position + 1;
    }

    /** Absolute `get(index)`: `None` stands for the
        `IndexOutOfBoundsException` thrown when `index` is not below the limit. */
    method GetAt(index: nat) returns (b: Option<Byte>)
      requires Valid()
      ensures b == if index < limit then Some(contents[index]) else None
    {
      if index < limit {
        b := Some(data[index]);
      } else {
        b := None;
      }
    }

    /** Relative `getInt()`; the callers only use it with four bytes remaining. */
    method GetInt() returns (v: int)
      requires Valid() && position + 4 <= limit
      modifies this
      ensures Valid() && View() == old(View()).(position := old(position) + 4)
      ensures v == JavaBytes.GetInt(contents[old(position)..old(position) + 4])
    {
      v := JavaBytes.GetInt(data[position..position + 4]);
      position := position + 4;
    }

    /** Relative `put(b)`; `false` stands for `BufferOverflowException`,
        thrown when nothing remains, in which case nothing changes. */
    method Put(b: Byte) returns (ok: bool)
      requires Valid()
      modifies this, data
      ensures Valid() && ok == (old(Remaining()) > 0)
      ensures View() == if ok then Store(old(View()), [b]) else old(View())
    {
      ok := position < limit;
      if ok {
        data[position] := b;
        contents := Store(View(), [b]).data;
        position := position + 1;
      }
    }

    /** Bulk `put(bytes)`; `false` stands for `BufferOverflowException`,
        thrown before anything is written when fewer than `|bytes|` remain. */
    method PutBytes(bytes: seq<Byte>) returns (ok: bool)
      requires Valid()
      modifies this, data
      ensures Valid() && ok == (|bytes| <= old(Remaining()))
      ensures View() == if ok then Store(old(View()), bytes) else old(View())
    {
      ok := |bytes| <= limit - position;
      if ok {
        forall i | 0 <= i < |bytes| {
          data[position + i] := bytes[i];
        }
        contents := Store(View(), bytes).data;
        position := position + |bytes|;
      }
    }
  }

  datatype Interest = OP_READ | OP_WRITE | OP_CONNECT

  /** How a selector loop's step for one selected key ends: handled, or
      ended by an exception that nothing in the loop catches, which leaves
      the loop and stops its thread. */
  datatype Selected = Handled | Escaped

  /** What `finishConnect()` finds: the handshake still under way (`false`),
      the connection established (`true`), or refused (`SocketException`). */
  datatype ConnectResult = InProgress | Established | Refused

  class SocketChannel {
    /** Bytes that have arrived from the peer and not been read yet. */
    var inbox: seq<Byte>
    /** Whether the peer has shut down its side after `inbox`. */
    var eof: bool
    /** Every byte written to the channel so far. */
    var sent: seq<Byte>
    /** How many bytes the kernel takes on the next write. */
    var window: nat
    /** Whether the connection is reset, so that a write throws `IOException`. */
    var broken: bool
    var open: bool
    var connected: bool

    /** `SocketChannel.open()`: open, not yet connected. */
    constructor Open()
      ensures open && !connected && !broken && !eof
      ensures inbox == [] && sent == [] && window == 0
    {
      inbox, eof, sent, window := [], false, [], 0;
      broken, open, connected := false, true, false;
    }

    /** `read(dst)` in non-blocking mode, as `ReadInto` describes it. */
    method Read(dst: ByteBuffer) returns (n: int)
      requires dst.Valid()
      modifies this`inbox, dst`position, dst`contents, dst.data
      ensures dst.Valid()
      ensures var t := ReadInto(old(dst.View()), old(inbox), eof);
        n == t.count && dst.View() == t.buf && inbox == t.rest
    {
      ghost var t := ReadInto(dst.View(), inbox, eof);
      var remaining := dst.limit - dst.position;
      if remaining == 0 {
        n := 0;
      } else if inbox == [] {
        n := if eof then -1 else 0;
      } else {
        n := Min(remaining, |inbox|);
        var p := dst.position;
        forall i | 0 <= i < n {
          dst.data[p + i] := inbox[i];
        }
        dst.contents := t.buf.data;
        dst.position := p + n;
        inbox := inbox[n..];
        assert dst.data[..] == t.buf.data;
      }
    }

    /** `write(src)` in non-blocking mode: as many remaining bytes as the
        window takes are sent and the position moves past them. A reset
        connection makes it throw `IOException`, which `None` stands for,
        and moves nothing; it never returns a negative count. */
    method Write(src: ByteBuffer) returns (n: Option<nat>)
      requires src.Valid()
      modifies this`sent, this`window, src`position
      ensures src.Valid() && src.limit == old(src.limit)
      ensures n.None? <==> broken
      ensures broken ==> unchanged(this, src)
      ensures !broken ==>
        && n.value == Min(old(window), old(src.Remaining()))
        && src.position == old(src.position) + n.value
        && sent == old(sent) + src.contents[old(src.position)..src.position]
        && window == old(window) - n.value
    {
      if broken {
        n := None;
      } else {
        var k := Min(window, src.limit - src.position);
        sent := sent + src.data[src.position..src.position + k];
        src.position := src.position + k;
        window := window - k;
        n := Some(k);
      }
    }

    /** `connect(address)` in non-blocking mode: `true` when the connection
        is established at once, which `immediate` says. */
    method Connect(immediate: bool) returns (done: bool)
      modifies this`connected
      ensures done == immediate && connected == (old(connected) || immediate)
    {
      done := immediate;
      if immediate {
        connected := true;
      }
    }

    /** `finishConnect()` with the outcome the peer gives; `Refused` stands
        for the `SocketException` it throws. */
    method FinishConnect(result: ConnectResult) returns (r: ConnectResult)
      modifies this`connected
      ensures r == result && connected == (old(connected) || result == Established)
    {
      r := result;
      if result == Established {
        connected := true;
      }
    }

    /** `close()`. */
    method Close()
      modifies this`open, this`connected
      ensures !open && !connected
    {
      open, connected := false, false;
    }
  }

  /** A registration of a channel with a selector. */
  class SelectionKey<A> {
    const channel: SocketChannel
    var interest: Interest
    var valid: bool
    var attachment: A

    /** `channel.register(selector, interest, attachment)` for a channel not
        registered before. */
    constructor Register(channel: SocketChannel, interest: Interest, attachment: A)
      ensures this.channel == channel && this.interest == interest
      ensures this.attachment == attachment && valid
    {
      this.channel := channel;
      this.interest := interest;
      this.attachment := attachment;
      valid := true;
    }

    /** `channel.register(selector, interest, attachment)` for a channel
        already registered with the selector through this key, which is not
        cancelled: the same key, with the new interest set and attachment. */
    method Reregister(interest: Interest, attachment: A)
      requires valid
      modifies this`interest, this`attachment
      ensures this.interest == interest && this.attachment == attachment
    {
      this.interest := interest;
      this.attachment := attachment;
    }

    /** `cancel()`. */
    method Cancel()
      modifies this`valid
      ensures !valid
    {
      valid := false;
    }

    /** `interestOps(ops)`. */
    method InterestOps(ops: Interest)
      modifies this`interest
      ensures interest == ops
    {
      interest := ops;
    }
  }
}
