/**
 * The outbound side of `TcpClient`: length framing and the write queue that
 * `send` fills and `perform_send` drains, one asynchronous write at a time.
 */
module Net {
  import opened Bytes
  import opened Wrappers

  /** A byte vector; its size is a size_t, so it is below 2^64. */
  type Payload = s: seq<byte> | |s| < 0x1_0000_0000_0000_0000

  /** Size of the length header that precedes every payload. */
  const HEADER_SIZE: nat := 8

  /** The 8 object bytes of the uint64_t payload size, little-endian on x86. */
  function FrameHeader(n: u64): (h: seq<byte>)
    ensures |h| == HEADER_SIZE && FromLittleEndian(h) == n
  {
    Pow256Widths();
    LittleEndianRoundTrip(n, 8);
    LittleEndian(n, 8)
  }

  /** The two buffers each `send` pushes, for every payload in call order. */
  function Buffers(sends: seq<Payload>): (bufs: seq<seq<byte>>)
    ensures |bufs| == 2 * |sends|
  {
    if sends == [] then []
    else [FrameHeader(|sends[0]|), sends[0]] + Buffers(sends[1..])
  }

  /** The byte stream the peer should receive for these sends. */
  function Stream(sends: seq<Payload>): seq<byte>
  {
    Flatten(Buffers(sends))
  }

  /**
   * How the peer splits a byte stream back into payloads: an 8-byte
   * little-endian length (as `read` takes `_header_size`), then that many bytes.
   */
  function DecodeStream(bytes: seq<byte>): (r: Option<seq<Payload>>)
    decreases |bytes|
  {
    if bytes == [] then Some([])
    else if |bytes| < HEADER_SIZE then None
    else
      var n := FromLittleEndian(bytes[..HEADER_SIZE]);
      Pow256Widths();
      if |bytes| - HEADER_SIZE < n then None
      else
        match DecodeStream(bytes[HEADER_SIZE + n..])
        case None => None
        case Some(rest) => Some([bytes[HEADER_SIZE..HEADER_SIZE + n]] + rest)
  }

  lemma {:induction false} BuffersAppend(sends: seq<Payload>, p: Payload)
    ensures Buffers(sends + [p]) == Buffers(sends) + [FrameHeader(|p|), p]
  {
    if sends == [] {
      assert sends + [p] == [p];
    } else {
      assert (sends + [p])[1..] == sends[1..] + [p];
      BuffersAppend(sends[1..], p);
    }
  }

  /** One send's frame: the header, then the payload. */
  lemma StreamCons(p: Payload, rest: seq<Payload>)
    ensures Stream([p] + rest) == FrameHeader(|p|) + p + Stream(rest)
  {
    assert ([p] + rest)[1..] == rest;
    var bufs := Buffers([p] + rest);
    assert bufs[1..] == [p] + Buffers(rest);
    assert bufs[1..][1..] == Buffers(rest);
    assert Flatten(bufs[1..]) == p + Flatten(Buffers(rest));
    assert Flatten(bufs) == FrameHeader(|p|) + Flatten(bufs[1..]);
  }

  /** Decoding the stream of any sequence of sends gives back the payloads. */
  lemma {:induction false} DecodeStreamRoundTrip(sends: seq<Payload>)
    ensures DecodeStream(Stream(sends)) == Some(sends)
  {
    if sends != [] {
      var p, rest := sends[0], sends[1..];
      assert sends == [p] + rest;
      StreamCons(p, rest);
      var bytes := Stream(sends);
      var h := FrameHeader(|p|);
      assert bytes[..HEADER_SIZE] == h;
      assert bytes[HEADER_SIZE..HEADER_SIZE + |p|] == p;
      assert bytes[HEADER_SIZE + |p|..] == Stream(rest);
      DecodeStreamRoundTrip(rest);
    }
  }

  /**
   * FIFO: while the written buffers and the queue together are the buffers of
   * all sends, the bytes on the wire are a prefix of the expected stream, and
   * once the queue is empty they decode to exactly the payloads sent.
   */
  lemma WrittenIsPrefix(written: seq<seq<byte>>, queue: seq<seq<byte>>, sends: seq<Payload>)
    requires written + queue == Buffers(sends)
    ensures Flatten(written) <= Stream(sends)
    ensures queue == [] ==> DecodeStream(Flatten(written)) == Some(sends)
  {
    FlattenAppend(written, queue);
    if queue == [] {
      assert written == Buffers(sends);
      DecodeStreamRoundTrip(sends);
    }
  }

  /** An empty payload still yields a header encoding 0, then an empty buffer. */
  lemma EmptyPayloadBuffers()
    ensures Buffers([[]]) == [[0, 0, 0, 0, 0, 0, 0, 0], []]
  {
    var empty: Payload := [];
    assert [empty][1..] == [];
    assert LittleEndian(0, 8) == [0, 0, 0, 0, 0, 0, 0, 0];
  }

  /** A 3-byte payload is preceded by 03 00 00 00 00 00 00 00. */
  lemma ThreeBytePayloadHeader()
    ensures FrameHeader(3) == [3, 0, 0, 0, 0, 0, 0, 0]
  {
    assert LittleEndian(3, 8) == [3, 0, 0, 0, 0, 0, 0, 0];
  }

  class TcpClient {
    /** `_msg_queue`: buffers not yet confirmed written, front first. */
    var queue: seq<seq<byte>>
    /** An `async_write` has been issued and its completion handler has not run. */
    var writing: bool
    /** `_socket.is_open()`. */
    var open: bool

    /** The payloads passed to `send`, in call order. */
    ghost var sends: seq<Payload>
    /** The buffers whose write completed successfully, in order: the wire. */
    ghost var written: seq<seq<byte>>
    /** The buffer handed to the outstanding `async_write`. */
    ghost var pending: seq<byte>
    /** A write completed with an error; draining has stopped for good. */
    ghost var failed: bool

    ghost predicate Valid()
      reads this
    {
      && written + queue == Buffers(sends)
      && (writing ==> queue != [] && pending == queue[0])
      && (failed <==> queue != [] && !writing)
    }

    /** The bytes the socket has accepted so far. */
    ghost function Wire(): seq<byte>
      reads this
    {
      Flatten(written)
    }

    constructor ()
      ensures Valid() && !open
      ensures queue == [] && !writing && sends == [] && written == [] && !failed
    {
      queue, writing, open := [], false, false;
      sends, written, pending, failed := [], [], [], false;
    }

    /**
     * The completion of `async_connect`. The connect opens the socket for its
     * attempt and does not close it again when the attempt fails, so the socket
     * is open whatever the outcome; the outcome only reaches the callback.
     */
    method ConnectCompleted()
      requires Valid()
      modifies this`open
      ensures Valid() && open
    {
      open := true;
    }

    /** `is_connected`. */
    method IsConnected() returns (connected: bool)
      ensures connected == open
    {
      connected := open;
    }

    /** `close`: closes the socket; queued buffers stay queued. */
    method Close()
      requires Valid()
      modifies this`open
      ensures Valid() && !open
    {
      open := false;
    }

    /**
     * `send`, as the step the posted handler performs: push the 8-byte length
     * header and the payload, and start draining only if the queue was empty.
     */
    method Send(data: Payload)
      requires Valid()
      modifies this
      ensures Valid()
      ensures queue == old(queue) + [FrameHeader(|data|), data]
      ensures sends == old(sends) + [data] && written == old(written)
      ensures old(queue) == [] ==> writing && pending == FrameHeader(|data|)
      ensures old(queue) != [] ==> writing == old(writing) && pending == old(pending)
      ensures failed == old(failed) && open == old(open)
    {
      var queueEmpty := queue == [];
      var header := FrameHeader(|data|);
      queue := queue + [header];
      queue := queue + [data];
      assert queue == old(queue) + [header, data];
      assert written + queue == (written + old(queue)) + [header, data];
      BuffersAppend(sends, data);
      sends := sends + [data];
      if queueEmpty {
        PerformSend();
      }
    }

    /** `perform_send`: issue one `async_write` of the whole front buffer. */
    method PerformSend()
      requires queue != [] && !writing
      modifies this`writing, this`pending
      ensures writing && pending == queue[0]
    {
      writing := true;
      pending := queue[0];
    }

    /**
     * The completion handler of the outstanding write. On success the front
     * buffer is on the wire and popped, and the next write starts iff the queue
     * is still non-empty; on error nothing changes and no write is started.
     */
    method WriteCompleted(ok: bool)
      requires Valid() && writing
      modifies this
      ensures Valid()
      ensures ok ==> queue == old(queue)[1..] && written == old(written) + [old(pending)]
      ensures ok ==> (writing <==> queue != []) && !failed
      ensures !ok ==> queue == old(queue) && written == old(written) && !writing && failed
      ensures sends == old(sends) && open == old(open)
    {
      writing := false;
      if !ok {
        failed := true;
        return;
      }
      assert written + [queue[0]] + queue[1..] == written + queue;
      written := written + [queue[0]];
      queue := queue[1..];
      if queue != [] {
        PerformSend();
      }
    }

    /** Without a failed write, one write is outstanding exactly when the queue is non-empty. */
    lemma SingleWriter()
      requires Valid() && !failed
      ensures writing <==> queue != []
    {
    }

    /** The wire is always a prefix of the framed sends, in call order. */
    lemma WireIsPrefix()
      requires Valid()
      ensures Wire() <= Stream(sends)
      ensures queue == [] ==> DecodeStream(Wire()) == Some(sends)
    {
      WrittenIsPrefix(written, queue, sends);
    }
  }
}
