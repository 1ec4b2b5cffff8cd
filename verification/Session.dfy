/** src/network_benchmark/session.c: the TCP session that turns arbitrarily split reads into
    frames.  The socket is an adversary: every read returns any number of bytes up to the unit,
    or none, or an error. */
module Sessions {
  import opened Wire
  import opened BytesBuffers

  const BUF_SIZE: nat := 2 * 1024 * 1024  // NET_BENCH_TCP_BUF_SIZE

  class Socket {
    var pending: Bytes  // what the peer has sent and nobody has read yet
    var shut: bool
    ghost var last: int  // what the last read returned

    constructor (incoming: Bytes)
      ensures pending == incoming && !shut
    {
      pending, shut, last := incoming, false, 0;
    }

    /** muggle_socket_ctx_read: stores a prefix of the pending bytes at `dst[p..]`. */
    method Read(dst: array<byte>, p: nat, max: nat) returns (n: int)
      requires p + max <= dst.Length
      modifies this`pending, this`last, dst
      ensures last == n
      ensures n <= max && (n <= 0 ==> pending == old(pending) && dst[..] == old(dst[..]))
      ensures n > 0 ==> n <= |old(pending)| && pending == old(pending)[n..]
      ensures n > 0 ==> dst[..] == old(dst[..p]) + old(pending)[..n] + old(dst[p + n..])
    {
      n :| -1 <= n <= max && n <= |pending|;
      last := n;
      if n > 0 {
        forall i | 0 <= i < n {
          dst[p + i] := pending[i];
        }
        pending := pending[n..];
      }
    }

    method Shutdown()
      modifies this`shut
      ensures shut
    {
      shut := true;
    }
  }

  class TcpSession {
    const buf: BytesBuffer
    const limit: uint32  // msg_len_limit, 0 represents no limit
    ghost var consumed: Bytes          // every byte ever read from the socket
    ghost var delivered: seq<Bytes>    // every frame ever given to the callback

    /** Between calls the session has delivered exactly what the parser's specification finds in
        the bytes read so far, and holds exactly the residue. */
    ghost predicate Valid()
      reads this, buf, buf.buffer
    {
      && buf.Valid()
      && delivered == Parse(consumed, limit).frames
      && buf.Contents() == Parse(consumed, limit).rest
      && AllWithin(delivered, buf.c)
    }

    static ghost predicate AllWithin(fs: seq<Bytes>, c: nat)
    {
      forall i | 0 <= i < |fs| :: |fs[i]| <= c
    }

    /** Two sessions that have read the same bytes have delivered the same frames and hold the same
        residue, whatever their buffers, their reads and the delivery paths they took. */
    lemma ChunkingIndependence(other: TcpSession, chunks: seq<Bytes>)
      requires Valid() && other.Valid() && limit == other.limit
      requires consumed == other.consumed == Concat(chunks)
      ensures delivered == other.delivered == Feed(chunks, limit).frames
      ensures buf.Contents() == other.buf.Contents() == Feed(chunks, limit).rest
    {
      FeedIsParse(chunks, limit);
    }

    /** Byte conservation: of the bytes that have arrived, nothing is lost, invented or reordered. */
    lemma BytesConserved()
      requires Valid()
      ensures Concat(delivered) + buf.Contents() == consumed
      ensures forall f <- delivered :: IsFrame(f, limit) && |f| <= buf.c
      ensures !Ready(buf.Contents(), limit)
    {
      ParseSplits(consumed, limit);
    }

    /** While the peer announces frames of at most `len` bytes and the ring has two units to spare,
        the read loop always finds room: a connection is never wedged.  BytesBuffers.NeverFullIff says
        that this margin is exact for the ring. */
    lemma NeverWedged(len: nat)
      requires Valid() && Parse(consumed, limit).stop == NeedMore
      requires HEADER_SIZE <= len && len + 2 * UNIT <= buf.c + 1
      requires |buf.Contents()| >= HEADER_SIZE ==> FrameLen(buf.Contents()) <= len
      ensures |buf.Contents()| < len
      ensures exists p: nat :: buf.Room(p, UNIT)
    {
      ResidueIsShort(consumed, limit, len);
      buf.RoomForUnit();
    }

    /** A frame longer than the ring never arrives, and nothing behind it does. */
    lemma OversizeNeverDelivered(fs: seq<Bytes>, tail: Bytes)
      requires Valid() && consumed == Concat(fs) + tail && forall f <- fs :: IsFrame(f, limit)
      requires |tail| >= HEADER_SIZE && FrameLen(tail) > buf.c
      ensures delivered == fs && buf.Contents() == tail
    {
      ParseAppend(Concat(fs), tail, limit);
      FramesRoundTrip(fs, limit);
      assert [] + tail == tail;
      var p := Parse(tail, limit);
      assert delivered == fs + p.frames;
      if Ready(tail, limit) {
        HeadLands(fs, tail, limit);
        assert false;
      }
    }

    static lemma HeadLands(fs: seq<Bytes>, tail: Bytes, limit: uint32)
      requires Ready(tail, limit)
      ensures var all := fs + Parse(tail, limit).frames;
              |fs| < |all| && |all[|fs|]| == FrameLen(tail)
    {
    }

    /** nb_tcp_session_new sets the limit to 0; a limit is a parameter here because the message
        loop honours one. */
    constructor (msgLenLimit: uint32, capacity: nat := BUF_SIZE)
      ensures Valid() && fresh(buf) && fresh(buf.buffer)
      ensures consumed == [] && delivered == [] && limit == msgLenLimit && buf.c == capacity
    {
      buf := new BytesBuffer(capacity);
      limit := msgLenLimit;
      consumed, delivered := [], [];
    }

    /** nb_tcp_session_on_msg.  `attempts` counts the socket reads, `k` the bytes they brought.
        `wrapped` says that the parse loop has come to a header whose length wraps around uint32:
        there the source leaves the protocol (it removes fewer bytes than a header and hands over
        memory that holds no frame, or never returns), and the model stops. */
    method OnMsg(sock: Socket) returns (attempts: nat, wrapped: bool, ghost k: nat)
      requires Valid()
      modifies this, buf, buf.buffer, sock
      ensures Valid()
      ensures k <= |old(sock.pending)| && sock.pending == old(sock.pending)[k..]
      ensures consumed == old(consumed) + old(sock.pending)[..k]
      ensures old(delivered) <= delivered
      ensures sock.shut <==> old(sock.shut) || Parse(consumed, limit).stop == TooLong
      ensures wrapped <==> Parse(consumed, limit).stop == Wrapped
      ensures |old(buf.Contents())| + 2 * UNIT <= buf.c ==> attempts > 0
    {
      hide Parse, AllWithin, BytesBuffer.Contents, BytesBuffer.Valid;
      ghost var before, pend := consumed, sock.pending;
      attempts, k := ReadBytes(sock);
      ParseAppend(before, pend[..k], limit);
      wrapped := ParseMessages(sock);
    }

    /** The read loop: it ends exactly when the buffer has no stretch of a unit left or a read has
        brought nothing. */
    method ReadBytes(sock: Socket) returns (attempts: nat, ghost k: nat)
      requires buf.Valid()
      modifies this`consumed, buf, buf.buffer, sock`pending, sock`last
      ensures buf.Valid()
      ensures k <= |old(sock.pending)| && sock.pending == old(sock.pending)[k..]
      ensures consumed == old(consumed) + old(sock.pending)[..k]
      ensures buf.Contents() == old(buf.Contents()) + old(sock.pending)[..k]
      ensures |old(buf.Contents())| + 2 * UNIT <= buf.c ==> attempts > 0
      ensures (attempts > 0 && sock.last <= 0) || forall p: nat :: !buf.Room(p, UNIT)
    {
      hide BytesBuffer.Contents, BytesBuffer.Valid, BytesBuffer.Room;
      attempts, k := 0, 0;
      ghost var pend := sock.pending;
      while true
        invariant buf.Valid()
        invariant k <= |pend| && sock.pending == pend[k..]
        invariant consumed == old(consumed) + pend[..k]
        invariant buf.Contents() == old(buf.Contents()) + pend[..k]
        invariant attempts == 0 ==> k == 0
        decreases |sock.pending|
      {
        // one unit must fit in one piece
        var p := buf.WriterFc(UNIT);
        if p.None? {
          if |buf.Contents()| + 2 * UNIT <= buf.c {
            buf.RoomForUnit();
          }
          break;
        }
        var n := ReadUnit(sock, p.value);
        attempts := attempts + 1;
        if n <= 0 {
          break;
        }
        TakeMore(pend, k, n, old(consumed));
        TakeMore(pend, k, n, old(buf.Contents()));
        k := k + n;
      }
    }

    static lemma TakeMore(s: Bytes, k: nat, n: nat, base: Bytes)
      requires k + n <= |s|
      ensures (base + s[..k]) + s[k..][..n] == base + s[..k + n]
      ensures s[k..][n..] == s[k + n..]
    {
    }

    /** One socket read into a free stretch, claimed afterwards. */
    method ReadUnit(sock: Socket, p: nat) returns (n: int)
      requires buf.Valid() && buf.Room(p, UNIT)
      modifies this`consumed, buf, buf.buffer, sock`pending, sock`last
      ensures buf.Valid() && n <= |old(sock.pending)|
      ensures sock.last == n
      ensures var got := if n > 0 then old(sock.pending)[..n] else [];
              && sock.pending == old(sock.pending)[|got|..]
              && consumed == old(consumed) + got
              && buf.Contents() == old(buf.Contents()) + got
    {
      ghost var before := buf.buffer[..];
      n := sock.Read(buf.buffer, p, UNIT);
      if n > 0 {
        StoredBeside(before, p, old(sock.pending)[..n]);
        consumed := consumed + old(sock.pending)[..n];
        var ok := buf.WriterMoveN(p, n);
        if !ok {
          assert false;  // the "inner error" branch is dead
        }
      }
    }

    /** Storing inside a free stretch leaves the readable bytes alone. */
    lemma StoredBeside(before: Bytes, p: nat, data: Bytes)
      requires buf.Valid() && |before| == buf.c && buf.Room(p, UNIT) && |data| <= UNIT
      requires p + |data| <= buf.c && buf.buffer[..] == before[..p] + data + before[p + |data|..]
      ensures buf.buffer[p..p + |data|] == data
      ensures buf.Contents() == if buf.r <= buf.w then before[buf.r..buf.w] else before[buf.r..buf.t] + before[..buf.w]
    {
      var after := buf.buffer[..];
      assert after[p..p + |data|] == data;
      assert forall i | 0 <= i < p || p + |data| <= i < buf.c :: after[i] == before[i];
      if buf.r <= buf.w {
        assert after[buf.r..buf.w] == before[buf.r..buf.w];
      } else {
        assert after[buf.r..buf.t] == before[buf.r..buf.t];
        assert after[..buf.w] == before[..buf.w];
      }
    }

    /** The frames delivered so far and the bytes still held amount to the whole parse. */
    static ghost predicate Remaining(done: seq<Bytes>, held: Bytes, limit: uint32, all: Parsed)
    {
      var p := Parse(held, limit);
      done + p.frames == all.frames && p.rest == all.rest && p.stop == all.stop
    }

    /** What the head of the held bytes says about the whole parse. */
    static lemma HeadDecides(done: seq<Bytes>, held: Bytes, limit: uint32, all: Parsed)
      requires Remaining(done, held, limit, all)
      ensures !Ready(held, limit) ==> all.stop == WhyStopped(held, limit)
    {
    }

    static lemma DeliverHead(done: seq<Bytes>, held: Bytes, limit: uint32, all: Parsed)
      requires Ready(held, limit) && Remaining(done, held, limit, all)
      ensures var n := FrameLen(held); Remaining(done + [held[..n]], held[n..], limit, all)
    {
      var n := FrameLen(held);
      var fs := Parse(held[n..], limit).frames;
      assert done + ([held[..n]] + fs) == (done + [held[..n]]) + fs;
    }

    /** The parse loop. */
    method ParseMessages(sock: Socket) returns (wrapped: bool)
      requires buf.Valid() && AllWithin(delivered, buf.c)
      requires Remaining(delivered, buf.Contents(), limit, Parse(consumed, limit))
      modifies this`delivered, buf, sock`shut
      ensures Valid() && old(delivered) <= delivered
      ensures sock.shut <==> old(sock.shut) || Parse(consumed, limit).stop == TooLong
      ensures wrapped <==> Parse(consumed, limit).stop == Wrapped
    {
      ghost var all := Parse(consumed, limit);
      var more := true;
      wrapped := false;
      while more
        invariant buf.Valid() && AllWithin(delivered, buf.c) && old(delivered) <= delivered
        invariant Remaining(delivered, buf.Contents(), limit, all)
        invariant more ==> sock.shut == old(sock.shut)
        invariant !more ==> !Ready(buf.Contents(), limit) && (sock.shut <==> old(sock.shut) || all.stop == TooLong)
        invariant !more ==> (wrapped <==> all.stop == Wrapped)
        decreases |buf.Contents()|, more
      {
        more, wrapped := ParseNext(sock, all);
      }
    }

    /** One turn of the parse loop: peek a header, check the limit, check completeness, deliver.
        `more` is false where the source breaks out, and at a header that wraps. */
    method ParseNext(sock: Socket, ghost all: Parsed) returns (more: bool, wrapped: bool)
      requires buf.Valid() && AllWithin(delivered, buf.c)
      requires Remaining(delivered, buf.Contents(), limit, all)
      modifies this`delivered, buf, sock`shut
      ensures buf.Valid() && AllWithin(delivered, buf.c) && old(delivered) <= delivered
      ensures Remaining(delivered, buf.Contents(), limit, all)
      ensures more ==> |buf.Contents()| < |old(buf.Contents())| && sock.shut == old(sock.shut)
      ensures !more ==> buf.Contents() == old(buf.Contents()) && !Ready(buf.Contents(), limit)
      ensures !more ==> (sock.shut <==> old(sock.shut) || all.stop == TooLong)
      ensures !more ==> (wrapped <==> all.stop == Wrapped)
    {
      hide U32At, Parse, Remaining;
      ghost var held := buf.Contents();
      HeadDecides(delivered, held, limit, all);
      var fetched, hdr := buf.Fetch(HEADER_SIZE);
      if !fetched {
        return false, false;
      }
      LenFromHeader(hdr, held);

      // the limit, if there is one, applies to the whole frame
      var n := FrameLen(hdr);
      if limit > 0 && n > limit {
        sock.Shutdown();
        return false, false;
      }

      // such a length is no frame's
      if n < HEADER_SIZE {
        return false, true;
      }

      // the payload may still be on its way
      var readable := buf.Readable();
      if readable < n {
        return false, false;
      }

      // a whole frame is there
      DeliverHead(delivered, held, limit, all);
      HandleMessage(n);
      return true, false;
    }

    /** Deliver the next `n` bytes: in place when they are contiguous, by copy otherwise. */
    method HandleMessage(n: nat)
      requires buf.Valid() && n <= |buf.Contents()|
      modifies this`delivered, buf
      ensures buf.Valid()
      ensures buf.Contents() == old(buf.Contents())[n..]
      ensures delivered == old(delivered) + [old(buf.Contents())[..n]]
    {
      var p := buf.ReaderFc(n);
      if p.Some? {
        delivered := delivered + [buf.buffer[p.value..p.value + n]];
        var moved := buf.ReaderMove(n);
        if !moved {
          assert false;  // the "failed buffer reader move" branch is dead
        }
      } else {
        var ok, copy := buf.Read(n);
        if !ok {
          assert false;  // the "failed buffer read" branch is dead
        }
        delivered := delivered + [copy];
      }
    }
  }
}
