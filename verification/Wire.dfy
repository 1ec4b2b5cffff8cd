/** The framing shared by every TCP hop: an 8-byte header (message id and payload length,
    both little-endian uint32) followed by the payload.  `Parse` is the specification of
    what a receiver does with a byte stream; `Splits` is an independent, non-recursive-descent
    description of the same thing. */
module Wire {

  newtype byte = x: int | 0 <= x < 256
  type Bytes = seq<byte>

  const TWO_32: int := 0x1_0000_0000
  type uint32 = x: int | 0 <= x < TWO_32

  /** sizeof(nb_msg_hdr_t) and sizeof(nb_msg_data_t) */
  const HEADER_SIZE: nat := 8
  const DATA_SIZE: nat := 8

  // ---------------------------------------------------------------- uint32 on the wire

  function U32At(s: Bytes, i: nat): (v: uint32)
    requires i + 4 <= |s|
  {
    s[i] as int + 0x100 * s[i + 1] as int + 0x1_0000 * s[i + 2] as int + 0x100_0000 * s[i + 3] as int
  }

  function U32Bytes(v: uint32): (b: Bytes)
    ensures |b| == 4
  {
    [(v % 0x100) as byte, (v / 0x100 % 0x100) as byte,
     (v / 0x1_0000 % 0x100) as byte, (v / 0x100_0000) as byte]
  }

  lemma U32RoundTrip(v: uint32)
    ensures U32At(U32Bytes(v), 0) == v
  {
    assert v == v % 0x100 + 0x100 * (v / 0x100);
    assert v / 0x100 == v / 0x100 % 0x100 + 0x100 * (v / 0x100 / 0x100);
    assert v / 0x100 / 0x100 == v / 0x1_0000;
    assert v / 0x1_0000 == v / 0x1_0000 % 0x100 + 0x100 * (v / 0x1_0000 / 0x100);
    assert v / 0x1_0000 / 0x100 == v / 0x100_0000;
  }

  lemma U32Injective(s: Bytes, t: Bytes)
    requires |s| == 4 && |t| == 4 && U32At(s, 0) == U32At(t, 0)
    ensures s == t
  {
    hide U32At;
    SameDigit(s[0], t[0], Upper(s, 1), Upper(t, 1)) by { Split(s); Split(t); }
    SameDigit(s[1], t[1], Upper(s, 2), Upper(t, 2));
    SameDigit(s[2], t[2], s[3] as int, t[3] as int);
    assert s[0] == t[0] && s[1] == t[1] && s[2] == t[2] && s[3] == t[3];
  }

  /** The number that the bytes from `i` on denote. */
  function Upper(s: Bytes, i: nat): nat
    requires |s| == 4 && i <= 2
    decreases 2 - i
  {
    if i == 2 then s[2] as int + 0x100 * s[3] as int else s[i] as int + 0x100 * Upper(s, i + 1)
  }

  lemma Split(s: Bytes)
    requires |s| == 4
    ensures U32At(s, 0) == s[0] as int + 0x100 * Upper(s, 1)
  {
  }

  lemma SameDigit(a: byte, b: byte, x: nat, y: nat)
    requires a as int + 0x100 * x == b as int + 0x100 * y
    ensures a == b && x == y
  {
  }

  lemma U32Slice(s: Bytes, from: nat, to: nat, i: nat)
    requires from + i + 4 <= to <= |s|
    ensures U32At(s[from..to], i) == U32At(s, from + i)
  {
  }

  // ---------------------------------------------------------------- frames

  /** The receiver's `n`: the sum is a uint32, so it wraps. */
  function FrameLen(s: Bytes): (n: uint32)
    requires |s| >= HEADER_SIZE
  {
    (HEADER_SIZE + U32At(s, 4)) % TWO_32
  }

  function MsgId(s: Bytes): uint32
    requires |s| >= HEADER_SIZE
  {
    U32At(s, 0)
  }

  /** A complete frame, header included, that a receiver with this limit accepts (0 is no limit). */
  ghost predicate IsFrame(f: Bytes, limit: uint32)
  {
    |f| >= HEADER_SIZE && FrameLen(f) == |f| && (limit > 0 ==> |f| <= limit)
  }

  lemma LenFromHeader(s: Bytes, t: Bytes)
    requires |s| >= HEADER_SIZE && |t| >= HEADER_SIZE && s[..HEADER_SIZE] == t[..HEADER_SIZE]
    ensures FrameLen(s) == FrameLen(t) && MsgId(s) == MsgId(t)
  {
    U32Slice(s, 0, HEADER_SIZE, 4);
    U32Slice(t, 0, HEADER_SIZE, 4);
    U32Slice(s, 0, HEADER_SIZE, 0);
    U32Slice(t, 0, HEADER_SIZE, 0);
  }

  function Concat(fs: seq<Bytes>): (s: Bytes)
  {
    if fs == [] then [] else fs[0] + Concat(fs[1..])
  }

  lemma ConcatCons(f: Bytes, fs: seq<Bytes>)
    ensures Concat([f] + fs) == f + Concat(fs)
  {
    assert ([f] + fs)[1..] == fs;
  }

  lemma {:induction false} ConcatAppend(a: seq<Bytes>, b: seq<Bytes>)
    ensures Concat(a + b) == Concat(a) + Concat(b)
  {
    if a == [] {
      assert a + b == b;
    } else {
      assert (a + b)[1..] == a[1..] + b;
      ConcatAppend(a[1..], b);
    }
  }

  // ---------------------------------------------------------------- the receiver's specification

  /** Why a receiver stops: it waits for bytes, the limit rejects the header, or the header's
      length wraps around uint32 (then the source consumes fewer than 8 bytes per turn). */
  datatype Stop = NeedMore | TooLong | Wrapped
  datatype Parsed = Parsed(frames: seq<Bytes>, rest: Bytes, stop: Stop)

  /** A whole frame stands at the head of `s` and the receiver takes it. */
  predicate Ready(s: Bytes, limit: uint32)
  {
    |s| >= HEADER_SIZE && (limit > 0 ==> FrameLen(s) <= limit) && HEADER_SIZE <= FrameLen(s) <= |s|
  }

  function WhyStopped(s: Bytes, limit: uint32): Stop
  {
    if |s| < HEADER_SIZE then NeedMore
    else if limit > 0 && FrameLen(s) > limit then TooLong
    else if FrameLen(s) < HEADER_SIZE then Wrapped
    else NeedMore
  }

  function Parse(s: Bytes, limit: uint32): (p: Parsed)
    decreases |s|
  {
    if !Ready(s, limit) then Parsed([], s, WhyStopped(s, limit))
    else
      var n := FrameLen(s);
      var p := Parse(s[n..], limit);
      Parsed([s[..n]] + p.frames, p.rest, p.stop)
  }

  /** What the receiver does with the head of a stream, told by the bytes of its header: `payload` is the
      announced length.  A limit of exactly the frame's size still lets it through. */
  lemma HeadOfStream(s: Bytes, limit: uint32)
    ensures |s| < 8 ==> Parse(s, limit) == Parsed([], s, NeedMore)
    ensures |s| >= 8 ==>
              var payload: int := U32At(s, 4);
              if payload >= TWO_32 - 8 then
                Parse(s, limit) == Parsed([], s, if limit > 0 && payload + 8 - TWO_32 > limit then TooLong else Wrapped)
              else if limit > 0 && payload + 8 > limit then Parse(s, limit) == Parsed([], s, TooLong)
              else if |s| < payload + 8 then Parse(s, limit) == Parsed([], s, NeedMore)
              else
                var p, q := Parse(s, limit), Parse(s[payload + 8..], limit);
                p == Parsed([s[..payload + 8]] + q.frames, q.rest, q.stop)
  {
    if |s| >= 8 {
      ProgressIffNoWrap(s);
      WrappedLen(s);
      hide U32At, FrameLen;
    }
  }

  lemma WrappedLen(s: Bytes)
    requires |s| >= HEADER_SIZE
    ensures U32At(s, 4) >= TWO_32 - HEADER_SIZE ==> FrameLen(s) == U32At(s, 4) + HEADER_SIZE - TWO_32
  {
  }

  /** `s` is the frames `fs`, one after the other, followed by a residue that is blocked. */
  ghost predicate Splits(s: Bytes, limit: uint32, fs: seq<Bytes>, r: Bytes)
  {
    && s == Concat(fs) + r
    && (forall f <- fs :: IsFrame(f, limit))
    && !Ready(r, limit)
  }

  lemma HeadIsFrame(s: Bytes, limit: uint32)
    requires Ready(s, limit)
    ensures IsFrame(s[..FrameLen(s)], limit)
  {
    var n := FrameLen(s);
    assert s[..n][..HEADER_SIZE] == s[..HEADER_SIZE];
    LenFromHeader(s[..n], s);
  }

  lemma SplitsCons(s: Bytes, limit: uint32, head: Bytes, fs: seq<Bytes>, r: Bytes)
    requires IsFrame(head, limit) && head <= s && Splits(s[|head|..], limit, fs, r)
    ensures Splits(s, limit, [head] + fs, r)
  {
    ConcatCons(head, fs);
    assert s == head + s[|head|..];
    assert head + (Concat(fs) + r) == (head + Concat(fs)) + r;
    forall f <- [head] + fs ensures IsFrame(f, limit) {
      assert f == head || f in fs;
    }
  }

  lemma {:induction false} ParseSplits(s: Bytes, limit: uint32)
    ensures var p := Parse(s, limit); Splits(s, limit, p.frames, p.rest)
    decreases |s|
  {
    if Ready(s, limit) {
      var n := FrameLen(s);
      var head, q := s[..n], Parse(s[n..], limit);
      ParseSplits(s[n..], limit);
      HeadIsFrame(s, limit);
      SplitsCons(s, limit, head, q.frames, q.rest);
    }
  }

  /** The decomposition is unique: whatever splits the stream is what the parser delivers. */
  lemma {:induction false} ParseUnique(s: Bytes, limit: uint32, fs: seq<Bytes>, r: Bytes)
    requires Splits(s, limit, fs, r)
    ensures Parse(s, limit).frames == fs && Parse(s, limit).rest == r
    decreases |fs|
  {
    if fs == [] {
      assert s == r;
    } else {
      var f := fs[0];
      var tail := Concat(fs[1..]) + r;
      assert s == f + tail;
      assert IsFrame(f, limit);
      assert s[..HEADER_SIZE] == f[..HEADER_SIZE];
      LenFromHeader(s, f);
      assert s[..|f|] == f && s[|f|..] == tail;
      ParseUnique(tail, limit, fs[1..], r);
      assert fs == [f] + fs[1..];
    }
  }

  /** Parsing exactly characterises splitting. */
  lemma ParseIffSplits(s: Bytes, limit: uint32, fs: seq<Bytes>, r: Bytes)
    ensures Splits(s, limit, fs, r) <==> Parse(s, limit).frames == fs && Parse(s, limit).rest == r
  {
    ParseSplits(s, limit);
    if Splits(s, limit, fs, r) {
      ParseUnique(s, limit, fs, r);
    }
  }

  lemma {:induction false} StopIsRestStop(s: Bytes, limit: uint32)
    ensures Parse(s, limit).stop == WhyStopped(Parse(s, limit).rest, limit)
    decreases |s|
  {
    if Ready(s, limit) {
      StopIsRestStop(s[FrameLen(s)..], limit);
    }
  }

  /** Bytes that arrive later do not change what stands at the head. */
  lemma HeadStays(a: Bytes, b: Bytes, limit: uint32)
    requires |a| >= HEADER_SIZE
    ensures FrameLen(a + b) == FrameLen(a)
    ensures Ready(a, limit) ==> Ready(a + b, limit)
  {
    assert (a + b)[..HEADER_SIZE] == a[..HEADER_SIZE];
    LenFromHeader(a + b, a);
  }

  /** Feeding `a` and later `b`: the frames of `a`, then the frames of the residue followed by `b`. */
  lemma {:induction false} ParseAppend(a: Bytes, b: Bytes, limit: uint32)
    ensures var p := Parse(a, limit); var q := Parse(p.rest + b, limit);
            Parse(a + b, limit) == Parsed(p.frames + q.frames, q.rest, q.stop)
    decreases |a|
  {
    hide FrameLen;
    if Ready(a, limit) {
      HeadStays(a, b, limit);
      var n := FrameLen(a);
      ParseAppend(a[n..], b, limit);
      assert (a + b)[n..] == a[n..] + b && (a + b)[..n] == a[..n];
      var p, q := Parse(a[n..], limit), Parse(Parse(a[n..], limit).rest + b, limit);
      assert [a[..n]] + (p.frames + q.frames) == ([a[..n]] + p.frames) + q.frames;
    } else {
      assert [] + Parse(a + b, limit).frames == Parse(a + b, limit).frames;
    }
  }

  /** A receiver that is fed chunk after chunk, keeping only the residue in between. */
  function Feed(chunks: seq<Bytes>, limit: uint32): (p: Parsed)
  {
    if chunks == [] then Parse([], limit)
    else
      var before := Feed(chunks[..|chunks| - 1], limit);
      var p := Parse(before.rest + chunks[|chunks| - 1], limit);
      Parsed(before.frames + p.frames, p.rest, p.stop)
  }

  /** Chunking independence: what a receiver delivers and keeps depends on the bytes only, not on
      how they were split over reads and calls. */
  lemma {:induction false} FeedIsParse(chunks: seq<Bytes>, limit: uint32)
    ensures Feed(chunks, limit) == Parse(Concat(chunks), limit)
  {
    hide Parse;
    if chunks != [] {
      var init, last := chunks[..|chunks| - 1], chunks[|chunks| - 1];
      FeedIsParse(init, limit);
      ParseAppend(Concat(init), last, limit);
      assert chunks == init + [last];
      ConcatAppend(init, [last]);
      assert Concat([last]) == last by { ConcatCons(last, []); }
    }
  }

  lemma ParsePrefixMonotone(a: Bytes, b: Bytes, limit: uint32)
    requires a <= b
    ensures Parse(a, limit).frames <= Parse(b, limit).frames
  {
    ParseAppend(a, b[|a|..], limit);
    assert b == a + b[|a|..];
  }

  /** Once the limit has rejected a header, later bytes change nothing: the receiver meets the same
      header again on every call. */
  lemma StopIsSticky(a: Bytes, b: Bytes, limit: uint32)
    requires Parse(a, limit).stop == TooLong
    ensures Parse(a + b, limit) == Parse(a, limit).(rest := Parse(a, limit).rest + b)
  {
    NoFurther(a, b, limit);
  }

  /** `Parse` itself goes no further at a wrapping header either; what the source does there is not
      modelled. */
  lemma NoFurther(a: Bytes, b: Bytes, limit: uint32)
    requires Parse(a, limit).stop != NeedMore
    ensures Parse(a + b, limit) == Parse(a, limit).(rest := Parse(a, limit).rest + b)
  {
    var p := Parse(a, limit);
    ParseAppend(a, b, limit);
    ParseSplits(a, limit);
    StopIsRestStop(a, limit);
    HeadStays(p.rest, b, limit);
  }

  /** Maximal delivery: if the header at the head of the residue announces at most `len` bytes,
      fewer than `len` bytes are left over, unless the limit or the wrap-around stopped the receiver. */
  lemma ResidueIsShort(s: Bytes, limit: uint32, len: nat)
    requires len >= HEADER_SIZE
    requires var r := Parse(s, limit).rest; |r| >= HEADER_SIZE ==> FrameLen(r) <= len
    ensures Parse(s, limit).stop == NeedMore ==> |Parse(s, limit).rest| < len
  {
    ParseSplits(s, limit);
    StopIsRestStop(s, limit);
  }

  // ---------------------------------------------------------------- the sender's side

  /** A frame as the clients build it: header, then payload. */
  function Encode(msgId: uint32, payload: Bytes): (f: Bytes)
    requires HEADER_SIZE + |payload| < TWO_32
    ensures |f| == HEADER_SIZE + |payload|
  {
    U32Bytes(msgId) + U32Bytes(|payload|) + payload
  }

  lemma EncodeIsFrame(msgId: uint32, payload: Bytes)
    requires HEADER_SIZE + |payload| < TWO_32
    ensures var f := Encode(msgId, payload);
            IsFrame(f, 0) && MsgId(f) == msgId && f[HEADER_SIZE..] == payload
  {
    var f := Encode(msgId, payload);
    U32RoundTrip(msgId);
    U32RoundTrip(|payload|);
    assert f[0..4] == U32Bytes(msgId) && f[4..8] == U32Bytes(|payload|);
    U32Slice(f, 0, 4, 0);
    U32Slice(f, 4, 8, 0);
  }

  /** Frames written back to back parse to themselves and leave nothing over. */
  lemma FramesRoundTrip(fs: seq<Bytes>, limit: uint32)
    requires forall f <- fs :: IsFrame(f, limit)
    ensures Parse(Concat(fs), limit) == Parsed(fs, [], NeedMore)
  {
    assert Concat(fs) + [] == Concat(fs);
    ParseUnique(Concat(fs), limit, fs, []);
    StopIsRestStop(Concat(fs), limit);
  }

  datatype Message = Message(msgId: uint32, payload: Bytes)

  function EncodeAll(ms: seq<Message>): (fs: seq<Bytes>)
    requires forall m <- ms :: HEADER_SIZE + |m.payload| < TWO_32
    ensures |fs| == |ms|
  {
    seq(|ms|, i requires 0 <= i < |ms| => assert ms[i] in ms; Encode(ms[i].msgId, ms[i].payload))
  }

  /** Framing round trip: encode any messages, concatenate, feed the bytes in any pieces: the
      receiver delivers exactly the encoded frames, each with its id and payload, and holds nothing. */
  lemma FramingRoundTrip(ms: seq<Message>, chunks: seq<Bytes>)
    requires forall m <- ms :: HEADER_SIZE + |m.payload| < TWO_32
    requires Concat(chunks) == Concat(EncodeAll(ms))
    ensures Feed(chunks, 0) == Parsed(EncodeAll(ms), [], NeedMore)
    ensures forall i | 0 <= i < |ms| ::
              var f := Feed(chunks, 0).frames[i];
              |f| >= HEADER_SIZE && MsgId(f) == ms[i].msgId && f[HEADER_SIZE..] == ms[i].payload
  {
    var fs := EncodeAll(ms);
    forall i | 0 <= i < |ms|
      ensures IsFrame(fs[i], 0) && MsgId(fs[i]) == ms[i].msgId && fs[i][HEADER_SIZE..] == ms[i].payload
    {
      assert ms[i] in ms;
      EncodeIsFrame(ms[i].msgId, ms[i].payload);
    }
    hide IsFrame, MsgId, EncodeAll;
    FramesRoundTrip(fs, 0);
    FeedIsParse(chunks, 0);
  }

  // ---------------------------------------------------------------- wrap-around

  /** One turn of the source's parse loop removes FrameLen bytes.  It makes progress exactly when
      the announced payload is not 2^32 - 8 bytes, and removes a header at least exactly when the
      sum does not wrap. */
  lemma ProgressIffNoWrap(s: Bytes)
    requires |s| >= HEADER_SIZE
    ensures FrameLen(s) == 0 <==> U32At(s, 4) == TWO_32 - HEADER_SIZE
    ensures FrameLen(s) >= HEADER_SIZE <==> U32At(s, 4) < TWO_32 - HEADER_SIZE
    ensures FrameLen(s) >= HEADER_SIZE ==> FrameLen(s) == HEADER_SIZE + U32At(s, 4)
  {
    var v := U32At(s, 4);
    if v < TWO_32 - HEADER_SIZE {
      assert (HEADER_SIZE + v) % TWO_32 == HEADER_SIZE + v;
    } else {
      assert (HEADER_SIZE + v) % TWO_32 == HEADER_SIZE + v - TWO_32;
    }
  }

  /** The stuck header itself: a turn of the loop on it removes no byte. */
  lemma StuckHeader()
    ensures var s: Bytes := [1, 0, 0, 0, 248, 255, 255, 255];
            FrameLen(s) == 0 && s[FrameLen(s)..] == s && Parse(s, 0).stop == Wrapped
  {
    var s: Bytes := [1, 0, 0, 0, 248, 255, 255, 255];
    assert U32At(s, 4) == TWO_32 - HEADER_SIZE;
    ProgressIffNoWrap(s);
  }
}
