/** The table of prebuilt messages: app/tcp_client/main.c, app/udp_client/main.c and
    app/thread/main.c all fill it with the same loop. */
module MessageTables {
  import opened Wire

  datatype Args = Args(uid: uint32, rounds: uint32, n: uint32, msgSize: uint32, intervalMs: uint32, cliWait: uint32) {
    /** The size test of `run`. */
    predicate LargeEnough() {
      HEADER_SIZE + DATA_SIZE <= msgSize
    }

    /** The assumption that the table's size fits a uint32. */
    predicate TableFits() {
      msgSize * n * rounds < TWO_32
    }

    predicate Fits() {
      LargeEnough() && TableFits()
    }

    function Total(): nat {
      n * rounds
    }
  }

  /** uint32 arithmetic: the mathematical result modulo 2^32. */
  function Wrap32(x: nat): uint32
  {
    x % TWO_32
  }

  lemma Exact(x: nat)
    requires x < TWO_32
    ensures Wrap32(x) == x
  {
  }

  /** k * ms, by recursion so that the solver sees no multiplication of two variables. */
  function Off(k: nat, ms: nat): (p: nat)
  {
    if k == 0 then 0 else Off(k - 1, ms) + ms
  }

  lemma {:induction false} OffIs(k: nat, ms: nat)
    ensures Off(k, ms) == k * ms
  {
    if k > 0 {
      OffIs(k - 1, ms);
    }
  }

  lemma {:induction false} OffMonotone(k: nat, count: nat, ms: nat)
    requires k < count
    ensures Off(k, ms) + ms == Off(k + 1, ms) <= Off(count, ms)
    decreases count
  {
    if k < count - 1 {
      OffMonotone(k, count - 1, ms);
    }
  }

  lemma {:induction false} OffAdd(j: nat, k: nat, ms: nat)
    ensures Off(j + k, ms) == Off(j, ms) + Off(k, ms)
  {
    if k > 0 {
      OffAdd(j, k - 1, ms);
    }
  }

  function Slot(a: Bytes, k: nat, ms: nat): (m: Bytes)
    requires Off(k, ms) + ms <= |a|
  {
    a[Off(k, ms)..Off(k, ms) + ms]
  }

  /** nb_msg_hdr_t followed by nb_msg_data_t: id 1, payload length, user id, sequence. */
  ghost predicate IsMessage(m: Bytes, ms: uint32, uid: uint32, seqno: nat)
  {
    && HEADER_SIZE + DATA_SIZE <= |m| == ms
    && U32At(m, 0) == 1 && U32At(m, 4) == ms - HEADER_SIZE
    && U32At(m, 8) == uid && U32At(m, 12) == seqno
  }

  ghost predicate SlotOk(a: Bytes, args: Args, k: nat)
  {
    && Off(k, args.msgSize) + args.msgSize <= |a|
    && IsMessage(Slot(a, k, args.msgSize), args.msgSize, args.uid, k)
  }

  ghost predicate FilledTo(a: Bytes, args: Args, i: nat)
  {
    forall k: nat | k < i :: SlotOk(a, args, k)
  }

  ghost predicate TableOk(a: Bytes, args: Args)
  {
    |a| == Off(args.Total(), args.msgSize) && FilledTo(a, args, args.Total())
  }

  /** A table entry is a frame for every receiver, with msg_id 1 and room for the data. */
  lemma MessageIsFrame(m: Bytes, ms: uint32, uid: uint32, seqno: nat)
    requires IsMessage(m, ms, uid, seqno)
    ensures IsFrame(m, 0) && MsgId(m) == 1
  {
    ProgressIffNoWrap(m);
  }

  /** The places that the clients and the thread producer compute are exact in uint32 and inside
      the allocation. */
  lemma OffsetsInside(args: Args, round: nat, i: nat)
    requires args.Fits() && round < args.rounds && i < args.n
    ensures var first, ms := round * args.n, args.msgSize;
            && first + i < args.Total() < TWO_32
            && Off(first + i, ms) + ms <= Off(args.Total(), ms) < TWO_32
            && Off(first + i, ms) == Off(first, ms) + Off(i, ms)
            && first * ms == Off(first, ms)
            && ms * (first + i) == Off(first + i, ms)
  {
    RoundInside(round, args.rounds, args.n);
    TableBytes(args);
    PlacesInside(args.Total(), args.msgSize, round * args.n, i);
  }

  lemma PlacesInside(total: nat, ms: nat, first: nat, i: nat)
    requires first + i < total
    ensures Off(first + i, ms) + ms <= Off(total, ms)
    ensures Off(first + i, ms) == Off(first, ms) + Off(i, ms)
    ensures first * ms == Off(first, ms)
    ensures ms * (first + i) == Off(first + i, ms)
  {
    OffMonotone(first + i, total, ms);
    OffAdd(first, i, ms);
    OffIs(first, ms);
    OffIs(first + i, ms);
  }

  lemma RoundInside(round: nat, rounds: nat, n: nat)
    requires round < rounds
    ensures round * n + n == (round + 1) * n <= n * rounds
  {
    OffIs(round, n);
    OffIs(round + 1, n);
    OffIs(rounds, n);
    OffMonotone(round, rounds, n);
  }

  lemma TableBytes(args: Args)
    requires args.Fits()
    ensures args.Total() <= Off(args.Total(), args.msgSize) == args.msgSize * args.n * args.rounds < TWO_32
  {
    OffIs(args.Total(), args.msgSize);
    Regroup(args.msgSize, args.n, args.rounds);
    OffGrows(args.Total(), args.msgSize);
  }

  lemma Regroup(x: nat, y: nat, z: nat)
    ensures x * y * z == y * z * x
  {
  }

  lemma {:induction false} OffGrows(k: nat, ms: nat)
    requires ms > 0
    ensures k <= Off(k, ms)
  {
    if k > 0 {
      OffGrows(k - 1, ms);
    }
  }

  function MessageHead(args: Args, seqno: uint32): (b: Bytes)
    requires args.Fits()
    ensures |b| == HEADER_SIZE + DATA_SIZE
  {
    U32Bytes(1) + U32Bytes(args.msgSize - HEADER_SIZE) + U32Bytes(args.uid) + U32Bytes(seqno)
  }

  lemma HeadMakesMessage(m: Bytes, args: Args, seqno: uint32)
    requires args.Fits() && |m| == args.msgSize && m[..HEADER_SIZE + DATA_SIZE] == MessageHead(args, seqno)
    ensures IsMessage(m, args.msgSize, args.uid, seqno)
  {
    var b0, b1, b2, b3 := U32Bytes(1), U32Bytes(args.msgSize - HEADER_SIZE), U32Bytes(args.uid), U32Bytes(seqno);
    Quarters(m, b0, b1, b2, b3);
    Stored(m, 0, 1);
    Stored(m, 4, args.msgSize - HEADER_SIZE);
    Stored(m, 8, args.uid);
    Stored(m, 12, seqno);
  }

  lemma Quarters(m: Bytes, b0: Bytes, b1: Bytes, b2: Bytes, b3: Bytes)
    requires |m| >= 16 && |b0| == |b1| == |b2| == |b3| == 4 && m[..16] == b0 + b1 + b2 + b3
    ensures m[0..4] == b0 && m[4..8] == b1 && m[8..12] == b2 && m[12..16] == b3
  {
    var b := b0 + b1 + b2 + b3;
    assert b[..4] == b0 && b[4..8] == b1 && b[8..12] == b2 && b[12..16] == b3;
    assert m[0..4] == m[..16][0..4] && m[4..8] == m[..16][4..8];
    assert m[8..12] == m[..16][8..12] && m[12..16] == m[..16][12..16];
  }

  lemma Stored(m: Bytes, i: nat, v: uint32)
    requires i + 4 <= |m| && m[i..i + 4] == U32Bytes(v)
    ensures U32At(m, i) == v
  {
    U32RoundTrip(v);
    U32Slice(m, i, i + 4, 0);
  }

  method WriteBytes(a: array<byte>, p: nat, b: Bytes)
    requires p + |b| <= a.Length
    modifies a
    ensures a[..] == old(a[..p]) + b + old(a[p + |b|..])
  {
    forall i | 0 <= i < |b| {
      a[p + i] := b[i];
    }
  }

  /** One turn of the fill loop. */
  method FillSlot(datas: array<byte>, args: Args, i: uint32, p: nat)
    requires args.Fits() && i < args.Total() < TWO_32 && p == Off(i, args.msgSize)
    requires p + args.msgSize <= datas.Length && FilledTo(datas[..], args, i)
    modifies datas
    ensures FilledTo(datas[..], args, i + 1)
  {
    hide SlotOk, U32Bytes, FilledTo, Off, Args.TableFits, Args.Total, MessageHead, IsMessage;
    ghost var before := datas[..];
    var head := MessageHead(args, i);
    WriteBytes(datas, p, head);
    HeadStored(before, datas[..], head, p, args.msgSize);
    OneMoreSlot(before, datas[..], args, i);
  }

  lemma HeadStored(before: Bytes, after: Bytes, head: Bytes, p: nat, ms: nat)
    requires |head| <= ms && p + ms <= |before| && after == before[..p] + head + before[p + |head|..]
    ensures |after| == |before| && after[..p] == before[..p] && after[p..p + ms][..|head|] == head
  {
  }

  /** The fill loop of `run`. */
  method Prefill(args: Args) returns (datas: array<byte>)
    requires args.Fits()
    ensures fresh(datas) && TableOk(datas[..], args)
  {
    hide SlotOk;
    var ms := args.msgSize;
    ghost var total := args.Total();
    TableBytes(args);
    Exact(ms * args.n * args.rounds);
    Exact(args.n * args.rounds);
    datas := new byte[Wrap32(ms * args.n * args.rounds)];
    hide Args.TableFits, Args.Total, Wrap32;
    var p, i, count := 0, 0, Wrap32(args.n * args.rounds);
    while i < count
      invariant 0 <= i <= total && p == Off(i, ms)
      invariant FilledTo(datas[..], args, i)
    {
      OffMonotone(i, total, ms);
      FillSlot(datas, args, i, p);
      p := p + ms;
      i := i + 1;
    }
  }

  lemma OneMoreSlot(before: Bytes, after: Bytes, args: Args, i: nat)
    requires args.Fits() && i < args.Total() < TWO_32 && FilledTo(before, args, i)
    requires Off(i, args.msgSize) + args.msgSize <= |before|
    requires |after| == |before| && after[..Off(i, args.msgSize)] == before[..Off(i, args.msgSize)]
    requires Slot(after, i, args.msgSize)[..HEADER_SIZE + DATA_SIZE] == MessageHead(args, i)
    ensures FilledTo(after, args, i + 1)
  {
    HeadMakesMessage(Slot(after, i, args.msgSize), args, i);
    forall k: nat | k < i + 1
      ensures SlotOk(after, args, k)
    {
      if k < i {
        OffMonotone(k, i, args.msgSize);
        SlotStays(before, after, Off(i, args.msgSize), k, args);
      }
    }
  }

  lemma SlotStays(a: Bytes, b: Bytes, p: nat, k: nat, args: Args)
    requires SlotOk(a, args, k) && Off(k, args.msgSize) + args.msgSize <= p <= |a|
    requires |b| == |a| && b[..p] == a[..p]
    ensures SlotOk(b, args, k)
  {
    var from, to := Off(k, args.msgSize), Off(k, args.msgSize) + args.msgSize;
    assert a[from..to] == a[..p][from..to] && b[from..to] == b[..p][from..to];
  }
}
