/** app/thread/main.c: a producer and a consumer thread, a bounded channel between them and a pool
    of message blocks that both use.  Every schedule of the two threads is a sequence of steps.  The
    channel's write is taken to wait while the channel is full, as its spin flag asks: the source
    ignores the return value. */
module ThreadPipe {
  import opened Wire
  import opened BytesBuffers
  import opened MessageTables

  datatype Config = Config(args: Args, table: Bytes, capacity: nat, pool: nat) {
    ghost predicate Sane() {
      args.Fits() && TableOk(table, args) && args.n >= 1 && 1 <= capacity
    }

    ghost predicate Ok() {
      Sane() && capacity + 2 <= pool
    }

    ghost function Message(k: nat): Bytes
      requires Ok() && k < args.Total()
    {
      assert SlotOk(table, args, k);
      Slot(table, k, args.msgSize)
    }
  }

  /** The configuration of `run`: 8 channel slots and 16 blocks a message of a round, in uint32. */
  function Chosen(args: Args, table: Bytes): Config
  {
    Config(args, table, Wrap32(args.n * 8), Wrap32(args.n * 16))
  }

  const HALF: nat := 0x1000_0000

  /** Which numbers per round give sizes that are enough, in uint32: exactly those that lie in the
      lower half of their 2^29 block and are not its first.  As soon as there is one round, a table
      that fits makes the number small enough. */
  lemma SizesSuffice(args: Args, table: Bytes)
    requires args.Fits() && TableOk(table, args) && args.n >= 1
    ensures Chosen(args, table).Ok() <==> 1 <= args.n % (2 * HALF) < HALF
    ensures args.rounds >= 1 ==> Chosen(args, table).Ok()
  {
    WrappedProducts(args.n);
    HalfBlocks(args.n);
    if args.rounds >= 1 {
      OneRoundBounds(args);
    }
    hide Args.Fits, TableOk, Wrap32;
  }

  lemma WrappedProducts(n: nat)
    ensures Wrap32(n * 8) == 8 * (n % (2 * HALF))
    ensures Wrap32(n * 16) == 16 * (n % HALF)
  {
    Reduce(8 * n, n / (2 * HALF), 8 * (n % (2 * HALF)));
    Reduce(16 * n, n / HALF, 16 * (n % HALF));
  }

  lemma HalfBlocks(n: nat)
    ensures n % HALF == if n % (2 * HALF) < HALF then n % (2 * HALF) else n % (2 * HALF) - HALF
    ensures n < HALF ==> n % (2 * HALF) == n
  {
  }

  lemma Reduce(x: nat, q: nat, r: nat)
    requires x == q * TWO_32 + r && r < TWO_32
    ensures Wrap32(x) == r
  {
  }

  lemma OneRoundBounds(args: Args)
    requires args.Fits() && args.rounds >= 1
    ensures args.n < HALF
  {
    RoundInside(0, args.rounds, args.n);
    TableBytes(args);
    OffAtLeast(args.Total(), args.msgSize);
  }

  lemma {:induction false} OffAtLeast(k: nat, ms: nat)
    requires ms >= HEADER_SIZE + DATA_SIZE
    ensures Off(k, ms) >= 16 * k
  {
    if k > 0 {
      OffAtLeast(k - 1, ms);
    }
  }

  /** With no round at all the products may wrap: 2^29 messages a round give a channel of size 0. */
  lemma WrappedSizes(args: Args, table: Bytes)
    requires args.Fits() && TableOk(table, args) && args.n == 2 * HALF
    ensures Chosen(args, table).capacity == 0 && args.rounds == 0 && !Chosen(args, table).Ok()
  {
    SizesSuffice(args, table);
  }

  datatype Producer = AtAlloc | AtCopy(block: nat) | AtPush(block: nat) | AtSentinel | AtJoin | Done | Crashed
  datatype Consumer = AtRead | AtRecord(block: nat) | AtFree(block: nat) | Exited

  datatype State = State(
    p: Producer, round: nat, i: nat,       // the producer and its two loop counters
    c: Consumer,
    chan: seq<Option<nat>>,                // None is the NULL sentinel
    free: set<nat>, mem: map<nat, Bytes>,  // the pool and what its blocks hold
    received: seq<Bytes>,                  // what the consumer has recorded
    allocs: seq<nat>, frees: seq<nat>)     // the blocks taken and given back, in order

  datatype Step = Alloc(block: nat) | AllocFails | Copy | Push | PushSentinel | Join | Read | Note | Free

  function Blocks(pool: nat): set<nat>
  {
    if pool == 0 then {} else Blocks(pool - 1) + {pool - 1}
  }

  lemma {:induction false} BlocksAre(pool: nat)
    ensures |Blocks(pool)| == pool && forall b: nat :: b in Blocks(pool) <==> b < pool
  {
    if pool > 0 {
      BlocksAre(pool - 1);
    }
  }

  function Start(cfg: Config): State
  {
    State(if cfg.args.rounds == 0 then AtSentinel else AtAlloc, 0, 0, AtRead, [], Blocks(cfg.pool), map[], [], [], [])
  }

  /** The sequence number that the producer computes from its loop counters. */
  function Pos(cfg: Config, s: State): nat
  {
    Off(s.round, cfg.args.n) + s.i
  }

  predicate Enabled(cfg: Config, s: State, t: Step)
  {
    match t
    case Alloc(b) => s.p.AtAlloc? && b in s.free
    case AllocFails => s.p.AtAlloc? && s.free == {}
    case Copy => s.p.AtCopy? && Off(Pos(cfg, s), cfg.args.msgSize) + cfg.args.msgSize <= |cfg.table|
    case Push => s.p.AtPush? && |s.chan| < cfg.capacity
    case PushSentinel => s.p.AtSentinel? && |s.chan| < cfg.capacity
    case Join => s.p.AtJoin? && s.c.Exited?
    case Read => s.c.AtRead? && s.chan != []
    case Note => s.c.AtRecord? && s.c.block in s.mem
    case Free => s.c.AtFree?
  }

  /** The producer's counters after one message: the inner loop, then the outer one. */
  function Advance(cfg: Config, s: State): State
  {
    if s.i + 1 < cfg.args.n then s.(i := s.i + 1, p := AtAlloc)
    else s.(i := 0, round := s.round + 1, p := if s.round + 1 < cfg.args.rounds then AtAlloc else AtSentinel)
  }

  function Do(cfg: Config, s: State, t: Step): State
    requires Enabled(cfg, s, t)
  {
    match t
    case Alloc(b) => s.(p := AtCopy(b), free := s.free - {b}, allocs := s.allocs + [b])
    case AllocFails => s.(p := Crashed)
    case Copy => s.(p := AtPush(s.p.block), mem := s.mem[s.p.block := Slot(cfg.table, Pos(cfg, s), cfg.args.msgSize)])
    case Push => Advance(cfg, s.(chan := s.chan + [Some(s.p.block)]))
    case PushSentinel => s.(p := AtJoin, chan := s.chan + [None])
    case Join => s.(p := Done)
    case Read => s.(c := if s.chan[0].Some? then AtRecord(s.chan[0].value) else Exited, chan := s.chan[1..])
    case Note => s.(c := AtFree(s.c.block), received := s.received + [s.mem[s.c.block]])
    case Free => s.(c := AtRead, free := s.free + {s.c.block}, frees := s.frees + [s.c.block])
  }

  function After(cfg: Config, ts: seq<Step>): State
    decreases |ts|
  {
    if ts == [] then Start(cfg)
    else
      var s, t := After(cfg, ts[..|ts| - 1]), ts[|ts| - 1];
      if Enabled(cfg, s, t) then Do(cfg, s, t) else s
  }

  /** A schedule is a sequence of steps each of which is enabled when it is taken. */
  predicate Schedule(cfg: Config, ts: seq<Step>)
    decreases |ts|
  {
    ts == [] || (Schedule(cfg, ts[..|ts| - 1]) && Enabled(cfg, After(cfg, ts[..|ts| - 1]), ts[|ts| - 1]))
  }

  // ---------------------------------------------------------------- the invariant

  function Held(c: Consumer): seq<nat>
  {
    if c.AtRecord? || c.AtFree? then [c.block] else []
  }

  function Making(p: Producer): seq<nat>
  {
    if p.AtCopy? || p.AtPush? then [p.block] else []
  }

  function Queued(chan: seq<Option<nat>>): (bs: seq<nat>)
  {
    if chan == [] then [] else (if chan[0].Some? then [chan[0].value] else []) + Queued(chan[1..])
  }

  lemma {:induction false} QueuedSnoc(chan: seq<Option<nat>>, x: Option<nat>)
    ensures Queued(chan + [x]) == Queued(chan) + if x.Some? then [x.value] else []
    ensures |Queued(chan)| <= |chan|
  {
    if chan != [] {
      assert (chan + [x])[1..] == chan[1..] + [x];
      QueuedSnoc(chan[1..], x);
    }
  }

  /** The blocks in use: the consumer's, those in the channel, the producer's. */
  function InUse(s: State): seq<nat>
  {
    Held(s.c) + Queued(s.chan) + Making(s.p)
  }

  ghost predicate Distinct(bs: seq<nat>)
  {
    forall i, j | 0 <= i < j < |bs| :: bs[i] != bs[j]
  }

  ghost predicate LoopInv(cfg: Config, s: State)
  {
    match s.p
    case AtAlloc => s.round < cfg.args.rounds && s.i < cfg.args.n
    case AtCopy(_) => s.round < cfg.args.rounds && s.i < cfg.args.n
    case AtPush(_) => s.round < cfg.args.rounds && s.i < cfg.args.n
    case Crashed => false
    case _ => s.round == cfg.args.rounds && s.i == 0
  }

  /** Blocks are taken and given back in the same order; those in use are distinct and, with the
      free ones, make up the pool. */
  ghost predicate PoolInv(cfg: Config, s: State)
  {
    && s.allocs == s.frees + InUse(s)
    && |s.allocs| == Pos(cfg, s) + |Making(s.p)|
    && Distinct(InUse(s))
    && (forall b :: b in InUse(s) <==> b in Blocks(cfg.pool) && b !in s.free)
    && s.free <= Blocks(cfg.pool)
  }

  /** The NULL is last, and there from PushSentinel until the consumer reads it. */
  ghost predicate ChanInv(cfg: Config, s: State)
  {
    && |s.chan| <= cfg.capacity
    && (forall j | 0 <= j < |s.chan| && s.chan[j].None? :: j == |s.chan| - 1 && s.p.AtJoin?)
    && (s.p.AtJoin? && !s.c.Exited? ==> s.chan != [] && s.chan[|s.chan| - 1].None?)
    && (s.c.Exited? ==> s.chan == [] && (s.p.AtJoin? || s.p.Done?))
    && (s.p.Done? ==> s.c.Exited?)
  }

  /** From its copy until its block is freed, message k sits unchanged in the k-th block taken. */
  ghost predicate DataInv(cfg: Config, s: State)
    requires cfg.Ok()
  {
    && |s.frees| <= |s.allocs| <= cfg.args.Total()
    && (forall k: nat | |s.frees| <= k < |s.allocs| && !(s.p.AtCopy? && k == |s.allocs| - 1) ::
          s.allocs[k] in s.mem && s.mem[s.allocs[k]] == cfg.Message(k))
    && |s.received| == |s.frees| + (if s.c.AtFree? then 1 else 0) <= cfg.args.Total()
    && (forall k: nat | k < |s.received| :: s.received[k] == cfg.Message(k))
  }

  ghost predicate Inv(cfg: Config, s: State)
    requires cfg.Ok()
  {
    LoopInv(cfg, s) && PoolInv(cfg, s) && ChanInv(cfg, s) && DataInv(cfg, s)
  }

  // ---------------------------------------------------------------- preservation, part by part

  lemma NextPos(cfg: Config, s: State)
    requires cfg.args.n >= 1 && s.i < cfg.args.n && s.round < cfg.args.rounds
    ensures var s' := Advance(cfg, s);
            && Pos(cfg, s') == Pos(cfg, s) + 1
            && (if s'.p.AtAlloc? then s'.round < cfg.args.rounds && s'.i < cfg.args.n
                else s'.p.AtSentinel? && s'.round == cfg.args.rounds && s'.i == 0)
  {
  }

  lemma PosInside(cfg: Config, s: State)
    requires cfg.Sane() && s.round < cfg.args.rounds && s.i < cfg.args.n
    ensures Pos(cfg, s) < cfg.args.Total()
  {
    OffIs(s.round, cfg.args.n);
    OffsetsInside(cfg.args, s.round, s.i);
  }

  lemma LoopStep(cfg: Config, s: State, t: Step)
    requires cfg.Sane() && Enabled(cfg, s, t) && LoopInv(cfg, s) && !t.AllocFails?
    ensures LoopInv(cfg, Do(cfg, s, t))
  {
    if t.Push? {
      NextPos(cfg, s);
    }
  }

  lemma ChanStep(cfg: Config, s: State, t: Step)
    requires Enabled(cfg, s, t) && ChanInv(cfg, s)
    ensures ChanInv(cfg, Do(cfg, s, t))
  {
  }

  /** A block moves on between producer, channel and consumer. */
  lemma PoolSame(cfg: Config, s: State, s': State)
    requires PoolInv(cfg, s) && InUse(s') == InUse(s)
    requires s'.allocs == s.allocs && s'.frees == s.frees && s'.free == s.free
    requires |s'.allocs| == Pos(cfg, s') + |Making(s'.p)|
    ensures PoolInv(cfg, s')
  {
  }

  lemma PoolTakes(cfg: Config, s: State, b: nat)
    requires PoolInv(cfg, s) && Enabled(cfg, s, Alloc(b))
    ensures PoolInv(cfg, Do(cfg, s, Alloc(b)))
  {
    hide Off, Blocks;
    var s' := Do(cfg, s, Alloc(b));
    assert InUse(s') == InUse(s) + [b];
    assert s.frees + (InUse(s) + [b]) == (s.frees + InUse(s)) + [b];
    assert b !in InUse(s);
    forall x ensures x in InUse(s') <==> x in Blocks(cfg.pool) && x !in s'.free {
      assert x in InUse(s') <==> x in InUse(s) || x == b;
    }
  }

  lemma HeadIsApart(b: nat, rest: seq<nat>)
    requires Distinct([b] + rest)
    ensures b !in rest && Distinct(rest)
  {
    var all := [b] + rest;
    forall j | 0 <= j < |rest| ensures rest[j] != b {
      assert all[0] == b && all[j + 1] == rest[j];
    }
    forall i, j | 0 <= i < j < |rest| ensures rest[i] != rest[j] {
      assert all[i + 1] == rest[i] && all[j + 1] == rest[j];
    }
  }

  lemma PoolGivesBack(cfg: Config, s: State)
    requires PoolInv(cfg, s) && Enabled(cfg, s, Free)
    ensures PoolInv(cfg, Do(cfg, s, Free))
  {
    hide Off, Blocks;
    var s', b := Do(cfg, s, Free), s.c.block;
    assert InUse(s) == [b] + InUse(s');
    assert s.frees + ([b] + InUse(s')) == (s.frees + [b]) + InUse(s');
    HeadIsApart(b, InUse(s'));
    assert b in InUse(s);
    forall x ensures x in InUse(s') <==> x in Blocks(cfg.pool) && x !in s'.free {
      assert x in InUse(s) <==> x in InUse(s') || x == b;
    }
  }

  lemma PoolMoves(cfg: Config, s: State, t: Step)
    requires Enabled(cfg, s, t) && PoolInv(cfg, s) && (t.Copy? || t.PushSentinel? || t.Join? || t.Read? || t.Note?)
    ensures PoolInv(cfg, Do(cfg, s, t))
  {
    hide Off;
    QueuedSnoc(s.chan, None);
    var s' := Do(cfg, s, t);
    assert InUse(s') == InUse(s);
    PoolSame(cfg, s, s');
  }

  lemma PoolPush(cfg: Config, s: State)
    requires cfg.args.n >= 1 && Enabled(cfg, s, Push) && PoolInv(cfg, s) && LoopInv(cfg, s)
    ensures PoolInv(cfg, Do(cfg, s, Push))
  {
    NextPos(cfg, s);
    hide Off;
    QueuedSnoc(s.chan, Some(s.p.block));
    var s' := Do(cfg, s, Push);
    assert InUse(s') == InUse(s);
    PoolSame(cfg, s, s');
  }

  lemma PoolStep(cfg: Config, s: State, t: Step)
    requires cfg.args.n >= 1 && Enabled(cfg, s, t) && PoolInv(cfg, s) && LoopInv(cfg, s) && !t.AllocFails?
    ensures PoolInv(cfg, Do(cfg, s, t))
  {
    hide PoolInv, LoopInv, Do;
    if t.Alloc? {
      PoolTakes(cfg, s, t.block);
    } else if t.Free? {
      PoolGivesBack(cfg, s);
    } else if t.Push? {
      PoolPush(cfg, s);
    } else {
      PoolMoves(cfg, s, t);
    }
  }

  /** The j-th block in use is the one that message |frees| + j was copied to. */
  lemma UsedBlock(cfg: Config, s: State, j: nat)
    requires PoolInv(cfg, s) && j < |InUse(s)|
    ensures |s.frees| + j < |s.allocs| && s.allocs[|s.frees| + j] == InUse(s)[j]
  {
  }

  lemma UsedBlocksDiffer(cfg: Config, s: State, k: nat, l: nat)
    requires PoolInv(cfg, s) && |s.frees| <= k < l < |s.allocs|
    ensures s.allocs[k] != s.allocs[l]
  {
    UsedBlock(cfg, s, k - |s.frees|);
    UsedBlock(cfg, s, l - |s.frees|);
  }

  lemma DataAlloc(cfg: Config, s: State, b: nat)
    requires cfg.Ok() && Inv(cfg, s) && Enabled(cfg, s, Alloc(b))
    ensures DataInv(cfg, Do(cfg, s, Alloc(b)))
  {
    PosInside(cfg, s);
    hide Config.Ok, Config.Message, Off;
  }

  lemma DataCopy(cfg: Config, s: State)
    requires cfg.Ok() && Inv(cfg, s) && Enabled(cfg, s, Copy)
    ensures DataInv(cfg, Do(cfg, s, Copy))
  {
    var s', b, last := Do(cfg, s, Copy), s.p.block, |s.allocs| - 1;
    PosInside(cfg, s);
    UsedBlock(cfg, s, |InUse(s)| - 1);
    assert last == Pos(cfg, s) && s.allocs[last] == b;
    assert s'.mem[b] == cfg.Message(last);
    hide Config.Ok, Config.Message, Off, LoopInv, ChanInv, InUse;
    forall k: nat | |s'.frees| <= k < |s'.allocs|
      ensures s'.allocs[k] in s'.mem && s'.mem[s'.allocs[k]] == cfg.Message(k)
    {
      if k < last {
        UsedBlocksDiffer(cfg, s, k, last);
      }
    }
  }

  lemma DataNote(cfg: Config, s: State)
    requires cfg.Ok() && Inv(cfg, s) && Enabled(cfg, s, Note)
    ensures DataInv(cfg, Do(cfg, s, Note))
  {
    UsedBlock(cfg, s, 0);
    assert |InUse(s)| == 1 + |Queued(s.chan)| + |Making(s.p)|;
    hide Config.Ok, Config.Message, Off, LoopInv, ChanInv;
    var s', k := Do(cfg, s, Note), |s.frees|;
    assert s.allocs[k] == s.c.block;
    assert !(s.p.AtCopy? && k == |s.allocs| - 1);
    assert s'.received == s.received + [cfg.Message(k)];
  }

  lemma DataSame(cfg: Config, s: State, s': State)
    requires cfg.Ok() && DataInv(cfg, s)
    requires s'.allocs == s.allocs && s'.frees == s.frees && s'.mem == s.mem && s'.received == s.received
    requires s'.c.AtFree? == s.c.AtFree? && s'.p.AtCopy? == s.p.AtCopy?
    ensures DataInv(cfg, s')
  {
  }

  lemma DataFree(cfg: Config, s: State)
    requires cfg.Ok() && DataInv(cfg, s) && PoolInv(cfg, s) && Enabled(cfg, s, Free)
    ensures DataInv(cfg, Do(cfg, s, Free))
  {
    UsedBlock(cfg, s, 0);
    hide Config.Ok, Config.Message, Off, PoolInv;
  }

  lemma DataRest(cfg: Config, s: State, t: Step)
    requires cfg.Ok() && Inv(cfg, s) && Enabled(cfg, s, t)
    requires t.Push? || t.PushSentinel? || t.Join? || t.Read? || t.Free?
    ensures DataInv(cfg, Do(cfg, s, t))
  {
    hide Config.Ok, DataInv, Off, LoopInv, ChanInv, PoolInv;
    if t.Free? {
      DataFree(cfg, s);
    } else {
      DataSame(cfg, s, Do(cfg, s, t));
    }
  }

  lemma InvStep(cfg: Config, s: State, t: Step)
    requires cfg.Ok() && Inv(cfg, s) && Enabled(cfg, s, t) && !t.AllocFails?
    ensures Inv(cfg, Do(cfg, s, t))
  {
    LoopStep(cfg, s, t);
    ChanStep(cfg, s, t);
    PoolStep(cfg, s, t);
    hide LoopInv, ChanInv, PoolInv, Do;
    if t.Alloc? {
      DataAlloc(cfg, s, t.block);
    } else if t.Copy? {
      DataCopy(cfg, s);
    } else if t.Note? {
      DataNote(cfg, s);
    } else {
      DataRest(cfg, s, t);
    }
  }

  // ---------------------------------------------------------------- the pool never runs dry

  lemma {:induction false} DistinctSize(bs: seq<nat>) returns (all: set<nat>)
    requires Distinct(bs)
    ensures |all| == |bs| && forall b :: b in all <==> b in bs
  {
    if bs == [] {
      all := {};
    } else {
      assert bs == [bs[0]] + bs[1..];
      HeadIsApart(bs[0], bs[1..]);
      var rest := DistinctSize(bs[1..]);
      all := rest + {bs[0]};
    }
  }

  /** Blocks are conserved: free ones and those in use always add up to the pool; and those in use
      are at most the channel's capacity and one for each thread. */
  lemma PoolIsConserved(cfg: Config, s: State)
    requires PoolInv(cfg, s) && |s.chan| <= cfg.capacity
    ensures |s.free| + |InUse(s)| == cfg.pool
    ensures |InUse(s)| <= cfg.capacity + |Held(s.c)| + |Making(s.p)|
  {
    QueuedSnoc(s.chan, None);
    BlocksAre(cfg.pool);
    var used := DistinctSize(InUse(s));
    hide InUse, Blocks, Distinct;
    assert used !! s.free;
    assert Blocks(cfg.pool) == used + s.free;
  }

  lemma AllocNeverFails(cfg: Config, s: State)
    requires cfg.Ok() && Inv(cfg, s)
    ensures !Enabled(cfg, s, AllocFails)
  {
    PoolIsConserved(cfg, s);
  }

  // ---------------------------------------------------------------- every schedule

  lemma {:induction false} InvRun(cfg: Config, ts: seq<Step>)
    requires cfg.Ok()
    ensures Inv(cfg, After(cfg, ts))
    decreases |ts|
  {
    if ts == [] {
      InvStart(cfg);
    } else {
      var s, t := After(cfg, ts[..|ts| - 1]), ts[|ts| - 1];
      InvRun(cfg, ts[..|ts| - 1]);
      AllocNeverFails(cfg, s);
      if Enabled(cfg, s, t) {
        InvStep(cfg, s, t);
      }
    }
  }

  lemma InvStart(cfg: Config)
    requires cfg.Ok()
    ensures Inv(cfg, Start(cfg))
  {
    BlocksAre(cfg.pool);
  }

  /** Safety, in every schedule: the allocation never fails, at most capacity + 2 blocks are in use,
      blocks are given back in the order in which they were taken and never twice while in use, and
      what the consumer has recorded is the producer's messages 0, 1, 2, .. in order. */
  lemma EverySchedule(cfg: Config, ts: seq<Step>)
    requires cfg.Ok()
    ensures var s := After(cfg, ts);
            && !s.p.Crashed? && !Enabled(cfg, s, AllocFails)
            && |s.free| + |InUse(s)| == cfg.pool && |InUse(s)| <= cfg.capacity + 2
            && s.frees <= s.allocs && Distinct(InUse(s)) && s.free <= Blocks(cfg.pool)
            && |s.received| <= cfg.args.Total()
            && (forall k: nat | k < |s.received| :: s.received[k] == cfg.Message(k))
  {
    InvRun(cfg, ts);
    PoolIsConserved(cfg, After(cfg, ts));
    AllocNeverFails(cfg, After(cfg, ts));
  }

  /** The producer's `seq` and `offset`, in uint32 arithmetic. */
  function SeqOf(args: Args, round: nat, i: nat): uint32
  {
    Wrap32(round * args.n + i)
  }

  function OffsetOf(args: Args, round: nat, i: nat): uint32
  {
    Wrap32(args.msgSize * SeqOf(args, round, i))
  }

  lemma PlacesExact(args: Args, round: nat, i: nat)
    requires args.Fits() && round < args.rounds && i < args.n
    ensures SeqOf(args, round, i) == Off(round, args.n) + i
    ensures OffsetOf(args, round, i) == Off(SeqOf(args, round, i), args.msgSize)
  {
    OffsetsInside(args, round, i);
    OffIs(round, args.n);
    Exact(round * args.n + i);
    Exact(args.msgSize * (round * args.n + i));
  }

  /** Before every message, in every schedule: the uint32 sequence and offset that the producer
      computes are exact, and the table entry there carries the user id and that sequence, so its
      two assertions hold. */
  lemma ProducerAssertionsHold(cfg: Config, ts: seq<Step>)
    requires cfg.Ok() && After(cfg, ts).p.AtAlloc?
    ensures var s := After(cfg, ts);
            var seqno, offset := SeqOf(cfg.args, s.round, s.i), OffsetOf(cfg.args, s.round, s.i);
            && seqno == Pos(cfg, s) && offset + cfg.args.msgSize <= |cfg.table|
            && IsMessage(cfg.table[offset..offset + cfg.args.msgSize], cfg.args.msgSize, cfg.args.uid, seqno)
  {
    InvRun(cfg, ts);
    EntryAt(cfg, After(cfg, ts));
  }

  lemma EntryAt(cfg: Config, s: State)
    requires cfg.Sane() && s.round < cfg.args.rounds && s.i < cfg.args.n
    ensures var seqno, offset := SeqOf(cfg.args, s.round, s.i), OffsetOf(cfg.args, s.round, s.i);
            && seqno == Pos(cfg, s) && offset + cfg.args.msgSize <= |cfg.table|
            && IsMessage(cfg.table[offset..offset + cfg.args.msgSize], cfg.args.msgSize, cfg.args.uid, seqno)
  {
    PosInside(cfg, s);
    PlacesExact(cfg.args, s.round, s.i);
    hide IsMessage, SeqOf, OffsetOf, Off;
    assert SlotOk(cfg.table, cfg.args, Pos(cfg, s));
  }

  /** No block is overwritten while it waits in the channel or is held by the consumer. */
  lemma NoOverwriteInFlight(cfg: Config, ts: seq<Step>, t: Step, b: nat)
    requires cfg.Ok() && Enabled(cfg, After(cfg, ts), t)
    requires var s := After(cfg, ts); b in Held(s.c) + Queued(s.chan)
    ensures var s := After(cfg, ts);
            b in s.mem && b in Do(cfg, s, t).mem && Do(cfg, s, t).mem[b] == s.mem[b]
  {
    var s := After(cfg, ts);
    InvRun(cfg, ts);
    var waiting := Held(s.c) + Queued(s.chan);
    var j :| 0 <= j < |waiting| && waiting[j] == b;
    assert InUse(s)[j] == b && |InUse(s)| == |waiting| + |Making(s.p)|;
    UsedBlock(cfg, s, j);
    if t.Copy? {
      assert InUse(s)[|waiting|] == s.p.block;
    }
  }

  /** When the producer has joined the consumer: every message was recorded once and in order, every
      block taken was given back, and the pool that is destroyed is full. */
  lemma CompletedSchedule(cfg: Config, ts: seq<Step>)
    requires cfg.Ok() && After(cfg, ts).p.Done?
    ensures var s := After(cfg, ts);
            && s.received == seq(cfg.args.Total(), k requires 0 <= k < cfg.args.Total() => cfg.Message(k))
            && s.frees == s.allocs && |s.frees| == cfg.args.Total()
            && s.chan == [] && s.free == Blocks(cfg.pool)
  {
    var s := After(cfg, ts);
    InvRun(cfg, ts);
    OffIs(cfg.args.rounds, cfg.args.n);
    assert InUse(s) == [];
    assert s.frees + [] == s.frees;
    assert Pos(cfg, s) == cfg.args.Total();
  }

  /** What is left to do: three producer and three consumer steps a message, the NULL's write and
      read, and the join. */
  function Left(cfg: Config, s: State): int
  {
    3 * (cfg.args.Total() - Pos(cfg, s)) - (if s.p.AtCopy? then 1 else if s.p.AtPush? then 2 else 0)
    + (if s.p.AtJoin? then 1 else if s.p.Done? then 0 else 2)
    + 3 * (cfg.args.Total() - |s.frees|) - (if s.c.AtRecord? then 1 else if s.c.AtFree? then 2 else 0)
    + (if s.c.Exited? then 0 else 1)
  }

  lemma StepMakesProgress(cfg: Config, s: State, t: Step)
    requires cfg.Ok() && Inv(cfg, s) && Enabled(cfg, s, t) && !t.AllocFails?
    ensures Left(cfg, Do(cfg, s, t)) == Left(cfg, s) - 1
  {
    hide Off, Config.Ok, PoolInv, DataInv;
    if t.Push? {
      assert cfg.args.n >= 1 by { ConfigHasN(cfg); }
      NextPos(cfg, s);
    }
  }

  lemma ConfigHasN(cfg: Config)
    requires cfg.Ok()
    ensures cfg.args.n >= 1 && cfg.capacity >= 1
  {
  }

  /** The two threads never block each other: until the end some step is enabled. */
  lemma NoDeadlock(cfg: Config, ts: seq<Step>) returns (t: Step)
    requires cfg.Ok() && !After(cfg, ts).p.Done?
    ensures Enabled(cfg, After(cfg, ts), t)
  {
    var s := After(cfg, ts);
    InvRun(cfg, ts);
    if s.c.AtRecord? {
      t := Note;
      UsedBlock(cfg, s, 0);
      assert |InUse(s)| == 1 + |Queued(s.chan)| + |Making(s.p)|;
    } else if s.c.AtFree? {
      t := Free;
    } else if s.c.AtRead? && s.chan != [] {
      t := Read;
    } else {
      match s.p
      case AtAlloc =>
        AllocNeverFails(cfg, s);
        var b :| b in s.free;
        t := Alloc(b);
      case AtCopy(_) =>
        t := Copy;
        PosInside(cfg, s);
        assert SlotOk(cfg.table, cfg.args, Pos(cfg, s));
      case AtPush(_) => t := Push;
      case AtSentinel => t := PushSentinel;
      case AtJoin => t := Join;
  }
  }

  /** Every schedule ends: it has at most 6 * N + 3 steps for N messages, and exactly that many once
      it can go no further, when the producer is done. */
  lemma {:induction false} ScheduleLength(cfg: Config, ts: seq<Step>)
    requires cfg.Ok() && Schedule(cfg, ts)
    ensures |ts| + Left(cfg, After(cfg, ts)) == 6 * cfg.args.Total() + 3
    decreases |ts|
  {
    if ts == [] {
    } else {
      var s, t := After(cfg, ts[..|ts| - 1]), ts[|ts| - 1];
      ScheduleLength(cfg, ts[..|ts| - 1]);
      InvRun(cfg, ts[..|ts| - 1]);
      AllocNeverFails(cfg, s);
      StepMakesProgress(cfg, s, t);
    }
  }

  lemma EveryScheduleEnds(cfg: Config, ts: seq<Step>)
    requires cfg.Ok() && Schedule(cfg, ts)
    ensures |ts| <= 6 * cfg.args.Total() + 3
    ensures After(cfg, ts).p.Done? <==> |ts| == 6 * cfg.args.Total() + 3
    ensures After(cfg, ts).p.Done? <==> forall t :: !Enabled(cfg, After(cfg, ts), t)
  {
    ScheduleLength(cfg, ts);
    InvRun(cfg, ts);
    var s := After(cfg, ts);
    LeftIsZeroIff(cfg, s);
    if !s.p.Done? {
      var t := NoDeadlock(cfg, ts);
    }
  }

  lemma LeftIsZeroIff(cfg: Config, s: State)
    requires cfg.Ok() && Inv(cfg, s)
    ensures Left(cfg, s) >= 0 && (Left(cfg, s) == 0 <==> s.p.Done?)
    ensures s.p.Done? ==> forall t :: !Enabled(cfg, s, t)
  {
    OffIs(cfg.args.rounds, cfg.args.n);
    if s.round < cfg.args.rounds && s.i < cfg.args.n {
      PosInside(cfg, s);
    }
    assert |InUse(s)| == |Held(s.c)| + |Queued(s.chan)| + |Making(s.p)|;
  }

  // ---------------------------------------------------------------- the size is tight

  /** The consumer holds the first block and has not moved since; the producer has filled k. */
  ghost predicate Filling(cfg: Config, s: State, k: nat)
  {
    && s.p.AtAlloc? && s.round < cfg.args.rounds && s.i < cfg.args.n && Pos(cfg, s) == k
    && |s.free| == cfg.pool - k
    && (if k == 0 then s.c.AtRead? && s.chan == [] else s.c.AtRecord? && |s.chan| == k - 1)
  }

  lemma AfterSnoc(cfg: Config, ts: seq<Step>, t: Step)
    requires Schedule(cfg, ts) && Enabled(cfg, After(cfg, ts), t)
    ensures Schedule(cfg, ts + [t]) && After(cfg, ts + [t]) == Do(cfg, After(cfg, ts), t)
  {
    assert (ts + [t])[..|ts|] == ts;
  }

  /** The producer's three steps for one message while the consumer sleeps. */
  lemma FillSteps(cfg: Config, s: State, b: nat, k: nat)
    requires cfg.Sane() && cfg.pool < cfg.args.Total() && k < cfg.pool <= cfg.capacity + 1
    requires Filling(cfg, s, k) && b in s.free
    ensures Enabled(cfg, s, Alloc(b))
    ensures var s1 := Do(cfg, s, Alloc(b));
            && Enabled(cfg, s1, Copy)
            && var s2 := Do(cfg, s1, Copy);
            && Enabled(cfg, s2, Push)
            && var s3 := Do(cfg, s2, Push);
            && (k > 0 ==> Filling(cfg, s3, k + 1))
            && (k == 0 ==> Enabled(cfg, s3, Read) && Filling(cfg, Do(cfg, s3, Read), 1))
  {
    assert cfg.capacity >= 1;
    hide Off, Pos, Advance, Config.Sane, Args.Total;
    FillPlace(cfg, s, k);
    var s1 := Do(cfg, s, Alloc(b));
    SamePlace(cfg, s, s1);
    var s2 := Do(cfg, s1, Copy);
    SamePlace(cfg, s, s2.(chan := s2.chan + [Some(b)]));
    var s3 := Do(cfg, s2, Push);
    SamePlace(cfg, Advance(cfg, s), s3);
    SamePlace(cfg, s3, s3.(c := AtRecord(b), chan := []));
    assert |s1.free| == |s.free| - 1;
    if k == 0 {
      assert s3.chan == [Some(b)] && s3.chan[1..] == [];
    }
  }

  /** The message's place in the table, and the counters after it. */
  lemma FillPlace(cfg: Config, s: State, k: nat)
    requires cfg.Sane() && k + 1 < cfg.args.Total() && Filling(cfg, s, k)
    ensures Off(Pos(cfg, s), cfg.args.msgSize) + cfg.args.msgSize <= |cfg.table|
    ensures var s' := Advance(cfg, s);
            s'.p.AtAlloc? && s'.round < cfg.args.rounds && s'.i < cfg.args.n && Pos(cfg, s') == k + 1
  {
    hide Off, Config.Sane, Args.Total, Advance;
    PlaceInTable(cfg, k);
    NextPos(cfg, s);
    AllPlaced(cfg);
    if Advance(cfg, s).p.AtSentinel? {
      assert false;
    }
  }

  lemma PlaceInTable(cfg: Config, k: nat)
    requires cfg.Sane() && k < cfg.args.Total()
    ensures Off(k, cfg.args.msgSize) + cfg.args.msgSize <= |cfg.table| && cfg.args.n >= 1
  {
    assert SlotOk(cfg.table, cfg.args, k);
  }

  lemma AllPlaced(cfg: Config)
    ensures Off(cfg.args.rounds, cfg.args.n) == cfg.args.Total()
  {
    OffIs(cfg.args.rounds, cfg.args.n);
  }

  /** Both counters decide the place and where the producer goes next. */
  lemma SamePlace(cfg: Config, s: State, t: State)
    requires s.round == t.round && s.i == t.i
    ensures Pos(cfg, s) == Pos(cfg, t)
    ensures var a := Advance(cfg, s); Advance(cfg, t) == t.(i := a.i, round := a.round, p := a.p)
  {
  }

  lemma FillOne(cfg: Config, ts: seq<Step>, k: nat) returns (us: seq<Step>)
    requires cfg.Sane() && cfg.pool < cfg.args.Total() && k < cfg.pool <= cfg.capacity + 1
    requires Schedule(cfg, ts) && Filling(cfg, After(cfg, ts), k)
    ensures Schedule(cfg, us) && Filling(cfg, After(cfg, us), k + 1)
  {
    var s := After(cfg, ts);
    var b :| b in s.free;
    FillSteps(cfg, s, b, k);
    hide Schedule, After, Do, Enabled, Filling, Config.Sane;
    AfterSnoc(cfg, ts, Alloc(b));
    us := ts + [Alloc(b)];
    AfterSnoc(cfg, us, Copy);
    us := us + [Copy];
    AfterSnoc(cfg, us, Push);
    us := us + [Push];
    if k == 0 {
      AfterSnoc(cfg, us, Read);
      us := us + [Read];
    }
  }

  lemma FillNone(cfg: Config)
    requires cfg.Sane() && cfg.pool < cfg.args.Total()
    ensures Schedule(cfg, []) && Filling(cfg, After(cfg, []), 0)
  {
    BlocksAre(cfg.pool);
    OffIs(cfg.args.rounds, cfg.args.n);
    assert Off(0, cfg.args.n) == 0;
    assert cfg.args.rounds > 0 && cfg.args.n > 0;
    hide Off, Config.Sane, Args.Total, Blocks;
    assert After(cfg, []) == Start(cfg);
  }

  lemma {:induction false} FillAll(cfg: Config, k: nat) returns (ts: seq<Step>)
    requires cfg.Sane() && cfg.pool < cfg.args.Total() && k <= cfg.pool <= cfg.capacity + 1
    ensures Schedule(cfg, ts) && Filling(cfg, After(cfg, ts), k)
  {
    if k == 0 {
      ts := [];
      FillNone(cfg);
    } else {
      hide Schedule, After, Filling, Config.Sane, Args.Total;
      ts := FillAll(cfg, k - 1);
      ts := FillOne(cfg, ts, k - 1);
    }
  }

  /** Whatever the pool's size, these parts of the invariant last until an allocation fails. */
  ghost predicate PoolLasts(cfg: Config, s: State)
  {
    LoopInv(cfg, s) && PoolInv(cfg, s) && ChanInv(cfg, s)
  }

  /** A pool with a block for every message never runs dry, even if none is given back. */
  lemma EnoughForAll(cfg: Config, s: State)
    requires cfg.Sane() && cfg.pool >= cfg.args.Total() && PoolLasts(cfg, s)
    ensures !Enabled(cfg, s, AllocFails)
  {
    if s.p.AtAlloc? {
      PosInside(cfg, s);
      PoolIsConserved(cfg, s);
      assert |InUse(s)| <= |s.allocs|;
    }
  }

  lemma {:induction false} EnoughRun(cfg: Config, ts: seq<Step>)
    requires cfg.Sane() && cfg.pool >= cfg.args.Total()
    ensures PoolLasts(cfg, After(cfg, ts))
    decreases |ts|
  {
    if ts == [] {
      BlocksAre(cfg.pool);
    } else {
      var s, t := After(cfg, ts[..|ts| - 1]), ts[|ts| - 1];
      EnoughRun(cfg, ts[..|ts| - 1]);
      EnoughForAll(cfg, s);
      if Enabled(cfg, s, t) {
        LoopStep(cfg, s, t);
        PoolStep(cfg, s, t);
        ChanStep(cfg, s, t);
      }
    }
  }

  /** In some schedule the unchecked allocation fails. */
  ghost predicate CanRunDry(cfg: Config)
  {
    exists ts :: Schedule(cfg, ts) && Enabled(cfg, After(cfg, ts), AllocFails)
  }

  /** For every size of the pool: the unchecked allocation can fail in some schedule exactly if the pool
      has fewer blocks than the channel's capacity and two, and fewer than there are messages. */
  lemma PoolSizeIsTight(cfg: Config)
    requires cfg.Sane()
    ensures CanRunDry(cfg) <==> cfg.pool < cfg.capacity + 2 && cfg.pool < cfg.args.Total()
  {
    if cfg.pool < cfg.capacity + 2 && cfg.pool < cfg.args.Total() {
      RunsDry(cfg);
    } else {
      forall ts | Schedule(cfg, ts) ensures !Enabled(cfg, After(cfg, ts), AllocFails) {
        NeverDry(cfg, ts);
      }
    }
  }

  lemma RunsDry(cfg: Config)
    requires cfg.Sane() && cfg.pool < cfg.capacity + 2 && cfg.pool < cfg.args.Total()
    ensures CanRunDry(cfg)
  {
    var ts := FillAll(cfg, cfg.pool);
    assert After(cfg, ts).free == {};
    assert Enabled(cfg, After(cfg, ts), AllocFails);
  }

  lemma NeverDry(cfg: Config, ts: seq<Step>)
    requires cfg.Sane() && (cfg.pool >= cfg.capacity + 2 || cfg.pool >= cfg.args.Total())
    ensures !Enabled(cfg, After(cfg, ts), AllocFails)
  {
    if cfg.pool >= cfg.capacity + 2 {
      EverySchedule(cfg, ts);
    } else {
      EnoughRun(cfg, ts);
      EnoughForAll(cfg, After(cfg, ts));
    }
  }
}
