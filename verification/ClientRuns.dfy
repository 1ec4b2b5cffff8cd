/** Whole runs of a client: timer ticks, short and failed writes, closes and reconnects in any
    order.  The environment may do anything except accept bytes on a socket that was shut down. */
module ClientRuns {
  import opened Wire
  import opened BytesBuffers
  import opened Clocks
  import opened Links
  import opened MessageTables
  import opened Clients

  /** The client's connection as the event loop sees it.  A connect in flight ends in an added
      context; a live context ends in a close, which starts the next connect. */
  datatype Phase = Connecting | Live(id: nat, nodelay: bool, shut: bool)
  datatype Closing = Closing(nodelay: bool, assertHeld: bool)
  datatype World = World(core: Core, phase: Phase, nextId: nat, closings: seq<Closing>)

  datatype Event =
    | Added(nodelay: bool, now: Time)
    | Closed
    | Tick(now: Time, results: seq<int>)

  function Start(now: Time): World
  {
    World(Core(None, now, 0, false, [], now, []), Connecting, 0, [])
  }

  predicate Below(results: seq<int>, bound: int)
  {
    forall i | 0 <= i < |results| :: results[i] <= bound
  }

  predicate Enabled(args: Args, udp: bool, w: World, e: Event)
  {
    match e
    case Added(_, _) => w.phase.Connecting?
    case Closed => w.phase.Live? && !udp
    case Tick(_, results) =>
      && |results| == args.n && Below(results, args.msgSize)
      && (w.phase.Live? && w.phase.shut ==> Below(results, 0))
  }

  /** One event; an event the environment cannot produce now changes nothing. */
  function Step(args: Args, udp: bool, w: World, e: Event): World
  {
    if !Enabled(args, udp, w, e) then w
    else match e
      case Added(nodelay, now) =>
        w.(core := AddStep(args, udp, w.core, w.nextId, nodelay, now),
           phase := Live(w.nextId, udp || nodelay, !udp && !nodelay), nextId := w.nextId + 1)
      case Closed =>
        w.(core := w.core.(ctx := None), phase := Connecting,
           closings := w.closings + [Closing(w.phase.nodelay, w.core.ctx == Some(w.phase.id))])
      case Tick(now, results) =>
        var core := TimerStep(args, udp, w.core, now, results);
        var failed := core.writes != w.core.writes && !AllWhole(results, args.msgSize);
        w.(core := core, phase := if w.phase.Live? && failed then w.phase.(shut := true) else w.phase)
  }

  function Run(args: Args, udp: bool, w: World, es: seq<Event>): World
    decreases |es|
  {
    if es == [] then w else Step(args, udp, Run(args, udp, w, es[..|es| - 1]), es[|es| - 1])
  }

  // ---------------------------------------------------------------- the connection

  ghost predicate LifeInv(w: World)
  {
    && (w.phase.Connecting? ==> w.core.ctx == None)
    && (w.phase.Live? ==> w.phase.id < w.nextId && w.core.ctx == if w.phase.nodelay then Some(w.phase.id) else None)
    && (forall c <- w.closings :: c.assertHeld <==> c.nodelay)
  }

  lemma {:induction false} LifeRun(args: Args, udp: bool, now: Time, es: seq<Event>)
    ensures LifeInv(Run(args, udp, Start(now), es))
    decreases |es|
  {
    if es != [] {
      LifeRun(args, udp, now, es[..|es| - 1]);
    }
  }

  /** tcp_client_on_close asserts that the closing context is the recorded one.  In every run that
      holds for exactly the connections on which TCP_NODELAY could be set: the failure path of
      tcp_client_on_add_ctx returns before recording. */
  lemma CloseAssertionIff(args: Args, udp: bool, now: Time, es: seq<Event>, i: nat)
    requires i < |Run(args, udp, Start(now), es).closings|
    ensures var c := Run(args, udp, Start(now), es).closings[i]; c.assertHeld <==> c.nodelay
  {
    LifeRun(args, udp, now, es);
  }

  lemma CloseAssertionCanFail(args: Args, now: Time)
    ensures Run(args, false, Start(now), [Added(false, now), Closed]).closings == [Closing(false, false)]
  {
    var e0, e1 := Added(false, now), Closed;
    assert [e0, e1][..1] == [e0] && [e0][..0] == [];
    assert Run(args, false, Start(now), [e0]) == Step(args, false, Start(now), e0);
  }

  // ---------------------------------------------------------------- the write log

  /** Reads a write log as rounds: the next write must continue the round attempt at `base + pos`;
      a failed write abandons the attempt, n good ones complete it and keep its numbers. */
  datatype Scan = Bad | At(base: nat, pos: nat, kept: seq<nat>)

  function Range(from: nat, count: nat): (s: seq<nat>)
    ensures |s| == count
  {
    seq(count, i => from + i)
  }

  function ScanOne(st: Scan, w: Write, n: nat, ms: nat): Scan
  {
    if st.Bad? || w.seqno != st.base + st.pos then Bad
    else if w.result != ms then At(st.base, 0, st.kept)
    else if st.pos + 1 == n then At(st.base + n, 0, st.kept + Range(st.base, n))
    else At(st.base, st.pos + 1, st.kept)
  }

  function ScanLog(st: Scan, ws: seq<Write>, n: nat, ms: nat): Scan
    decreases |ws|
  {
    if ws == [] then st else ScanLog(ScanOne(st, ws[0], n, ms), ws[1..], n, ms)
  }

  lemma {:induction false} ScanAppend(st: Scan, a: seq<Write>, b: seq<Write>, n: nat, ms: nat)
    ensures ScanLog(st, a + b, n, ms) == ScanLog(ScanLog(st, a, n, ms), b, n, ms)
    decreases |a|
  {
    if a == [] {
      assert a + b == b;
    } else {
      assert (a + b)[1..] == a[1..] + b;
      ScanAppend(ScanOne(st, a[0], n, ms), a[1..], b, n, ms);
    }
  }

  lemma {:induction false} ScanAttempt(base: nat, pos: nat, kept: seq<nat>, conn: nat, n: nat, ms: nat,
      results: seq<int>)
    requires pos + |results| == n && (n > 0 ==> pos < n)
    ensures ScanLog(At(base, pos, kept), Attempt(conn, base + pos, ms, results), n, ms)
         == if AllWhole(results, ms) then At(base + n, 0, kept + Range(base, n)) else At(base, 0, kept)
    decreases |results|
  {
    if results == [] {
      assert kept + Range(base, n) == kept;
    } else {
      var ws := Attempt(conn, base + pos, ms, results);
      if results[0] == ms {
        var rest := Attempt(conn, base + pos + 1, ms, results[1..]);
        assert ws[1..] == rest;
        if pos + 1 < n {
          ScanAttempt(base, pos + 1, kept, conn, n, ms, results[1..]);
        } else {
          assert rest == [];
        }
      } else {
        assert ws[1..] == [];
      }
    }
  }

  ghost predicate ScanInv(args: Args, c: Core)
  {
    && c.round <= args.rounds
    && ScanLog(At(0, 0, []), c.writes, args.n, args.msgSize) == At(c.round * args.n, 0, Range(0, c.round * args.n))
  }

  lemma NextRound(round: nat, n: nat)
    ensures (round + 1) * n == round * n + n
  {
  }

  lemma RangeJoins(base: nat, n: nat)
    ensures Range(0, base) + Range(base, n) == Range(0, base + n)
  {
  }

  lemma ScanTick(args: Args, udp: bool, c: Core, now: Time, results: seq<int>)
    requires ScanInv(args, c) && |results| == args.n
    ensures ScanInv(args, TimerStep(args, udp, c, now, results))
  {
    var c' := TimerStep(args, udp, c, now, results);
    if c'.starts != c.starts {
      var base := c.round * args.n;
      NextRound(c.round, args.n);
      hide ScanLog, Attempt, AllWhole, Early;
      var ws := Attempt(c.ctx.value, base, args.msgSize, results);
      ScanAppend(At(0, 0, []), c.writes, ws, args.n, args.msgSize);
      ScanAttempt(base, 0, Range(0, base), c.ctx.value, args.n, args.msgSize, results);
      RangeJoins(base, args.n);
    }
  }

  lemma {:induction false} ScanRun(args: Args, udp: bool, now: Time, es: seq<Event>)
    ensures ScanInv(args, Run(args, udp, Start(now), es).core)
    decreases |es|
  {
    if es == [] {
      assert Range(0, 0) == [];
    } else {
      var w, e := Run(args, udp, Start(now), es[..|es| - 1]), es[|es| - 1];
      ScanRun(args, udp, now, es[..|es| - 1]);
      if Enabled(args, udp, w, e) && e.Tick? {
        ScanTick(args, udp, w.core, e.now, e.results);
      }
    }
  }

  /** The main result about runs.  Whatever fails and reconnects, the write log is a sequence of
      completed rounds and abandoned attempts; every attempt starts at round_index * n; and when
      the loop exits, deleting the abandoned attempts leaves 0 .. round_num * n - 1 in order. */
  lemma CompletedRunKeepsEverySequence(args: Args, udp: bool, now: Time, es: seq<Event>)
    requires Run(args, udp, Start(now), es).core.exited
    ensures var c := Run(args, udp, Start(now), es).core;
            var scan := ScanLog(At(0, 0, []), c.writes, args.n, args.msgSize);
            scan == At(args.rounds * args.n, 0, Range(0, args.rounds * args.n))
  {
    ScanRun(args, udp, now, es);
    ExitedMeansDone(args, udp, now, es);
  }

  lemma {:induction false} ExitedMeansDone(args: Args, udp: bool, now: Time, es: seq<Event>)
    ensures var c := Run(args, udp, Start(now), es).core; c.exited ==> c.round >= args.rounds
    decreases |es|
  {
    if es != [] {
      ExitedMeansDone(args, udp, now, es[..|es| - 1]);
    }
  }

  /** Without a failed write nothing is sent twice. */
  lemma NoFailureNoResend(args: Args, udp: bool, now: Time, es: seq<Event>)
    requires forall w <- Run(args, udp, Start(now), es).core.writes :: w.result == args.msgSize
    ensures var c := Run(args, udp, Start(now), es).core; Numbers(c.writes) == Range(0, c.round * args.n)
  {
    var c := Run(args, udp, Start(now), es).core;
    ScanRun(args, udp, now, es);
    GoodLogIsRange(c.writes, At(0, 0, []), args.n, args.msgSize);
    assert c.round * args.n + 0 == |c.writes|;
  }

  lemma {:induction false} GoodLogIsRange(ws: seq<Write>, st: Scan, n: nat, ms: nat)
    requires st.At? && ScanLog(st, ws, n, ms).At? && forall w <- ws :: w.result == ms
    ensures var end := ScanLog(st, ws, n, ms);
            end.base + end.pos == st.base + st.pos + |ws| && Numbers(ws) == Range(st.base + st.pos, |ws|)
    decreases |ws|
  {
    if ws != [] {
      var st' := ScanOne(st, ws[0], n, ms);
      if st'.Bad? {
        BadStays(ws[1..], n, ms);
        assert false;
      }
      assert ws[0] in ws;
      GoodLogIsRange(ws[1..], st', n, ms);
      assert Numbers(ws) == [ws[0].seqno] + Numbers(ws[1..]);
      assert Range(st.base + st.pos, |ws|) == [st.base + st.pos] + Range(st.base + st.pos + 1, |ws| - 1);
    }
  }

  lemma {:induction false} BadStays(ws: seq<Write>, n: nat, ms: nat)
    ensures ScanLog(Bad, ws, n, ms).Bad?
    decreases |ws|
  {
    if ws != [] {
      BadStays(ws[1..], n, ms);
    }
  }

  // ---------------------------------------------------------------- pacing

  /** When the k-th attempt on the current connection may start at the earliest, in ms. */
  function Due(args: Args, addedAt: Time, k: nat): int
  {
    FloorMs(addedAt) + 1000 * args.cliWait + Off(k, args.intervalMs)
  }

  ghost predicate PaceInv(args: Args, c: Core)
  {
    c.ctx.Some? ==>
      && FloorMs(c.lastTs) >= Due(args, c.addedAt, |c.starts|)
      && forall k | 0 <= k < |c.starts| :: FloorMs(c.starts[k]) >= Due(args, c.addedAt, k + 1)
  }

  lemma {:induction false} PaceRun(args: Args, now: Time, es: seq<Event>)
    ensures PaceInv(args, Run(args, false, Start(now), es).core)
    decreases |es|
  {
    if es != [] {
      PaceRun(args, now, es[..|es| - 1]);
    }
  }

  /** Pacing does not drift: on one connection the k-th attempt (from 1) starts no earlier than
      cli_wait seconds and k intervals after the connection was added, in floor milliseconds, for
      any behaviour of the clock; in true time less than 1 ms is lost over all k attempts. */
  lemma PacingDoesNotDrift(args: Args, now: Time, es: seq<Event>, k: nat)
    requires var c := Run(args, false, Start(now), es).core; c.ctx.Some? && 1 <= k <= |c.starts|
    ensures var c := Run(args, false, Start(now), es).core;
            && FloorMs(c.starts[k - 1]) - FloorMs(c.addedAt) >= 1000 * args.cliWait + k * args.intervalMs
            && Nanos(c.starts[k - 1]) - Nanos(c.addedAt)
               > 1_000_000 * (1000 * args.cliWait + k * args.intervalMs) - 1_000_000
  {
    var c := Run(args, false, Start(now), es).core;
    PaceRun(args, now, es);
    assert FloorMs(c.starts[k - 1]) >= Due(args, c.addedAt, k - 1 + 1);
    OffIs(k, args.intervalMs);
    FloorIsClose(c.starts[k - 1]);
    FloorIsClose(c.addedAt);
  }

  // ---------------------------------------------------------------- bytes on a connection

  ghost predicate InTable(args: Args, ws: seq<Write>)
  {
    forall w <- ws :: w.seqno < args.Total() && w.result <= args.msgSize
  }

  /** The writes on one connection, as frames and accepted bytes. */
  ghost function SentOn(args: Args, table: Bytes, ws: seq<Write>, conn: nat): (s: seq<Sent>)
    requires TableOk(table, args) && InTable(args, ws)
  {
    if ws == [] then []
    else
      var k := ws[|ws| - 1];
      assert SlotOk(table, args, k.seqno);
      SentOn(args, table, ws[..|ws| - 1], conn) +
      if k.conn == conn then [Sent(Slot(table, k.seqno, args.msgSize), Accepted(k.result))] else []
  }

  ghost predicate OnLink(args: Args, table: Bytes, ws: seq<Write>, conn: nat)
  {
    && args.Fits() && TableOk(table, args) && InTable(args, ws)
    && LinkOk(SentOn(args, table, ws, conn))
  }

  /** Every write on the link so far went through. */
  ghost predicate Unbroken(args: Args, table: Bytes, ws: seq<Write>, conn: nat)
  {
    OnLink(args, table, ws, conn) && Clean(SentOn(args, table, ws, conn))
  }

  lemma OneMoreWrite(args: Args, table: Bytes, ws: seq<Write>, w: Write, conn: nat)
    requires OnLink(args, table, ws, conn) && w.seqno < args.Total() && w.result <= args.msgSize
    requires w.conn == conn ==> Unbroken(args, table, ws, conn) || w.result <= 0
    ensures OnLink(args, table, ws + [w], conn)
    ensures Unbroken(args, table, ws, conn) && (w.conn == conn ==> w.result == args.msgSize)
            ==> Unbroken(args, table, ws + [w], conn)
    ensures w.conn != conn ==> SentOn(args, table, ws + [w], conn) == SentOn(args, table, ws, conn)
  {
    forall x <- ws + [w] ensures x.seqno < args.Total() && x.result <= args.msgSize {
      assert x in ws || x == w;
    }
    assert SlotOk(table, args, w.seqno);
    assert (ws + [w])[..|ws|] == ws;
    if w.conn == conn {
      var m := Slot(table, w.seqno, args.msgSize);
      MessageIsFrame(m, args.msgSize, args.uid, w.seqno);
      LinkExtend(SentOn(args, table, ws, conn), Sent(m, Accepted(w.result)));
    }
  }

  lemma {:induction false} MoreWrites(args: Args, table: Bytes, ws: seq<Write>, id: nat, first: nat,
      results: seq<int>, conn: nat)
    requires OnLink(args, table, ws, conn)
    requires first + |results| <= args.Total() && Below(results, args.msgSize)
    requires id == conn ==> Unbroken(args, table, ws, conn) || Below(results, 0)
    ensures var all := ws + Attempt(id, first, args.msgSize, results);
            && OnLink(args, table, all, conn)
            && (Unbroken(args, table, ws, conn) && (id == conn ==> AllWhole(results, args.msgSize))
                ==> Unbroken(args, table, all, conn))
            && (id != conn ==> SentOn(args, table, all, conn) == SentOn(args, table, ws, conn))
    decreases |results|
  {
    hide OnLink, Unbroken, SentOn, InTable;
    var attempt := Attempt(id, first, args.msgSize, results);
    if results == [] {
      assert ws + attempt == ws;
    } else {
      var w := Write(id, first, results[0]);
      OneMoreWrite(args, table, ws, w, conn);
      if results[0] == args.msgSize {
        MoreWrites(args, table, ws + [w], id, first + 1, results[1..], conn);
        assert ws + attempt == (ws + [w]) + Attempt(id, first + 1, args.msgSize, results[1..]);
      } else {
        assert attempt == [w];
      }
    }
  }

  ghost predicate LinkInv(args: Args, table: Bytes, w: World, conn: nat)
  {
    && OnLink(args, table, w.core.writes, conn)
    && (w.phase.Live? && w.phase.id == conn && !w.phase.shut ==> Unbroken(args, table, w.core.writes, conn))
    && (w.nextId <= conn ==> SentOn(args, table, w.core.writes, conn) == [])
  }

  lemma LinkTick(args: Args, table: Bytes, w: World, now: Time, results: seq<int>, conn: nat)
    requires args.Fits() && LinkInv(args, table, w, conn) && LifeInv(w) && ScanInv(args, w.core)
    requires Enabled(args, false, w, Tick(now, results))
    ensures LinkInv(args, table, Step(args, false, w, Tick(now, results)), conn)
  {
    hide OnLink, Unbroken, SentOn, ScanLog, Args.Fits;
    var c := w.core;
    if c.round < args.rounds && c.ctx.Some? && !Early(args, false, now, c.lastTs) {
      RoundStart(args, c.round);
      MoreWrites(args, table, c.writes, c.ctx.value, c.round * args.n, results, conn);
      assert AllWhole(results, args.msgSize) || Attempt(c.ctx.value, c.round * args.n, args.msgSize, results) != [];
    }
  }

  lemma {:induction false} LinkRun(args: Args, table: Bytes, now: Time, es: seq<Event>, conn: nat)
    requires args.Fits() && TableOk(table, args)
    ensures LinkInv(args, table, Run(args, false, Start(now), es), conn)
    decreases |es|
  {
    if es != [] {
      var es', e := es[..|es| - 1], es[|es| - 1];
      var w := Run(args, false, Start(now), es');
      LinkRun(args, table, now, es', conn);
      LifeRun(args, false, now, es');
      ScanRun(args, false, now, es');
      if Enabled(args, false, w, e) && e.Tick? {
        LinkTick(args, table, w, e.now, e.results, conn);
      }
    }
  }

  /** What the server can deliver from one connection of a client: whole messages of the table in
      the order sent, whatever the reads, the short writes and the retries were. */
  lemma ServerSeesWholeMessages(args: Args, table: Bytes, now: Time, es: seq<Event>, conn: nat, chunks: seq<Bytes>)
    requires args.Fits() && TableOk(table, args)
    ensures var ws := Run(args, false, Start(now), es).core.writes;
            && InTable(args, ws)
            && var sent := SentOn(args, table, ws, conn);
            && LinkOk(sent)
            && (Concat(chunks) <= StreamOf(sent) ==> Feed(chunks, 0).frames <= WholeFrames(sent))
            && (Concat(chunks) == StreamOf(sent) ==> Feed(chunks, 0).frames == WholeFrames(sent))
  {
    LinkRun(args, table, now, es, conn);
    var sent := SentOn(args, table, Run(args, false, Start(now), es).core.writes, conn);
    FeedIsParse(chunks, 0);
    if Concat(chunks) <= StreamOf(sent) {
      ReceiverSeesWholeFrames(sent, Concat(chunks));
    }
  }
}
