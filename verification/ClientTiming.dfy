/** When a client starts the attempts of its rounds, told by the events of a run and by what becomes
    visible: an attempt shows as a write, or as a finished round if there is nothing to write. */
module ClientTiming {
  import opened Wire
  import opened BytesBuffers
  import opened Clocks
  import opened MessageTables
  import C = Clients
  import opened ClientRuns

  /** The step from `c` to `c'` started an attempt. */
  predicate Started(c: C.Core, c': C.Core)
  {
    c'.writes != c.writes || c'.round != c.round
  }

  /** The time at which the current connection was added (over UDP: at which the client was started). */
  function AddedAt(args: Args, udp: bool, begin: Time, es: seq<Event>): (t: Time)
    decreases |es|
  {
    if es == [] then begin
    else
      var w, e := Run(args, udp, Start(begin), es[..|es| - 1]), es[|es| - 1];
      if Enabled(args, udp, w, e) && e.Added? && e.nodelay && !udp then e.now
      else AddedAt(args, udp, begin, es[..|es| - 1])
  }

  /** The times of the ticks since then that started an attempt. */
  function StartTimes(args: Args, udp: bool, begin: Time, es: seq<Event>): (ts: seq<Time>)
    decreases |es|
  {
    if es == [] then []
    else
      var init, e := es[..|es| - 1], es[|es| - 1];
      var w := Run(args, udp, Start(begin), init);
      if !Enabled(args, udp, w, e) then StartTimes(args, udp, begin, init)
      else match e
        case Added(nodelay, _) => if nodelay && !udp then [] else StartTimes(args, udp, begin, init)
        case Closed => StartTimes(args, udp, begin, init)
        case Tick(now, _) =>
          StartTimes(args, udp, begin, init) +
          if Started(w.core, Step(args, udp, w, e).core) then [now] else []
  }

  /** What the elapsed time is counted from, in ms: the last start of an attempt, or the time at which the
      connection was added and the client's waiting time. */
  function Reference(args: Args, udp: bool, begin: Time, es: seq<Event>): (ms: int)
  {
    var ts := StartTimes(args, udp, begin, es);
    if ts != [] then FloorMs(ts[|ts| - 1])
    else FloorMs(AddedAt(args, udp, begin, es)) + if udp then 0 else 1000 * args.cliWait
  }

  lemma AttemptShows(conn: nat, first: nat, ms: nat, results: seq<int>)
    ensures C.Attempt(conn, first, ms, results) == [] <==> results == []
    ensures results == [] ==> C.AllWhole(results, ms)
  {
  }

  /** The reference is what the client keeps in last_ts. */
  ghost predicate TimeInv(args: Args, udp: bool, begin: Time, es: seq<Event>, c: C.Core)
  {
    && c.starts == StartTimes(args, udp, begin, es) && c.addedAt == AddedAt(args, udp, begin, es)
    && (udp || c.ctx.Some? || c.starts != [] ==> FloorMs(c.lastTs) == Reference(args, udp, begin, es))
    && (c.starts != [] ==> c.lastTs == c.starts[|c.starts| - 1])
  }

  lemma WaitInMs(now: Time, wait: nat)
    ensures FloorMs(Timespec(now.sec + wait, now.nsec)) == FloorMs(now) + 1000 * wait
  {
  }

  lemma TickShows(args: Args, udp: bool, c: C.Core, now: Time, results: seq<int>)
    requires |results| == args.n
    ensures var c' := C.TimerStep(args, udp, c, now, results);
            && (Started(c, c') <==> c.round < args.rounds && c.ctx.Some? && !C.Early(args, udp, now, c.lastTs))
            && (Started(c, c') ==> c'.lastTs == now && c'.starts == c.starts + [now])
            && (!Started(c, c') ==> c'.lastTs == c.lastTs && c'.starts == c.starts)
            && c'.addedAt == c.addedAt && c'.ctx == c.ctx
  {
    if c.round < args.rounds && c.ctx.Some? && !C.Early(args, udp, now, c.lastTs) {
      var attempt := C.Attempt(c.ctx.value, c.round * args.n, args.msgSize, results);
      AttemptShows(c.ctx.value, c.round * args.n, args.msgSize, results);
      hide C.Attempt, C.AllWhole, C.Early;
      assert |c.writes + attempt| == |c.writes| + |attempt|;
    }
  }

  lemma {:induction false} TimeRun(args: Args, udp: bool, begin: Time, es: seq<Event>)
    ensures TimeInv(args, udp, begin, es, Run(args, udp, Start(begin), es).core)
    decreases |es|
  {
    if es != [] {
      var init, e := es[..|es| - 1], es[|es| - 1];
      var w := Run(args, udp, Start(begin), init);
      TimeRun(args, udp, begin, init);
      if Enabled(args, udp, w, e) {
        match e
        case Added(_, now) => WaitInMs(now, args.cliWait);
        case Closed =>
        case Tick(now, results) =>
          TickShows(args, udp, w.core, now, results);
          hide C.TimerStep, Started;
      }
    }
  }

  /** When a tick starts an attempt, in every reachable state.  It does not if all rounds are done: then,
      and only then, the client exits.  It does not without a connection.  Otherwise it does exactly if
      the interval has passed since the reference; over UDP the distance is taken modulo 2^32. */
  lemma TickStartsIff(args: Args, udp: bool, begin: Time, es: seq<Event>, now: Time, results: seq<int>)
    requires Enabled(args, udp, Run(args, udp, Start(begin), es), Tick(now, results))
    ensures var w := Run(args, udp, Start(begin), es);
            var w', passed := Step(args, udp, w, Tick(now, results)), FloorMs(now) - Reference(args, udp, begin, es);
            && (w'.core.exited <==> w.core.exited || w.core.round >= args.rounds)
            && (Started(w.core, w'.core) ==> w.core.round < args.rounds && w.core.ctx.Some?)
            && (w.core.round < args.rounds && w.core.ctx.Some? ==>
                  (Started(w.core, w'.core) <==> (if udp then passed % TWO_32 else passed) >= args.intervalMs))
  {
    hide Started, Run, Reference, FloorMs, C.Early, C.TimerStep, StartTimes, AddedAt, C.AllWhole;
    var w := Run(args, udp, Start(begin), es);
    TimeRun(args, udp, begin, es);
    TickShows(args, udp, w.core, now, results);
    DueIs(args, udp, now, w.core.lastTs);
    ExitIs(args, udp, w.core, now, results);
  }

  lemma DueIs(args: Args, udp: bool, now: Time, last: Time)
    ensures var passed := FloorMs(now) - FloorMs(last);
            !C.Early(args, udp, now, last) <==> (if udp then passed % TWO_32 else passed) >= args.intervalMs
  {
    hide FloorMs;
  }

  lemma ExitIs(args: Args, udp: bool, c: C.Core, now: Time, results: seq<int>)
    ensures C.TimerStep(args, udp, c, now, results).exited <==> c.exited || c.round >= args.rounds
  {
  }

  /** Only ticks change the round, the writes or the exit. */
  lemma OthersStartNothing(args: Args, udp: bool, w: World, e: Event)
    requires !e.Tick?
    ensures var w' := Step(args, udp, w, e); !Started(w.core, w'.core) && w'.core.exited == w.core.exited
  {
  }

  // ---------------------------------------------------------------- the pacing tests in use

  predicate OfRounds(results: seq<seq<int>>, n: nat)
  {
    forall i | 0 <= i < |results| :: |results[i]| == n
  }

  /** On which of the ticks a client with a connection and rounds enough starts an attempt. */
  function Pattern(args: Args, udp: bool, c: C.Core, ticks: seq<Time>, results: seq<seq<int>>): (ds: seq<bool>)
    requires |ticks| == |results|
    decreases |ticks|
  {
    if ticks == [] then []
    else
      var c' := C.TimerStep(args, udp, c, ticks[0], results[0]);
      [Started(c, c')] + Pattern(args, udp, c', ticks[1..], results[1..])
  }

  /** A client starts attempts on exactly the ticks on which its pacing test says so, whatever becomes of
      the writes.  So Clocks.SameDecisionsIff tells when a UDP and a TCP client keep the same pace. */
  lemma {:induction false} PatternIsDecisions(args: Args, udp: bool, c: C.Core, ticks: seq<Time>,
      results: seq<seq<int>>)
    requires |ticks| == |results| && c.ctx.Some? && c.round + |ticks| <= args.rounds
    requires OfRounds(results, args.n)
    ensures Pattern(args, udp, c, ticks, results) == Decisions(ticks, c.lastTs, args.intervalMs, udp)
    decreases |ticks|
  {
    if ticks != [] {
      TickShows(args, udp, c, ticks[0], results[0]);
      var c' := C.TimerStep(args, udp, c, ticks[0], results[0]);
      assert c'.round <= c.round + 1;
      hide C.TimerStep, Started;
      PatternIsDecisions(args, udp, c', ticks[1..], results[1..]);
    }
  }

  // ---------------------------------------------------------------- the client's socket

  /** Some write on the connection came up short. */
  predicate HasShortWrite(ws: seq<C.Write>, conn: nat, ms: nat)
  {
    exists w <- ws :: w.conn == conn && w.result != ms
  }

  lemma ShortAppend(a: seq<C.Write>, b: seq<C.Write>, conn: nat, ms: nat)
    ensures HasShortWrite(a + b, conn, ms) <==> HasShortWrite(a, conn, ms) || HasShortWrite(b, conn, ms)
  {
    assert forall w <- a :: w in a + b;
    assert forall w <- b :: w in a + b;
    assert forall w <- a + b :: w in a || w in b;
  }

  lemma {:induction false} ShortAttempt(conn: nat, first: nat, ms: nat, results: seq<int>)
    ensures HasShortWrite(C.Attempt(conn, first, ms, results), conn, ms) <==> !C.AllWhole(results, ms)
    ensures forall w <- C.Attempt(conn, first, ms, results) :: w.conn == conn
    decreases |results|
  {
    if results != [] {
      var w := C.Write(conn, first, results[0]);
      var rest := if results[0] == ms then C.Attempt(conn, first + 1, ms, results[1..]) else [];
      ShortAttempt(conn, first + 1, ms, results[1..]);
      ShortAppend([w], rest, conn, ms);
      assert HasShortWrite([w], conn, ms) <==> results[0] != ms by { assert w in [w]; }
      assert !HasShortWrite([], conn, ms);
    }
  }

  ghost predicate ShutInv(args: Args, w: World)
  {
    && LifeInv(w)
    && (forall x <- w.core.writes :: x.conn < w.nextId)
    && (w.phase.Live? ==>
          (w.phase.shut <==> !w.phase.nodelay || HasShortWrite(w.core.writes, w.phase.id, args.msgSize)))
  }

  lemma ShutTick(args: Args, udp: bool, w: World, now: Time, results: seq<int>)
    requires ShutInv(args, w) && Enabled(args, udp, w, Tick(now, results))
    ensures ShutInv(args, Step(args, udp, w, Tick(now, results)))
  {
    var c, c' := w.core, C.TimerStep(args, udp, w.core, now, results);
    TickShows(args, udp, c, now, results);
    if Started(c, c') {
      var attempt := C.Attempt(c.ctx.value, c.round * args.n, args.msgSize, results);
      ShortAttempt(c.ctx.value, c.round * args.n, args.msgSize, results);
      ShortAppend(c.writes, attempt, c.ctx.value, args.msgSize);
      AttemptShows(c.ctx.value, c.round * args.n, args.msgSize, results);
      assert c'.writes == c.writes + attempt;
      hide C.Attempt, C.AllWhole, C.Early, HasShortWrite;
      assert c'.writes != c.writes || results == [] by { assert |c'.writes| == |c.writes| + |attempt|; }
    }
  }

  /** In every run the client has shut its live socket down exactly if TCP_NODELAY failed on it or some
      write on it came up short. */
  lemma {:induction false} SocketShutIff(args: Args, udp: bool, begin: Time, es: seq<Event>)
    ensures ShutInv(args, Run(args, udp, Start(begin), es))
    decreases |es|
  {
    if es != [] {
      var w, e := Run(args, udp, Start(begin), es[..|es| - 1]), es[|es| - 1];
      SocketShutIff(args, udp, begin, es[..|es| - 1]);
      if Enabled(args, udp, w, e) && e.Tick? {
        ShutTick(args, udp, w, e.now, e.results);
      }
    }
  }
}
