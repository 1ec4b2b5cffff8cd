/** The system with the real clients in it: every client is a run of the round machine, its writes happen
    one after the other between whatever the relay and the upstream do, and every such write is one that
    the step system allows. */
module Benchmark {
  import opened Wire
  import opened BytesBuffers
  import opened Clocks
  import opened Links
  import opened MessageTables
  import opened Records
  import opened Relays
  import RelayRuns
  import opened Systems
  import C = Clients
  import R = ClientRuns
  import L = Latency

  /** A client program: its arguments, its table and the time at which it starts. */
  datatype Party = Party(args: Args, table: Bytes, now: Time)

  /** What a client has done: its events, how many writes of its log have been performed, and the relay's
      context for each of its connections. */
  datatype Node = Node(es: seq<R.Event>, done: nat, conns: seq<nat>)
  datatype Bench = Bench(ms: seq<Move>, nodes: seq<Node>)

  datatype Act =
    | ClientEvent(u: nat, e: R.Event, id: nat)  // `id` is used when a context is added
    | WriteNext(u: nat)
    | EndWrite(u: nat)
    | Elsewhere(m: Move)

  ghost predicate PartyOk(p: Party)
  {
    p.args.Fits() && TableOk(p.table, p.args)
  }

  /** All clients run with tables of their own, under different user ids. */
  ghost predicate PartiesOk(ps: seq<Party>)
  {
    && (forall u | 0 <= u < |ps| :: PartyOk(ps[u]))
    && (forall u, v | 0 <= u < v < |ps| :: ps[u].args.uid != ps[v].args.uid)
  }

  function WorldOf(p: Party, n: Node): R.World
  {
    R.Run(p.args, false, R.Start(p.now), n.es)
  }

  /** All writes that the client's events so far decide. */
  function LogOf(p: Party, n: Node): seq<C.Write>
  {
    WorldOf(p, n).core.writes
  }

  ghost predicate Quiet(n: Node, s: Sys)
  {
    forall k | 0 <= k < |n.conns| :: n.conns[k] !in s.open
  }

  /** One callback at a time: the next event waits until all writes of the last one are done. */
  ghost predicate Can(ps: seq<Party>, b: Bench, a: Act)
    requires |b.nodes| == |ps|
  {
    var s := DoAll(b.ms);
    match a
    case ClientEvent(u, e, id) =>
      && u < |ps| && b.nodes[u].done == |LogOf(ps[u], b.nodes[u])| && Quiet(b.nodes[u], s)
      && R.Enabled(ps[u].args, false, WorldOf(ps[u], b.nodes[u]), e)
      && (e.Added? ==> forall v | 0 <= v < |ps| :: id !in b.nodes[v].conns)
    case WriteNext(u) =>
      u < |ps| && b.nodes[u].done < |LogOf(ps[u], b.nodes[u])| && Quiet(b.nodes[u], s)
    case EndWrite(u) =>
      u < |ps| && b.nodes[u].done > 0 && !Quiet(b.nodes[u], s)
    case Elsewhere(m) => (m.AtRelay? || m.UpstreamRead?) && Possible(s, m)
  }

  /** The write that a client performs next, as a move of the system. */
  function MoveOf(p: Party, n: Node, i: nat): Move
  {
    var ws := LogOf(p, n);
    if i < |ws| && ws[i].conn < |n.conns| && Off(ws[i].seqno, p.args.msgSize) + p.args.msgSize <= |p.table| then
      ClientWrite(n.conns[ws[i].conn], Slot(p.table, ws[i].seqno, p.args.msgSize), ws[i].result)
    else ClientEnd(0)
  }

  ghost function Next(ps: seq<Party>, b: Bench, a: Act): Bench
    requires |b.nodes| == |ps|
  {
    if !Can(ps, b, a) then b
    else match a
      case ClientEvent(u, e, id) =>
        var n := b.nodes[u];
        b.(nodes := b.nodes[u := n.(es := n.es + [e], conns := if e.Added? then n.conns + [id] else n.conns)])
      case WriteNext(u) =>
        var n := b.nodes[u];
        b.(ms := b.ms + [MoveOf(ps[u], n, n.done)], nodes := b.nodes[u := n.(done := n.done + 1)])
      case EndWrite(u) =>
        var n := b.nodes[u];
        var w := MoveOf(ps[u], n, n.done - 1);
        b.(ms := b.ms + [ClientEnd(if w.ClientWrite? then w.id else 0)])
      case Elsewhere(m) => b.(ms := b.ms + [m])
  }

  ghost function Play(ps: seq<Party>, acts: seq<Act>): (b: Bench)
    ensures |b.nodes| == |ps|
    decreases |acts|
  {
    if acts == [] then Bench([], seq(|ps|, _ => Node([], 0, [])))
    else Next(ps, Play(ps, acts[..|acts| - 1]), acts[|acts| - 1])
  }

  // ---------------------------------------------------------------- a client's own records

  predicate IsOwn(r: Record, uid: nat)
  {
    r.uid == uid && (r.action == ClientSndBegin || r.action == ClientSndEnd)
  }

  /** The records in the log that client `uid` made. */
  function Own(log: seq<Record>, uid: nat): (rs: seq<Record>)
  {
    if log == [] then []
    else
      var r := log[|log| - 1];
      Own(log[..|log| - 1], uid) + if IsOwn(r, uid) then [r] else []
  }

  lemma OwnSnoc(log: seq<Record>, r: Record, uid: nat)
    ensures Own(log + [r], uid) == Own(log, uid) + if IsOwn(r, uid) then [r] else []
  {
    assert (log + [r])[..|log|] == log;
  }

  lemma {:induction false} OwnOthers(log: seq<Record>, more: seq<Record>, uid: nat)
    requires forall r <- more :: !IsOwn(r, uid)
    ensures Own(log + more, uid) == Own(log, uid)
  {
    if more == [] {
      assert log + more == log;
    } else {
      var k := |more| - 1;
      assert more[k] in more;
      OwnOthers(log, more[..k], uid);
      assert log + more == (log + more[..k]) + [more[k]];
      OwnSnoc(log + more[..k], more[k], uid);
    }
  }

  /** The end record that is still missing. */
  ghost function Missing(p: Party, n: Node, s: Sys): (rs: seq<Record>)
  {
    if n.done == 0 || n.done > |LogOf(p, n)| || Quiet(n, s) then []
    else [Record(p.args.uid, LogOf(p, n)[n.done - 1].seqno, p.args.msgSize, ClientSndEnd)]
  }

  // ---------------------------------------------------------------- the client's log

  /** Connections are numbered, and an event only adds to the log. */
  lemma {:induction false} ConnsKnown(p: Party, es: seq<R.Event>)
    ensures var w := R.Run(p.args, false, R.Start(p.now), es); forall x <- w.core.writes :: x.conn < w.nextId
    decreases |es|
  {
    if es != [] {
      var w, e := R.Run(p.args, false, R.Start(p.now), es[..|es| - 1]), es[|es| - 1];
      ConnsKnown(p, es[..|es| - 1]);
      R.LifeRun(p.args, false, p.now, es[..|es| - 1]);
      if R.Enabled(p.args, false, w, e) && e.Tick? {
        if w.core.ctx.Some? {
          AttemptConn(w.core.ctx.value, w.core.round * p.args.n, p.args.msgSize, e.results);
        }
      }
    }
  }

  lemma {:induction false} AttemptConn(conn: nat, first: nat, ms: nat, results: seq<int>)
    ensures forall x <- C.Attempt(conn, first, ms, results) :: x.conn == conn
    decreases |results|
  {
    if results != [] {
      AttemptConn(conn, first + 1, ms, results[1..]);
    }
  }

  lemma EventAddsToLog(p: Party, es: seq<R.Event>, e: R.Event)
    ensures var w, w' := R.Run(p.args, false, R.Start(p.now), es), R.Run(p.args, false, R.Start(p.now), es + [e]);
            && w.core.writes <= w'.core.writes
            && w'.nextId == w.nextId + (if R.Enabled(p.args, false, w, e) && e.Added? then 1 else 0)
  {
    assert (es + [e])[..|es|] == es;
  }

  lemma LogInTable(p: Party, n: Node, i: nat, k: nat)
    requires PartyOk(p) && i <= |LogOf(p, n)|
    ensures R.InTable(p.args, LogOf(p, n)[..i]) && LinkOk(R.SentOn(p.args, p.table, LogOf(p, n)[..i], k))
  {
    R.LinkRun(p.args, p.table, p.now, n.es, k);
    SentPrefix(p, LogOf(p, n), i, k);
  }

  lemma {:induction false} SentPrefix(p: Party, ws: seq<C.Write>, i: nat, k: nat)
    requires PartyOk(p) && R.InTable(p.args, ws) && i <= |ws| && LinkOk(R.SentOn(p.args, p.table, ws, k))
    ensures R.InTable(p.args, ws[..i]) && LinkOk(R.SentOn(p.args, p.table, ws[..i], k))
    decreases |ws|
  {
    if i == |ws| {
      assert ws[..i] == ws;
    } else {
      var init := ws[..|ws| - 1];
      LinkInit(p, ws, k);
      SentPrefix(p, init, i, k);
      assert init[..i] == ws[..i];
    }
  }

  lemma LinkInit(p: Party, ws: seq<C.Write>, k: nat)
    requires PartyOk(p) && R.InTable(p.args, ws) && ws != [] && LinkOk(R.SentOn(p.args, p.table, ws, k))
    ensures var init := ws[..|ws| - 1]; R.InTable(p.args, init) && LinkOk(R.SentOn(p.args, p.table, init, k))
  {
    var init, w := ws[..|ws| - 1], ws[|ws| - 1];
    assert R.InTable(p.args, init);
    assert w in ws && SlotOk(p.table, p.args, w.seqno);
    hide IsFrame;
    var a, b := R.SentOn(p.args, p.table, init, k), R.SentOn(p.args, p.table, ws, k);
    assert forall i | 0 <= i < |a| :: a[i] == b[i];
    forall x <- a ensures x in b {
      var i :| 0 <= i < |a| && a[i] == x;
      assert b[i] == x;
    }
  }

  // ---------------------------------------------------------------- one client in the system

  /** The client's connections carry the writes done so far, its records are those of the same writes,
      and only the write in progress is open. */
  ghost predicate NodeInv(p: Party, n: Node, s: Sys)
    requires PartyOk(p)
  {
    var ws := LogOf(p, n);
    && n.done <= |ws| && R.InTable(p.args, ws[..n.done])
    && |n.conns| == WorldOf(p, n).nextId
    && (forall i, j | 0 <= i < j < |n.conns| :: n.conns[i] != n.conns[j])
    && (forall k: nat | k < |n.conns| :: SentOn(s, n.conns[k]) == R.SentOn(p.args, p.table, ws[..n.done], k))
    && (forall k: nat | k < |n.conns| && n.conns[k] in s.open :: OpenIs(p, n, s, k))
    && Own(s.log, p.args.uid) + Missing(p, n, s) == C.RecordsOf(p.args, false, ws[..n.done])
  }

  ghost predicate OpenIs(p: Party, n: Node, s: Sys, k: nat)
    requires PartyOk(p) && k < |n.conns| && n.conns[k] in s.open && n.done <= |LogOf(p, n)|
  {
    && n.done > 0
    && var w := LogOf(p, n)[n.done - 1];
       && w.conn == k && w.seqno < p.args.Total()
       && SlotOk(p.table, p.args, w.seqno) && s.open[n.conns[k]] == Slot(p.table, w.seqno, p.args.msgSize)
  }

  /** What the rest of the system does leaves a client alone. */
  lemma NodeStays(p: Party, n: Node, s: Sys, s': Sys)
    requires PartyOk(p) && NodeInv(p, n, s)
    requires forall k | 0 <= k < |n.conns| :: SentOn(s', n.conns[k]) == SentOn(s, n.conns[k])
    requires forall k | 0 <= k < |n.conns| :: n.conns[k] in s'.open <==> n.conns[k] in s.open
    requires forall k | 0 <= k < |n.conns| && n.conns[k] in s.open :: s'.open[n.conns[k]] == s.open[n.conns[k]]
    requires Own(s'.log, p.args.uid) == Own(s.log, p.args.uid)
    ensures NodeInv(p, n, s')
  {
    hide Own, SentOn, LogOf, WorldOf, R.SentOn, R.InTable, PartyOk, SlotOk, C.RecordsOf;
  }

  lemma NodeStarts(p: Party)
    requires PartyOk(p)
    ensures NodeInv(p, Node([], 0, []), Init())
  {
  }

  /** An event of the client. */
  lemma NodeEvent(p: Party, n: Node, s: Sys, e: R.Event, id: nat)
    requires PartyOk(p) && NodeInv(p, n, s) && n.done == |LogOf(p, n)| && Quiet(n, s)
    requires R.Enabled(p.args, false, WorldOf(p, n), e)
    requires e.Added? ==> id !in n.conns && SentOn(s, id) == [] && id !in s.open
    ensures NodeInv(p, n.(es := n.es + [e], conns := if e.Added? then n.conns + [id] else n.conns), s)
  {
    hide Own, SentOn, R.SentOn, R.InTable, R.Enabled, PartyOk, SlotOk, C.RecordsOf, R.Run;
    var n' := n.(es := n.es + [e], conns := if e.Added? then n.conns + [id] else n.conns);
    EventAddsToLog(p, n.es, e);
    ConnsKnown(p, n.es);
    var ws, ws' := LogOf(p, n), LogOf(p, n');
    assert ws'[..n.done] == ws == ws[..n.done];
    if e.Added? {
      NotYetUsed(p, ws, |n.conns|);
    }
    hide LogOf, WorldOf;
    assert Quiet(n', s);
  }

  lemma {:induction false} NotYetUsed(p: Party, ws: seq<C.Write>, conn: nat)
    requires PartyOk(p) && R.InTable(p.args, ws) && forall w <- ws :: w.conn < conn
    ensures R.SentOn(p.args, p.table, ws, conn) == []
  {
    if ws != [] {
      assert ws[|ws| - 1] in ws;
      NotYetUsed(p, ws[..|ws| - 1], conn);
    }
  }

  /** The client's next write is one that the system allows: a message of the table, on a link that is
      intact or takes nothing any more. */
  lemma WriteIsPossible(p: Party, n: Node, s: Sys)
    requires PartyOk(p) && NodeInv(p, n, s) && n.done < |LogOf(p, n)| && Quiet(n, s)
    ensures var w, m := LogOf(p, n)[n.done], MoveOf(p, n, n.done);
            && w.conn < |n.conns| && w.seqno < p.args.Total() && SlotOk(p.table, p.args, w.seqno)
            && m == ClientWrite(n.conns[w.conn], Slot(p.table, w.seqno, p.args.msgSize), w.result)
            && Possible(s, m)
  {
    var ws, i := LogOf(p, n), n.done;
    var w := ws[i];
    ConnsKnown(p, n.es);
    assert w in ws;
    LogInTable(p, n, i + 1, w.conn);
    assert ws[..i + 1][..i] == ws[..i] && w in ws[..i + 1];
    TableMessagesFit(p.args, p.table, w.seqno, ClientSndBegin);
    var f := Slot(p.table, w.seqno, p.args.msgSize);
    var sent := R.SentOn(p.args, p.table, ws[..i], w.conn);
    assert R.SentOn(p.args, p.table, ws[..i + 1], w.conn) == sent + [Sent(f, Accepted(w.result))];
    hide Readable, IsFrame, R.SentOn, LogOf, TableOk, SlotOk, C.RecordsOf, Own;
    IntactOrShut(sent, Sent(f, Accepted(w.result)));
  }

  lemma IntactOrShut(ws: seq<Sent>, w: Sent)
    requires LinkOk(ws + [w])
    ensures Clean(ws) || w.accepted == 0
  {
    hide IsFrame;
    if !Clean(ws) {
      var x :| x in ws && !Whole(x);
      var i :| 0 <= i < |ws| && ws[i] == x;
      assert (ws + [w])[i] == x && (ws + [w])[|ws|] == w;
    }
  }

  lemma RecordsTwo(p: Party, ws: seq<C.Write>, i: nat)
    requires i < |ws|
    ensures C.RecordsOf(p.args, false, ws[..i + 1])
         == C.RecordsOf(p.args, false, ws[..i]) + [Record(p.args.uid, ws[i].seqno, p.args.msgSize, ClientSndBegin)]
            + [Record(p.args.uid, ws[i].seqno, p.args.msgSize, ClientSndEnd)]
  {
    C.RecordsAppend(p.args, false, ws[..i], [ws[i]]);
    C.OneWriteRecords(p.args, false, ws[i]);
    assert ws[..i + 1] == ws[..i] + [ws[i]];
    var b := Record(p.args.uid, ws[i].seqno, p.args.msgSize, ClientSndBegin);
    var e := Record(p.args.uid, ws[i].seqno, p.args.msgSize, ClientSndEnd);
    var x := C.RecordsOf(p.args, false, ws[..i]);
    assert (x + [b]) + [e] == x + ([b] + [e]);
  }

  lemma SentMore(p: Party, ws: seq<C.Write>, i: nat, k: nat)
    requires PartyOk(p) && i < |ws| && R.InTable(p.args, ws[..i + 1]) && SlotOk(p.table, p.args, ws[i].seqno)
    ensures R.InTable(p.args, ws[..i])
    ensures R.SentOn(p.args, p.table, ws[..i + 1], k) == R.SentOn(p.args, p.table, ws[..i], k) +
            if ws[i].conn == k then [Sent(Slot(p.table, ws[i].seqno, p.args.msgSize), Accepted(ws[i].result))] else []
  {
    assert ws[..i + 1][..i] == ws[..i];
    assert forall w <- ws[..i] :: w in ws[..i + 1];
  }

  lemma DoWrite(s: Sys, m: Move)
    requires m.ClientWrite? && Possible(s, m)
    ensures var s' := Do(s, m);
            && s'.log == s.log + [RecordOf(m.frame, ClientSndBegin)] && s'.open == s.open[m.id := m.frame]
            && SentOn(s', m.id) == SentOn(s, m.id) + [Sent(m.frame, Accepted(m.result))]
            && forall id | id != m.id :: SentOn(s', id) == SentOn(s, id)
  {
  }

  lemma DoEnd(s: Sys, id: nat)
    requires id in s.open && Readable(s.open[id])
    ensures Possible(s, ClientEnd(id))
    ensures var s' := Do(s, ClientEnd(id));
            && s'.log == s.log + [RecordOf(s.open[id], ClientSndEnd)] && s'.open == s.open - {id}
            && forall other :: SentOn(s', other) == SentOn(s, other)
  {
  }

  /** The client performs its next write. */
  lemma NodeWrites(p: Party, n: Node, s: Sys)
    requires PartyOk(p) && NodeInv(p, n, s) && n.done < |LogOf(p, n)| && Quiet(n, s)
    ensures NodeInv(p, n.(done := n.done + 1), Do(s, MoveOf(p, n, n.done)))
  {
    hide Possible, R.SentOn, LogOf, WorldOf, Own, SlotOk, TableOk, SentOn, R.InTable, MoveOf, C.RecordsOf, Do;
    WriteIsPossible(p, n, s);
    var i, n' := n.done, n.(done := n.done + 1);
    SameLog(p, n, n');
    var ws, m := LogOf(p, n), MoveOf(p, n, n.done);
    var w, s' := ws[i], Do(s, m);
    DoWrite(s, m);
    RecordsTwo(p, ws, i);
    TableMessagesFit(p.args, p.table, w.seqno, ClientSndBegin);
    LogInTable(p, n, i + 1, 0);
    OwnSnoc(s.log, RecordOf(m.frame, ClientSndBegin), p.args.uid);
    hide RecordOf, Readable, IsFrame, PartyOk;
    assert !Quiet(n', s') by { assert n.conns[w.conn] in s'.open; }
    assert Own(s.log, p.args.uid) + [] == Own(s.log, p.args.uid);
    forall k: nat | k < |n.conns| ensures SentOn(s', n.conns[k]) == R.SentOn(p.args, p.table, ws[..i + 1], k) {
      SentMore(p, ws, i, k);
      assert R.SentOn(p.args, p.table, ws[..i], k) + [] == R.SentOn(p.args, p.table, ws[..i], k);
    }
  }

  lemma SameLog(p: Party, n: Node, n': Node)
    requires n.es == n'.es
    ensures LogOf(p, n) == LogOf(p, n') && WorldOf(p, n) == WorldOf(p, n')
  {
  }

  lemma MoveIs(p: Party, n: Node, i: nat)
    requires PartyOk(p) && i < |LogOf(p, n)| && LogOf(p, n)[i].conn < |n.conns|
        && SlotOk(p.table, p.args, LogOf(p, n)[i].seqno)
    ensures var w := LogOf(p, n)[i];
            MoveOf(p, n, i) == ClientWrite(n.conns[w.conn], Slot(p.table, w.seqno, p.args.msgSize), w.result)
  {
  }

  /** The end of the client's write is recorded. */
  lemma NodeEnds(p: Party, n: Node, s: Sys)
    requires PartyOk(p) && NodeInv(p, n, s) && n.done > 0 && !Quiet(n, s)
    ensures var m := MoveOf(p, n, n.done - 1);
            m.ClientWrite? && m.id in n.conns && Possible(s, ClientEnd(m.id)) && NodeInv(p, n, Do(s, ClientEnd(m.id)))
  {
    hide Possible, R.SentOn, LogOf, WorldOf, Own, SlotOk, TableOk, SentOn, R.InTable, MoveOf, C.RecordsOf, Do;
    var k: nat :| k < |n.conns| && n.conns[k] in s.open;
    assert OpenIs(p, n, s, k);
    var ws, id := LogOf(p, n), n.conns[k];
    var w := ws[n.done - 1];
    MoveIs(p, n, n.done - 1);
    TableMessagesFit(p.args, p.table, w.seqno, ClientSndEnd);
    DoEnd(s, id);
    var s' := Do(s, ClientEnd(id));
    OwnSnoc(s.log, RecordOf(s.open[id], ClientSndEnd), p.args.uid);
    hide RecordOf, Readable, IsFrame, PartyOk;
    assert Quiet(n, s');
    assert Own(s'.log, p.args.uid) + [] == Own(s'.log, p.args.uid);
  }

  // ---------------------------------------------------------------- all clients in the system

  /** A relay context that belongs to no client's connection. */
  ghost predicate Unused(b: Bench, id: nat)
  {
    forall u | 0 <= u < |b.nodes| :: id !in b.nodes[u].conns
  }

  ghost predicate Known(ps: seq<Party>, r: Record)
  {
    exists u | 0 <= u < |ps| :: ps[u].args.uid == r.uid
  }

  ghost predicate NodesInv(ps: seq<Party>, b: Bench)
    requires PartiesOk(ps)
  {
    |b.nodes| == |ps| && forall u | 0 <= u < |ps| :: NodeInv(ps[u], b.nodes[u], DoAll(b.ms))
  }

  /** No two clients share a connection. */
  ghost predicate Apart(b: Bench)
  {
    forall u, v | 0 <= u < v < |b.nodes| :: forall id <- b.nodes[u].conns :: id !in b.nodes[v].conns
  }

  ghost predicate RestInv(ps: seq<Party>, b: Bench)
  {
    var s := DoAll(b.ms);
    && (forall id: nat | Unused(b, id) :: SentOn(s, id) == [] && id !in s.open)
    && (forall r <- s.log | r.action == ClientSndBegin :: Known(ps, r))
  }

  ghost predicate BenchInv(ps: seq<Party>, b: Bench)
    requires PartiesOk(ps)
  {
    NodesInv(ps, b) && Apart(b) && RestInv(ps, b) && AllPossible(b.ms)
  }

  /** Every move was possible when it was made. */
  ghost predicate AllPossible(ms: seq<Move>)
    decreases |ms|
  {
    ms == [] || (AllPossible(ms[..|ms| - 1]) && Possible(DoAll(ms[..|ms| - 1]), ms[|ms| - 1]))
  }

  lemma OneMoreMove(ms: seq<Move>, m: Move)
    ensures DoAll(ms + [m]) == Do(DoAll(ms), m)
    ensures AllPossible(ms) && Possible(DoAll(ms), m) ==> AllPossible(ms + [m])
  {
    hide Do, Possible;
    assert (ms + [m])[..|ms|] == ms;
  }

  lemma ApartBoth(b: Bench, u: nat, v: nat, id: nat)
    requires Apart(b) && u < |b.nodes| && v < |b.nodes| && u != v && id in b.nodes[u].conns
    ensures id !in b.nodes[v].conns
  {
    if u < v {
      assert forall x <- b.nodes[u].conns :: x !in b.nodes[v].conns;
    } else {
      assert forall x <- b.nodes[v].conns :: x !in b.nodes[u].conns;
    }
  }

  lemma EventKeeps(ps: seq<Party>, b: Bench, a: Act)
    requires PartiesOk(ps) && BenchInv(ps, b) && a.ClientEvent? && Can(ps, b, a)
    ensures BenchInv(ps, Next(ps, b, a))
  {
    hide NodeInv, AllPossible, LogOf, WorldOf, R.Enabled, Possible, DoAll, Quiet, PartyOk;
    var b', n := Next(ps, b, a), b.nodes[a.u];
    var n' := b'.nodes[a.u];
    if a.e.Added? {
      assert Unused(b, a.id);
    }
    assert NodeInv(ps[a.u], n', DoAll(b.ms)) by {
      assert NodeInv(ps[a.u], n, DoAll(b.ms)) && PartyOk(ps[a.u]);
      NodeEvent(ps[a.u], n, DoAll(b.ms), a.e, a.id);
    }
    forall id: nat | Unused(b', id) ensures Unused(b, id) {
      forall u | 0 <= u < |b.nodes| ensures id !in b.nodes[u].conns {
        assert id !in b'.nodes[u].conns;
      }
    }
    forall u, v | 0 <= u < v < |b'.nodes| ensures forall id <- b'.nodes[u].conns :: id !in b'.nodes[v].conns {
      forall id <- b'.nodes[u].conns ensures id !in b'.nodes[v].conns {
        if id in b.nodes[u].conns {
          ApartBoth(b, u, v, id);
        }
      }
    }
  }

  /** The system has moved; client `u` may have performed a write of its own. */
  lemma SystemMoved(ps: seq<Party>, b: Bench, u: nat, n': Node, m: Move)
    requires PartiesOk(ps) && BenchInv(ps, b) && u < |ps| && Possible(DoAll(b.ms), m)
    requires n'.conns == b.nodes[u].conns && NodeInv(ps[u], n', Do(DoAll(b.ms), m))
    requires forall id | id !in n'.conns :: Untouched(DoAll(b.ms), Do(DoAll(b.ms), m), id)
    requires forall v | 0 <= v < |ps| && v != u ::
        Own(Do(DoAll(b.ms), m).log, ps[v].args.uid) == Own(DoAll(b.ms).log, ps[v].args.uid)
    requires forall r <- Do(DoAll(b.ms), m).log :: r in DoAll(b.ms).log || r.action != ClientSndBegin || Known(ps, r)
    ensures BenchInv(ps, Bench(b.ms + [m], b.nodes[u := n']))
  {
    hide NodeInv, Possible, DoAll, PartyOk, Own, Do;
    var b', s, s' := Bench(b.ms + [m], b.nodes[u := n']), DoAll(b.ms), Do(DoAll(b.ms), m);
    OneMoreMove(b.ms, m);
    forall v | 0 <= v < |ps| ensures NodeInv(ps[v], b'.nodes[v], s') {
      if v != u {
        OtherStays(ps, b, u, v, m);
      }
    }
    forall id: nat | Unused(b', id) ensures Unused(b, id) && SentOn(s', id) == [] && id !in s'.open {
      forall v | 0 <= v < |b.nodes| ensures id !in b.nodes[v].conns {
        assert id !in b'.nodes[v].conns;
      }
      assert id !in b'.nodes[u].conns;
      assert Untouched(s, s', id);
    }
    forall v, w | 0 <= v < w < |b'.nodes| ensures forall id <- b'.nodes[v].conns :: id !in b'.nodes[w].conns {
      assert b'.nodes[v].conns == b.nodes[v].conns && b'.nodes[w].conns == b.nodes[w].conns;
    }
  }

  ghost predicate Untouched(s: Sys, s': Sys, id: nat)
  {
    && SentOn(s', id) == SentOn(s, id) && (id in s'.open <==> id in s.open)
    && (id in s.open ==> s'.open[id] == s.open[id])
  }

  lemma OtherStays(ps: seq<Party>, b: Bench, u: nat, v: nat, m: Move)
    requires PartiesOk(ps) && NodesInv(ps, b) && Apart(b) && u < |ps| && v < |ps| && u != v
    requires forall id | id !in b.nodes[u].conns :: Untouched(DoAll(b.ms), Do(DoAll(b.ms), m), id)
    requires Own(Do(DoAll(b.ms), m).log, ps[v].args.uid) == Own(DoAll(b.ms).log, ps[v].args.uid)
    ensures NodeInv(ps[v], b.nodes[v], Do(DoAll(b.ms), m))
  {
    hide NodeInv, DoAll, PartyOk, Own, Do;
    var n, s, s' := b.nodes[v], DoAll(b.ms), Do(DoAll(b.ms), m);
    forall k | 0 <= k < |n.conns| ensures Untouched(s, s', n.conns[k]) {
      ApartBoth(b, v, u, n.conns[k]);
    }
    assert NodeInv(ps[v], n, s) && PartyOk(ps[v]);
    NodeStays(ps[v], n, s, s');
  }

  lemma OwnUntouched(ps: seq<Party>, u: nat, log: seq<Record>, r: Record)
    requires PartiesOk(ps) && u < |ps| && r.uid == ps[u].args.uid
    ensures forall v | 0 <= v < |ps| && v != u :: Own(log + [r], ps[v].args.uid) == Own(log, ps[v].args.uid)
  {
    hide PartyOk;
    forall v | 0 <= v < |ps| && v != u ensures Own(log + [r], ps[v].args.uid) == Own(log, ps[v].args.uid) {
      OwnSnoc(log, r, ps[v].args.uid);
      assert ps[v].args.uid != ps[u].args.uid;
      assert Own(log, ps[v].args.uid) + [] == Own(log, ps[v].args.uid);
    }
  }

  lemma WriteKeeps(ps: seq<Party>, b: Bench, u: nat)
    requires PartiesOk(ps) && BenchInv(ps, b) && Can(ps, b, WriteNext(u))
    ensures BenchInv(ps, Next(ps, b, WriteNext(u)))
  {
    hide NodeInv, Possible, DoAll, PartyOk, Own, Do, LogOf, Apart, RestInv, AllPossible, MoveOf, Quiet, SlotOk,
        RecordOf;
    var p, n, s := ps[u], b.nodes[u], DoAll(b.ms);
    assert PartyOk(p) && NodeInv(p, n, s);
    var m := MoveOf(p, n, n.done);
    WriteIsPossible(p, n, s);
    NodeWrites(p, n, s);
    WriteSays(p, n);
    DoWrite(s, m);
    OwnUntouched(ps, u, s.log, RecordOf(m.frame, ClientSndBegin));
    assert Known(ps, RecordOf(m.frame, ClientSndBegin));
    assert m.id in n.conns;
    SystemMoved(ps, b, u, n.(done := n.done + 1), m);
  }

  lemma WriteSays(p: Party, n: Node)
    requires PartyOk(p) && n.done < |LogOf(p, n)|
    requires var w := LogOf(p, n)[n.done];
             w.seqno < p.args.Total() && w.conn < |n.conns| && SlotOk(p.table, p.args, w.seqno)
    ensures var m := MoveOf(p, n, n.done);
            m.ClientWrite? && Readable(m.frame) && RecordOf(m.frame, ClientSndBegin).uid == p.args.uid
  {
    var w := LogOf(p, n)[n.done];
    MoveIs(p, n, n.done);
    TableMessagesFit(p.args, p.table, w.seqno, ClientSndBegin);
  }

  lemma EndKeeps(ps: seq<Party>, b: Bench, u: nat)
    requires PartiesOk(ps) && BenchInv(ps, b) && Can(ps, b, EndWrite(u))
    ensures BenchInv(ps, Next(ps, b, EndWrite(u)))
  {
    hide NodeInv, Possible, DoAll, PartyOk, Own, Do, LogOf, Apart, RestInv, AllPossible, MoveOf, Quiet, RecordOf;
    var p, n, s := ps[u], b.nodes[u], DoAll(b.ms);
    assert PartyOk(p) && NodeInv(p, n, s);
    NodeEnds(p, n, s);
    var id := MoveOf(p, n, n.done - 1).id;
    EndSays(p, n, s, id);
    DoEnd(s, id);
    OwnUntouched(ps, u, s.log, RecordOf(s.open[id], ClientSndEnd));
    SystemMoved(ps, b, u, n, ClientEnd(id));
    assert b.nodes[u := n] == b.nodes;
  }

  lemma EndSays(p: Party, n: Node, s: Sys, id: nat)
    requires PartyOk(p) && NodeInv(p, n, s) && id in n.conns && Possible(s, ClientEnd(id))
    ensures id in s.open && Readable(s.open[id])
    ensures RecordOf(s.open[id], ClientSndEnd).uid == p.args.uid
        && RecordOf(s.open[id], ClientSndEnd).action == ClientSndEnd
  {
    var k: nat :| k < |n.conns| && n.conns[k] == id;
    assert OpenIs(p, n, s, k);
    TableMessagesFit(p.args, p.table, LogOf(p, n)[n.done - 1].seqno, ClientSndEnd);
  }

  /** Relay and upstream record nothing of the clients' kind and leave their connections alone. */
  lemma ElsewhereSays(s: Sys, m: Move)
    requires Possible(s, m) && (m.AtRelay? || m.UpstreamRead?)
    ensures var s' := Do(s, m);
            && s'.sent == s.sent && s'.open == s.open && s.log <= s'.log
            && forall r <- s'.log[|s.log|..] :: r.action != ClientSndBegin && r.action != ClientSndEnd
  {
    var s' := Do(s, m);
    if m.AtRelay? {
      RelayKinds(RelayEntries(RelayRuns.Run(s.es), m.e));
      assert s'.log[|s.log|..] == RecordsOf(RelayEntries(RelayRuns.Run(s.es), m.e));
    } else {
      ReceiptKinds(RelayRuns.NewFrames(ReadOn(s, m.up), m.chunk));
      assert s'.log[|s.log|..] == ReceiveRecords(RelayRuns.NewFrames(ReadOn(s, m.up), m.chunk));
    }
  }

  lemma {:induction false} RelayKinds(hs: seq<Handled>)
    requires AllReadable(hs)
    ensures forall r <- RecordsOf(hs) :: r.action == ServerRcv || r.action == ServerSndBegin
  {
    if hs != [] {
      RelayKinds(hs[..|hs| - 1]);
    }
  }

  lemma {:induction false} ReceiptKinds(fs: seq<Bytes>)
    requires forall f <- fs :: Readable(f)
    ensures forall r <- ReceiveRecords(fs) :: r.action == UpstreamRcv
  {
    hide Readable;
    if fs != [] {
      ReceiptKinds(fs[..|fs| - 1]);
    }
  }

  lemma ElsewhereKeeps(ps: seq<Party>, b: Bench, m: Move)
    requires PartiesOk(ps) && BenchInv(ps, b) && Can(ps, b, Elsewhere(m))
    ensures BenchInv(ps, Next(ps, b, Elsewhere(m)))
  {
    hide NodeInv, Possible, DoAll, PartyOk, Own, Do, AllPossible, Apart;
    var b', s, s' := Next(ps, b, Elsewhere(m)), DoAll(b.ms), Do(DoAll(b.ms), m);
    OneMoreMove(b.ms, m);
    ElsewhereSays(s, m);
    var more := s'.log[|s.log|..];
    assert s'.log == s.log + more;
    forall u | 0 <= u < |ps| ensures NodeInv(ps[u], b'.nodes[u], s') {
      OwnOthers(s.log, more, ps[u].args.uid);
      assert NodeInv(ps[u], b.nodes[u], s) && PartyOk(ps[u]);
      NodeStays(ps[u], b.nodes[u], s, s');
    }
    forall id: nat | Unused(b', id) ensures SentOn(s', id) == [] && id !in s'.open {
      assert Unused(b, id);
    }
    forall r <- s'.log | r.action == ClientSndBegin ensures Known(ps, r) {
      assert r in s.log || r in more;
    }
    SameApart(b, b');
  }

  lemma SameApart(b: Bench, b': Bench)
    requires b.nodes == b'.nodes && Apart(b)
    ensures Apart(b')
  {
  }

  /** In every run of the real clients, relay and upstream: every move is one of the step system, every
      connection carries what its client's round machine wrote, and every client's records are those of
      its writes. */
  lemma {:induction false} PlayInv(ps: seq<Party>, acts: seq<Act>)
    requires PartiesOk(ps)
    ensures BenchInv(ps, Play(ps, acts))
    decreases |acts|
  {
    if acts == [] {
      PlayStart(ps);
    } else {
      hide BenchInv, Next, Can, PartiesOk;
      var b, a := Play(ps, acts[..|acts| - 1]), acts[|acts| - 1];
      PlayInv(ps, acts[..|acts| - 1]);
      if Can(ps, b, a) {
        match a
        case ClientEvent(_, _, _) => EventKeeps(ps, b, a);
        case WriteNext(u) => WriteKeeps(ps, b, u);
        case EndWrite(u) => EndKeeps(ps, b, u);
        case Elsewhere(m) => ElsewhereKeeps(ps, b, m);
      } else {
        NoNext(ps, b, a);
      }
    }
  }

  lemma NoNext(ps: seq<Party>, b: Bench, a: Act)
    requires |b.nodes| == |ps| && !Can(ps, b, a)
    ensures Next(ps, b, a) == b
  {
  }

  lemma PlayStart(ps: seq<Party>)
    requires PartiesOk(ps)
    ensures BenchInv(ps, Play(ps, []))
  {
    hide NodeInv, PartyOk;
    var b := Play(ps, []);
    assert DoAll(b.ms) == Init();
    forall u | 0 <= u < |ps| ensures NodeInv(ps[u], b.nodes[u], Init()) {
      assert PartyOk(ps[u]);
      NodeStarts(ps[u]);
    }
  }
}
