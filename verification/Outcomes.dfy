/** What the reports are worth: for real clients under different user ids whose writes do not fail, every
    message is recorded once by every hop, no latency is negative, and the order of files and rows does not
    matter for a line.  A client that has to send a round again can break all of this. */
module Outcomes {
  import opened Wire
  import opened BytesBuffers
  import opened Clocks
  import opened MessageTables
  import opened Records
  import opened RecordFiles
  import opened Reports
  import opened Scripts
  import opened Statistics
  import opened Systems
  import opened Counting
  import opened Benchmark
  import opened Latency
  import opened LatencyFiles
  import RelayRuns
  import opened Relays
  import C = Clients
  import R = ClientRuns

  // ---------------------------------------------------------------- no failed write

  /** Every write of every tick takes the whole message. */
  predicate NoFailedWrite(ps: seq<Party>, acts: seq<Act>)
  {
    forall a <- acts | a.ClientEvent? && a.u < |ps| :: GoodEvent(ps[a.u].args, a.e)
  }

  predicate GoodEvent(args: Args, e: R.Event)
  {
    e.Tick? ==> C.AllWhole(e.results, args.msgSize)
  }

  lemma {:induction false} EventsAreGood(ps: seq<Party>, acts: seq<Act>, u: nat)
    requires NoFailedWrite(ps, acts) && u < |ps|
    ensures forall e <- Play(ps, acts).nodes[u].es :: GoodEvent(ps[u].args, e)
    decreases |acts|
  {
    if acts != [] {
      hide Can, GoodEvent;
      EventsAreGood(ps, acts[..|acts| - 1], u);
      assert acts[|acts| - 1] in acts;
    }
  }

  lemma {:induction false} WholeAttempt(conn: nat, first: nat, ms: nat, results: seq<int>)
    requires C.AllWhole(results, ms)
    ensures forall w <- C.Attempt(conn, first, ms, results) :: w.result == ms
    decreases |results|
  {
    if results != [] {
      WholeAttempt(conn, first + 1, ms, results[1..]);
    }
  }

  lemma {:induction false} WritesAreWhole(p: Party, es: seq<R.Event>)
    requires forall e <- es :: GoodEvent(p.args, e)
    ensures forall w <- R.Run(p.args, false, R.Start(p.now), es).core.writes :: w.result == p.args.msgSize
    decreases |es|
  {
    if es != [] {
      var w, e := R.Run(p.args, false, R.Start(p.now), es[..|es| - 1]), es[|es| - 1];
      WritesAreWhole(p, es[..|es| - 1]);
      assert GoodEvent(p.args, e);
      if e.Tick? && w.core.ctx.Some? {
        WholeAttempt(w.core.ctx.value, w.core.round * p.args.n, p.args.msgSize, e.results);
      }
    }
  }

  // ---------------------------------------------------------------- every message once

  lemma {:induction false} OwnAt(log: seq<Record>, uid: nat, i: nat) returns (k: nat)
    requires i < |log| && IsOwn(log[i], uid)
    ensures k < |Own(log, uid)| && Own(log, uid)[k] == log[i]
    ensures i == |log| - 1 ==> k == |Own(log, uid)| - 1
    decreases |log|
  {
    if i == |log| - 1 {
      k := |Own(log, uid)| - 1;
    } else {
      k := OwnAt(log[..|log| - 1], uid, i);
    }
  }

  lemma {:induction false} TwoOwn(log: seq<Record>, uid: nat, i: nat, j: nat) returns (k: nat, l: nat)
    requires i < j < |log| && IsOwn(log[i], uid) && IsOwn(log[j], uid)
    ensures k < l < |Own(log, uid)| && Own(log, uid)[k] == log[i] && Own(log, uid)[l] == log[j]
    decreases |log|
  {
    var init := log[..|log| - 1];
    if j == |log| - 1 {
      k := OwnAt(init, uid, i);
      l := |Own(log, uid)| - 1;
    } else {
      k, l := TwoOwn(init, uid, i, j);
    }
  }

  /** A client's records so far are the first ones of its whole record list. */
  lemma OwnIsPrefix(p: Party, n: Node, s: Sys)
    requires PartyOk(p) && NodeInv(p, n, s)
    ensures Own(s.log, p.args.uid) <= C.RecordsOf(p.args, false, LogOf(p, n))
  {
    var ws := LogOf(p, n);
    C.RecordsAppend(p.args, false, ws[..n.done], ws[n.done..]);
    assert ws == ws[..n.done] + ws[n.done..];
    hide C.RecordsOf, Own, Missing, LogOf, R.SentOn;
    var all, some := C.RecordsOf(p.args, false, ws), C.RecordsOf(p.args, false, ws[..n.done]);
    assert some <= all;
    assert Own(s.log, p.args.uid) <= some;
  }

  lemma ClientStartsOnce(ps: seq<Party>, acts: seq<Act>, u: nat)
    requires PartiesOk(ps) && NoFailedWrite(ps, acts) && u < |ps|
    ensures StartedOnce(Own(DoAll(Play(ps, acts).ms).log, ps[u].args.uid))
  {
    hide NodeInv, DoAll, GoodEvent;
    var b := Play(ps, acts);
    var p, n, s := ps[u], b.nodes[u], DoAll(b.ms);
    PlayInv(ps, acts);
    assert PartyOk(p) && NodeInv(p, n, s);
    EventsAreGood(ps, acts, u);
    WritesAreWhole(p, n.es);
    NoFailureStartsOnce(p.args, false, p.now, n.es);
    OwnIsPrefix(p, n, s);
    hide C.RecordsOf, Own, LogOf;
    PrefixStartsOnce(Own(s.log, p.args.uid), C.RecordsOf(p.args, false, R.Run(p.args, false, R.Start(p.now),
        n.es).core.writes)) by {
      LogIs(p, n);
    }
  }

  lemma LogIs(p: Party, n: Node)
    ensures LogOf(p, n) == R.Run(p.args, false, R.Start(p.now), n.es).core.writes
  {
  }

  lemma PrefixStartsOnce(a: seq<Record>, b: seq<Record>)
    requires a <= b && StartedOnce(b)
    ensures StartedOnce(a)
  {
    assert forall i | 0 <= i < |a| :: a[i] == b[i];
  }

  /** With clients under different user ids and no failed write, no message is started twice in the
      whole system. */
  lemma NoFailureStartsOnceInAll(ps: seq<Party>, acts: seq<Act>)
    requires PartiesOk(ps) && NoFailedWrite(ps, acts)
    ensures StartedOnce(DoAll(Play(ps, acts).ms).log)
  {
    hide NodesInv, DoAll, NoFailedWrite, PartyOk, Apart, AllPossible, Play;
    var b := Play(ps, acts);
    var log := DoAll(b.ms).log;
    PlayInv(ps, acts);
    forall i, j | 0 <= i < j < |log| && log[i].action == ClientSndBegin ensures log[i] != log[j] {
      if log[i] == log[j] {
        assert log[i] in log && Known(ps, log[i]);
        var u :| 0 <= u < |ps| && ps[u].args.uid == log[i].uid;
        ClientStartsOnce(ps, acts, u);
        var k, l := TwoOwn(log, ps[u].args.uid, i, j);
        assert false;
      }
    }
  }

  /** No two records of the log are equal. */
  ghost predicate AllDifferent(log: seq<Record>)
  {
    forall i, j | 0 <= i < j < |log| :: log[i] != log[j]
  }

  lemma OnceCounts(log: seq<Record>, r: Record)
    requires StartedOnce(log) && r.action == ClientSndBegin
    ensures multiset(log)[r] <= 1
  {
    if i :| 0 <= i < |log| && log[i] == r {
      assert log == log[..i] + [r] + log[i + 1..];
      assert r !in log[..i] && r !in log[i + 1..];
      assert multiset(log[..i])[r] == 0 && multiset(log[i + 1..])[r] == 0;
    } else {
      assert r !in log;
    }
  }

  lemma TwiceCounts(log: seq<Record>, i: nat, j: nat)
    requires i < j < |log| && log[i] == log[j]
    ensures multiset(log)[log[i]] >= 2
  {
    assert log == log[..i] + [log[i]] + log[i + 1..j] + [log[j]] + log[j + 1..];
  }

  lemma OnceAtEveryHop(log: seq<Record>, r: Record, a: Action)
    requires Balanced(log, r) && N(log, r, ClientSndBegin) <= 1
    ensures N(log, r, a) <= 1
  {
    hide N;
    match a
    case ClientSndBegin =>
    case ClientSndEnd =>
    case ServerRcv =>
    case ServerSndBegin =>
    case UpstreamRcv =>
  }

  /** If every message is started once, every record of the run is made once: relay and upstream neither
      record nor deliver a message twice. */
  lemma EveryRecordOnce(ms: seq<Move>)
    requires StartedOnce(DoAll(ms).log)
    ensures AllDifferent(DoAll(ms).log)
  {
    var log := DoAll(ms).log;
    hide DoAll, StartedOnce;
    forall i, j | 0 <= i < j < |log| ensures log[i] != log[j] {
      if log[i] == log[j] {
        var r := log[i].(action := ClientSndBegin);
        TwiceCounts(log, i, j);
        OnceCounts(log, r);
        BalancedAfter(ms, r);
        assert r.(action := ClientSndBegin) == r && r.(action := log[i].action) == log[i];
        OnceAtEveryHop(log, r, log[i].action);
        assert false;
      }
    }
  }

  // ---------------------------------------------------------------- who makes which record

  function Repeat(p: nat, n: nat): (ps: seq<nat>)
    ensures |ps| == n && forall k | 0 <= k < n :: ps[k] == p
  {
    seq(n, _ => p)
  }

  /** The processes that make the records of one act: client u, the relay or the upstream. */
  ghost function MadeIn(ps: seq<Party>, b: Bench, a: Act): (hop: seq<nat>)
    requires |b.nodes| == |ps|
  {
    if !Can(ps, b, a) then []
    else match a
      case ClientEvent(_, _, _) => []
      case WriteNext(u) => [u]
      case EndWrite(u) => [u]
      case Elsewhere(m) => Repeat(if m.AtRelay? then |ps| else |ps| + 1, |LogIn(DoAll(b.ms), m)|)
  }

  ghost function Makers(ps: seq<Party>, acts: seq<Act>): (hop: seq<nat>)
    decreases |acts|
  {
    if acts == [] then []
    else Makers(ps, acts[..|acts| - 1]) + MadeIn(ps, Play(ps, acts[..|acts| - 1]), acts[|acts| - 1])
  }

  /** The action and the user id of a record tell its process. */
  ghost predicate Makes(ps: seq<Party>, p: nat, r: Record)
  {
    match r.action
    case ClientSndBegin => p < |ps| && ps[p].args.uid == r.uid
    case ClientSndEnd => p < |ps| && ps[p].args.uid == r.uid
    case ServerRcv => p == |ps|
    case ServerSndBegin => p == |ps|
    case UpstreamRcv => p == |ps| + 1
  }

  ghost predicate AllMade(ps: seq<Party>, hop: seq<nat>, log: seq<Record>)
  {
    |hop| == |log| && forall i | 0 <= i < |log| :: Makes(ps, hop[i], log[i])
  }

  lemma AllMadeAppend(ps: seq<Party>, hop: seq<nat>, log: seq<Record>, hop': seq<nat>, log': seq<Record>)
    requires AllMade(ps, hop, log) && AllMade(ps, hop', log')
    ensures AllMade(ps, hop + hop', log + log')
  {
    hide Makes;
    forall i | 0 <= i < |log + log'| ensures Makes(ps, (hop + hop')[i], (log + log')[i]) {
      if i >= |log| {
        assert Makes(ps, hop'[i - |log|], log'[i - |log|]);
      }
    }
  }

  lemma WriteMakes(ps: seq<Party>, b: Bench, u: nat) returns (more: seq<Record>)
    requires PartiesOk(ps) && BenchInv(ps, b) && Can(ps, b, WriteNext(u))
    ensures DoAll(Next(ps, b, WriteNext(u)).ms).log == DoAll(b.ms).log + more && AllMade(ps, [u], more)
  {
    hide NodeInv, Possible, DoAll, PartyOk, Do, LogOf, Apart, RestInv, AllPossible, MoveOf, Quiet, SlotOk, RecordOf;
    var p, n, s := ps[u], b.nodes[u], DoAll(b.ms);
    assert PartyOk(p) && NodeInv(p, n, s);
    var m := MoveOf(p, n, n.done);
    WriteIsPossible(p, n, s);
    WriteSays(p, n);
    DoWrite(s, m);
    OneMoreMove(b.ms, m);
    RecordIs(m.frame, ClientSndBegin);
    more := [RecordOf(m.frame, ClientSndBegin)];
  }

  lemma RecordIs(f: Bytes, a: Action)
    requires Readable(f)
    ensures RecordOf(f, a).action == a
  {
  }

  lemma EndMakes(ps: seq<Party>, b: Bench, u: nat) returns (more: seq<Record>)
    requires PartiesOk(ps) && BenchInv(ps, b) && Can(ps, b, EndWrite(u))
    ensures DoAll(Next(ps, b, EndWrite(u)).ms).log == DoAll(b.ms).log + more && AllMade(ps, [u], more)
  {
    hide NodeInv, Possible, DoAll, PartyOk, Do, LogOf, Apart, RestInv, AllPossible, MoveOf, Quiet, RecordOf;
    var p, n, s := ps[u], b.nodes[u], DoAll(b.ms);
    assert PartyOk(p) && NodeInv(p, n, s);
    NodeEnds(p, n, s);
    var id := MoveOf(p, n, n.done - 1).id;
    EndSays(p, n, s, id);
    DoEnd(s, id);
    OneMoreMove(b.ms, ClientEnd(id));
    more := [RecordOf(s.open[id], ClientSndEnd)];
  }

  lemma ElsewhereMakes(ps: seq<Party>, b: Bench, m: Move) returns (more: seq<Record>)
    requires |b.nodes| == |ps| && Can(ps, b, Elsewhere(m))
    ensures DoAll(Next(ps, b, Elsewhere(m)).ms).log == DoAll(b.ms).log + more
    ensures AllMade(ps, MadeIn(ps, b, Elsewhere(m)), more)
  {
    var s := DoAll(b.ms);
    more := LogIn(s, m);
    LogGrows(s, m);
    OneMoreMove(b.ms, m);
    if m.AtRelay? {
      RelayKinds(HandledIn(s, m));
    } else {
      ReceiptKinds(RelayRuns.NewFrames(ReadOn(s, m.up), m.chunk));
    }
    hide DoAll, Do, RecordsOf, ReceiveRecords;
    forall i | 0 <= i < |more| ensures Makes(ps, if m.AtRelay? then |ps| else |ps| + 1, more[i]) {
      assert more[i] in more;
    }
  }

  /** In every run every record is made by the process that its user id and action name. */
  lemma {:induction false} MakersRun(ps: seq<Party>, acts: seq<Act>)
    requires PartiesOk(ps)
    ensures AllMade(ps, Makers(ps, acts), DoAll(Play(ps, acts).ms).log)
    decreases |acts|
  {
    hide BenchInv, Next, Can, PartiesOk, AllMade, DoAll;
    if acts == [] {
      NothingMade(ps);
    } else {
      var b, a := Play(ps, acts[..|acts| - 1]), acts[|acts| - 1];
      MakersRun(ps, acts[..|acts| - 1]);
      PlayInv(ps, acts[..|acts| - 1]);
      var more := ActMakes(ps, b, a);
      AllMadeAppend(ps, Makers(ps, acts[..|acts| - 1]), DoAll(b.ms).log, MadeIn(ps, b, a), more);
    }
  }

  lemma NothingMade(ps: seq<Party>)
    ensures AllMade(ps, Makers(ps, []), DoAll(Play(ps, []).ms).log)
  {
    assert DoAll([]) == Init();
  }

  lemma ActMakes(ps: seq<Party>, b: Bench, a: Act) returns (more: seq<Record>)
    requires PartiesOk(ps) && |b.nodes| == |ps| && BenchInv(ps, b)
    ensures DoAll(Next(ps, b, a).ms).log == DoAll(b.ms).log + more && AllMade(ps, MadeIn(ps, b, a), more)
  {
    hide BenchInv, PartiesOk, DoAll;
    more := [];
    assert DoAll(b.ms).log + [] == DoAll(b.ms).log;
    if Can(ps, b, a) {
      hide Can, Next;
      match a
      case ClientEvent(_, _, _) => EventIsSilent(ps, b, a);
      case WriteNext(u) => more := WriteMakes(ps, b, u);
      case EndWrite(u) => more := EndMakes(ps, b, u);
      case Elsewhere(m) => more := ElsewhereMakes(ps, b, m);
    }
  }

  lemma EventIsSilent(ps: seq<Party>, b: Bench, a: Act)
    requires |b.nodes| == |ps| && a.ClientEvent?
    ensures Next(ps, b, a).ms == b.ms
  {
  }

  /** With different user ids, equal records always come from one process. */
  lemma MadeInOneFile(ps: seq<Party>, hop: seq<nat>, log: seq<Record>)
    requires PartiesOk(ps) && AllMade(ps, hop, log)
    ensures SameFile(log, hop)
  {
    hide PartyOk;
    forall i, j | 0 <= i < j < |log| && log[i] == log[j] ensures hop[i] == hop[j] {
      assert Makes(ps, hop[i], log[i]) && Makes(ps, hop[j], log[j]);
    }
  }

  /** The exact condition for real clients under different user ids, each process with its own file: over
      all clocks and orders of the files, the script computes no negative latency exactly if every message
      that has an end has one after its last start. */
  lemma ClientFilesNeverNegativeIff(ps: seq<Party>, acts: seq<Act>, end: Action)
    requires PartiesOk(ps) && end != ClientSndBegin
    ensures var log, hop := DoAll(Play(ps, acts).ms).log, Makers(ps, acts);
            |hop| == |log| && (FilesNeverNegative(log, hop, end) <==> EndsLast(log, end))
  {
    MakersRun(ps, acts);
    hide DoAll, Play, Makers, PartiesOk;
    var log, hop := DoAll(Play(ps, acts).ms).log, Makers(ps, acts);
    MadeInOneFile(ps, hop, log);
    FilesNeverNegativeIff(log, hop, end);
  }

  // ---------------------------------------------------------------- the reports

  /** Rows of a run in which no record is made twice never disagree about a cell. */
  lemma DifferentRecordsAgree(ts: seq<Timed>, rows: seq<Row>)
    requires AllDifferent(RecordsIn(ts)) && RowsOfRun(rows, ts)
    ensures AllSettled(rows)
  {
    forall size, t: Target ensures Settled(OfSize(rows, size), BEGIN, End(t)) {
      OfSizeHas(rows, size);
      forall r, s | r in OfSize(rows, size) && s in OfSize(rows, size) && SameCell(r, s)
        ensures StampOf(r) == StampOf(s)
      {
        var i :| 0 <= i < |ts| && r == RowOf(EntryOf(ts[i]));
        var j :| 0 <= j < |ts| && s == RowOf(EntryOf(ts[j]));
        SameCellSameRecord(ts, i, j);
      }
      ConsistentIsSettled(OfSize(rows, size), BEGIN, End(t));
    }
  }

  lemma SameCellSameRecord(ts: seq<Timed>, i: nat, j: nat)
    requires After1970(ts) && i < |ts| && j < |ts| && AllDifferent(RecordsIn(ts))
    requires var r, t := RowOf(EntryOf(ts[i])), RowOf(EntryOf(ts[j])); SameCell(r, t) && r.size == t.size
    ensures i == j
  {
    KeyIsInjective(EntryOf(ts[i]), EntryOf(ts[j]));
    NamesDiffer(ts[i].record.action, ts[j].record.action);
    hide Name, Dec, Key;
    assert RecordsIn(ts)[i] == RecordsIn(ts)[j];
  }

  lemma RowsAtAreOfRun(ts: seq<Timed>, idx: seq<nat>)
    requires After1970(ts) && Inside(idx, |ts|)
    ensures RowsOfRun(RowsAt(ts, idx), ts)
  {
    RowsAtAre(ts, idx);
    var rows := RowsAt(ts, idx);
    hide RowsAt;
    forall r <- rows ensures exists i | 0 <= i < |ts| :: r == RowOf(EntryOf(ts[i])) {
      var k :| 0 <= k < |rows| && rows[k] == r;
      assert r == RowOf(EntryOf(ts[idx[k]]));
    }
  }

  lemma LineIsNonNegative(rows: seq<Row>, ts: seq<Timed>, j: Job, mean: seq<int> -> int, deviation: seq<int> -> int)
    requires OneClock(ts) && RowsOfRun(rows, ts)
    requires NoStartAfterEnd(RecordsIn(ts), ClientSndEnd) && NoStartAfterEnd(RecordsIn(ts), UpstreamRcv)
    ensures AllAtLeastZero(JobLatencies(rows, j))
    ensures var line := JobLine(rows, j, mean, deviation); line.Some? ==> AllAtLeastZero(line.value.quantiles)
  {
    hide Name, NoStartAfterEnd, OneClock, RowsOfRun, LatenciesOf;
    AllNonNegative(ts, rows, j.size, if j.target.Send? then ClientSndEnd else UpstreamRcv);
    QuantilesNonNegative(j.size, JobLatencies(rows, j), mean, deviation);
  }

  /** The whole way, from clients that meet no failed write to the reports.  The records of such a run,
      on one clock, printed by any number of processes and read in any order of their files: every file
      is read, no latency and no quantile of a written line is negative, and whether the order of the rows
      decides which lines exist is settled by the numbers of latencies alone. */
  lemma FailureFreeReports(ps: seq<Party>, acts: seq<Act>, ts: seq<Timed>, hop: seq<nat>, order: seq<nat>,
                           mean: seq<int> -> int, deviation: seq<int> -> int)
    requires PartiesOk(ps) && NoFailedWrite(ps, acts)
    requires RecordsIn(ts) == DoAll(Play(ps, acts).ms).log && OneClock(ts) && |hop| == |ts|
    ensures var texts := Texts(ts, hop, order);
            && LoadAll(texts).Some?
            && var rows := LoadAll(texts).value;
            && (forall j :: AllAtLeastZero(JobLatencies(rows, j)))
            && (forall w <- Script(texts, mean, deviation).out :: AllAtLeastZero(w.line.quantiles))
            && ((forall p: seq<Row> | multiset(p) == multiset(rows) ::
                SameLines(p, rows, mean, deviation)) <==> Indifferent(rows))
  {
    NoFailureStartsOnceInAll(ps, acts);
    EveryRecordOnce(Play(ps, acts).ms);
    SysRun(Play(ps, acts).ms);
    CausalStartsFirst(RecordsIn(ts), ClientSndEnd);
    CausalStartsFirst(RecordsIn(ts), UpstreamRcv);
    hide DoAll, Play, PartiesOk, NoFailedWrite, NoStartAfterEnd, StartedOnce, SameLines, Indifferent, AllDifferent;
    TextsAreRead(ts, hop, order);
    RowsAtAreOfRun(ts, Reading(hop, order));
    hide RowsAt, OneClock, RowsOfRun, AllAtLeastZero, After1970, Texts, LoadAll, JobLatencies, JobLine;
    var texts := Texts(ts, hop, order);
    var rows := RowsAt(ts, Reading(hop, order));
    forall j ensures AllAtLeastZero(JobLatencies(rows, j))
      ensures var line := JobLine(rows, j, mean, deviation); line.Some? ==> AllAtLeastZero(line.value.quantiles)
    {
      LineIsNonNegative(rows, ts, j, mean, deviation);
    }
    LinesBeforeFirstShort(texts, mean, deviation);
    DifferentRecordsAgree(ts, rows);
    LinesOrderIndependentIff(rows, mean, deviation);
  }
}
