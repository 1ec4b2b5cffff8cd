/** A run of the real system in which a message gets a negative throughput latency: the client's second
    write fails after the first message has reached the upstream, the client reconnects and sends the
    round again, and the script reads the records before the second copy arrives. */
module ResentMessage {
  import opened Wire
  import opened BytesBuffers
  import opened Clocks
  import opened Links
  import opened MessageTables
  import opened Records
  import opened Relays
  import opened RelayRuns
  import opened Systems
  import opened Benchmark
  import C = Clients
  import R = ClientRuns
  import opened Latency
  import opened LatencyFiles

  /** One round of two messages of 16 bytes. */
  const ARGS: Args := Args(7, 1, 2, 16, 0, 0)

  // ---------------------------------------------------------------- the client

  function ClientEvents(now: Time): (es: seq<R.Event>)
    ensures |es| == 5
  {
    [R.Added(true, now), R.Tick(now, [16, -1]), R.Closed, R.Added(true, now), R.Tick(now, [16, 16])]
  }

  /** The client's writes: the round breaks off at its second message and starts again. */
  const FIRST: seq<C.Write> := [C.Write(0, 0, 16), C.Write(0, 1, -1)]
  const AGAIN: seq<C.Write> := [C.Write(1, 0, 16), C.Write(1, 1, 16)]

  function WorldAt(now: Time, k: nat): R.World
  {
    R.Run(ARGS, false, R.Start(now), ClientEvents(now)[..if k <= 5 then k else 5])
  }

  lemma WorldStep(now: Time, k: nat)
    requires k < 5
    ensures WorldAt(now, k + 1) == R.Step(ARGS, false, WorldAt(now, k), ClientEvents(now)[k])
  {
    var es := ClientEvents(now);
    assert es[..k + 1][..k] == es[..k];
  }

  lemma Attempts()
    ensures C.Attempt(0, 0, 16, [16, -1]) == FIRST && C.Attempt(1, 0, 16, [16, 16]) == AGAIN
    ensures !C.AllWhole([16, -1], 16) && C.AllWhole([16, 16], 16)
  {
    assert [16, -1][1..] == [-1] && [16, 16][1..] == [16];
    assert C.Attempt(0, 1, 16, [-1]) == [C.Write(0, 1, -1)] + [];
    assert [16][1..] == [];
    assert C.Attempt(1, 1, 16, [16]) == [C.Write(1, 1, 16)] + C.Attempt(1, 2, 16, []);
  }

  lemma NotEarly(now: Time)
    ensures !C.Early(ARGS, false, now, Timespec(now.sec + 0, now.nsec))
  {
  }

  /** Connected, with the round broken off. */
  function BrokenOff(now: Time): R.World
  {
    R.World(C.Core(Some(0), now, 0, false, FIRST, now, [now]), R.Live(0, true, true), 1, [])
  }

  lemma FirstConnection(now: Time)
    ensures WorldAt(now, 0) == R.Start(now) && WorldAt(now, 1).core.writes == [] && WorldAt(now, 2) == BrokenOff(now)
    ensures forall k | 0 <= k < 2 :: R.Enabled(ARGS, false, WorldAt(now, k), ClientEvents(now)[k])
  {
    assert ClientEvents(now)[..0] == [];
    WorldStep(now, 0);
    WorldStep(now, 1);
    hide WorldAt, C.Early, C.Attempt, C.AllWhole;
    NotEarly(now);
    Attempts();
    assert [] + FIRST == FIRST && [] + [now] == [now];
  }

  lemma SecondConnection(now: Time)
    ensures WorldAt(now, 3).core.writes == WorldAt(now, 4).core.writes == FIRST
    ensures WorldAt(now, 5).core.writes == FIRST + AGAIN
    ensures forall k | 2 <= k < 5 :: R.Enabled(ARGS, false, WorldAt(now, k), ClientEvents(now)[k])
  {
    FirstConnection(now);
    WorldStep(now, 2);
    WorldStep(now, 3);
    WorldStep(now, 4);
    hide WorldAt, C.Early, C.Attempt, C.AllWhole;
    NotEarly(now);
    Attempts();
  }

  /** The events are those of a client run, and these are its writes. */
  lemma ClientStory(now: Time)
    ensures forall k | 0 <= k < 5 :: R.Enabled(ARGS, false, WorldAt(now, k), ClientEvents(now)[k])
    ensures WorldAt(now, 0).core.writes == WorldAt(now, 1).core.writes == []
    ensures WorldAt(now, 2).core.writes == WorldAt(now, 3).core.writes == WorldAt(now, 4).core.writes == FIRST
    ensures WorldAt(now, 5).core.writes == FIRST + AGAIN
  {
    hide WorldAt, R.Enabled, ClientEvents;
    FirstConnection(now);
    SecondConnection(now);
  }

  // ---------------------------------------------------------------- the client in the system

  /** After `acts` the client has seen its first `k` events and done its first `done` writes. */
  ghost predicate Here(p: Party, acts: seq<Act>, k: nat, done: nat, conns: seq<nat>, s: Sys)
  {
    var b := Play([p], acts);
    k <= 5 && b.nodes == [Node(ClientEvents(p.now)[..k], done, conns)] && DoAll(b.ms) == s
  }

  ghost predicate HasTable(p: Party)
  {
    p.args == ARGS && TableOk(p.table, ARGS)
  }

  lemma PartyReady(p: Party)
    requires HasTable(p)
    ensures PartyOk(p) && PartiesOk([p])
  {
  }

  lemma PlayOne(p: Party, acts: seq<Act>, a: Act)
    ensures Play([p], acts + [a]) == Next([p], Play([p], acts), a)
  {
    hide Next;
    assert (acts + [a])[..|acts|] == acts;
  }

  lemma HereLog(p: Party, acts: seq<Act>, k: nat, done: nat, conns: seq<nat>, s: Sys)
    requires HasTable(p) && Here(p, acts, k, done, conns, s)
    ensures var n := Node(ClientEvents(p.now)[..k], done, conns);
            WorldOf(p, n) == WorldAt(p.now, k) && LogOf(p, n) == WorldAt(p.now, k).core.writes
    ensures PartyOk(p) && NodeInv(p, Node(ClientEvents(p.now)[..k], done, conns), s)
  {
    hide DoAll, NodeInv;
    PartyReady(p);
    PlayInv([p], acts);
    var b := Play([p], acts);
    assert NodeInv([p][0], b.nodes[0], DoAll(b.ms));
  }

  lemma EventHere(p: Party, acts: seq<Act>, k: nat, done: nat, conns: seq<nat>, s: Sys, id: nat)
    returns (acts': seq<Act>)
    requires HasTable(p) && Here(p, acts, k, done, conns, s) && k < 5 && s.open == map[]
    requires done == |WorldAt(p.now, k).core.writes| && id !in conns
    ensures acts' == acts + [ClientEvent(0, ClientEvents(p.now)[k], id)]
    ensures Here(p, acts', k + 1, done, if ClientEvents(p.now)[k].Added? then conns + [id] else conns, s)
  {
    hide NodeInv, DoAll, WorldAt, R.Enabled, Play, LogOf, WorldOf, TableOk;
    var es := ClientEvents(p.now);
    var a := ClientEvent(0, es[k], id);
    acts' := acts + [a];
    PlayOne(p, acts, a);
    HereLog(p, acts, k, done, conns, s);
    ClientStory(p.now);
    hide HasTable, ClientEvents;
    assert R.Enabled(ARGS, false, WorldAt(p.now, k), es[k]);
    var b := Play([p], acts);
    assert b.nodes[0] == Node(es[..k], done, conns);
    assert [p][0] == p;
    assert Can([p], b, a);
    assert es[..k] + [es[k]] == es[..k + 1];
  }

  lemma WriteHere(p: Party, acts: seq<Act>, k: nat, done: nat, conns: seq<nat>, s: Sys)
    returns (acts': seq<Act>, s': Sys)
    requires HasTable(p) && Here(p, acts, k, done, conns, s) && s.open == map[]
    requires done < |WorldAt(p.now, k).core.writes|
    ensures acts' == acts + [WriteNext(0)] && Here(p, acts', k, done + 1, conns, s')
    ensures var w := WorldAt(p.now, k).core.writes[done];
            && w.conn < |conns| && w.seqno < 2 && SlotOk(p.table, ARGS, w.seqno)
            && s'.log == s.log + [Record(7, w.seqno, 16, ClientSndBegin)]
            && s'.open == map[conns[w.conn] := Slot(p.table, w.seqno, 16)]
            && SentOn(s', conns[w.conn]) == SentOn(s, conns[w.conn]) + [Sent(Slot(p.table, w.seqno, 16),
                Accepted(w.result))]
            && (forall id | id != conns[w.conn] :: SentOn(s', id) == SentOn(s, id))
            && s'.es == s.es && s'.read == s.read
  {
    hide NodeInv, DoAll, WorldAt, Play, LogOf, WorldOf, ClientEvents, RecordOf, Possible, IsFrame, Readable, MoveOf,
        Do, TableOk;
    acts' := acts + [WriteNext(0)];
    PlayOne(p, acts, WriteNext(0));
    HereLog(p, acts, k, done, conns, s);
    var b, n := Play([p], acts), Node(ClientEvents(p.now)[..k], done, conns);
    assert b.nodes[0] == n && [p][0] == p;
    assert Quiet(n, s);
    WriteIsPossible(p, n, s);
    var m, w := MoveOf(p, n, done), WorldAt(p.now, k).core.writes[done];
    DoWrite(s, m);
    TableMessagesFit(ARGS, p.table, w.seqno, ClientSndBegin);
    s' := Do(s, m);
    MoveDone(b.ms, m);
    hide HasTable, SlotOk;
    WriteKeepsRest(s, m);
    assert Can([p], b, WriteNext(0));
  }

  lemma MoveDone(ms: seq<Move>, m: Move)
    ensures DoAll(ms + [m]) == Do(DoAll(ms), m)
  {
    OneMoreMove(ms, m);
  }

  lemma WriteKeepsRest(s: Sys, m: Move)
    requires m.ClientWrite? || m.ClientEnd?
    ensures Do(s, m).es == s.es && Do(s, m).read == s.read
  {
  }

  lemma EndHere(p: Party, acts: seq<Act>, k: nat, done: nat, conns: seq<nat>, s: Sys, id: nat, seqno: nat)
    returns (acts': seq<Act>, s': Sys)
    requires HasTable(p) && Here(p, acts, k, done, conns, s) && done > 0 && id in conns && seqno < 2
    requires SlotOk(p.table, ARGS, seqno) && s.open == map[id := Slot(p.table, seqno, 16)]
    ensures acts' == acts + [EndWrite(0)] && Here(p, acts', k, done, conns, s')
    ensures s'.log == s.log + [Record(7, seqno, 16, ClientSndEnd)] && s'.open == map[]
    ensures (forall other :: SentOn(s', other) == SentOn(s, other)) && s'.es == s.es && s'.read == s.read
  {
    hide NodeInv, DoAll, WorldAt, Play, LogOf, WorldOf, ClientEvents, RecordOf, Possible, IsFrame, Readable, MoveOf,
        Do, TableOk;
    acts' := acts + [EndWrite(0)];
    PlayOne(p, acts, EndWrite(0));
    HereLog(p, acts, k, done, conns, s);
    var b, n := Play([p], acts), Node(ClientEvents(p.now)[..k], done, conns);
    assert b.nodes[0] == n && [p][0] == p;
    assert !Quiet(n, s);
    NodeEnds(p, n, s);
    var m := MoveOf(p, n, done - 1);
    EndSays(p, n, s, m.id);
    DoEnd(s, id);
    TableMessagesFit(ARGS, p.table, seqno, ClientSndEnd);
    s' := Do(s, ClientEnd(id));
    MoveDone(b.ms, ClientEnd(id));
    hide HasTable, SlotOk;
    WriteKeepsRest(s, ClientEnd(id));
    assert Can([p], b, EndWrite(0));
  }

  lemma ElseHere(p: Party, acts: seq<Act>, k: nat, done: nat, conns: seq<nat>, s: Sys, m: Move)
    returns (acts': seq<Act>)
    requires Here(p, acts, k, done, conns, s) && Possible(s, m) && (m.AtRelay? || m.UpstreamRead?)
    ensures acts' == acts + [Elsewhere(m)] && Here(p, acts', k, done, conns, Do(s, m))
  {
    acts' := acts + [Elsewhere(m)];
    PlayOne(p, acts, Elsewhere(m));
    MoveDone(Play([p], acts).ms, m);
    hide DoAll, Play, ClientEvents, Possible, Do;
  }

  // ---------------------------------------------------------------- relay and upstream

  const OPENING: seq<Event> := [UpstreamAdded(true), ClientConnected(true)]

  /** The upstream connects as context 0, the client as context 1. */
  lemma RelayOpens()
    ensures var w := Run(OPENING);
            && w.core == Core(Some(0), map[0 := UpstreamRole, 1 := ClientRole], {}, []) && w.live == {0, 1}
                && w.rx == map[]
    ensures Run([UpstreamAdded(true)]).inflight == 0 && Enabled(Run([]), UpstreamAdded(true))
  {
    assert OPENING[..1] == [UpstreamAdded(true)] && [UpstreamAdded(true)][..0] == [];
    assert Run([]) == Start();
    assert Run([UpstreamAdded(true)]) == Step(Start(), UpstreamAdded(true));
    assert Run(OPENING) == Step(Run([UpstreamAdded(true)]), ClientConnected(true));
  }

  lemma OpeningMoves() returns (s: Sys)
    ensures Possible(Init(), AtRelay(UpstreamAdded(true)))
    ensures Possible(Do(Init(), AtRelay(UpstreamAdded(true))), AtRelay(ClientConnected(true)))
    ensures s == Do(Do(Init(), AtRelay(UpstreamAdded(true))), AtRelay(ClientConnected(true)))
    ensures s == Sys(map[], map[], OPENING, map[], [])
  {
    RelayOpens();
    hide Run;
    var s1 := Do(Init(), AtRelay(UpstreamAdded(true)));
    assert s1 == Sys(map[], map[], [UpstreamAdded(true)], map[], []);
    s := Do(s1, AtRelay(ClientConnected(true)));
    assert [UpstreamAdded(true)] + [ClientConnected(true)] == OPENING;
  }

  lemma OneFrame(f: Bytes)
    requires IsFrame(f, 0)
    ensures Parse([] + f, 0) == Parsed([f], [], NeedMore) && NewFrames([], f) == [f]
  {
    FramesRoundTrip([f], 0);
    ConcatCons(f, []);
    assert [f] + [] == [f] && f + [] == f && [] + f == f;
    assert Parse([], 0).rest == [];
  }

  /** The relay reads the whole first message and forwards it. */
  lemma Forwards(s: Sys, f: Bytes)
    requires s.es == OPENING && SentOn(s, 1) == [Sent(f, 16)] && |f| == 16 && IsFrame(f, 0) && Readable(f)
    ensures var m := AtRelay(Data(1, f, [16])); var s' := Do(s, m);
            && Possible(s, m) && s'.log == s.log + [RecordOf(f, ServerRcv), RecordOf(f, ServerSndBegin)]
            && s'.open == s.open && s'.sent == s.sent && s'.read == s.read && StreamTo(s', 0) == f
  {
    var e, h := Data(1, f, [16]), Handled(1, f, Written(0, 16));
    hide Parse, Readable, Run, RecordOf, IsFrame, NewFrames, Enabled, Step, RelayEntries, StreamOf, Possible, Do,
        StreamTo, WritesTo;
    CanForward(f);
    OneSent(f);
    OneEntry(h);
    assert [] + f == f;
    RelayReads(s, e);
  }

  lemma RelayReads(s: Sys, e: Event)
    requires Enabled(Run(s.es), e) && e.Data? && Rx(Run(s.es), e.id) + e.chunk <= StreamOf(SentOn(s, e.id))
    ensures var m := AtRelay(e); var s' := Do(s, m);
            && Possible(s, m) && s'.log == s.log + RecordsOf(RelayEntries(Run(s.es), e))
            && s'.open == s.open && s'.sent == s.sent && s'.read == s.read
            && StreamTo(s', 0) == StreamOf(WritesTo(Step(Run(s.es), e).core.handled, 0))
  {
    hide Run, RelayEntries, Enabled, Step, StreamOf, WritesTo, Rx;
    RunSnoc(s.es, e);
  }

  lemma OneEntry(h: Handled)
    requires Readable(h.frame) && h.fate == Written(0, 16)
    ensures AllReadable([h]) && RecordsOf([h]) == [RecordOf(h.frame, ServerRcv), RecordOf(h.frame, ServerSndBegin)]
    ensures WritesTo([h], 0) == [Sent(h.frame, 16)]
  {
    hide Readable, RecordOf;
    assert [h][..0] == [];
    assert RecordsOf([h]) == [] + RecordsFor(h);
    assert WritesTo([h], 0) == [] + [Sent(h.frame, 16)];
  }

  lemma OneSent(f: Bytes)
    requires |f| == 16
    ensures StreamOf([Sent(f, 16)]) == f
  {
    assert [Sent(f, 16)][1..] == [];
    assert f + [] == f;
  }

  lemma CanForward(f: Bytes)
    requires |f| == 16 && IsFrame(f, 0) && Readable(f)
    ensures var w, e := Run(OPENING), Data(1, f, [16]);
            && Enabled(w, e) && Rx(w, 1) == [] && Step(w, e).core.handled == [Handled(1, f, Written(0, 16))]
            && RelayEntries(w, e) == [Handled(1, f, Written(0, 16))]
  {
    OneFrame(f);
    RelayOpens();
    hide Parse, Readable, Run, IsFrame, NewFrames;
    var w, h := Run(OPENING), Handled(1, f, Written(0, 16));
    assert [f][1..] == [] && [16][1..] == [];
    assert MayReturn(w.core, f, 16) && AllMayReturn(w.core, 1, [f], [16]);
    assert Rx(w, 1) == [] && 1 in w.live && 1 in w.core.roles;
    assert forall x <- [f] :: Readable(x);
    assert HandleStep(w.core, 1, f, 16).handled == [] + [h];
    assert HandleAll(w.core, 1, [f], [16]) == HandleStep(w.core, 1, f, 16);
    assert Entries(w.core, 1, [f], [16]) == [h] + [];
  }

  /** The upstream reads all of it. */
  lemma Receives(s: Sys, f: Bytes)
    requires StreamTo(s, 0) == f && ReadOn(s, 0) == [] && IsFrame(f, 0) && Readable(f)
    ensures var m := UpstreamRead(0, f); var s' := Do(s, m);
            Possible(s, m) && s'.log == s.log + [RecordOf(f, UpstreamRcv)] && s'.open == s.open && s'.sent == s.sent
  {
    hide Parse, Readable, RecordOf, IsFrame, NewFrames, StreamTo, Run;
    OneFrame(f);
    assert [] + f == f;
    assert [f][..0] == [] && ReceiveRecords([f]) == [] + [RecordOf(f, UpstreamRcv)];
  }

  // ---------------------------------------------------------------- the run

  function Rec(seqno: nat, a: Action): Record
  {
    Record(7, seqno, 16, a)
  }

  /** The run up to the moment at which the upstream has the first message. */
  lemma FirstHalf(p: Party) returns (acts: seq<Act>, s: Sys)
    requires HasTable(p)
    ensures Here(p, acts, 2, 1, [1], s) && s.open == map[]
    ensures s.log == [Rec(0, ClientSndBegin), Rec(0, ClientSndEnd), Rec(0, ServerRcv), Rec(0, ServerSndBegin), Rec(0,
        UpstreamRcv)]
  {
    ClientStory(p.now);
    hide DoAll, Possible, Do, Play, ClientEvents, WorldAt, IsMessage, Readable, IsFrame, RecordOf, Here, TableOk,
        SentOn, StreamTo;
    acts, s := [], Init();
    assert Here(p, [], 0, 0, [], Init()) by { NothingYet(p); }
    var s2 := OpeningMoves();
    acts := ElseHere(p, acts, 0, 0, [], s, AtRelay(UpstreamAdded(true)));
    acts := ElseHere(p, acts, 0, 0, [], Do(s, AtRelay(UpstreamAdded(true))), AtRelay(ClientConnected(true)));
    assert ClientEvents(p.now)[0].Added? && !ClientEvents(p.now)[1].Added? by { Kinds(p.now); }
    acts := EventHere(p, acts, 0, 0, [], s2, 1);
    assert [] + [1] == [1];
    acts := EventHere(p, acts, 1, 0, [1], s2, 0);
    acts, s := WriteHere(p, acts, 2, 0, [1], s2);
    var f := Slot(p.table, 0, 16);
    FirstSent(s2, s, f);
    acts, s := EndHere(p, acts, 2, 1, [1], s, 1, 0);
    MessageFacts(p, f);
    var m := AtRelay(Data(1, f, [16]));
    Forwards(s, f);
    acts := ElseHere(p, acts, 2, 1, [1], s, m);
    NotRead(s, Do(s, m));
    Receives(Do(s, m), f);
    acts := ElseHere(p, acts, 2, 1, [1], Do(s, m), UpstreamRead(0, f));
    s := Do(Do(s, m), UpstreamRead(0, f));
  }

  lemma NothingYet(p: Party)
    ensures Here(p, [], 0, 0, [], Init())
  {
    assert DoAll([]) == Init();
    assert Play([p], []).nodes == [Node([], 0, [])];
  }

  lemma Kinds(now: Time)
    ensures var es := ClientEvents(now); es[0].Added? && es[1].Tick? && es[2].Closed? && es[3].Added? && es[4].Tick?
  {
  }

  lemma FirstSent(s: Sys, s': Sys, f: Bytes)
    requires s.sent == map[] && SentOn(s', 1) == SentOn(s, 1) + [Sent(f, 16)]
    ensures SentOn(s', 1) == [Sent(f, 16)]
  {
  }

  lemma NotRead(s: Sys, s': Sys)
    requires s.read == map[] && s'.read == s.read
    ensures ReadOn(s', 0) == []
  {
  }

  lemma MessageFacts(p: Party, f: Bytes)
    requires HasTable(p) && SlotOk(p.table, ARGS, 0) && f == Slot(p.table, 0, 16)
    ensures |f| == 16 && IsFrame(f, 0) && Readable(f) && forall a :: RecordOf(f, a) == Rec(0, a)
  {
    forall a ensures Readable(f) && RecordOf(f, a) == Rec(0, a) {
      TableMessagesFit(ARGS, p.table, 0, a);
    }
    TableMessagesFit(ARGS, p.table, 0, UpstreamRcv);
  }

  const LOG: seq<Record> :=
    [Rec(0, ClientSndBegin), Rec(0, ClientSndEnd), Rec(0, ServerRcv), Rec(0, ServerSndBegin), Rec(0, UpstreamRcv),
     Rec(1, ClientSndBegin), Rec(1, ClientSndEnd), Rec(0, ClientSndBegin)]

  /** A run of the real system after which the first message has been sent twice and received once. */
  lemma ResentRun(p: Party) returns (acts: seq<Act>)
    requires HasTable(p)
    ensures PartiesOk([p])
    ensures DoAll(Play([p], acts).ms).log == LOG
  {
    hide DoAll, Play, PartiesOk, Here, HasTable;
    PartyReady(p);
    var s: Sys;
    acts, s := FirstHalf(p);
    acts, s := SecondHalf(p, acts, s);
    HereIs(p, acts, 5, 3, [1, 2], s);
  }

  /** The failed write, the reconnect, and the first message again. */
  lemma SecondHalf(p: Party, before: seq<Act>, s0: Sys) returns (acts: seq<Act>, s: Sys)
    requires HasTable(p) && Here(p, before, 2, 1, [1], s0) && s0.open == map[]
    ensures Here(p, acts, 5, 3, [1, 2], s)
    ensures s.log == s0.log + [Rec(1, ClientSndBegin)] + [Rec(1, ClientSndEnd)] + [Rec(0, ClientSndBegin)]
  {
    hide DoAll, Possible, Do, Play, ClientEvents, WorldAt, IsMessage, TableOk, SentOn, Here, HasTable, Off, Slot;
    ClientWrites(p.now);
    acts, s := WriteHere(p, before, 2, 1, [1], s0);
    acts, s := EndHere(p, acts, 2, 2, [1], s, 1, 1);
    acts := Reconnects(p, acts, s);
    acts, s := WriteHere(p, acts, 5, 2, [1, 2], s);
  }

  lemma Reconnects(p: Party, before: seq<Act>, s: Sys) returns (acts: seq<Act>)
    requires HasTable(p) && Here(p, before, 2, 2, [1], s) && s.open == map[]
    ensures Here(p, acts, 5, 2, [1, 2], s)
  {
    hide DoAll, Possible, Do, Play, ClientEvents, WorldAt, IsMessage, TableOk, SentOn, Here, HasTable;
    ClientWrites(p.now);
    Kinds(p.now);
    acts := EventHere(p, before, 2, 2, [1], s, 0);
    acts := EventHere(p, acts, 3, 2, [1], s, 2);
    assert [1] + [2] == [1, 2];
    acts := EventHere(p, acts, 4, 2, [1, 2], s, 0);
  }

  lemma ClientWrites(now: Time)
    ensures |WorldAt(now, 2).core.writes| == |WorldAt(now, 3).core.writes| == |WorldAt(now, 4).core.writes| == 2
    ensures |WorldAt(now, 5).core.writes| == 4
    ensures WorldAt(now, 2).core.writes[1] == C.Write(0, 1, -1) && WorldAt(now, 5).core.writes[2] == C.Write(1, 0, 16)
  {
    ClientStory(now);
  }

  lemma HereIs(p: Party, acts: seq<Act>, k: nat, done: nat, conns: seq<nat>, s: Sys)
    requires Here(p, acts, k, done, conns, s)
    ensures DoAll(Play([p], acts).ms) == s
  {
  }

  /** One file each for client, relay and upstream. */
  const HOPS: seq<nat> := [0, 0, 1, 1, 2, 0, 0, 0]

  /** So the throughput latency of that message is negative: on a clock of seconds, however the records are
      spread over files that keep equal records together (as one file for each hop does), and in every
      order of the files. */
  lemma ResentMessageGoesNegative(p: Party, hop: seq<nat>) returns (acts: seq<Act>)
    requires HasTable(p) && |hop| == 8
    ensures var log := DoAll(Play([p], acts).ms).log;
            |log| == 8 && !EndsLast(log, UpstreamRcv) && !NoStartAfterEnd(log, UpstreamRcv) && SameFile(log, HOPS)
    ensures var log := DoAll(Play([p], acts).ms).log;
            SameFile(log, hop) ==>
              forall order | Covers(order, hop) :: !AllAtLeastZero(FileLatencies(Seconds(log), hop, order, 16,
                  UpstreamRcv))
  {
    hide DoAll, Play, Covers, AllAtLeastZero, FileLatencies;
    acts := ResentRun(p);
    TheLog();
    if SameFile(LOG, hop) {
      forall order | Covers(order, hop) ensures !AllAtLeastZero(FileLatencies(Seconds(LOG), hop, order, 16,
          UpstreamRcv)) {
        NegativeInFiles(hop, order);
      }
    }
  }

  lemma TheLog()
    ensures |LOG| == 8 && !EndsLast(LOG, UpstreamRcv) && !NoStartAfterEnd(LOG, UpstreamRcv) && SameFile(LOG, HOPS)
  {
    var last := LOG[7];
    assert LOG[4] == last.(action := UpstreamRcv) && last.action == ClientSndBegin;
    ByHop();
    hide LOG;
    assert LOG[4].(action := ClientSndBegin) == LOG[7];
    assert LOG[8..] == [];
    assert last.(action := UpstreamRcv) in LOG;
    assert Ended(LOG, 7, UpstreamRcv) && !EndAfter(LOG, 7, UpstreamRcv);
  }

  function HopOf(a: Action): nat
  {
    match a
    case ClientSndBegin => 0
    case ClientSndEnd => 0
    case ServerRcv => 1
    case ServerSndBegin => 1
    case UpstreamRcv => 2
  }

  lemma ByHop()
    ensures SameFile(LOG, HOPS)
  {
    assert forall i | 0 <= i < 8 :: HOPS[i] == HopOf(LOG[i].action);
    hide LOG, HOPS;
  }

  lemma NegativeInFiles(hop: seq<nat>, order: seq<nat>)
    requires |hop| == 8 && SameFile(LOG, hop) && Covers(order, hop)
    ensures After1970(Seconds(LOG))
    ensures !AllAtLeastZero(FileLatencies(Seconds(LOG), hop, order, 16, UpstreamRcv))
  {
    SecondsAreOneClock(LOG);
    ReadingIsOrderly(hop, order);
    FileLatenciesAre(Seconds(LOG), hop, order, 16, UpstreamRcv);
    StartedLastIsNegative(LOG, hop, Reading(hop, order), UpstreamRcv, 4, 7);
  }
}
