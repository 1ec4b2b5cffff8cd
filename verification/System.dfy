/** The whole benchmark as one step system: clients, relay and upstream, with the records of all
    hops in the order in which they are made. */
module Systems {
  import opened Wire
  import opened BytesBuffers
  import opened Links
  import opened MessageTables
  import opened Records
  import opened Relays
  import opened RelayRuns

  /** What clients wrote on each connection, the client writes whose end is not yet recorded, the
      relay's history, the bytes the upstream read on each connection, and the records. */
  datatype Sys = Sys(sent: map<nat, seq<Sent>>, open: map<nat, Bytes>, es: seq<Event>,
                     read: map<nat, Bytes>, log: seq<Record>)

  datatype Move =
    | ClientWrite(id: nat, frame: Bytes, result: int)
    | ClientEnd(id: nat)
    | AtRelay(e: Event)
    | UpstreamRead(up: nat, chunk: Bytes)

  function SentOn(s: Sys, id: nat): seq<Sent>
  {
    if id in s.sent then s.sent[id] else []
  }

  function ReadOn(s: Sys, up: nat): Bytes
  {
    if up in s.read then s.read[up] else []
  }

  function StreamTo(s: Sys, up: nat): Bytes
  {
    StreamOf(WritesTo(Run(s.es).core.handled, up))
  }

  /** The records of the frames that the relay handles in one event. */
  function RelayEntries(w: World, e: Event): (hs: seq<Handled>)
    requires Enabled(w, e)
    ensures AllReadable(hs)
  {
    match e
    case Data(id, chunk, results) =>
      EntriesComeFrom(w.core, id, NewFrames(Rx(w, id), chunk), results);
      Entries(w.core, id, NewFrames(Rx(w, id), chunk), results)
    case _ => []
  }

  function ReceiveRecords(fs: seq<Bytes>): (rs: seq<Record>)
    requires forall f <- fs :: Readable(f)
  {
    if fs == [] then [] else ReceiveRecords(fs[..|fs| - 1]) + [RecordOf(fs[|fs| - 1], UpstreamRcv)]
  }

  /** The environment: clients send table messages over links that obey the shutdown rule, and TCP
      delivers a prefix of what was written. */
  ghost predicate Possible(s: Sys, m: Move)
  {
    match m
    case ClientWrite(id, frame, result) =>
      && Readable(frame) && IsFrame(frame, 0) && id !in s.open
      && result <= |frame| && (Clean(SentOn(s, id)) || result <= 0)
    case ClientEnd(id) => id in s.open && Readable(s.open[id])
    case AtRelay(e) =>
      && Enabled(Run(s.es), e)
      && (e.Data? ==> Rx(Run(s.es), e.id) + e.chunk <= StreamOf(SentOn(s, e.id)))
    case UpstreamRead(up, chunk) =>
      && ReadOn(s, up) + chunk <= StreamTo(s, up)
      && forall f <- NewFrames(ReadOn(s, up), chunk) :: Readable(f)
  }

  ghost function Do(s: Sys, m: Move): Sys
  {
    if !Possible(s, m) then s
    else match m
      case ClientWrite(id, frame, result) =>
        s.(sent := s.sent[id := SentOn(s, id) + [Sent(frame, Accepted(result))]], open := s.open[id := frame],
           log := s.log + [RecordOf(frame, ClientSndBegin)])
      case ClientEnd(id) =>
        s.(open := s.open - {id}, log := s.log + [RecordOf(s.open[id], ClientSndEnd)])
      case AtRelay(e) =>
        s.(es := s.es + [e], log := s.log + RecordsOf(RelayEntries(Run(s.es), e)))
      case UpstreamRead(up, chunk) =>
        s.(read := s.read[up := ReadOn(s, up) + chunk],
           log := s.log + ReceiveRecords(NewFrames(ReadOn(s, up), chunk)))
  }

  function Init(): Sys
  {
    Sys(map[], map[], [], map[], [])
  }

  ghost function DoAll(ms: seq<Move>): Sys
    decreases |ms|
  {
    if ms == [] then Init() else Do(DoAll(ms[..|ms| - 1]), ms[|ms| - 1])
  }

  // ---------------------------------------------------------------- causality of a log

  /** The record that must come before this one, for the same message. */
  function Cause(r: Record): (c: Option<Record>)
  {
    match r.action
    case ClientSndBegin => None
    case ClientSndEnd => Some(r.(action := ClientSndBegin))
    case ServerRcv => Some(r.(action := ClientSndBegin))
    case ServerSndBegin => Some(r.(action := ServerRcv))
    case UpstreamRcv => Some(r.(action := ServerSndBegin))
  }

  ghost predicate Causal(log: seq<Record>)
  {
    forall i | 0 <= i < |log| && Cause(log[i]).Some? :: Cause(log[i]).value in log[..i]
  }

  lemma CausalSnoc(log: seq<Record>, r: Record)
    requires Causal(log) && (Cause(r).Some? ==> Cause(r).value in log)
    ensures Causal(log + [r])
  {
    var all := log + [r];
    forall i | 0 <= i < |all| && Cause(all[i]).Some?
      ensures Cause(all[i]).value in all[..i]
    {
      assert all[..i] == log[..i];
      assert log[..|log|] == log;
    }
  }

  lemma CausalEntry(log: seq<Record>, h: Handled)
    requires Causal(log) && Readable(h.frame) && RecordOf(h.frame, ClientSndBegin) in log
    ensures Causal(log + RecordsFor(h))
    ensures h.fate.Written? ==> RecordOf(h.frame, ServerSndBegin) in RecordsFor(h)
  {
    hide Causal, Readable;
    var rcv, begin := RecordOf(h.frame, ServerRcv), RecordOf(h.frame, ServerSndBegin);
    CausalSnoc(log, rcv);
    assert log + ([rcv] + []) == log + [rcv];
    if h.fate.Written? {
      CausalSnoc(log + [rcv], begin);
      assert log + [rcv] + [begin] == log + ([rcv] + [begin]);
      assert RecordsFor(h)[1] == begin;
    }
  }

  /** Both records of every entry have their causes once the client's record is in the log. */
  lemma {:induction false} CausalEntries(log: seq<Record>, hs: seq<Handled>)
    requires Causal(log) && AllReadable(hs)
    requires forall h <- hs :: RecordOf(h.frame, ClientSndBegin) in log
    ensures Causal(log + RecordsOf(hs))
    ensures forall h <- hs | h.fate.Written? :: RecordOf(h.frame, ServerSndBegin) in RecordsOf(hs)
  {
    hide Causal, Readable, RecordOf;
    if hs == [] {
      assert log + [] == log;
    } else {
      var init, h := hs[..|hs| - 1], hs[|hs| - 1];
      CausalEntries(log, init);
      CausalEntry(log + RecordsOf(init), h);
      assert log + RecordsOf(hs) == (log + RecordsOf(init)) + RecordsFor(h);
      forall x <- hs | x.fate.Written?
        ensures RecordOf(x.frame, ServerSndBegin) in RecordsOf(hs)
      {
        assert x in init || x == h;
      }
    }
  }

  lemma {:induction false} CausalReceives(log: seq<Record>, fs: seq<Bytes>)
    requires Causal(log) && forall f <- fs :: Readable(f)
    requires forall f <- fs :: RecordOf(f, ServerSndBegin) in log
    ensures Causal(log + ReceiveRecords(fs))
  {
    if fs == [] {
      assert log + [] == log;
    } else {
      var init, f := fs[..|fs| - 1], fs[|fs| - 1];
      assert f in fs;
      assert Cause(RecordOf(f, UpstreamRcv)) == Some(RecordOf(f, ServerSndBegin));
      CausalReceives(log, init);
      CausalSnoc(log + ReceiveRecords(init), RecordOf(f, UpstreamRcv));
      assert log + ReceiveRecords(fs) == (log + ReceiveRecords(init)) + [RecordOf(f, UpstreamRcv)];
    }
  }

  // ---------------------------------------------------------------- prefixes and origins

  lemma RunSnoc(es: seq<Event>, e: Event)
    ensures Run(es + [e]) == Step(Run(es), e)
  {
    assert (es + [e])[..|es|] == es;
  }

  lemma {:induction false} WritesToAppend(hs: seq<Handled>, more: seq<Handled>, up: nat)
    ensures WritesTo(hs, up) <= WritesTo(hs + more, up)
    decreases |more|
  {
    if more == [] {
      assert hs + more == hs;
    } else {
      var init := more[..|more| - 1];
      WritesToAppend(hs, init, up);
      assert (hs + more)[..|hs + more| - 1] == hs + init;
    }
  }

  lemma {:induction false} StreamGrows(a: seq<Sent>, b: seq<Sent>)
    requires a <= b
    ensures StreamOf(a) <= StreamOf(b)
    decreases |a|
  {
    if a != [] {
      StreamGrows(a[1..], b[1..]);
    }
  }

  lemma {:induction false} WholeWereSent(ws: seq<Sent>)
    ensures forall f <- WholeFrames(ws) :: exists w <- ws :: w.frame == f
  {
    if ws != [] {
      WholeWereSent(ws[1..]);
      forall f <- WholeFrames(ws)
        ensures exists w <- ws :: w.frame == f
      {
        if f in WholeFrames(ws[1..]) {
          var w :| w in ws[1..] && w.frame == f;
          assert w in ws;
        } else {
          assert f == ws[0].frame && ws[0] in ws;
        }
      }
    }
  }

  lemma {:induction false} WritesWereHandled(hs: seq<Handled>, up: nat)
    ensures forall w <- WritesTo(hs, up) :: exists h <- hs :: h.fate.Written? && h.frame == w.frame
  {
    if hs != [] {
      var init, h := hs[..|hs| - 1], hs[|hs| - 1];
      WritesWereHandled(init, up);
      forall w <- WritesTo(hs, up)
        ensures exists x <- hs :: x.fate.Written? && x.frame == w.frame
      {
        if w in WritesTo(init, up) {
          var x :| x in init && x.fate.Written? && x.frame == w.frame;
          assert x in hs;
        } else {
          assert h in hs && h.fate.Written? && h.frame == w.frame;
        }
      }
    }
  }

  /** The frames that a further chunk completes at the reading end of a link were all written to it. */
  lemma NewFramesWereSent(ws: seq<Sent>, read: Bytes, chunk: Bytes)
    requires LinkOk(ws) && read + chunk <= StreamOf(ws)
    ensures Parse(read + chunk, 0).stop == NeedMore
    ensures forall f <- NewFrames(read, chunk) :: exists w <- ws :: w.frame == f
  {
    ReceiverSeesWholeFrames(ws, read + chunk);
    ParseAppend(read, chunk, 0);
    WholeWereSent(ws);
    var all := Parse(read + chunk, 0).frames;
    assert all == Parse(read, 0).frames + NewFrames(read, chunk);
    forall f <- NewFrames(read, chunk)
      ensures exists w <- ws :: w.frame == f
    {
      assert f in all;
      assert f in WholeFrames(ws);
    }
  }

  // ---------------------------------------------------------------- the invariant

  /** Client `id`: its link is in order and every frame on it was announced by a record. */
  ghost predicate ClientInv(s: Sys, id: nat)
  {
    && LinkOk(SentOn(s, id))
    && (forall w <- SentOn(s, id) :: Readable(w.frame) && RecordOf(w.frame, ClientSndBegin) in s.log)
    && (id in s.open ==> Readable(s.open[id]) && RecordOf(s.open[id], ClientSndBegin) in s.log)
    && Rx(Run(s.es), id) <= StreamOf(SentOn(s, id))
  }

  /** The relay: every frame it wrote was announced by a record; nothing is read that was not written. */
  ghost predicate RelayInv(s: Sys)
  {
    forall h <- Run(s.es).core.handled ::
      Readable(h.frame) && (h.fate.Written? ==> RecordOf(h.frame, ServerSndBegin) in s.log)
  }

  ghost predicate UpInv(s: Sys, up: nat)
  {
    ReadOn(s, up) <= StreamTo(s, up)
  }

  ghost predicate SysInv(s: Sys)
  {
    && Causal(s.log) && RelayInv(s)
    && (forall id: nat :: ClientInv(s, id))
    && (forall up: nat :: UpInv(s, up))
  }

  lemma WriteKeeps(s: Sys, m: Move)
    requires SysInv(s) && Possible(s, m) && m.ClientWrite?
    ensures SysInv(Do(s, m))
  {
    hide UpInv, Causal, Readable, IsFrame, Run, Rx;
    var s' := Do(s, m);
    var r := RecordOf(m.frame, ClientSndBegin);
    CausalSnoc(s.log, r);
    forall up: nat ensures UpInv(s', up) {
      assert UpInv(s, up);
      SameUp(s, s', up);
    }
    forall id: nat ensures ClientInv(s', id) {
      assert ClientInv(s, id);
      if id == m.id {
        var ws, w := SentOn(s, id), Sent(m.frame, Accepted(m.result));
        LinkExtend(ws, w);
        StreamGrows(ws, ws + [w]);
      }
    }
    assert forall x <- s.log :: x in s'.log;
  }

  lemma SameUp(s: Sys, s': Sys, up: nat)
    requires s.es == s'.es && s.read == s'.read && UpInv(s, up)
    ensures UpInv(s', up)
  {
  }

  lemma EndKeeps(s: Sys, m: Move)
    requires SysInv(s) && Possible(s, m) && m.ClientEnd?
    ensures SysInv(Do(s, m))
  {
    hide UpInv, Causal, Readable, Run, Rx, LinkOk;
    var s' := Do(s, m);
    assert ClientInv(s, m.id);
    CausalSnoc(s.log, RecordOf(s.open[m.id], ClientSndEnd));
    forall up: nat ensures UpInv(s', up) {
      assert UpInv(s, up);
      SameUp(s, s', up);
    }
    forall id: nat ensures ClientInv(s', id) {
      assert ClientInv(s, id);
    }
  }

  /** One more relay event: what it handles, what it has read, what it wrote. */
  lemma RelayEvent(s: Sys, e: Event)
    requires Possible(s, AtRelay(e)) && SysInv(s)
    ensures var w, w' := Run(s.es), Run(s.es + [e]);
            && w'.core.handled == w.core.handled + RelayEntries(w, e)
            && (forall id: nat :: Rx(w', id) <= StreamOf(SentOn(s, id)))
            && (forall h <- RelayEntries(w, e) :: RecordOf(h.frame, ClientSndBegin) in s.log)
  {
    hide Parse, Readable, LinkOk;
    var w := Run(s.es);
    RunSnoc(s.es, e);
    forall id: nat ensures Rx(Step(w, e), id) <= StreamOf(SentOn(s, id)) {
      assert ClientInv(s, id);
    }
    if e.Data? {
      var fs := NewFrames(Rx(w, e.id), e.chunk);
      HandleAllAdds(w.core, e.id, fs, e.results);
      EntriesComeFrom(w.core, e.id, fs, e.results);
      assert ClientInv(s, e.id);
      NewFramesWereSent(SentOn(s, e.id), Rx(w, e.id), e.chunk);
    } else {
      assert w.core.handled + [] == w.core.handled;
    }
  }

  lemma RelayKeeps(s: Sys, m: Move)
    requires SysInv(s) && Possible(s, m) && m.AtRelay?
    ensures SysInv(Do(s, m))
  {
    hide Causal, Readable, LinkOk, Rx, Step, Run, Enabled, WritesTo;
    var s' := Do(s, m);
    var w, w' := Run(s.es), Run(s'.es);
    var hs := RelayEntries(w, m.e);
    RelayEvent(s, m.e);
    CausalEntries(s.log, hs);
    forall up: nat ensures UpInv(s', up) {
      assert UpInv(s, up);
      WritesToAppend(w.core.handled, hs, up);
      StreamGrows(WritesTo(w.core.handled, up), WritesTo(w'.core.handled, up));
    }
    forall id: nat ensures ClientInv(s', id) {
      assert ClientInv(s, id);
    }
    forall h <- w'.core.handled
      ensures Readable(h.frame) && (h.fate.Written? ==> RecordOf(h.frame, ServerSndBegin) in s'.log)
    {
      assert h in w.core.handled || h in hs;
    }
  }

  lemma UpstreamFrames(s: Sys, up: nat, chunk: Bytes)
    requires SysInv(s) && ReadOn(s, up) + chunk <= StreamTo(s, up)
    ensures Parse(ReadOn(s, up) + chunk, 0).stop != Wrapped
    ensures forall f <- NewFrames(ReadOn(s, up), chunk) :: Readable(f) && RecordOf(f, ServerSndBegin) in s.log
  {
    hide Parse, Readable, Run;
    var hs := Run(s.es).core.handled;
    ForwardRun(s.es, 0, up);
    NewFramesWereSent(WritesTo(hs, up), ReadOn(s, up), chunk);
    WritesWereHandled(hs, up);
  }

  lemma ReadKeeps(s: Sys, m: Move)
    requires SysInv(s) && Possible(s, m) && m.UpstreamRead?
    ensures SysInv(Do(s, m))
  {
    hide Causal, Readable, LinkOk, Rx, Run;
    var s' := Do(s, m);
    var fs := NewFrames(ReadOn(s, m.up), m.chunk);
    UpstreamFrames(s, m.up, m.chunk);
    CausalReceives(s.log, fs);
    forall up: nat ensures UpInv(s', up) {
      assert UpInv(s, up);
    }
    forall id: nat ensures ClientInv(s', id) {
      assert ClientInv(s, id);
    }
  }

  lemma {:induction false} SysRun(ms: seq<Move>)
    ensures SysInv(DoAll(ms))
    decreases |ms|
  {
    if ms != [] {
      var s, m := DoAll(ms[..|ms| - 1]), ms[|ms| - 1];
      SysRun(ms[..|ms| - 1]);
      if Possible(s, m) {
        match m
        case ClientWrite(_, _, _) => WriteKeeps(s, m);
        case ClientEnd(_) => EndKeeps(s, m);
        case AtRelay(_) => RelayKeeps(s, m);
        case UpstreamRead(_, _) => ReadKeeps(s, m);
      }
    }
  }

  // ---------------------------------------------------------------- results over all runs

  /** Causality over all runs: every upstream.rcv is preceded by server.snd_begin, that by
      server.rcv, and that by client.snd_begin, each for the same user, sequence and size. */
  lemma Causality(ms: seq<Move>, i: nat)
    requires var log := DoAll(ms).log; i < |log| && log[i].action == UpstreamRcv
    ensures var log := DoAll(ms).log;
            exists a, b, c | 0 <= a < b < c < i ::
              && log[a] == log[i].(action := ClientSndBegin)
              && log[b] == log[i].(action := ServerRcv)
              && log[c] == log[i].(action := ServerSndBegin)
  {
    SysRun(ms);
    hide Causal, DoAll, RelayInv, ClientInv, UpInv;
    var a, b, c := Chain(DoAll(ms).log, i);
  }

  lemma Chain(log: seq<Record>, i: nat) returns (a: nat, b: nat, c: nat)
    requires Causal(log) && i < |log| && log[i].action == UpstreamRcv
    ensures a < b < c < i
    ensures log[a] == log[i].(action := ClientSndBegin)
    ensures log[b] == log[i].(action := ServerRcv)
    ensures log[c] == log[i].(action := ServerSndBegin)
  {
    c := CauseAt(log, i);
    b := CauseAt(log, c);
    a := CauseAt(log, b);
  }

  lemma CauseAt(log: seq<Record>, i: nat) returns (j: nat)
    requires Causal(log) && i < |log| && Cause(log[i]).Some?
    ensures j < i && log[j] == Cause(log[i]).value
  {
    assert Cause(log[i]).value in log[..i];
    j :| 0 <= j < i && log[j] == Cause(log[i]).value;
  }

  /** In no run does a receiver's assertion on msg_id fire, read beyond a frame, or meet a header
      that wraps: everything it can complete was written whole by a client. */
  lemma ReceiverAssertionsHold(ms: seq<Move>, id: nat, up: nat, chunk: Bytes)
    ensures var s := DoAll(ms);
            && (Rx(Run(s.es), id) + chunk <= StreamOf(SentOn(s, id)) ==>
                  && Parse(Rx(Run(s.es), id) + chunk, 0).stop != Wrapped
                  && forall f <- NewFrames(Rx(Run(s.es), id), chunk) :: Readable(f))
            && (ReadOn(s, up) + chunk <= StreamTo(s, up) ==>
                  && Parse(ReadOn(s, up) + chunk, 0).stop != Wrapped
                  && forall f <- NewFrames(ReadOn(s, up), chunk) :: Readable(f))
  {
    hide Readable, Run, Parse;
    var s := DoAll(ms);
    SysRun(ms);
    assert ClientInv(s, id);
    if Rx(Run(s.es), id) + chunk <= StreamOf(SentOn(s, id)) {
      NewFramesWereSent(SentOn(s, id), Rx(Run(s.es), id), chunk);
    }
    if ReadOn(s, up) + chunk <= StreamTo(s, up) {
      UpstreamFrames(s, up, chunk);
    }
  }

  /** A message of the client's table is a frame that every receiver reads, and its records carry
      the client's user id, the table position and the message size. */
  lemma TableMessagesFit(args: Args, table: Bytes, k: nat, action: Action)
    requires args.Fits() && TableOk(table, args) && k < args.Total()
    ensures SlotOk(table, args, k)
    ensures var m := Slot(table, k, args.msgSize);
            IsFrame(m, 0) && Readable(m) && RecordOf(m, action) == Record(args.uid, k, args.msgSize, action)
  {
    assert SlotOk(table, args, k);
    MessageIsFrame(Slot(table, k, args.msgSize), args.msgSize, args.uid, k);
  }
}
