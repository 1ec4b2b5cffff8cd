/** How often the records of one message occur: at no time are there more upstream.rcv than
    server.snd_begin, more of these than server.rcv, or more of those than client.snd_begin.  So no hop
    records or delivers a message more often than the hop before it. */
module Counting {
  import opened Wire
  import opened BytesBuffers
  import opened Links
  import opened Records
  import opened Relays
  import opened RelayRuns
  import opened Systems

  /** A frame on a connection. */
  type Tagged = (nat, Bytes)

  // ---------------------------------------------------------------- counting

  function Only(ps: seq<Tagged>, id: nat): (fs: seq<Bytes>)
  {
    if ps == [] then []
    else
      var p := ps[|ps| - 1];
      Only(ps[..|ps| - 1], id) + if p.0 == id then [p.1] else []
  }

  /** `m` names a message by its record with action client.snd_begin. */
  predicate Names(f: Bytes, m: Record)
  {
    Readable(f) && RecordOf(f, ClientSndBegin) == m
  }

  function Tally(ps: seq<Tagged>, m: Record): (n: nat)
  {
    if ps == [] then 0
    else Tally(ps[..|ps| - 1], m) + if Names(ps[|ps| - 1].1, m) then 1 else 0
  }

  lemma OnlySnoc(ps: seq<Tagged>, p: Tagged, id: nat)
    ensures Only(ps + [p], id) == Only(ps, id) + if p.0 == id then [p.1] else []
  {
    assert (ps + [p])[..|ps|] == ps;
  }

  lemma TallySnoc(ps: seq<Tagged>, p: Tagged, m: Record)
    ensures Tally(ps + [p], m) == Tally(ps, m) + if Names(p.1, m) then 1 else 0
  {
    assert (ps + [p])[..|ps|] == ps;
  }

  lemma {:induction false} OnlyAppend(a: seq<Tagged>, b: seq<Tagged>, id: nat)
    ensures Only(a + b, id) == Only(a, id) + Only(b, id)
  {
    if b == [] {
      assert a + b == a && Only(a, id) + [] == Only(a, id);
    } else {
      var k := |b| - 1;
      OnlyAppend(a, b[..k], id);
      assert a + b == (a + b[..k]) + [b[k]];
      OnlySnoc(a + b[..k], b[k], id);
    }
  }

  lemma {:induction false} TallyAppend(a: seq<Tagged>, b: seq<Tagged>, m: Record)
    ensures Tally(a + b, m) == Tally(a, m) + Tally(b, m)
  {
    if b == [] {
      assert a + b == a;
    } else {
      var k := |b| - 1;
      TallyAppend(a, b[..k], m);
      assert a + b == (a + b[..k]) + [b[k]];
      TallySnoc(a + b[..k], b[k], m);
    }
  }

  lemma {:induction false} OnlyCounts(ps: seq<Tagged>, p: Tagged)
    ensures multiset(ps)[p] == multiset(Only(ps, p.0))[p.1]
  {
    if ps != [] {
      OnlyCounts(ps[..|ps| - 1], p);
      assert ps == ps[..|ps| - 1] + [ps[|ps| - 1]];
    }
  }

  /** Entry i taken out. */
  lemma TakeTagged(ps: seq<Tagged>, i: nat, m: Record)
    requires i < |ps|
    ensures Tally(ps, m) == Tally(ps[..i] + ps[i + 1..], m) + if Names(ps[i].1, m) then 1 else 0
  {
    hide Tally, Names;
    TallyAppend(ps[..i], ps[i + 1..], m);
    TallySnoc(ps[..i], ps[i], m);
    TallyAppend(ps[..i] + [ps[i]], ps[i + 1..], m);
    assert ps == ps[..i] + [ps[i]] + ps[i + 1..];
  }

  lemma BagWithout(ps: seq<Tagged>, i: nat)
    requires i < |ps|
    ensures multiset(ps) == multiset(ps[..i] + ps[i + 1..]) + multiset{ps[i]}
  {
    assert ps == ps[..i] + [ps[i]] + ps[i + 1..];
  }

  lemma BagMinus(a: multiset<Tagged>, b: multiset<Tagged>, x: Tagged)
    requires a + multiset{x} <= b + multiset{x}
    ensures a <= b
  {
    forall y ensures a[y] <= b[y] {
      assert (a + multiset{x})[y] <= (b + multiset{x})[y];
    }
  }

  lemma {:induction false} TallyMonotone(a: seq<Tagged>, b: seq<Tagged>, m: Record)
    requires multiset(a) <= multiset(b)
    ensures Tally(a, m) <= Tally(b, m)
    decreases |a|
  {
    if a != [] {
      var k := |a| - 1;
      BagWithout(a, k);
      assert a[..k] + a[k + 1..] == a[..k];
      assert a[k] in multiset(b);
      var i :| 0 <= i < |b| && b[i] == a[k];
      TakeTagged(b, i, m);
      BagWithout(b, i);
      BagMinus(multiset(a[..k]), multiset(b[..i] + b[i + 1..]), a[k]);
      hide Names;
      TallyMonotone(a[..k], b[..i] + b[i + 1..], m);
    }
  }

  /** If every connection carries no more in `a` than in `b`, no message is more frequent in `a`. */
  lemma FewerOnEach(a: seq<Tagged>, b: seq<Tagged>, m: Record)
    requires forall id: nat :: multiset(Only(a, id)) <= multiset(Only(b, id))
    ensures Tally(a, m) <= Tally(b, m)
  {
    forall p: Tagged ensures multiset(a)[p] <= multiset(b)[p] {
      OnlyCounts(a, p);
      OnlyCounts(b, p);
      assert multiset(Only(a, p.0)) <= multiset(Only(b, p.0));
    }
    TallyMonotone(a, b, m);
  }

  // ---------------------------------------------------------------- the histories of a run

  /** The client's write in one move, with its connection. */
  ghost function WriteIn(s: Sys, m: Move): (ps: seq<Tagged>)
  {
    if Possible(s, m) && m.ClientWrite? then [(m.id, m.frame)] else []
  }

  /** The write whose end is recorded. */
  ghost function EndIn(s: Sys, m: Move): (ps: seq<Tagged>)
  {
    if Possible(s, m) && m.ClientEnd? then [(m.id, s.open[m.id])] else []
  }

  function Tag(id: nat, fs: seq<Bytes>): (ps: seq<Tagged>)
  {
    if fs == [] then [] else Tag(id, fs[..|fs| - 1]) + [(id, fs[|fs| - 1])]
  }

  /** The frames that the upstream delivers, each with its connection. */
  ghost function ReadsIn(s: Sys, m: Move): (ps: seq<Tagged>)
  {
    if Possible(s, m) && m.UpstreamRead? then Tag(m.up, NewFrames(ReadOn(s, m.up), m.chunk)) else []
  }

  ghost function Writes(ms: seq<Move>): (ps: seq<Tagged>)
  {
    if ms == [] then [] else Writes(ms[..|ms| - 1]) + WriteIn(DoAll(ms[..|ms| - 1]), ms[|ms| - 1])
  }

  ghost function Ends(ms: seq<Move>): (ps: seq<Tagged>)
  {
    if ms == [] then [] else Ends(ms[..|ms| - 1]) + EndIn(DoAll(ms[..|ms| - 1]), ms[|ms| - 1])
  }

  ghost function Reads(ms: seq<Move>): (ps: seq<Tagged>)
  {
    if ms == [] then [] else Reads(ms[..|ms| - 1]) + ReadsIn(DoAll(ms[..|ms| - 1]), ms[|ms| - 1])
  }

  /** The frames that the relay handled. */
  function Pairs(hs: seq<Handled>): (ps: seq<Tagged>)
  {
    if hs == [] then [] else Pairs(hs[..|hs| - 1]) + [(hs[|hs| - 1].client, hs[|hs| - 1].frame)]
  }

  /** The frames that it wrote. */
  function Forwarded(hs: seq<Handled>): (ps: seq<Tagged>)
  {
    if hs == [] then []
    else
      var h := hs[|hs| - 1];
      Forwarded(hs[..|hs| - 1]) + if h.fate.Written? then [(h.fate.up, h.frame)] else []
  }

  function FramesIn(ws: seq<Sent>): (fs: seq<Bytes>)
  {
    if ws == [] then [] else FramesIn(ws[..|ws| - 1]) + [ws[|ws| - 1].frame]
  }

  lemma {:induction false} OnlyTag(id: nat, fs: seq<Bytes>, other: nat)
    ensures Only(Tag(id, fs), other) == if other == id then fs else []
  {
    if fs != [] {
      var k := |fs| - 1;
      OnlyTag(id, fs[..k], other);
      OnlySnoc(Tag(id, fs[..k]), (id, fs[k]), other);
      assert fs == fs[..k] + [fs[k]];
    }
  }

  lemma {:induction false} OnlyPairs(hs: seq<Handled>, client: nat)
    ensures Only(Pairs(hs), client) == FramesOf(hs, client)
  {
    if hs != [] {
      var k := |hs| - 1;
      OnlyPairs(hs[..k], client);
      OnlySnoc(Pairs(hs[..k]), (hs[k].client, hs[k].frame), client);
    }
  }

  lemma {:induction false} OnlyForwarded(hs: seq<Handled>, up: nat)
    ensures Only(Forwarded(hs), up) == FramesIn(WritesTo(hs, up))
  {
    if hs != [] {
      var init, h := hs[..|hs| - 1], hs[|hs| - 1];
      OnlyForwarded(init, up);
      var ws := WritesTo(init, up);
      if h.fate.Written? {
        OnlySnoc(Forwarded(init), (h.fate.up, h.frame), up);
        assert (ws + [Sent(h.frame, h.fate.accepted)])[..|ws|] == ws;
      } else {
        assert Forwarded(init) + [] == Forwarded(init);
      }
      assert ws + [] == ws;
    }
  }

  lemma OneTagged(id: nat, f: Bytes, other: nat)
    ensures Only([(id, f)], other) == if other == id then [f] else []
  {
    OnlySnoc([], (id, f), other);
    assert [] + [(id, f)] == [(id, f)];
  }

  lemma NoneTagged(id: nat)
    ensures Only([], id) == []
  {
  }

  lemma WriteStep(s: Sys, m: Move, id: nat)
    ensures FramesIn(SentOn(Do(s, m), id)) == FramesIn(SentOn(s, id)) + Only(WriteIn(s, m), id)
  {
    NoneTagged(id);
    hide Readable, IsFrame, Clean, Enabled, Run, Rx, StreamOf, RelayEntries, NewFrames, Only, StreamTo;
    var ws := SentOn(s, id);
    assert FramesIn(ws) + [] == FramesIn(ws);
    if Possible(s, m) && m.ClientWrite? {
      OneTagged(m.id, m.frame, id);
      var w := Sent(m.frame, Accepted(m.result));
      assert (ws + [w])[..|ws|] == ws;
    }
  }

  lemma {:induction false} OnlyWrites(ms: seq<Move>, id: nat)
    ensures Only(Writes(ms), id) == FramesIn(SentOn(DoAll(ms), id))
  {
    if ms != [] {
      var s, m := DoAll(ms[..|ms| - 1]), ms[|ms| - 1];
      OnlyWrites(ms[..|ms| - 1], id);
      hide Do, WriteIn, FramesIn;
      OnlyAppend(Writes(ms[..|ms| - 1]), WriteIn(s, m), id);
      WriteStep(s, m, id);
    }
  }

  function OpenOn(s: Sys, id: nat): seq<Bytes>
  {
    if id in s.open then [s.open[id]] else []
  }

  lemma EndStep(s: Sys, m: Move, id: nat)
    ensures OpenOn(s, id) + Only(WriteIn(s, m), id) == Only(EndIn(s, m), id) + OpenOn(Do(s, m), id)
  {
    NoneTagged(id);
    hide Readable, IsFrame, Clean, Enabled, Run, Rx, StreamOf, RelayEntries, NewFrames, Only, StreamTo;
    if Possible(s, m) {
      if m.ClientWrite? {
        OneTagged(m.id, m.frame, id);
      } else if m.ClientEnd? {
        OneTagged(m.id, s.open[m.id], id);
      }
    }
  }

  lemma {:induction false} OnlyEnds(ms: seq<Move>, id: nat)
    ensures Only(Writes(ms), id) == Only(Ends(ms), id) + OpenOn(DoAll(ms), id)
  {
    if ms == [] {
      NoneTagged(id);
      assert OpenOn(DoAll([]), id) == [];
    } else {
      hide Do, WriteIn, EndIn, Only, OpenOn;
      var s, m := DoAll(ms[..|ms| - 1]), ms[|ms| - 1];
      OnlyEnds(ms[..|ms| - 1], id);
      var ps, es := Writes(ms[..|ms| - 1]), Ends(ms[..|ms| - 1]);
      OnlyAppend(ps, WriteIn(s, m), id);
      OnlyAppend(es, EndIn(s, m), id);
      EndStep(s, m, id);
      Regroup(Only(es, id), OpenOn(s, id), Only(WriteIn(s, m), id), Only(EndIn(s, m), id), OpenOn(Do(s, m), id));
    }
  }

  lemma Regroup(x: seq<Bytes>, a: seq<Bytes>, b: seq<Bytes>, c: seq<Bytes>, d: seq<Bytes>)
    requires a + b == c + d
    ensures (x + a) + b == (x + c) + d
  {
    assert (x + a) + b == x + (a + b);
    assert (x + c) + d == x + (c + d);
  }

  lemma ReadStep(s: Sys, m: Move, up: nat)
    ensures Parse(ReadOn(Do(s, m), up), 0).frames == Parse(ReadOn(s, up), 0).frames + Only(ReadsIn(s, m), up)
  {
    NoneTagged(up);
    hide Parse, Tag, Readable, IsFrame, Clean, Enabled, Run, Rx, StreamOf, RelayEntries, Only, StreamTo;
    assert Parse(ReadOn(s, up), 0).frames + [] == Parse(ReadOn(s, up), 0).frames;
    if Possible(s, m) && m.UpstreamRead? {
      OnlyTag(m.up, NewFrames(ReadOn(s, m.up), m.chunk), up);
      ParseAppend(ReadOn(s, m.up), m.chunk, 0);
    }
  }

  lemma {:induction false} OnlyReads(ms: seq<Move>, up: nat)
    ensures Only(Reads(ms), up) == Parse(ReadOn(DoAll(ms), up), 0).frames
  {
    if ms == [] {
      assert Parse([], 0).frames == [];
    } else {
      var s, m := DoAll(ms[..|ms| - 1]), ms[|ms| - 1];
      OnlyReads(ms[..|ms| - 1], up);
      hide Do, ReadsIn, Parse;
      OnlyAppend(Reads(ms[..|ms| - 1]), ReadsIn(s, m), up);
      ReadStep(s, m, up);
    }
  }

  // ---------------------------------------------------------------- no hop has more than the one before

  lemma {:induction false} WholeAreSome(ws: seq<Sent>)
    ensures multiset(WholeFrames(ws)) <= multiset(FramesIn(ws))
  {
    if ws != [] {
      var k := |ws| - 1;
      WholeAreSome(ws[..k]);
      WholeAppend(ws[..k], ws[k]);
      assert ws == ws[..k] + [ws[k]];
      hide WholeFrames;
      assert WholeFrames(ws[..k]) + [] == WholeFrames(ws[..k]);
    }
  }

  lemma PrefixIsSome(a: seq<Bytes>, b: seq<Bytes>)
    requires a <= b
    ensures multiset(a) <= multiset(b)
  {
    assert b == a + b[|a|..];
  }

  /** What the reading end of a link has delivered was written to it, and not more often. */
  lemma DeliveredAreSome(ws: seq<Sent>, q: Bytes)
    requires LinkOk(ws) && q <= StreamOf(ws)
    ensures multiset(Parse(q, 0).frames) <= multiset(FramesIn(ws))
  {
    ReceiverSeesWholeFrames(ws, q);
    hide Parse, WholeFrames, FramesIn, LinkOk;
    PrefixIsSome(Parse(q, 0).frames, WholeFrames(ws));
    WholeAreSome(ws);
  }

  ghost function HandledBy(s: Sys): seq<Handled>
  {
    Run(s.es).core.handled
  }

  lemma HandledWereWritten(ms: seq<Move>, m: Record)
    ensures Tally(Pairs(HandledBy(DoAll(ms))), m) <= Tally(Writes(ms), m)
  {
    var s := DoAll(ms);
    var hs := HandledBy(s);
    SysRun(ms);
    forall id: nat ensures multiset(Only(Pairs(hs), id)) <= multiset(Only(Writes(ms), id)) {
      OnlyPairs(hs, id);
      OnlyWrites(ms, id);
      ForwardRun(s.es, id, 0);
      assert ClientInv(s, id);
      DeliveredAreSome(SentOn(s, id), Rx(Run(s.es), id));
    }
    hide Tally, Pairs, Writes, Only;
    FewerOnEach(Pairs(hs), Writes(ms), m);
  }

  lemma ReadsWereForwarded(ms: seq<Move>, m: Record)
    ensures Tally(Reads(ms), m) <= Tally(Forwarded(HandledBy(DoAll(ms))), m)
  {
    var s := DoAll(ms);
    var hs := HandledBy(s);
    SysRun(ms);
    forall up: nat ensures multiset(Only(Reads(ms), up)) <= multiset(Only(Forwarded(hs), up)) {
      OnlyReads(ms, up);
      OnlyForwarded(hs, up);
      ForwardRun(s.es, 0, up);
      assert UpInv(s, up);
      DeliveredAreSome(WritesTo(hs, up), ReadOn(s, up));
    }
    hide Tally, Forwarded, Reads, Only;
    FewerOnEach(Reads(ms), Forwarded(hs), m);
  }

  lemma EndsWereWritten(ms: seq<Move>, m: Record)
    ensures Tally(Ends(ms), m) <= Tally(Writes(ms), m)
  {
    forall id: nat ensures multiset(Only(Ends(ms), id)) <= multiset(Only(Writes(ms), id)) {
      OnlyEnds(ms, id);
    }
    hide Tally, Ends, Writes, Only;
    FewerOnEach(Ends(ms), Writes(ms), m);
  }

  lemma {:induction false} ForwardedWereHandled(hs: seq<Handled>, m: Record)
    ensures Tally(Forwarded(hs), m) <= Tally(Pairs(hs), m)
  {
    hide Names;
    if hs != [] {
      var init, h := hs[..|hs| - 1], hs[|hs| - 1];
      ForwardedWereHandled(init, m);
      TallySnoc(Pairs(init), (h.client, h.frame), m);
      if h.fate.Written? {
        TallySnoc(Forwarded(init), (h.fate.up, h.frame), m);
      } else {
        assert Forwarded(init) + [] == Forwarded(init);
      }
    }
  }

  // ---------------------------------------------------------------- the log counts the histories

  /** How often the log has message `m` with an action. */
  function N(log: seq<Record>, m: Record, a: Action): (n: nat)
  {
    multiset(log)[m.(action := a)]
  }

  lemma NAppend(x: seq<Record>, y: seq<Record>, m: Record, a: Action)
    ensures N(x + y, m, a) == N(x, m, a) + N(y, m, a)
  {
  }

  lemma NOne(r: Record, m: Record, a: Action)
    ensures N([r], m, a) == if r == m.(action := a) then 1 else 0
  {
  }

  lemma NPrefix(x: seq<Record>, j: nat, m: Record, a: Action)
    requires j <= |x|
    ensures N(x[..j], m, a) <= N(x, m, a)
  {
    assert x == x[..j] + x[j..];
    NAppend(x[..j], x[j..], m, a);
  }

  lemma NamesRecord(f: Bytes, m: Record, a: Action, b: Action)
    requires Readable(f) && m.action == ClientSndBegin
    ensures RecordOf(f, b) == m.(action := a) <==> a == b && Names(f, m)
  {
    assert RecordOf(f, b).(action := ClientSndBegin) == RecordOf(f, ClientSndBegin);
    assert m.(action := a).(action := ClientSndBegin) == m;
    assert RecordOf(f, b).action == b;
    assert RecordOf(f, ClientSndBegin).(action := b) == RecordOf(f, b);
  }

  /** No prefix has more writes of the message than receipts. */
  ghost predicate WritesBehind(rs: seq<Record>, m: Record)
  {
    forall j | 0 <= j <= |rs| :: N(rs[..j], m, ServerSndBegin) <= N(rs[..j], m, ServerRcv)
  }

  /** The records of relayed frames, and no prefix of them has more writes than receipts. */
  lemma RelayCounts(h: Handled, m: Record)
    requires Readable(h.frame) && m.action == ClientSndBegin
    ensures var rs, one := RecordsFor(h), if Names(h.frame, m) then 1 else 0;
            && N(rs, m, ClientSndBegin) == N(rs, m, ClientSndEnd) == N(rs, m, UpstreamRcv) == 0
            && N(rs, m, ServerRcv) == one && N(rs, m, ServerSndBegin) == (if h.fate.Written? then one else 0)
            && WritesBehind(rs, m)
  {
    var rcv, snd := RecordOf(h.frame, ServerRcv), RecordOf(h.frame, ServerSndBegin);
    forall a: Action ensures N(RecordsFor(h), m, a) == N([rcv], m, a) + if h.fate.Written? then N([snd], m, a) else 0 {
      if h.fate.Written? {
        NAppend([rcv], [snd], m, a);
      } else {
        assert [rcv] + [] == [rcv];
      }
    }
    forall a: Action ensures N([rcv], m, a) == if a == ServerRcv && Names(h.frame, m) then 1 else 0 {
      NOne(rcv, m, a);
      NamesRecord(h.frame, m, a, ServerRcv);
    }
    forall a: Action ensures N([snd], m, a) == if a == ServerSndBegin && Names(h.frame, m) then 1 else 0 {
      NOne(snd, m, a);
      NamesRecord(h.frame, m, a, ServerSndBegin);
    }
    hide RecordOf, Names, Readable, N;
    var rs := RecordsFor(h);
    NoRecords(m);
    forall j | 0 <= j <= |rs| ensures N(rs[..j], m, ServerSndBegin) <= N(rs[..j], m, ServerRcv) {
      assert rs[..j] == [] || rs[..j] == [rcv] || rs[..j] == rs;
    }
  }

  lemma NoRecords(m: Record)
    ensures forall a :: N([], m, a) == 0
  {
  }

  lemma {:induction false} EntriesCount(hs: seq<Handled>, m: Record)
    requires AllReadable(hs) && m.action == ClientSndBegin
    ensures var rs := RecordsOf(hs);
            && N(rs, m, ClientSndBegin) == N(rs, m, ClientSndEnd) == N(rs, m, UpstreamRcv) == 0
            && N(rs, m, ServerRcv) == Tally(Pairs(hs), m) && N(rs, m, ServerSndBegin) == Tally(Forwarded(hs), m)
            && WritesBehind(rs, m)
  {
    hide N, Names, RecordOf;
    NoRecords(m);
    if hs != [] {
      var init, h := hs[..|hs| - 1], hs[|hs| - 1];
      assert Readable(h.frame);
      EntriesCount(init, m);
      RelayCounts(h, m);
      var x, y := RecordsOf(init), RecordsFor(h);
      forall a ensures N(x + y, m, a) == N(x, m, a) + N(y, m, a) {
        NAppend(x, y, m, a);
      }
      EntryTally(init, h, m);
      PrefixesAppend(x, y, m);
    }
  }

  lemma EntryTally(init: seq<Handled>, h: Handled, m: Record)
    ensures Tally(Pairs(init + [h]), m) == Tally(Pairs(init), m) + if Names(h.frame, m) then 1 else 0
    ensures Tally(Forwarded(init + [h]), m) == Tally(Forwarded(init), m) + if h.fate.Written?
        && Names(h.frame, m) then 1 else 0
  {
    hide Names;
    Snoc(init, h);
    TallySnoc(Pairs(init), (h.client, h.frame), m);
    if h.fate.Written? {
      TallySnoc(Forwarded(init), (h.fate.up, h.frame), m);
    } else {
      assert Forwarded(init) + [] == Forwarded(init);
    }
  }

  lemma PrefixesAppend(x: seq<Record>, y: seq<Record>, m: Record)
    requires WritesBehind(x, m) && WritesBehind(y, m)
    ensures WritesBehind(x + y, m)
  {
    hide N;
    forall j | 0 <= j <= |x + y| ensures N((x + y)[..j], m, ServerSndBegin) <= N((x + y)[..j], m, ServerRcv) {
      if j <= |x| {
        assert (x + y)[..j] == x[..j];
      } else {
        assert (x + y)[..j] == x + y[..j - |x|] && x[..|x|] == x;
        NAppend(x, y[..j - |x|], m, ServerSndBegin);
        NAppend(x, y[..j - |x|], m, ServerRcv);
      }
    }
  }

  lemma {:induction false} ReceiptsCount(up: nat, fs: seq<Bytes>, m: Record)
    requires (forall f <- fs :: Readable(f)) && m.action == ClientSndBegin
    ensures var rs := ReceiveRecords(fs);
            && N(rs, m, UpstreamRcv) == Tally(Tag(up, fs), m)
            && forall a | a != UpstreamRcv :: N(rs, m, a) == 0
  {
    hide N, Names, RecordOf;
    NoRecords(m);
    if fs != [] {
      var init, f := fs[..|fs| - 1], fs[|fs| - 1];
      ReceiptsCount(up, init, m);
      var r := RecordOf(f, UpstreamRcv);
      forall a ensures N(ReceiveRecords(fs), m, a) == N(ReceiveRecords(init), m, a) + if a == UpstreamRcv
          && Names(f, m) then 1 else 0 {
        NAppend(ReceiveRecords(init), [r], m, a);
        NOne(r, m, a);
        NamesRecord(f, m, a, UpstreamRcv);
      }
      TallySnoc(Tag(up, init), (up, f), m);
    }
  }

  /** The frames that the relay handles in one move. */
  ghost function HandledIn(s: Sys, m: Move): (hs: seq<Handled>)
    ensures AllReadable(hs)
  {
    if Possible(s, m) && m.AtRelay? then RelayEntries(Run(s.es), m.e) else []
  }

  ghost function LogIn(s: Sys, m: Move): (rs: seq<Record>)
  {
    if !Possible(s, m) then []
    else match m
      case ClientWrite(_, frame, _) => [RecordOf(frame, ClientSndBegin)]
      case ClientEnd(id) => [RecordOf(s.open[id], ClientSndEnd)]
      case AtRelay(e) => RecordsOf(HandledIn(s, m))
      case UpstreamRead(up, chunk) => ReceiveRecords(NewFrames(ReadOn(s, up), chunk))
  }

  lemma LogGrows(s: Sys, m: Move)
    ensures Do(s, m).log == s.log + LogIn(s, m)
  {
    hide Possible;
    assert s.log + [] == s.log;
  }

  lemma HandledGrow(s: Sys, m: Move)
    requires SysInv(s)
    ensures HandledBy(Do(s, m)) == HandledBy(s) + HandledIn(s, m)
  {
    hide SysInv, Run, RelayEntries;
    assert HandledBy(s) + [] == HandledBy(s);
    if Possible(s, m) && m.AtRelay? {
      RelayEvent(s, m.e);
    }
  }

  /** What one move adds for message `r`. */
  ghost predicate MoveCounted(s: Sys, m: Move, r: Record)
  {
    var rs, hs := LogIn(s, m), HandledIn(s, m);
    && N(rs, r, ClientSndBegin) == Tally(WriteIn(s, m), r)
    && N(rs, r, ClientSndEnd) == Tally(EndIn(s, m), r)
    && N(rs, r, ServerRcv) == Tally(Pairs(hs), r)
    && N(rs, r, ServerSndBegin) == Tally(Forwarded(hs), r)
    && N(rs, r, UpstreamRcv) == Tally(ReadsIn(s, m), r)
    && (m.AtRelay? ==> WritesBehind(rs, r))
  }

  lemma NothingTagged(r: Record)
    ensures Pairs([]) == Forwarded([]) == [] && Tally([], r) == 0
  {
  }

  lemma ClientCounts(s: Sys, m: Move, r: Record)
    requires r.action == ClientSndBegin && Possible(s, m) && (m.ClientWrite? || m.ClientEnd?)
    ensures MoveCounted(s, m, r)
  {
    NothingTagged(r);
    assert m.ClientEnd? ==> Readable(s.open[m.id]);
    hide N, RecordOf, Names, Tally, Readable, Pairs, Forwarded;
    if m.ClientWrite? {
      OneRecord(m.id, m.frame, r, ClientSndBegin);
    } else {
      OneRecord(m.id, s.open[m.id], r, ClientSndEnd);
    }
  }

  lemma RelayMoveCounts(s: Sys, m: Move, r: Record)
    requires r.action == ClientSndBegin && Possible(s, m) && m.AtRelay?
    ensures MoveCounted(s, m, r)
  {
    NothingTagged(r);
    EntriesCount(HandledIn(s, m), r);
    hide N, RecordOf, Names, Tally, Readable, Pairs, Forwarded, Possible, RelayEntries, RecordsOf;
  }

  lemma ReadMoveCounts(s: Sys, m: Move, r: Record)
    requires r.action == ClientSndBegin && Possible(s, m) && m.UpstreamRead?
    ensures MoveCounted(s, m, r)
  {
    NothingTagged(r);
    hide N, RecordOf, Names, Tally, Readable, Pairs, Forwarded, NewFrames, StreamTo;
    ReceiptsCount(m.up, NewFrames(ReadOn(s, m.up), m.chunk), r);
  }

  lemma MoveCounts(s: Sys, m: Move, r: Record)
    requires r.action == ClientSndBegin
    ensures MoveCounted(s, m, r)
  {
    if !Possible(s, m) {
      NothingTagged(r);
      NoRecords(r);
      hide N, Tally, Pairs, Forwarded, Possible;
      assert WritesBehind([], r);
    } else {
      hide MoveCounted, Possible;
      match m
      case ClientWrite(_, _, _) => ClientCounts(s, m, r);
      case ClientEnd(_) => ClientCounts(s, m, r);
      case AtRelay(_) => RelayMoveCounts(s, m, r);
      case UpstreamRead(_, _) => ReadMoveCounts(s, m, r);
    }
  }

  lemma OneRecord(id: nat, f: Bytes, m: Record, b: Action)
    requires Readable(f) && m.action == ClientSndBegin
    ensures forall a :: N([RecordOf(f, b)], m, a) == if a == b then Tally([(id, f)], m) else 0
  {
    TallySnoc([], (id, f), m);
    assert [] + [(id, f)] == [(id, f)];
    forall a ensures N([RecordOf(f, b)], m, a) == if a == b then Tally([(id, f)], m) else 0 {
      NOne(RecordOf(f, b), m, a);
      NamesRecord(f, m, a, b);
    }
  }

  /** The log holds every message as often as the histories do. */
  ghost predicate LogCounts(ms: seq<Move>, r: Record)
  {
    var log, hs := DoAll(ms).log, HandledBy(DoAll(ms));
    && N(log, r, ClientSndBegin) == Tally(Writes(ms), r)
    && N(log, r, ClientSndEnd) == Tally(Ends(ms), r)
    && N(log, r, ServerRcv) == Tally(Pairs(hs), r)
    && N(log, r, ServerSndBegin) == Tally(Forwarded(hs), r)
    && N(log, r, UpstreamRcv) == Tally(Reads(ms), r)
  }

  lemma {:induction false} LogCountsRun(ms: seq<Move>, r: Record)
    requires r.action == ClientSndBegin
    ensures LogCounts(ms, r)
    decreases |ms|
  {
    hide LogCounts;
    if ms == [] {
      LogCountsStart(r);
    } else {
      var init, m := ms[..|ms| - 1], ms[|ms| - 1];
      LogCountsRun(init, r);
      LogCountsStep(init, m, r);
      assert ms == init + [m];
    }
  }

  lemma NothingDone()
    ensures DoAll([]) == Init() && Run([]).core.handled == []
  {
  }

  lemma LogCountsStart(r: Record)
    ensures LogCounts([], r)
  {
    NothingDone();
    NoRecords(r);
    hide DoAll, Run, N, Names;
    assert Pairs([]) == Forwarded([]) == [];
  }

  lemma DoAllSnoc(ms: seq<Move>, m: Move)
    ensures DoAll(ms + [m]) == Do(DoAll(ms), m)
    ensures Writes(ms + [m]) == Writes(ms) + WriteIn(DoAll(ms), m)
    ensures Ends(ms + [m]) == Ends(ms) + EndIn(DoAll(ms), m)
    ensures Reads(ms + [m]) == Reads(ms) + ReadsIn(DoAll(ms), m)
  {
    hide Do, WriteIn, EndIn, ReadsIn;
    assert (ms + [m])[..|ms|] == ms;
  }

  lemma LogCountsStep(ms: seq<Move>, m: Move, r: Record)
    requires LogCounts(ms, r) && r.action == ClientSndBegin
    ensures LogCounts(ms + [m], r)
  {
    hide DoAll, Do, SysInv, HandledBy, LogIn, HandledIn, WriteIn, EndIn, ReadsIn, N, Tally, Pairs, Forwarded, Writes,
        Ends, Reads;
    hide WritesBehind;
    var s := DoAll(ms);
    SysRun(ms);
    DoAllSnoc(ms, m);
    LogGrows(s, m);
    HandledGrow(s, m);
    MoveCounts(s, m, r);
    forall a ensures N(s.log + LogIn(s, m), r, a) == N(s.log, r, a) + N(LogIn(s, m), r, a) {
      NAppend(s.log, LogIn(s, m), r, a);
    }
    TallyAppend(Writes(ms), WriteIn(s, m), r);
    TallyAppend(Ends(ms), EndIn(s, m), r);
    TallyAppend(Reads(ms), ReadsIn(s, m), r);
    PairsAppend(HandledBy(s), HandledIn(s, m));
    TallyAppend(Pairs(HandledBy(s)), Pairs(HandledIn(s, m)), r);
    TallyAppend(Forwarded(HandledBy(s)), Forwarded(HandledIn(s, m)), r);
  }

  lemma {:induction false} PairsAppend(a: seq<Handled>, b: seq<Handled>)
    ensures Pairs(a + b) == Pairs(a) + Pairs(b)
    ensures Forwarded(a + b) == Forwarded(a) + Forwarded(b)
  {
    if b == [] {
      assert a + b == a;
    } else {
      var k := |b| - 1;
      PairsAppend(a, b[..k]);
      assert a + b == (a + b[..k]) + [b[k]] && b == b[..k] + [b[k]];
      PairsSnoc(a + b[..k], b[k]);
      PairsSnoc(b[..k], b[k]);
      hide Pairs, Forwarded;
      var x, y := Pairs(a), Forwarded(a);
      assert forall p, q: seq<Tagged> :: (x + p) + q == x + (p + q);
      assert forall p, q: seq<Tagged> :: (y + p) + q == y + (p + q);
    }
  }

  lemma PairsSnoc(hs: seq<Handled>, h: Handled)
    ensures Pairs(hs + [h]) == Pairs(hs) + [(h.client, h.frame)]
    ensures Forwarded(hs + [h]) == Forwarded(hs) + if h.fate.Written? then [(h.fate.up, h.frame)] else []
  {
    Snoc(hs, h);
  }

  /** A log in which message `r` is recorded by no hop more often than by the hop before it. */
  predicate Balanced(log: seq<Record>, r: Record)
  {
    && N(log, r, UpstreamRcv) <= N(log, r, ServerSndBegin) <= N(log, r, ServerRcv) <= N(log, r, ClientSndBegin)
    && N(log, r, ClientSndEnd) <= N(log, r, ClientSndBegin)
  }

  lemma BalancedAfter(ms: seq<Move>, r: Record)
    requires r.action == ClientSndBegin
    ensures Balanced(DoAll(ms).log, r)
  {
    LogCountsRun(ms, r);
    HandledWereWritten(ms, r);
    ReadsWereForwarded(ms, r);
    EndsWereWritten(ms, r);
    ForwardedWereHandled(HandledBy(DoAll(ms)), r);
    hide N, Tally, HandledBy, Writes, Reads, Ends, DoAll;
  }

  /** In the middle of a move's records, too. */
  lemma BalancedWithin(log: seq<Record>, more: seq<Record>, j: nat, r: Record)
    requires j <= |more| && Balanced(log, r) && Balanced(log + more, r)
    requires |more| > 1 ==> N(more, r, ClientSndBegin) == N(more, r, ClientSndEnd) == 0
    requires |more| > 1 ==> WritesBehind(more, r) && (N(more, r, UpstreamRcv) == 0 || N(more, r, ServerSndBegin) == 0)
    ensures Balanced(log + more[..j], r)
  {
    hide N;
    if j == 0 {
      assert log + more[..0] == log;
    } else if j == |more| {
      assert more[..j] == more;
    } else {
      forall a
        ensures N(log + more[..j], r, a) == N(log, r, a) + N(more[..j], r, a)
        ensures N(log + more, r, a) == N(log, r, a) + N(more, r, a)
        ensures N(more[..j], r, a) <= N(more, r, a)
      {
        NAppend(log, more[..j], r, a);
        NAppend(log, more, r, a);
        NPrefix(more, j, r, a);
      }
    }
  }

  lemma MovesAreUniform(s: Sys, m: Move, r: Record)
    requires r.action == ClientSndBegin && |LogIn(s, m)| > 1
    ensures var rs := LogIn(s, m);
            && N(rs, r, ClientSndBegin) == N(rs, r, ClientSndEnd) == 0 && WritesBehind(rs, r)
            && (N(rs, r, UpstreamRcv) == 0 || N(rs, r, ServerSndBegin) == 0)
  {
    MoveCounts(s, m, r);
    assert Pairs([]) == Forwarded([]) == [] && Tally([], r) == 0;
    hide Possible, Tally, N, RecordOf, Readable;
    if m.UpstreamRead? {
      ReadsHaveNoWrites(s, m, r);
    }
  }

  lemma ReadsHaveNoWrites(s: Sys, m: Move, r: Record)
    requires r.action == ClientSndBegin && m.UpstreamRead?
    ensures WritesBehind(LogIn(s, m), r)
  {
    NoRecords(r);
    if Possible(s, m) {
      var fs := NewFrames(ReadOn(s, m.up), m.chunk);
      ReceiptsCount(m.up, fs, r);
      forall j | 0 <= j <= |ReceiveRecords(fs)| ensures N(ReceiveRecords(fs)[..j], r, ServerSndBegin) == 0 {
        NPrefix(ReceiveRecords(fs), j, r, ServerSndBegin);
      }
    }
  }

  /** The main result: at every moment of every run, for every message, no hop has recorded it more often
      than the hop before it. */
  lemma {:induction false} NeverMoreThanBefore(ms: seq<Move>, k: nat, r: Record)
    requires k <= |DoAll(ms).log| && r.action == ClientSndBegin
    ensures Balanced(DoAll(ms).log[..k], r)
    decreases |ms|
  {
    hide DoAll, Do, LogIn, Balanced, WritesBehind, N;
    if ms == [] {
      NothingDone();
      BalancedAfter([], r);
      assert DoAll(ms).log[..k] == DoAll(ms).log;
    } else {
      var init, m := ms[..|ms| - 1], ms[|ms| - 1];
      var s, more := DoAll(init), LogIn(DoAll(init), m);
      LogGrows(s, m);
      assert ms == init + [m];
      DoAllSnoc(init, m);
      if k <= |s.log| {
        NeverMoreThanBefore(init, k, r);
        assert (s.log + more)[..k] == s.log[..k];
      } else {
        BalancedAfter(init, r);
        BalancedAfter(ms, r);
        if |more| > 1 {
          MovesAreUniform(s, m, r);
        }
        BalancedWithin(s.log, more, k - |s.log|, r);
        assert (s.log + more)[..k] == s.log + more[..k - |s.log|];
      }
    }
  }
}
