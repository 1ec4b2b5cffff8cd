/** Which frames the relay loses, over whole runs: what the upstream connections carry of a client is
    exactly what the client sent, minus the frames that were handled while there was no upstream
    connection and those that a short write cut. */
module RelayLosses {
  import opened Wire
  import opened BytesBuffers
  import opened Relays
  import opened RelayRuns

  // ---------------------------------------------------------------- the shares of one client

  predicate Survives(fate: Fate, frame: Bytes)
  {
    fate.Written? && fate.accepted == |frame|
  }

  /** What went through of a client, over the upstream connections 0 .. n - 1 in this order. */
  function Shares(hs: seq<Handled>, n: nat, client: nat): (fs: seq<Bytes>)
  {
    if n == 0 then [] else Shares(hs, n - 1, client) + From(Through(hs, n - 1), client)
  }

  /** The frames that survive, each judged by the fate at the same place. */
  function Select(frames: seq<Bytes>, fates: seq<Fate>): (fs: seq<Bytes>)
    requires |frames| == |fates|
  {
    if frames == [] then []
    else
      var k := |frames| - 1;
      Select(frames[..k], fates[..k]) + if Survives(fates[k], frames[k]) then [frames[k]] else []
  }

  function FatesOf(hs: seq<Handled>, client: nat): (fates: seq<Fate>)
  {
    if hs == [] then []
    else
      var h := hs[|hs| - 1];
      FatesOf(hs[..|hs| - 1], client) + if h.client == client then [h.fate] else []
  }

  lemma {:induction false} AsManyFates(hs: seq<Handled>, client: nat)
    ensures |FatesOf(hs, client)| == |FramesOf(hs, client)|
  {
    if hs != [] {
      AsManyFates(hs[..|hs| - 1], client);
    }
  }

  /** Frames went to upstream connections in the order of their ids, all of them below `n`. */
  ghost predicate InOrder(hs: seq<Handled>, n: nat)
  {
    && (forall h <- hs | h.fate.Written? :: h.fate.up < n)
    && (forall i, j | 0 <= i < j < |hs| && hs[i].fate.Written? && hs[j].fate.Written? :: hs[i].fate.up <= hs[j].fate.up)
  }

  lemma InOrderInit(hs: seq<Handled>, n: nat)
    requires hs != [] && InOrder(hs, n)
    ensures var init, h := hs[..|hs| - 1], hs[|hs| - 1];
            InOrder(init, n) && (h.fate.Written? ==> h.fate.up < n && InOrder(init, h.fate.up + 1))
  {
    var init, h := hs[..|hs| - 1], hs[|hs| - 1];
    forall x <- init | x.fate.Written? ensures x in hs && (h.fate.Written? ==> x.fate.up <= h.fate.up) {
      var i :| 0 <= i < |init| && init[i] == x;
      assert hs[i] == x;
    }
  }

  lemma NextShare(hs: seq<Handled>, up: nat, client: nat)
    ensures Shares(hs, up + 1, client) == Shares(hs, up, client) + From(Through(hs, up), client)
  {
  }

  lemma {:induction false} NothingBeyond(hs: seq<Handled>, n: nat, m: nat, client: nat)
    requires InOrder(hs, n) && n <= m
    ensures Shares(hs, m, client) == Shares(hs, n, client)
  {
    hide InOrder, Shares, Through, From;
    if n < m {
      NothingBeyond(hs, n, m - 1, client);
      NothingThrough(hs, n, m - 1);
      NextShare(hs, m - 1, client);
      NothingFrom(client);
      assert Shares(hs, n, client) + [] == Shares(hs, n, client);
    }
  }

  lemma NothingFrom(client: nat)
    ensures From([], client) == []
  {
  }

  lemma {:induction false} NothingThrough(hs: seq<Handled>, n: nat, up: nat)
    requires InOrder(hs, n) && n <= up
    ensures Through(hs, up) == []
  {
    if hs != [] {
      InOrderInit(hs, n);
      NothingThrough(hs[..|hs| - 1], n, up);
      assert hs[|hs| - 1] in hs;
    }
  }

  /** One more entry reaches the share of its own upstream connection only. */
  lemma {:induction false} OtherShares(hs: seq<Handled>, h: Handled, n: nat, client: nat)
    requires h.fate.Written? ==> n <= h.fate.up
    ensures Shares(hs + [h], n, client) == Shares(hs, n, client)
  {
    hide Shares, Through, From;
    if n == 0 {
      NoShare(hs, client);
      NoShare(hs + [h], client);
    } else {
      OtherShares(hs, h, n - 1, client);
      NextShare(hs, n - 1, client);
      NextShare(hs + [h], n - 1, client);
      ThroughOthers(hs, h, n - 1);
    }
  }

  lemma NoShare(hs: seq<Handled>, client: nat)
    ensures Shares(hs, 0, client) == []
  {
  }

  lemma ThroughOthers(hs: seq<Handled>, h: Handled, up: nat)
    requires h.fate.Written? ==> up != h.fate.up
    ensures Through(hs + [h], up) == Through(hs, up)
  {
    Snoc(hs, h);
    assert Through(hs, up) + [] == Through(hs, up);
  }

  lemma LastShare(hs: seq<Handled>, h: Handled, n: nat, client: nat)
    requires h.fate.Written? && h.fate.up < n && InOrder(hs, h.fate.up + 1) && InOrder(hs + [h], h.fate.up + 1)
    ensures Shares(hs + [h], n, client)
         == Shares(hs, n, client) + if Survives(h.fate, h.frame) && h.client == client then [h.frame] else []
  {
    hide InOrder, Survives, Through, From, Shares;
    var up := h.fate.up;
    NothingBeyond(hs, up + 1, n, client);
    NothingBeyond(hs + [h], up + 1, n, client);
    NextShare(hs, up, client);
    NextShare(hs + [h], up, client);
    OtherShares(hs, h, up, client);
    OneMoreThrough(hs, h, client);
    var ts := Through(hs, up);
    var more := if Survives(h.fate, h.frame) && h.client == client then [h.frame] else [];
    assert (Shares(hs, up, client) + From(ts, client)) + more == Shares(hs, up, client) + (From(ts, client) + more);
  }

  lemma OneMoreThrough(hs: seq<Handled>, h: Handled, client: nat)
    requires h.fate.Written?
    ensures From(Through(hs + [h], h.fate.up), client)
         == From(Through(hs, h.fate.up), client) + if Survives(h.fate, h.frame)
             && h.client == client then [h.frame] else []
  {
    Snoc(hs, h);
    var ts := Through(hs, h.fate.up);
    FromSnoc(ts, (h.client, h.frame), client);
    assert ts + [] == ts;
    assert From(ts, client) + [] == From(ts, client);
  }

  /** The shares of all upstream connections, one after the other, are the client's surviving frames. */
  lemma {:induction false} SharesAreSelected(hs: seq<Handled>, n: nat, client: nat)
    requires InOrder(hs, n)
    ensures |FatesOf(hs, client)| == |FramesOf(hs, client)|
    ensures Shares(hs, n, client) == Select(FramesOf(hs, client), FatesOf(hs, client))
  {
    hide Shares, InOrder, Through, From, Survives, Select, FramesOf, FatesOf;
    AsManyFates(hs, client);
    if hs == [] {
      NothingShared(n, client);
    } else {
      var init, h := hs[..|hs| - 1], hs[|hs| - 1];
      InOrderInit(hs, n);
      SharesAreSelected(init, n, client);
      assert hs == init + [h];
      LastOrNone(init, h, n, client);
      SelectLast(init, h, client);
    }
  }

  lemma NothingShared(n: nat, client: nat)
    ensures Shares([], n, client) == [] && FramesOf([], client) == [] && FatesOf([], client) == []
        && Select([], []) == []
  {
    NothingBeyond([], 0, n, client);
  }

  lemma SelectSnoc(fs: seq<Bytes>, fates: seq<Fate>, f: Bytes, fate: Fate)
    requires |fs| == |fates|
    ensures Select(fs + [f], fates + [fate]) == Select(fs, fates) + if Survives(fate, f) then [f] else []
  {
    assert (fs + [f])[..|fs|] == fs && (fates + [fate])[..|fates|] == fates;
  }

  lemma SelectLast(hs: seq<Handled>, h: Handled, client: nat)
    ensures |FatesOf(hs, client)| == |FramesOf(hs, client)|
        && |FatesOf(hs + [h], client)| == |FramesOf(hs + [h], client)|
    ensures Select(FramesOf(hs + [h], client), FatesOf(hs + [h], client))
         == Select(FramesOf(hs, client), FatesOf(hs, client)) + if Survives(h.fate, h.frame)
             && h.client == client then [h.frame] else []
  {
    AsManyFates(hs, client);
    AsManyFates(hs + [h], client);
    Snoc(hs, h);
    var fs, fates := FramesOf(hs, client), FatesOf(hs, client);
    hide Select;
    if h.client == client {
      SelectSnoc(fs, fates, h.frame, h.fate);
    } else {
      assert fs + [] == fs && fates + [] == fates && Select(fs, fates) + [] == Select(fs, fates);
    }
  }

  lemma LastOrNone(hs: seq<Handled>, h: Handled, n: nat, client: nat)
    requires InOrder(hs + [h], n)
    ensures Shares(hs + [h], n, client)
         == Shares(hs, n, client) + if Survives(h.fate, h.frame) && h.client == client then [h.frame] else []
  {
    assert (hs + [h])[..|hs|] == hs && (hs + [h])[|hs|] == h;
    InOrderInit(hs + [h], n);
    if h.fate.Written? {
      forall x <- hs + [h] | x.fate.Written? ensures x.fate.up < h.fate.up + 1 {
        assert x in hs || x == h;
      }
      LastShare(hs, h, n, client);
    } else {
      OtherShares(hs, h, n, client);
      assert Shares(hs, n, client) + [] == Shares(hs, n, client);
    }
  }

  // ---------------------------------------------------------------- runs

  /** Frames only ever go to the newest upstream connection. */
  ghost predicate OrderInv(w: World)
  {
    && InOrder(w.core.handled, w.nextId)
    && (w.core.connCtx.Some? ==> w.core.connCtx.value < w.nextId && InOrder(w.core.handled, w.core.connCtx.value + 1))
  }

  lemma InOrderExtend(hs: seq<Handled>, more: seq<Handled>, n: nat)
    requires InOrder(hs, n + 1)
    requires forall h <- more | h.fate.Written? :: h.fate.up == n
    ensures InOrder(hs + more, n + 1)
  {
    var all := hs + more;
    forall h <- all | h.fate.Written? ensures h.fate.up < n + 1 {
      assert h in hs || h in more;
    }
    forall i, j | 0 <= i < j < |all| && all[i].fate.Written? && all[j].fate.Written?
      ensures all[i].fate.up <= all[j].fate.up
    {
      assert all[i] in all;
      assert j < |hs| ==> all[i] == hs[i] && all[j] == hs[j];
      assert j >= |hs| ==> all[j] == more[j - |hs|] && all[j] in more;
    }
  }

  lemma InOrderDropped(hs: seq<Handled>, more: seq<Handled>, n: nat)
    requires InOrder(hs, n) && forall h <- more :: h.fate.Dropped?
    ensures InOrder(hs + more, n)
  {
    var all := hs + more;
    forall h <- all | h.fate.Written? ensures h in hs {
      assert h in hs || h in more;
    }
    forall i | 0 <= i < |all| ensures all[i].fate.Dropped? || (i < |hs| && all[i] == hs[i]) {
      if i >= |hs| {
        assert all[i] == more[i - |hs|] && more[i - |hs|] in more;
      }
    }
  }

  lemma {:induction false} EntriesFates(c: Core, id: nat, fs: seq<Bytes>, results: seq<int>)
    requires |fs| == |results|
    ensures forall h <- Entries(c, id, fs, results) ::
              if c.connCtx.None? then h.fate.Dropped? else h.fate.Written? && h.fate.up == c.connCtx.value
    decreases |fs|
  {
    if fs != [] && IsClient(c, id) {
      EntriesFates(c, id, fs[1..], results[1..]);
    }
  }

  lemma OrderStep(w: World, e: Event)
    requires OrderInv(w) && Enabled(w, e)
    ensures OrderInv(Step(w, e))
  {
    if e.Data? {
      var fs := NewFrames(Rx(w, e.id), e.chunk);
      var more := Entries(w.core, e.id, fs, e.results);
      HandleAllAdds(w.core, e.id, fs, e.results);
      HandleAllKeeps(w.core, e.id, fs, e.results);
      EntriesFates(w.core, e.id, fs, e.results);
      hide InOrder, Entries, HandleAll, NewFrames;
      if w.core.connCtx.Some? {
        InOrderExtend(w.core.handled, more, w.core.connCtx.value);
        InOrderWider(w.core.handled + more, w.core.connCtx.value + 1, w.nextId);
      } else {
        InOrderDropped(w.core.handled, more, w.nextId);
      }
    } else {
      hide InOrder;
      InOrderWider(w.core.handled, w.nextId, w.nextId + 1);
    }
  }

  lemma InOrderWider(hs: seq<Handled>, n: nat, m: nat)
    requires InOrder(hs, n) && n <= m
    ensures InOrder(hs, m)
  {
  }

  lemma {:induction false} OrderRun(es: seq<Event>)
    ensures OrderInv(Run(es))
    decreases |es|
  {
    if es != [] {
      var w, e := Run(es[..|es| - 1]), es[|es| - 1];
      OrderRun(es[..|es| - 1]);
      if Enabled(w, e) {
        OrderStep(w, e);
      }
    }
  }

  /** The fates of a client's frames, read off the events: a chunk that arrives while there is no
      upstream connection loses all frames it completes, otherwise the write's result decides. */
  function FatesIn(es: seq<Event>, client: nat): (fates: seq<Fate>)
    decreases |es|
  {
    if es == [] then []
    else
      var w, e := Run(es[..|es| - 1]), es[|es| - 1];
      FatesIn(es[..|es| - 1], client) +
      if Enabled(w, e) && e.Data? && e.id == client
          && IsClient(w.core, client) then ResultFates(w.core, e.results) else []
  }

  /** What becomes of a frame whose write returns `result`. */
  function ResultFate(c: Core, result: int): Fate
  {
    if c.connCtx.None? then Dropped else Written(c.connCtx.value, if result < 0 then 0 else result)
  }

  function ResultFates(c: Core, results: seq<int>): (fates: seq<Fate>)
  {
    seq(|results|, i requires 0 <= i < |results| => ResultFate(c, results[i]))
  }

  lemma ResultFatesCons(c: Core, results: seq<int>)
    requires results != []
    ensures ResultFates(c, results) == [FateOf(c, results[0])] + ResultFates(c, results[1..])
  {
  }

  lemma FatesSnoc(hs: seq<Handled>, h: Handled, client: nat)
    ensures FatesOf(hs + [h], client) == FatesOf(hs, client) + if h.client == client then [h.fate] else []
  {
    Snoc(hs, h);
  }

  lemma {:induction false} EntriesHaveFates(hs: seq<Handled>, c: Core, id: nat, fs: seq<Bytes>, results: seq<int>,
      client: nat)
    requires |fs| == |results|
    ensures FatesOf(hs + Entries(c, id, fs, results), client)
         == FatesOf(hs, client) + if IsClient(c, id) && id == client then ResultFates(c, results) else []
    decreases |fs|
  {
    hide FatesOf, FateOf;
    if fs == [] || !IsClient(c, id) {
      assert hs + [] == hs && FatesOf(hs, client) + [] == FatesOf(hs, client);
      assert fs == [] ==> ResultFates(c, results) == [];
    } else {
      var h := Handled(id, fs[0], FateOf(c, results[0]));
      var rest := Entries(c, id, fs[1..], results[1..]);
      EntriesHaveFates(hs + [h], c, id, fs[1..], results[1..], client);
      FatesSnoc(hs, h, client);
      ResultFatesCons(c, results);
      assert Entries(c, id, fs, results) == [h] + rest;
      hide Entries, ResultFates;
      assert hs + ([h] + rest) == (hs + [h]) + rest;
      var x, more := FatesOf(hs, client), ResultFates(c, results[1..]);
      assert (x + [h.fate]) + more == x + ([h.fate] + more);
      assert x + [] == x;
    }
  }

  lemma FatesData(w: World, e: Event, client: nat)
    requires Enabled(w, e) && e.Data?
    ensures FatesOf(Step(w, e).core.handled, client)
         == FatesOf(w.core.handled, client) +
            if e.id == client && IsClient(w.core, client) then ResultFates(w.core, e.results) else []
  {
    var fs := NewFrames(Rx(w, e.id), e.chunk);
    HandleAllAdds(w.core, e.id, fs, e.results);
    hide NewFrames, Entries, HandleAll, ResultFates, AllMayReturn, Readable, Parse, FatesOf;
    EntriesHaveFates(w.core.handled, w.core, e.id, fs, e.results, client);
  }

  lemma {:induction false} FatesRun(es: seq<Event>, client: nat)
    ensures FatesOf(Run(es).core.handled, client) == FatesIn(es, client)
    decreases |es|
  {
    hide FatesOf, Enabled, ResultFates, IsClient;
    if es == [] {
      NoFates(client);
    } else {
      var w, e := Run(es[..|es| - 1]), es[|es| - 1];
      FatesRun(es[..|es| - 1], client);
      assert FatesIn(es[..|es| - 1], client) + [] == FatesIn(es[..|es| - 1], client);
      if Enabled(w, e) {
        if e.Data? {
          FatesData(w, e, client);
        } else {
          SameHandled(w, e);
        }
      }
      LastEvent(es);
      hide Step, Run;
    }
  }

  lemma NoFates(client: nat)
    ensures FatesOf(Run([]).core.handled, client) == []
  {
  }

  lemma SameHandled(w: World, e: Event)
    requires Enabled(w, e) && !e.Data?
    ensures Step(w, e).core.handled == w.core.handled
  {
  }

  lemma LastEvent(es: seq<Event>)
    requires es != []
    ensures var w, e := Run(es[..|es| - 1]), es[|es| - 1]; Run(es) == if Enabled(w, e) then Step(w, e) else w
  {
  }

  /** Loss accounting, for every run and every client: the shares of all upstream connections, in the
      order of their ids, concatenate to the frames of the bytes that the relay has read from the
      client, minus exactly those that arrived while no upstream was connected or were cut. */
  lemma SharesAddUp(es: seq<Event>, client: nat)
    requires IsClient(Run(es).core, client)
    ensures var w := Run(es); var frames := Parse(Rx(w, client), 0).frames;
            && |FatesIn(es, client)| == |frames|
            && Shares(w.core.handled, w.nextId, client) == Select(frames, FatesIn(es, client))
  {
    OrderRun(es);
    FatesRun(es, client);
    ForwardRun(es, client, 0);
    SharesAreSelected(Run(es).core.handled, Run(es).nextId, client);
  }

  // ---------------------------------------------------------------- runs that lose nothing

  predicate WholeResults(fs: seq<Bytes>, results: seq<int>)
  {
    |fs| == |results| && forall i | 0 <= i < |fs| :: results[i] == |fs[i]|
  }

  /** The upstream connects with event `k`, before any data, and is never closed; no write is short. */
  ghost predicate Steady(es: seq<Event>, k: nat)
  {
    && k < |es| && es[k] == UpstreamAdded(true)
    && (forall i | 0 <= i < k :: es[i].ClientConnected? || es[i].Closed?)
    && (forall i | k < i < |es| :: es[i] != Closed(Run(es[..k]).nextId))
    && (forall i | k < i < |es| && es[i].Data? ::
          WholeResults(NewFrames(Rx(Run(es[..i]), es[i].id), es[i].chunk), es[i].results))
  }

  ghost predicate SteadyInv(w: World, up: nat)
  {
    w.core.connCtx == Some(up) && forall h <- w.core.handled :: h.fate == Written(up, |h.frame|)
  }

  lemma QuietStep(w: World, e: Event)
    requires Enabled(w, e) && (e.ClientConnected? || e.Closed?) && w.core.connCtx == None
    ensures Step(w, e).core.connCtx == None && Step(w, e).core.handled == w.core.handled
  {
  }

  lemma {:induction false} QuietRun(es: seq<Event>)
    requires forall e <- es :: e.ClientConnected? || e.Closed?
    ensures Run(es).core.handled == [] && Run(es).core.connCtx == None && Run(es).inflight == 1
    decreases |es|
  {
    UpstreamConnection(es);
    if es != [] {
      var w, e := Run(es[..|es| - 1]), es[|es| - 1];
      QuietRun(es[..|es| - 1]);
      assert e in es;
      LastEvent(es);
      hide Run, Step;
      if Enabled(w, e) {
        QuietStep(w, e);
      }
    }
  }

  lemma {:induction false} WholeEntries(c: Core, id: nat, fs: seq<Bytes>, results: seq<int>, up: nat)
    requires WholeResults(fs, results) && c.connCtx == Some(up)
    ensures forall h <- Entries(c, id, fs, results) :: h.fate == Written(up, |h.frame|)
    decreases |fs|
  {
    if fs != [] && IsClient(c, id) {
      WholeEntries(c, id, fs[1..], results[1..], up);
    }
  }

  lemma SteadyStep(w: World, e: Event, up: nat)
    requires UpstreamInv(w) && SteadyInv(w, up) && Enabled(w, e) && e != Closed(up)
    requires e.Data? ==> WholeResults(NewFrames(Rx(w, e.id), e.chunk), e.results)
    ensures SteadyInv(Step(w, e), up)
  {
    if e.Data? {
      var fs := NewFrames(Rx(w, e.id), e.chunk);
      HandleAllAdds(w.core, e.id, fs, e.results);
      HandleAllKeeps(w.core, e.id, fs, e.results);
      WholeEntries(w.core, e.id, fs, e.results, up);
      hide WholeResults, Entries, HandleAll, NewFrames;
      forall h <- Step(w, e).core.handled ensures h.fate == Written(up, |h.frame|) {
        assert h in w.core.handled || h in Entries(w.core, e.id, fs, e.results);
      }
    }
  }

  lemma {:induction false} SteadyRun(es: seq<Event>, k: nat, n: nat)
    requires Steady(es, k) && k < n <= |es|
    ensures SteadyInv(Run(es[..n]), Run(es[..k]).nextId)
    decreases n
  {
    var e := es[n - 1];
    assert es[..n][..n - 1] == es[..n - 1];
    var w := Run(es[..n - 1]);
    UpstreamConnection(es[..n - 1]);
    if n - 1 == k {
      QuietRun(es[..k]);
    } else {
      SteadyRun(es, k, n - 1);
      if Enabled(w, e) {
        SteadyStep(w, e, Run(es[..k]).nextId);
      }
    }
  }

  lemma {:induction false} WholeShare(hs: seq<Handled>, up: nat, client: nat)
    requires forall h <- hs :: h.fate == Written(up, |h.frame|)
    ensures From(Through(hs, up), client) == FramesOf(hs, client)
  {
    if hs != [] {
      var init, h := hs[..|hs| - 1], hs[|hs| - 1];
      WholeShare(init, up, client);
      FromSnoc(Through(init, up), (h.client, h.frame), client);
      assert h in hs;
    }
  }

  /** Nothing is lost without a reason: if the upstream connects before any data and stays, and no
      write to it is short, it carries all of every client's frames. */
  lemma NothingLostWithoutReason(es: seq<Event>, k: nat, client: nat)
    requires Steady(es, k) && IsClient(Run(es).core, client)
    ensures var w, up := Run(es), Run(es[..k]).nextId;
            From(Through(w.core.handled, up), client) == Parse(Rx(w, client), 0).frames
  {
    var up := Run(es[..k]).nextId;
    SteadyRun(es, k, |es|);
    assert es[..|es|] == es;
    WholeShare(Run(es).core.handled, up, client);
    ForwardRun(es, client, up);
  }
}
