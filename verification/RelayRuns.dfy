/** Whole runs of the relay: clients connect, send bytes in any pieces and leave; upstream
    connections are lost and re-established; writes come up short. */
module RelayRuns {
  import opened Wire
  import opened BytesBuffers
  import opened Links
  import opened Relays

  /** The handlers' state and what surrounds them: the bytes each session has read, the live
      contexts, the connects in flight (main starts one) and, for every upstream session that
      closed, whether it was the one in conn_ctx. */
  datatype World = World(core: Core, rx: map<nat, Bytes>, live: set<nat>, inflight: nat, nextId: nat,
                         upstreamClosings: seq<bool>)

  datatype Event =
    | UpstreamAdded(nodelay: bool)
    | ClientConnected(nodelay: bool)
    | Closed(id: nat)
    | Data(id: nat, chunk: Bytes, results: seq<int>)

  function Start(): World
  {
    World(Core(None, map[], {}, []), map[], {}, 1, 0, [])
  }

  function Rx(w: World, id: nat): Bytes
  {
    if id in w.rx then w.rx[id] else []
  }

  /** The frames that a chunk completes. */
  function NewFrames(read: Bytes, chunk: Bytes): (fs: seq<Bytes>)
  {
    Parse(Parse(read, 0).rest + chunk, 0).frames
  }

  function HandleAll(c: Core, id: nat, fs: seq<Bytes>, results: seq<int>): Core
    requires |fs| == |results|
    decreases |fs|
  {
    if fs == [] then c else HandleAll(HandleStep(c, id, fs[0], results[0]), id, fs[1..], results[1..])
  }

  /** The entries that HandleAll adds. */
  function Entries(c: Core, id: nat, fs: seq<Bytes>, results: seq<int>): (hs: seq<Handled>)
    requires |fs| == |results|
    decreases |fs|
  {
    if fs == [] || !IsClient(c, id) then []
    else [Handled(id, fs[0], FateOf(c, results[0]))] + Entries(c, id, fs[1..], results[1..])
  }

  lemma {:induction false} HandleAllAdds(c: Core, id: nat, fs: seq<Bytes>, results: seq<int>)
    requires |fs| == |results|
    ensures HandleAll(c, id, fs, results).handled == c.handled + Entries(c, id, fs, results)
    decreases |fs|
  {
    if fs == [] {
      assert c.handled + [] == c.handled;
    } else {
      var c' := HandleStep(c, id, fs[0], results[0]);
      HandleAllAdds(c', id, fs[1..], results[1..]);
      SameEntries(c, c', id, fs[1..], results[1..]);
      if IsClient(c, id) {
        var h := Handled(id, fs[0], FateOf(c, results[0]));
        assert (c.handled + [h]) + Entries(c, id, fs[1..], results[1..])
            == c.handled + ([h] + Entries(c, id, fs[1..], results[1..]));
      }
    }
  }

  lemma {:induction false} SameEntries(c: Core, c': Core, id: nat, fs: seq<Bytes>, results: seq<int>)
    requires |fs| == |results| && c.connCtx == c'.connCtx && c.roles == c'.roles
    ensures Entries(c, id, fs, results) == Entries(c', id, fs, results)
    decreases |fs|
  {
    if fs != [] && IsClient(c, id) {
      SameEntries(c, c', id, fs[1..], results[1..]);
    }
  }

  lemma {:induction false} EntriesComeFrom(c: Core, id: nat, fs: seq<Bytes>, results: seq<int>)
    requires |fs| == |results|
    ensures forall h <- Entries(c, id, fs, results) :: h.frame in fs
    decreases |fs|
  {
    if fs != [] && IsClient(c, id) {
      EntriesComeFrom(c, id, fs[1..], results[1..]);
    }
  }

  /** What a write may return: at most the frame's size, and nothing on a socket that was shut. */
  predicate MayReturn(c: Core, frame: Bytes, result: int)
  {
    result <= |frame| && (c.connCtx.Some? && c.connCtx.value in c.shut ==> result <= 0)
  }

  predicate AllMayReturn(c: Core, id: nat, fs: seq<Bytes>, results: seq<int>)
    requires |fs| == |results|
    decreases |fs|
  {
    fs == [] ||
    (&& MayReturn(c, fs[0], results[0])
     && AllMayReturn(HandleStep(c, id, fs[0], results[0]), id, fs[1..], results[1..]))
  }

  predicate Enabled(w: World, e: Event)
  {
    match e
    case UpstreamAdded(_) => w.inflight > 0
    case ClientConnected(_) => true
    case Closed(id) => id in w.live
    case Data(id, chunk, results) =>
      && id in w.live && id in w.core.roles
      && Parse(Rx(w, id) + chunk, 0).stop != Wrapped
      && var fs := NewFrames(Rx(w, id), chunk);
      && (forall f <- fs :: Readable(f))
      && |results| == |fs| && AllMayReturn(w.core, id, fs, results)
  }

  function Step(w: World, e: Event): World
  {
    if !Enabled(w, e) then w
    else match e
      case UpstreamAdded(nodelay) =>
        w.(core := AddStep(w.core, w.nextId, nodelay), live := w.live + {w.nextId},
           inflight := w.inflight - 1, nextId := w.nextId + 1)
      case ClientConnected(nodelay) =>
        w.(core := ConnectStep(w.core, w.nextId, nodelay), live := w.live + {w.nextId}, nextId := w.nextId + 1)
      case Closed(id) =>
        var up := IsUpstream(w.core, id);
        w.(core := CloseStep(w.core, id), live := w.live - {id}, inflight := if up then w.inflight + 1 else w.inflight,
           upstreamClosings := if up then w.upstreamClosings + [w.core.connCtx == Some(id)] else w.upstreamClosings)
      case Data(id, chunk, results) =>
        w.(core := HandleAll(w.core, id, NewFrames(Rx(w, id), chunk), results), rx := w.rx[id := Rx(w, id) + chunk])
  }

  function Run(es: seq<Event>): World
    decreases |es|
  {
    if es == [] then Start() else Step(Run(es[..|es| - 1]), es[|es| - 1])
  }

  lemma {:induction false} HandleAllKeeps(c: Core, id: nat, fs: seq<Bytes>, results: seq<int>)
    requires |fs| == |results|
    ensures var c' := HandleAll(c, id, fs, results); c'.connCtx == c.connCtx && c'.roles == c.roles
    decreases |fs|
  {
    if fs != [] {
      HandleAllKeeps(HandleStep(c, id, fs[0], results[0]), id, fs[1..], results[1..]);
    }
  }

  // ---------------------------------------------------------------- the upstream connection

  ghost predicate UpstreamInv(w: World)
  {
    && (w.core.connCtx.Some? ==>
          w.inflight == 0 && w.core.connCtx.value in w.live && IsUpstream(w.core, w.core.connCtx.value))
    && (w.core.connCtx.None? ==> w.inflight == 1)
    && (forall id <- w.live :: id < w.nextId && (IsUpstream(w.core, id) ==> w.core.connCtx == Some(id)))
    && (forall id <- w.core.roles :: id < w.nextId)
    && (forall ok <- w.upstreamClosings :: ok)
  }

  /** In every reachable state either conn_ctx is the one live upstream context and no connect is in
      flight, or conn_ctx is NULL and exactly one is; and every upstream session that closed was
      the one in conn_ctx, also when TCP_NODELAY had failed on it. */
  lemma {:induction false} UpstreamConnection(es: seq<Event>)
    ensures UpstreamInv(Run(es))
    decreases |es|
  {
    if es != [] {
      var w, e := Run(es[..|es| - 1]), es[|es| - 1];
      UpstreamConnection(es[..|es| - 1]);
      if Enabled(w, e) && e.Data? {
        HandleAllKeeps(w.core, e.id, NewFrames(Rx(w, e.id), e.chunk), e.results);
      }
    }
  }

  // ---------------------------------------------------------------- what is handled

  /** The frames handled for one client, in order. */
  function FramesOf(hs: seq<Handled>, client: nat): (fs: seq<Bytes>)
  {
    if hs == [] then []
    else
      var h := hs[|hs| - 1];
      FramesOf(hs[..|hs| - 1], client) + if h.client == client then [h.frame] else []
  }

  /** The writes to one upstream connection. */
  function WritesTo(hs: seq<Handled>, up: nat): (ws: seq<Sent>)
  {
    if hs == [] then []
    else
      var h := hs[|hs| - 1];
      WritesTo(hs[..|hs| - 1], up) +
      if h.fate.Written? && h.fate.up == up then [Sent(h.frame, h.fate.accepted)] else []
  }

  lemma Snoc(hs: seq<Handled>, h: Handled)
    ensures (hs + [h])[..|hs|] == hs && (hs + [h])[|hs|] == h && hs + [h] != []
  {
  }

  /** A link in order; if its socket was not shut, everything on it went through. */
  ghost predicate LinkInv(c: Core, up: nat)
  {
    && LinkOk(WritesTo(c.handled, up))
    && (up in c.shut || Clean(WritesTo(c.handled, up)))
  }

  lemma HandleLink(c: Core, id: nat, frame: Bytes, result: int, up: nat)
    requires LinkInv(c, up) && IsFrame(frame, 0) && MayReturn(c, frame, result)
    ensures LinkInv(HandleStep(c, id, frame, result), up)
  {
    hide IsFrame, LinkOk;
    var c' := HandleStep(c, id, frame, result);
    if IsClient(c, id) {
      var h := Handled(id, frame, FateOf(c, result));
      Snoc(c.handled, h);
      if c.connCtx == Some(up) {
        var ws, s := WritesTo(c.handled, up), Sent(frame, Accepted(result));
        LinkExtend(ws, s);
        assert WritesTo(c'.handled, up) == ws + [s];
        assert up in c'.shut || Clean(ws + [s]);
      } else {
        assert WritesTo(c'.handled, up) == WritesTo(c.handled, up);
      }
    }
  }

  lemma {:induction false} HandleAllLink(c: Core, id: nat, fs: seq<Bytes>, results: seq<int>, up: nat)
    requires LinkInv(c, up) && |fs| == |results| && AllMayReturn(c, id, fs, results)
    requires forall f <- fs :: IsFrame(f, 0)
    ensures LinkInv(HandleAll(c, id, fs, results), up)
    decreases |fs|
  {
    hide LinkInv, IsFrame, HandleStep;
    if fs != [] {
      HandleLink(c, id, fs[0], results[0], up);
      HandleAllLink(HandleStep(c, id, fs[0], results[0]), id, fs[1..], results[1..], up);
    }
  }

  lemma {:induction false} HandleAllFrames(c: Core, id: nat, fs: seq<Bytes>, results: seq<int>, client: nat)
    requires |fs| == |results|
    ensures FramesOf(HandleAll(c, id, fs, results).handled, client)
         == FramesOf(c.handled, client) + if IsClient(c, id) && id == client then fs else []
    decreases |fs|
  {
    if fs == [] {
      assert FramesOf(c.handled, client) + [] == FramesOf(c.handled, client);
    } else {
      var c' := HandleStep(c, id, fs[0], results[0]);
      HandleAllFrames(c', id, fs[1..], results[1..], client);
      if IsClient(c, id) {
        Snoc(c.handled, Handled(id, fs[0], FateOf(c, results[0])));
        assert fs == [fs[0]] + fs[1..];
      }
    }
  }

  /** The forwarding invariant, for one client and one upstream connection. */
  ghost predicate ForwardInv(w: World, client: nat, up: nat)
  {
    && LinkInv(w.core, up)
    && (w.nextId <= up ==> WritesTo(w.core.handled, up) == [])
    && (w.nextId <= client ==> client !in w.core.roles && client !in w.rx)
    && FramesOf(w.core.handled, client) == if IsClient(w.core, client) then Parse(Rx(w, client), 0).frames else []
  }

  lemma ForwardData(w: World, e: Event, client: nat, up: nat)
    requires ForwardInv(w, client, up) && UpstreamInv(w) && e.Data? && Enabled(w, e)
    ensures ForwardInv(Step(w, e), client, up)
  {
    hide LinkInv, AllMayReturn, Readable, WhyStopped;
    var before := Rx(w, e.id);
    var fs := NewFrames(before, e.chunk);
    ParseAppend(before, e.chunk, 0);
    ParseSplits(Parse(before, 0).rest + e.chunk, 0);
    HandleAllKeeps(w.core, e.id, fs, e.results);
    HandleAllLink(w.core, e.id, fs, e.results, up);
    HandleAllFrames(w.core, e.id, fs, e.results, client);
    if w.nextId <= up {
      NotUsed(w.core, e.id, fs, e.results, up);
    }
  }

  /** Only the connection in conn_ctx is written to. */
  lemma {:induction false} NotUsed(c: Core, id: nat, fs: seq<Bytes>, results: seq<int>, up: nat)
    requires |fs| == |results| && c.connCtx != Some(up)
    ensures WritesTo(HandleAll(c, id, fs, results).handled, up) == WritesTo(c.handled, up)
    decreases |fs|
  {
    if fs != [] {
      if IsClient(c, id) {
        Snoc(c.handled, Handled(id, fs[0], FateOf(c, results[0])));
      }
      NotUsed(HandleStep(c, id, fs[0], results[0]), id, fs[1..], results[1..], up);
    }
  }

  lemma {:induction false} ForwardRun(es: seq<Event>, client: nat, up: nat)
    ensures ForwardInv(Run(es), client, up)
    decreases |es|
  {
    if es != [] {
      hide UpstreamInv, ForwardInv;
      var w, e := Run(es[..|es| - 1]), es[|es| - 1];
      ForwardRun(es[..|es| - 1], client, up);
      UpstreamConnection(es[..|es| - 1]);
      if Enabled(w, e) {
        if e.Data? {
          ForwardData(w, e, client, up);
        } else {
          ForwardOther(w, e, client, up);
        }
      }
    }
  }

  lemma ForwardOther(w: World, e: Event, client: nat, up: nat)
    requires ForwardInv(w, client, up) && UpstreamInv(w) && !e.Data? && Enabled(w, e)
    ensures ForwardInv(Step(w, e), client, up)
  {
    hide WritesTo, LinkOk, FramesOf;
    assert Parse([], 0).frames == [];
  }

  // ---------------------------------------------------------------- end to end

  /** The frames that went through to one upstream connection, each with the client it came from. */
  function Through(hs: seq<Handled>, up: nat): (ts: seq<(nat, Bytes)>)
  {
    if hs == [] then []
    else
      var h := hs[|hs| - 1];
      Through(hs[..|hs| - 1], up) + if h.fate == Written(up, |h.frame|) then [(h.client, h.frame)] else []
  }

  function Frames(ts: seq<(nat, Bytes)>): (fs: seq<Bytes>)
    ensures |fs| == |ts|
  {
    seq(|ts|, i requires 0 <= i < |ts| => ts[i].1)
  }

  function From(ts: seq<(nat, Bytes)>, client: nat): (fs: seq<Bytes>)
  {
    if ts == [] then []
    else
      var t := ts[|ts| - 1];
      From(ts[..|ts| - 1], client) + if t.0 == client then [t.1] else []
  }

  /** `a` can be had from `b` by deleting elements. */
  ghost predicate IsSubsequence(a: seq<Bytes>, b: seq<Bytes>)
    decreases |b|
  {
    a == [] ||
    (b != [] &&
     (|| IsSubsequence(a, b[..|b| - 1])
      || (a[|a| - 1] == b[|b| - 1] && IsSubsequence(a[..|a| - 1], b[..|b| - 1]))))
  }

  lemma FromSnoc(ts: seq<(nat, Bytes)>, t: (nat, Bytes), client: nat)
    ensures From(ts + [t], client) == From(ts, client) + if t.0 == client then [t.1] else []
  {
    assert (ts + [t])[..|ts|] == ts;
  }

  lemma SubsequenceSnoc(a: seq<Bytes>, b: seq<Bytes>, f: Bytes)
    requires IsSubsequence(a, b)
    ensures IsSubsequence(a, b + [f]) && IsSubsequence(a + [f], b + [f])
  {
    assert (b + [f])[..|b|] == b && (a + [f])[..|a|] == a;
  }

  lemma {:induction false} ThroughIsWhole(hs: seq<Handled>, up: nat)
    ensures Frames(Through(hs, up)) == WholeFrames(WritesTo(hs, up))
  {
    if hs != [] {
      var init, h := hs[..|hs| - 1], hs[|hs| - 1];
      ThroughIsWhole(init, up);
      var ts, ws := Through(init, up), WritesTo(init, up);
      if h.fate.Written? && h.fate.up == up {
        WholeAppend(ws, Sent(h.frame, h.fate.accepted));
        assert Frames(ts + [(h.client, h.frame)]) == Frames(ts) + [h.frame];
        assert ts + [] == ts;
      } else {
        assert ts + [] == ts && ws + [] == ws;
      }
    }
  }

  lemma {:induction false} ThroughKeepsOrder(hs: seq<Handled>, up: nat, client: nat)
    ensures IsSubsequence(From(Through(hs, up), client), FramesOf(hs, client))
  {
    if hs != [] {
      var init, h := hs[..|hs| - 1], hs[|hs| - 1];
      ThroughKeepsOrder(init, up, client);
      var ts, a, b := Through(init, up), From(Through(init, up), client), FramesOf(init, client);
      FromSnoc(ts, (h.client, h.frame), client);
      SubsequenceSnoc(a, b, h.frame);
      assert ts + [] == ts && a + [] == a && b + [] == b;
    }
  }

  /** The main result about the relay.  In every run, for every upstream connection and whatever
      part of its bytes the upstream has read, in whatever pieces: the upstream has delivered a
      prefix of `Through` (all of it once it has read everything); the connection carries those frames
      and at most one truncated frame after them; and what `Through` holds of each
      client is that client's own frame sequence with some frames deleted.  Nothing is invented,
      split or reordered. */
  lemma RelayEndToEnd(es: seq<Event>, up: nat, client: nat, chunks: seq<Bytes>)
    requires Concat(chunks) <= StreamOf(WritesTo(Run(es).core.handled, up))
    ensures var w := Run(es);
            var ws, through, got := WritesTo(w.core.handled, up), Through(w.core.handled, up), Feed(chunks, 0).frames;
            && LinkOk(ws)
            && (exists cut :: Splits(StreamOf(ws), 0, Frames(through), cut) && (cut == [] || exists s <- ws ::
                cut == Taken(s)))
            && got <= Frames(through)
            && (Concat(chunks) == StreamOf(ws) ==> got == Frames(through))
            && IsSubsequence(From(through, client), FramesOf(w.core.handled, client))
            && (IsClient(w.core, client) ==> FramesOf(w.core.handled, client) == Parse(Rx(w, client), 0).frames)
  {
    var hs := Run(es).core.handled;
    ForwardRun(es, client, up);
    FeedIsParse(chunks, 0);
    ReceiverSeesWholeFrames(WritesTo(hs, up), Concat(chunks));
    ThroughIsWhole(hs, up);
    ThroughKeepsOrder(hs, up, client);
    var cut := StreamShape(WritesTo(hs, up));
  }
}
