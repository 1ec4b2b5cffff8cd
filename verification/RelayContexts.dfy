/** What the relay's contexts are, over whole runs: which sessions they carry and which sockets are shut
    down, told by the events and by the writes alone. */
module RelayContexts {
  import opened Wire
  import opened BytesBuffers
  import opened Links
  import opened Relays
  import opened RelayRuns

  /** A context as it came into being. */
  datatype Origin = Origin(upstream: bool, nodelay: bool)

  /** The contexts that the events have brought. */
  function Opened(es: seq<Event>): (os: map<nat, Origin>)
    decreases |es|
  {
    if es == [] then map[]
    else
      var w, e, os := Run(es[..|es| - 1]), es[|es| - 1], Opened(es[..|es| - 1]);
      if !Enabled(w, e) then os
      else match e
        case UpstreamAdded(nodelay) => os[w.nextId := Origin(true, nodelay)]
        case ClientConnected(nodelay) => os[w.nextId := Origin(false, nodelay)]
        case _ => os
  }

  /** Some write to the context's socket came up short. */
  predicate HasShortWrite(hs: seq<Handled>, id: nat)
  {
    exists h <- hs :: h.fate.Written? && h.fate.up == id && h.fate.accepted != |h.frame|
  }

  ghost predicate ContextInv(w: World, os: map<nat, Origin>, id: nat)
  {
    && (w.nextId <= id ==> id !in os && !HasShortWrite(w.core.handled, id))
    && (IsUpstream(w.core, id) <==> id in os && os[id].upstream)
    && (IsClient(w.core, id) <==> id in os && !os[id].upstream && os[id].nodelay)
    && (id in w.core.shut <==> (id in os && !os[id].nodelay) || HasShortWrite(w.core.handled, id))
  }

  lemma ShortSnoc(hs: seq<Handled>, h: Handled, id: nat)
    ensures HasShortWrite(hs + [h], id) <==>
              HasShortWrite(hs, id) || (h.fate.Written? && h.fate.up == id && h.fate.accepted != |h.frame|)
  {
    assert h in hs + [h];
    assert forall x <- hs :: x in hs + [h];
    assert forall x <- hs + [h] :: x in hs || x == h;
  }

  lemma ShutStep(c: Core, client: nat, frame: Bytes, result: int, id: nat, base: bool)
    requires |frame| > 0 && (id in c.shut <==> base || HasShortWrite(c.handled, id))
    ensures var c' := HandleStep(c, client, frame, result);
            && (id in c'.shut <==> base || HasShortWrite(c'.handled, id))
            && (c.connCtx != Some(id) ==> (HasShortWrite(c'.handled, id) <==> HasShortWrite(c.handled, id)))
  {
    if IsClient(c, client) {
      ShortSnoc(c.handled, Handled(client, frame, FateOf(c, result)), id);
    }
  }

  /** Shut sockets and short writes grow together. */
  lemma {:induction false} ShutAll(c: Core, client: nat, fs: seq<Bytes>, results: seq<int>, id: nat, base: bool)
    requires |fs| == |results| && forall f <- fs :: |f| > 0
    requires id in c.shut <==> base || HasShortWrite(c.handled, id)
    ensures var c' := HandleAll(c, client, fs, results);
            && (id in c'.shut <==> base || HasShortWrite(c'.handled, id))
            && (c.connCtx != Some(id) ==> (HasShortWrite(c'.handled, id) <==> HasShortWrite(c.handled, id)))
    decreases |fs|
  {
    hide HasShortWrite;
    if fs != [] {
      assert fs[0] in fs;
      ShutStep(c, client, fs[0], results[0], id, base);
      var c' := HandleStep(c, client, fs[0], results[0]);
      assert c'.connCtx == c.connCtx;
      hide HandleStep;
      ShutAll(c', client, fs[1..], results[1..], id, base);
    }
  }

  lemma ContextStep(w: World, e: Event, os: map<nat, Origin>, os': map<nat, Origin>, id: nat)
    requires ContextInv(w, os, id) && UpstreamInv(w) && Enabled(w, e)
    requires os' == match e
                    case UpstreamAdded(nodelay) => os[w.nextId := Origin(true, nodelay)]
                    case ClientConnected(nodelay) => os[w.nextId := Origin(false, nodelay)]
                    case _ => os
    ensures ContextInv(Step(w, e), os', id)
  {
    if e.Data? {
      var fs := NewFrames(Rx(w, e.id), e.chunk);
      assert forall f <- fs :: Readable(f) && |f| > 0;
      HandleAllKeeps(w.core, e.id, fs, e.results);
      hide HasShortWrite, HandleAll, NewFrames, Readable, AllMayReturn;
      ShutAll(w.core, e.id, fs, e.results, id, id in os && !os[id].nodelay);
    } else {
      hide HasShortWrite;
    }
  }

  /** In every run: a context carries an upstream session exactly if it was added as one, and a client
      session exactly if a client connected and TCP_NODELAY could be set; and a socket is shut down
      exactly if TCP_NODELAY failed on it or some write to it came up short. */
  lemma {:induction false} ContextsRun(es: seq<Event>, id: nat)
    ensures ContextInv(Run(es), Opened(es), id)
    decreases |es|
  {
    if es != [] {
      hide UpstreamInv, ContextInv, Enabled, Step;
      var w, e := Run(es[..|es| - 1]), es[|es| - 1];
      ContextsRun(es[..|es| - 1], id);
      UpstreamConnection(es[..|es| - 1]);
      if Enabled(w, e) {
        ContextStep(w, e, Opened(es[..|es| - 1]), Opened(es), id);
      }
    } else {
      NoContexts(id);
    }
  }

  lemma NoContexts(id: nat)
    ensures ContextInv(Run([]), Opened([]), id)
  {
  }
}
