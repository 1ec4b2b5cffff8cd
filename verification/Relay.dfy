/** app/tcp_server/tcp_server_handle.c: the relay between any number of clients and one upstream
    connection that comes and goes. */
module Relays {
  import opened Wire
  import opened BytesBuffers
  import opened Links
  import opened Records

  datatype Role = ClientRole | UpstreamRole

  /** What became of one frame from a client: dropped, or written to upstream context `up`, which
      took `accepted` bytes of it. */
  datatype Fate = Dropped | Written(up: nat, accepted: nat)
  datatype Handled = Handled(client: nat, frame: Bytes, fate: Fate)

  /** The relay's fields: the event loop's conn_ctx and the sessions attached to contexts, together
      with the sockets it has shut down and everything it has handled. */
  datatype Core = Core(connCtx: Option<nat>, roles: map<nat, Role>, shut: set<nat>, handled: seq<Handled>)

  /** A frame that both handlers may read: it names message 1 and holds an nb_msg_data_t. */
  predicate Readable(f: Bytes)
  {
    |f| >= HEADER_SIZE + DATA_SIZE && MsgId(f) == 1
  }

  function RecordOf(f: Bytes, action: Action): Record
    requires Readable(f)
  {
    Record(U32At(f, 8), U32At(f, 12), |f|, action)
  }

  /** The record of a frame on its arrival: user id and sequence from its data, its whole size. */
  function Received(f: Bytes): Record
    requires |f| >= 16
  {
    Record(U32At(f, 8), U32At(f, 12), |f|, ServerRcv)
  }

  // ---------------------------------------------------------------- specification of the handlers

  function AddStep(c: Core, id: nat, nodelay: bool): Core
  {
    c.(connCtx := Some(id), roles := c.roles[id := UpstreamRole], shut := if nodelay then c.shut else c.shut + {id})
  }

  function ConnectStep(c: Core, id: nat, nodelay: bool): Core
  {
    if nodelay then c.(roles := c.roles[id := ClientRole]) else c.(shut := c.shut + {id})
  }

  predicate IsUpstream(c: Core, id: nat)
  {
    id in c.roles && c.roles[id] == UpstreamRole
  }

  predicate IsClient(c: Core, id: nat)
  {
    id in c.roles && c.roles[id] == ClientRole
  }

  function CloseStep(c: Core, id: nat): Core
  {
    if IsUpstream(c, id) then c.(connCtx := None) else c
  }

  function FateOf(c: Core, result: int): Fate
  {
    if c.connCtx.None? then Dropped else Written(c.connCtx.value, Accepted(result))
  }

  function HandleStep(c: Core, id: nat, frame: Bytes, result: int): Core
  {
    if !IsClient(c, id) then c
    else c.(handled := c.handled + [Handled(id, frame, FateOf(c, result))],
            shut := if c.connCtx.Some? && result != |frame| then c.shut + {c.connCtx.value} else c.shut)
  }

  predicate AllReadable(hs: seq<Handled>)
  {
    forall h <- hs :: Readable(h.frame)
  }

  /** server.rcv for a handled frame, server.snd_begin too if it is written. */
  function RecordsFor(h: Handled): seq<Record>
    requires Readable(h.frame)
  {
    [RecordOf(h.frame, ServerRcv)] + if h.fate.Written? then [RecordOf(h.frame, ServerSndBegin)] else []
  }

  function RecordsOf(hs: seq<Handled>): (rs: seq<Record>)
    requires AllReadable(hs)
  {
    if hs == [] then [] else RecordsOf(hs[..|hs| - 1]) + RecordsFor(hs[|hs| - 1])
  }

  lemma RecordsAppend(hs: seq<Handled>, h: Handled)
    requires AllReadable(hs) && Readable(h.frame)
    ensures AllReadable(hs + [h]) && RecordsOf(hs + [h]) == RecordsOf(hs) + RecordsFor(h)
  {
    assert (hs + [h])[..|hs|] == hs;
  }

  /** What one frame does, told without the step function. */
  ghost predicate HandledAs(c: Core, c': Core, id: nat, frame: Bytes, result: int)
  {
    && c'.connCtx == c.connCtx && c'.roles == c.roles
    && (!IsClient(c, id) ==> c'.handled == c.handled && c'.shut == c.shut)
    && (IsClient(c, id) && c.connCtx.None? ==>
          c'.handled == c.handled + [Handled(id, frame, Dropped)] && c'.shut == c.shut)
    && (IsClient(c, id) && c.connCtx.Some? ==>
          && c'.handled == c.handled + [Handled(id, frame, Written(c.connCtx.value, if result < 0 then 0 else result))]
          && (result == |frame| ==> c'.shut == c.shut)
          && (result != |frame| ==> c'.shut == c.shut + {c.connCtx.value}))
  }

  lemma HandleStepSays(c: Core, id: nat, frame: Bytes, result: int)
    ensures HandledAs(c, HandleStep(c, id, frame, result), id, frame, result)
  {
  }

  /** The records that one frame adds: its receipt and, if it is written, the write. */
  lemma RecordsForSay(h: Handled)
    requires Readable(h.frame)
    ensures RecordsFor(h) ==
              if h.fate.Dropped? then [Received(h.frame)]
              else [Received(h.frame), Received(h.frame).(action := ServerSndBegin)]
  {
  }

  // ---------------------------------------------------------------- the handlers

  class Relay {
    var listenCtx: Option<nat>
    var connCtx: Option<nat>
    var roles: map<nat, Role>
    ghost var shut: set<nat>
    ghost var handled: seq<Handled>
    ghost var log: seq<Record>

    ghost predicate Valid()
      reads this
    {
      AllReadable(handled) && log == RecordsOf(handled)
    }

    ghost function View(): Core
      reads this
    {
      Core(connCtx, roles, shut, handled)
    }

    constructor ()
      ensures Valid() && View() == Core(None, map[], {}, [])
    {
      listenCtx, connCtx, roles := None, None, map[];
      shut, handled, log := {}, [], [];
    }

    /** tcp_server_on_add_ctx */
    method OnAddCtx(id: nat, listens: bool, nodelay: bool)
      requires Valid()
      modifies this
      ensures Valid() && View() == if listens then old(View()) else AddStep(old(View()), id, nodelay)
    {
      if listens {
        listenCtx := Some(id);
        return;
      }
      connCtx := Some(id);
      if !nodelay {
        shut := shut + {id};
      }
      roles := roles[id := UpstreamRole];
    }

    /** tcp_server_on_connect */
    method OnConnect(id: nat, nodelay: bool)
      requires Valid()
      modifies this
      ensures Valid() && View() == ConnectStep(old(View()), id, nodelay)
    {
      if !nodelay {
        shut := shut + {id};
        return;
      }
      roles := roles[id := ClientRole];
    }

    /** tcp_server_on_close; `reconnects` counts the asynchronous connects it starts. */
    method OnClose(id: nat) returns (reconnects: nat)
      requires Valid()
      modifies this
      ensures Valid() && View() == CloseStep(old(View()), id)
      ensures reconnects == if IsUpstream(old(View()), id) then 1 else 0
    {
      reconnects := 0;
      if id in roles {
        match roles[id]
        case UpstreamRole =>
          reconnects := 1;
          connCtx := None;
        case ClientRole =>
      }
    }

    /** tcp_server_handle_message; `result` is what the write would return.  Only a client's frame has an
        effect: it is recorded as received, and dropped if there is no upstream connection; otherwise its
        write is recorded and made, and the upstream socket is shut down exactly if it came up short. */
    method HandleMessage(id: nat, frame: Bytes, result: int)
      requires Valid() && Readable(frame)
      modifies this
      ensures Valid() && View() == HandleStep(old(View()), id, frame, result)
      ensures HandledAs(old(View()), View(), id, frame, result)
    {
      HandleStepSays(View(), id, frame, result);
      hide RecordsOf, AllReadable, RecordOf, HandledAs;
      assert MsgId(frame) == 1;  // NB_ASSERT(hdr->msg_id == 1)
      if id !in roles || roles[id] == UpstreamRole {
        return;
      }
      ghost var h := Handled(id, frame, FateOf(View(), result));
      RecordsAppend(handled, h);
      handled := handled + [h];
      log := log + [RecordOf(frame, ServerRcv)];
      if connCtx == None {
        return;
      }
      log := log + [RecordOf(frame, ServerSndBegin)];
      if result != |frame| {
        shut := shut + {connCtx.value};
      }
    }
  }
}
