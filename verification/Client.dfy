/** app/tcp_client and app/udp_client: the round machine.  One class serves both protocols; `udp`
    selects the uint32 pacing test, the missing reconnect and the records of a failed send. */
module Clients {
  import opened Wire
  import opened BytesBuffers
  import opened Clocks
  import opened MessageTables
  import opened Records

  /** One socket write of message `seqno` on connection `conn`; `result` is what the call returned. */
  datatype Write = Write(conn: nat, seqno: nat, result: int)

  /** The fields of the event loop's data, and what the handlers have done so far: the writes, the
      time the current connection was added and the start times of its round attempts. */
  datatype Core = Core(ctx: Option<nat>, lastTs: Time, round: nat, exited: bool,
                       writes: seq<Write>, addedAt: Time, starts: seq<Time>)

  // ---------------------------------------------------------------- specification of the handlers

  /** The writes of one round attempt: it ends at the first write that comes up short. */
  function Attempt(conn: nat, first: nat, ms: nat, results: seq<int>): (ws: seq<Write>)
    decreases |results|
  {
    if results == [] then []
    else [Write(conn, first, results[0])] +
         if results[0] == ms then Attempt(conn, first + 1, ms, results[1..]) else []
  }

  predicate AllWhole(results: seq<int>, ms: nat)
  {
    results == [] || (results[0] == ms && AllWhole(results[1..], ms))
  }

  lemma AttemptFrom(before: seq<Write>, conn: nat, seqno: nat, ms: nat, results: seq<int>, i: nat)
    requires i < |results|
    ensures before + Attempt(conn, seqno, ms, results[i..])
         == (before + [Write(conn, seqno, results[i])]) +
            (if results[i] == ms then Attempt(conn, seqno + 1, ms, results[i + 1..]) else [])
    ensures AllWhole(results[i..], ms) <==> results[i] == ms && AllWhole(results[i + 1..], ms)
  {
    assert results[i..][1..] == results[i + 1..];
  }

  predicate Early(args: Args, udp: bool, now: Time, last: Time)
  {
    if udp then !SendsUdp(now, last, args.intervalMs) else !SendsTcp(now, last, args.intervalMs)
  }

  function AddStep(args: Args, udp: bool, c: Core, id: nat, nodelay: bool, now: Time): Core
  {
    if udp then c.(ctx := Some(id))
    else if !nodelay then c
    else c.(ctx := Some(id), lastTs := Timespec(now.sec + args.cliWait, now.nsec), addedAt := now, starts := [])
  }

  function TimerStep(args: Args, udp: bool, c: Core, now: Time, results: seq<int>): Core
  {
    if c.round >= args.rounds then c.(exited := true)
    else if c.ctx.None? || Early(args, udp, now, c.lastTs) then c
    else
      c.(lastTs := now, starts := c.starts + [now],
         writes := c.writes + Attempt(c.ctx.value, c.round * args.n, args.msgSize, results),
         round := if AllWhole(results, args.msgSize) then c.round + 1 else c.round)
  }

  /** client.snd_begin before every write, client.snd_end after it; UDP skips the end of a failed one. */
  function RecordsOf(args: Args, udp: bool, ws: seq<Write>): (rs: seq<Record>)
  {
    if ws == [] then []
    else
      var w := ws[0];
      [Record(args.uid, w.seqno, args.msgSize, ClientSndBegin)] +
      (if udp && w.result != args.msgSize then [] else [Record(args.uid, w.seqno, args.msgSize, ClientSndEnd)]) +
      RecordsOf(args, udp, ws[1..])
  }

  lemma {:induction false} RecordsAppend(args: Args, udp: bool, a: seq<Write>, b: seq<Write>)
    ensures RecordsOf(args, udp, a + b) == RecordsOf(args, udp, a) + RecordsOf(args, udp, b)
  {
    if a == [] {
      assert a + b == b;
    } else {
      assert (a + b)[1..] == a[1..] + b;
      RecordsAppend(args, udp, a[1..], b);
    }
  }

  /** The sequence numbers recorded with an action, in order. */
  function IdsWith(rs: seq<Record>, action: Action): (ids: seq<nat>)
  {
    if rs == [] then [] else (if rs[0].action == action then [rs[0].id] else []) + IdsWith(rs[1..], action)
  }

  lemma {:induction false} IdsAppend(a: seq<Record>, b: seq<Record>, action: Action)
    ensures IdsWith(a + b, action) == IdsWith(a, action) + IdsWith(b, action)
  {
    if a == [] {
      assert a + b == b;
    } else {
      assert (a + b)[1..] == a[1..] + b;
      IdsAppend(a[1..], b, action);
    }
  }

  function Numbers(ws: seq<Write>): (s: seq<nat>)
    ensures |s| == |ws|
  {
    seq(|ws|, i requires 0 <= i < |ws| => ws[i].seqno)
  }

  function Succeeded(ws: seq<Write>, ms: nat): (s: seq<Write>)
  {
    if ws == [] then [] else (if ws[0].result == ms then [ws[0]] else []) + Succeeded(ws[1..], ms)
  }

  /** What the records say: client.snd_begin once for every write, in order; client.snd_end for every
      write over TCP, but only for the successful ones over UDP. */
  lemma {:induction false} RecordsTellWrites(args: Args, udp: bool, ws: seq<Write>)
    ensures var rs := RecordsOf(args, udp, ws);
            && IdsWith(rs, ClientSndBegin) == Numbers(ws)
            && IdsWith(rs, ClientSndEnd) == Numbers(if udp then Succeeded(ws, args.msgSize) else ws)
            && forall r <- rs :: r.uid == args.uid && r.size == args.msgSize
  {
    if ws != [] {
      var w, rest := ws[0], ws[1..];
      RecordsTellWrites(args, udp, rest);
      assert ws == [w] + rest;
      RecordsAppend(args, udp, [w], rest);
      OneWrite(args, udp, w);
      NumbersCons(w, rest);
      NumbersCons(w, Succeeded(rest, args.msgSize));
      SucceededCons(w, rest, args.msgSize);
      hide RecordsOf, IdsWith, Numbers, Succeeded;
      var own, more := RecordsOf(args, udp, [w]), RecordsOf(args, udp, rest);
      IdsAppend(own, more, ClientSndBegin);
      IdsAppend(own, more, ClientSndEnd);
      assert forall s: seq<nat> :: [] + s == s;
    }
  }

  /** Every end record stands right behind the begin record of the same message. */
  lemma {:induction false} EndsFollowBegins(args: Args, udp: bool, ws: seq<Write>)
    ensures var rs := RecordsOf(args, udp, ws);
            forall i | 0 <= i < |rs| && rs[i].action == ClientSndEnd ::
              i > 0 && rs[i - 1] == rs[i].(action := ClientSndBegin)
  {
    if ws != [] {
      EndsFollowBegins(args, udp, ws[1..]);
      OneWriteRecords(args, udp, ws[0]);
      RecordsAppend(args, udp, [ws[0]], ws[1..]);
      assert ws == [ws[0]] + ws[1..];
      var own, rest := RecordsOf(args, udp, [ws[0]]), RecordsOf(args, udp, ws[1..]);
      hide RecordsOf;
      var rs := own + rest;
      forall i | 0 <= i < |rs| && rs[i].action == ClientSndEnd
        ensures i > 0 && rs[i - 1] == rs[i].(action := ClientSndBegin)
      {
        if i >= |own| {
          assert rest[i - |own|].action == ClientSndEnd;
        }
      }
    }
  }

  lemma NumbersCons(w: Write, ws: seq<Write>)
    ensures Numbers([w] + ws) == [w.seqno] + Numbers(ws)
  {
  }

  lemma SucceededCons(w: Write, ws: seq<Write>, ms: nat)
    ensures Succeeded([w] + ws, ms) == if w.result == ms then [w] + Succeeded(ws, ms) else Succeeded(ws, ms)
  {
    assert ([w] + ws)[1..] == ws;
    assert [] + Succeeded(ws, ms) == Succeeded(ws, ms);
  }

  lemma OneWriteRecords(args: Args, udp: bool, w: Write)
    ensures var b := Record(args.uid, w.seqno, args.msgSize, ClientSndBegin);
            var e := Record(args.uid, w.seqno, args.msgSize, ClientSndEnd);
            RecordsOf(args, udp, [w]) == if udp && w.result != args.msgSize then [b] else [b] + [e]
  {
    assert [w][1..] == [];
  }

  lemma OneWrite(args: Args, udp: bool, w: Write)
    ensures var rs := RecordsOf(args, udp, [w]);
            && IdsWith(rs, ClientSndBegin) == [w.seqno]
            && IdsWith(rs, ClientSndEnd) == (if udp && w.result != args.msgSize then [] else [w.seqno])
            && forall r <- rs :: r.uid == args.uid && r.size == args.msgSize
  {
    OneWriteRecords(args, udp, w);
    var b := Record(args.uid, w.seqno, args.msgSize, ClientSndBegin);
    var e := Record(args.uid, w.seqno, args.msgSize, ClientSndEnd);
    IdsAppend([b], [e], ClientSndBegin);
    IdsAppend([b], [e], ClientSndEnd);
    assert [b][1..] == [] && [e][1..] == [];
  }

  // ---------------------------------------------------------------- the handlers

  class Client {
    const args: Args
    const udp: bool
    const datas: array<byte>
    var ctx: Option<nat>
    var lastTs: Time
    var round: nat
    var exited: bool
    ghost var writes: seq<Write>
    ghost var addedAt: Time
    ghost var starts: seq<Time>
    ghost var log: seq<Record>

    ghost predicate Valid()
      reads this, datas
    {
      args.Fits() && TableOk(datas[..], args) && log == RecordsOf(args, udp, writes)
    }

    ghost function View(): Core
      reads this
    {
      Core(ctx, lastTs, round, exited, writes, addedAt, starts)
    }

    /** The part of `run` after the size test. */
    constructor (args: Args, udp: bool, now: Time)
      requires args.Fits()
      ensures Valid() && fresh(datas) && this.args == args && this.udp == udp
      ensures View() == Core(None, now, 0, false, [], now, [])
    {
      this.args, this.udp := args, udp;
      var table := Prefill(args);
      datas := table;
      ctx, lastTs, round, exited := None, now, 0, false;
      writes, addedAt, starts, log := [], now, [], [];
    }

    method OnAddCtx(id: nat, nodelay: bool, now: Time)
      requires Valid()
      modifies this
      ensures Valid() && View() == AddStep(args, udp, old(View()), id, nodelay, now)
    {
      if udp {
        ctx := Some(id);
        return;
      }
      if !nodelay {
        return;
      }
      ctx := Some(id);
      lastTs := Timespec(now.sec + args.cliWait, now.nsec);
      addedAt, starts := now, [];
    }

    /** tcp_client_on_close; `held` is the value of its assertion. */
    method OnClose(id: nat) returns (held: bool)
      requires Valid()
      modifies this
      ensures Valid() && View() == old(View()).(ctx := None)
      ensures held <==> old(ctx) == Some(id)
    {
      held := ctx == Some(id);
      ctx := None;
    }

    /** The timer handler; `results[i]` is what the i-th write of this tick would return. */
    method OnTimer(now: Time, results: seq<int>)
      requires Valid() && |results| == args.n
      modifies this, datas
      ensures Valid() && datas[..] == old(datas[..])
      ensures View() == TimerStep(args, udp, old(View()), now, results)
    {
      if round >= args.rounds {
        exited := true;
        return;
      }
      if ctx == None {
        return;
      }
      if Early(args, udp, now, lastTs) {
        return;
      }
      lastTs := now;
      starts := starts + [now];
      var completed := SendRound(results);
      if completed {
        round := round + 1;
      }
    }

    /** The send loop; the uint32 products are exact because the table fits. */
    method SendRound(results: seq<int>) returns (completed: bool)
      requires Valid() && |results| == args.n && round < args.rounds && ctx.Some?
      modifies this`writes, this`log, datas
      ensures Valid() && datas[..] == old(datas[..])
      ensures writes == old(writes) + Attempt(ctx.value, round * args.n, args.msgSize, results)
      ensures completed <==> AllWhole(results, args.msgSize)
    {
      hide RecordsOf, SlotOk, Attempt, AllWhole;
      RoundStart(args, round);
      var seqno := Wrap32(round * args.n);
      var p := Wrap32(seqno * args.msgSize);
      completed := SendFrom(seqno, p, results);
    }

    method SendFrom(first: uint32, start: nat, results: seq<int>) returns (completed: bool)
      requires Valid() && |results| == args.n && ctx.Some?
      requires start == Off(first, args.msgSize) && first + args.n < TWO_32 && FilledTo(datas[..], args, first + args.n)
      modifies this`writes, this`log, datas
      ensures Valid() && datas[..] == old(datas[..])
      ensures writes == old(writes) + Attempt(ctx.value, first, args.msgSize, results)
      ensures completed <==> AllWhole(results, args.msgSize)
    {
      hide SlotOk, TableOk, RecordsOf, Args.Fits;
      var n, ms := args.n, args.msgSize;
      var seqno: nat, p: nat := first, start;
      ghost var conn, log0 := ctx.value, writes;
      ghost var all := Attempt(conn, first, ms, results);
      var i := 0;
      assert results[0..] == results;
      while i < n
        invariant 0 <= i <= n && seqno == first + i && p == Off(seqno, ms)
        invariant Valid() && datas[..] == old(datas[..])
        invariant writes + Attempt(conn, seqno, ms, results[i..]) == log0 + all
        invariant AllWhole(results[i..], ms) <==> AllWhole(results, ms)
      {
        AttemptFrom(writes, conn, seqno, ms, results, i);
        SendOne(p, seqno, results[i]);
        if results[i] != ms {
          return false;
        }
        p := p + ms;
        seqno := seqno + 1;
        i := i + 1;
      }
      return true;
    }

    /** One turn of the send loop up to the write: the two assertions, the rewritten sequence and
        the records around the write. */
    method SendOne(p: nat, seqno: uint32, result: int)
      requires Valid() && SlotOk(datas[..], args, seqno) && p == Off(seqno, args.msgSize) && ctx.Some?
      modifies this`writes, this`log, datas
      ensures Valid() && datas[..] == old(datas[..])
      ensures writes == old(writes) + [Write(ctx.value, seqno, result)]
    {
      hide FilledTo, Args.Fits, RecordsOf;
      ghost var m := datas[p..p + args.msgSize];
      assert m == Slot(datas[..], seqno, args.msgSize);
      assert U32At(m, 0) == 1;        // NB_ASSERT(hdr->msg_id == 1)
      assert U32At(m, 12) == seqno;   // NB_ASSERT(data->sequence == seq)
      SameBytes(datas[..], p + 12, m, seqno);
      WriteBytes(datas, p + 12, U32Bytes(seqno));
      ghost var w := Write(ctx.value, seqno, result);
      RecordsAppend(args, udp, writes, [w]);
      OneWriteRecords(args, udp, w);
      log := log + [Record(args.uid, seqno, args.msgSize, ClientSndBegin)];
      writes := writes + [w];
      if !udp || result == args.msgSize {
        log := log + [Record(args.uid, seqno, args.msgSize, ClientSndEnd)];
      }
    }
  }

  /** `run` up to the event loop: too small a message size is refused. */
  method Prepare(args: Args, udp: bool, now: Time) returns (client: Option<Client>)
    requires args.TableFits()
    ensures client.None? <==> args.msgSize < 16
    ensures client.Some? ==>
              && fresh(client.value) && client.value.Valid() && client.value.args == args && client.value.udp == udp
              && client.value.View() == Core(None, now, 0, false, [], now, [])
  {
    if !args.LargeEnough() {
      return None;
    }
    var c := new Client(args, udp, now);
    client := Some(c);
  }

  /** Storing a sequence number over itself changes nothing. */
  lemma SameBytes(a: Bytes, p: nat, m: Bytes, v: uint32)
    requires 12 <= p && p - 12 + |m| <= |a| && |m| >= 16 && m == a[p - 12..p - 12 + |m|] && U32At(m, 12) == v
    ensures a[..p] + U32Bytes(v) + a[p + 4..] == a
  {
    var b := a[p..p + 4];
    assert m[12..16] == b;
    U32Slice(m, 12, 16, 0);
    U32RoundTrip(v);
    U32Injective(b, U32Bytes(v));
    assert a == a[..p] + b + a[p + 4..];
  }

  lemma RoundStart(args: Args, round: nat)
    requires args.Fits() && round < args.rounds
    ensures round * args.n + args.n <= args.Total() < TWO_32
    ensures round * args.n * args.msgSize == Off(round * args.n, args.msgSize) < TWO_32
  {
    RoundInside(round, args.rounds, args.n);
    TableBytes(args);
    OffIs(round * args.n, args.msgSize);
    if round * args.n < args.Total() {
      OffMonotone(round * args.n, args.Total(), args.msgSize);
    }
  }
}
