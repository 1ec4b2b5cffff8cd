/** From runs to the report.  The records of a run are printed to files, one for each process, read back
    by the script and joined.  When can a latency be negative?  Exactly if a message is started again
    after its end was recorded: in any order of the rows for some clock, and with the files as they are
    written only if no end follows that last start. */
module Latency {
  import opened BytesBuffers
  import opened Clocks
  import Clients
  import ClientRuns
  import opened MessageTables
  import opened Records
  import opened RecordFiles
  import opened Reports
  import opened Scripts
  import opened Statistics
  import opened Systems

  /** A record with the time at which it was made (after 1970). */
  datatype Timed = Timed(record: Record, tid: nat, at: Time)

  /** What the logger prints of it; clocks before 1970 are not considered. */
  function EntryOf(t: Timed): Entry
    requires t.at.sec >= 0
  {
    Entry(t.tid, t.at.sec, t.at.nsec, t.record.uid, t.record.id, t.record.size, Name(t.record.action))
  }

  function RecordsIn(ts: seq<Timed>): (rs: seq<Record>)
    ensures |rs| == |ts|
  {
    seq(|ts|, i requires 0 <= i < |ts| => ts[i].record)
  }

  ghost predicate After1970(ts: seq<Timed>)
  {
    forall i | 0 <= i < |ts| :: ts[i].at.sec >= 0
  }

  /** One clock for all hops, and it does not go back. */
  ghost predicate OneClock(ts: seq<Timed>)
  {
    After1970(ts) && forall i, j | 0 <= i < j < |ts| :: Nanos(ts[i].at) <= Nanos(ts[j].at)
  }

  /** No message was started twice. */
  ghost predicate StartedOnce(rs: seq<Record>)
  {
    forall i, j | 0 <= i < j < |rs| && rs[i].action == ClientSndBegin :: rs[i] != rs[j]
  }

  /** No message was started after one of its ends was recorded. */
  ghost predicate NoStartAfterEnd(rs: seq<Record>, end: Action)
  {
    forall i, j | 0 <= i < j < |rs| && rs[i].action == end && rs[j].action == ClientSndBegin ::
      rs[i].(action := ClientSndBegin) != rs[j]
  }

  /** Every row comes from a record of the run. */
  ghost predicate RowsOfRun(rows: seq<Row>, ts: seq<Timed>)
  {
    After1970(ts) && forall r <- rows :: exists i | 0 <= i < |ts| :: r == RowOf(EntryOf(ts[i]))
  }

  /** A client none of whose writes fails starts no message twice. */
  lemma NoFailureStartsOnce(args: Args, udp: bool, now: Time, es: seq<ClientRuns.Event>)
    requires forall w <- ClientRuns.Run(args, udp, ClientRuns.Start(now), es).core.writes :: w.result == args.msgSize
    ensures StartedOnce(Clients.RecordsOf(args, udp, ClientRuns.Run(args, udp, ClientRuns.Start(now), es).core.writes))
  {
    var c := ClientRuns.Run(args, udp, ClientRuns.Start(now), es).core;
    ClientRuns.NoFailureNoResend(args, udp, now, es);
    var rs, ids := Clients.RecordsOf(args, udp, c.writes), ClientRuns.Range(0, c.round * args.n);
    Clients.RecordsTellWrites(args, udp, c.writes);
    hide ClientRuns.Run, Clients.RecordsOf, Clients.IdsWith;
    forall i, j | 0 <= i < j < |rs| && rs[i].action == ClientSndBegin
      ensures rs[i] != rs[j]
    {
      if rs[j].action == ClientSndBegin {
        var k, l := TwoIds(rs, ClientSndBegin, i, j);
        assert ids[k] == k && ids[l] == l;
      }
    }
  }

  /** Two records with the action show up as two entries of the list of their ids. */
  lemma {:induction false} TwoIds(rs: seq<Record>, action: Action, i: nat, j: nat) returns (k: nat, l: nat)
    requires i < j < |rs| && rs[i].action == action && rs[j].action == action
    ensures var ids := Clients.IdsWith(rs, action); k < l < |ids| && ids[k] == rs[i].id && ids[l] == rs[j].id
  {
    if i == 0 {
      k := 0;
      l := OneId(rs[1..], action, j - 1);
      l := l + 1;
    } else {
      k, l := TwoIds(rs[1..], action, i - 1, j - 1);
      if rs[0].action == action {
        k, l := k + 1, l + 1;
      }
    }
  }

  lemma {:induction false} OneId(rs: seq<Record>, action: Action, j: nat) returns (l: nat)
    requires j < |rs| && rs[j].action == action
    ensures var ids := Clients.IdsWith(rs, action); l < |ids| && ids[l] == rs[j].id
  {
    if j == 0 {
      l := 0;
    } else {
      l := OneId(rs[1..], action, j - 1);
      if rs[0].action == action {
        l := l + 1;
      }
    }
  }

  lemma NamesDiffer(a: Action, b: Action)
    requires Name(a) == Name(b)
    ensures a == b
  {
    assert |Name(ClientSndBegin)| == 16 && |Name(ClientSndEnd)| == 14 && |Name(ServerRcv)| == 10;
    assert |Name(ServerSndBegin)| == 16 && |Name(UpstreamRcv)| == 12;
    assert Name(ClientSndBegin)[0] != Name(ServerSndBegin)[0];
  }

  /** The row behind a filled cell of the join. */
  lemma CellRow(rows: seq<Row>, ts: seq<Timed>, size: int, k: string, action: Action) returns (i: nat)
    requires RowsOfRun(rows, ts) && Filled(JoinMap(OfSize(rows, size)), k, Name(action))
    ensures i < |ts| && ts[i].record.action == action && ts[i].record.size == size
    ensures Key(RowOf(EntryOf(ts[i]))) == k
    ensures JoinMap(OfSize(rows, size))[k][Name(action)] == (ts[i].at.sec, ts[i].at.nsec)
  {
    var r := CellHasRow(OfSize(rows, size), k, Name(action));
    OfSizeHas(rows, size);
    hide JoinMap, OfSize, Name, Dec, Key;
    i :| 0 <= i < |ts| && r == RowOf(EntryOf(ts[i]));
    NamesDiffer(ts[i].record.action, action);
  }

  /** The record that starts a message comes before any other record of it. */
  lemma StartComesFirst(log: seq<Record>, i: nat) returns (a: nat)
    requires Causal(log) && i < |log|
    ensures a <= i && log[a] == log[i].(action := ClientSndBegin)
  {
    a := i;
    while log[a].action != ClientSndBegin
      invariant 0 <= a <= i && log[a].(action := ClientSndBegin) == log[i].(action := ClientSndBegin)
      decreases a
    {
      a := CauseAt(log, a);
    }
  }

  lemma CausalStartsFirst(log: seq<Record>, end: Action)
    requires Causal(log) && StartedOnce(log) && end != ClientSndBegin
    ensures NoStartAfterEnd(log, end)
  {
    hide Causal;
    forall i, j | 0 <= i < j < |log| && log[i].action == end && log[j].action == ClientSndBegin
      ensures log[i].(action := ClientSndBegin) != log[j]
    {
      var a := StartComesFirst(log, i);
    }
  }

  // ---------------------------------------------------------------- any order of the rows

  lemma NonNegative(ts: seq<Timed>, rows: seq<Row>, size: int, k: string, end: Action)
    requires OneClock(ts) && RowsOfRun(rows, ts) && (end != ClientSndBegin ==> NoStartAfterEnd(RecordsIn(ts), end))
    requires Joined(JoinMap(OfSize(rows, size)), k, BEGIN, Name(end))
    ensures var cells := JoinMap(OfSize(rows, size))[k]; Instant(cells[Name(end)]) - Instant(cells[BEGIN]) >= 0
  {
    var i := CellRow(rows, ts, size, k, ClientSndBegin);
    var j := CellRow(rows, ts, size, k, end);
    KeyIsInjective(EntryOf(ts[i]), EntryOf(ts[j]));
    hide JoinMap, OfSize, Name, Dec;
    var rs := RecordsIn(ts);
    if end == ClientSndBegin {
      return;
    }
    assert rs[j].(action := ClientSndBegin) == rs[i];
    assert Nanos(ts[i].at) <= Nanos(ts[j].at);
  }

  lemma AllNonNegative(ts: seq<Timed>, rows: seq<Row>, size: int, end: Action)
    requires OneClock(ts) && RowsOfRun(rows, ts) && (end != ClientSndBegin ==> NoStartAfterEnd(RecordsIn(ts), end))
    ensures forall l <- LatenciesOf(rows, size, BEGIN, Name(end)) :: l >= 0
  {
    var mine := OfSize(rows, size);
    LatenciesOfJoinedKeys(KeyOrder(mine), JoinMap(mine), BEGIN, Name(end));
    hide JoinMap, OfSize, Name, NoStartAfterEnd, OneClock, RowsOfRun, Instant, KeyOrder, Latencies;
    forall l <- LatenciesOf(rows, size, BEGIN, Name(end)) ensures l >= 0 {
      var k :| k in KeyOrder(mine) && Joined(JoinMap(mine), k, BEGIN, Name(end))
          && Instant(JoinMap(mine)[k][Name(end)]) - Instant(JoinMap(mine)[k][BEGIN]) == l;
      NonNegative(ts, rows, size, k, end);
    }
  }

  /** The rows of all records of a run. */
  function AllRows(ts: seq<Timed>): (rows: seq<Row>)
    requires After1970(ts)
    ensures |rows| == |ts| && forall i | 0 <= i < |ts| :: rows[i] == RowOf(EntryOf(ts[i]))
  {
    seq(|ts|, i requires 0 <= i < |ts| => RowOf(EntryOf(ts[i])))
  }

  lemma PermutedRows(ts: seq<Timed>, rows: seq<Row>)
    requires After1970(ts) && multiset(rows) == multiset(AllRows(ts))
    ensures RowsOfRun(rows, ts)
  {
    var all := AllRows(ts);
    forall r <- rows ensures exists i | 0 <= i < |ts| :: r == RowOf(EntryOf(ts[i])) {
      assert r in multiset(rows);
      assert r in all;
      var i :| 0 <= i < |all| && all[i] == r;
    }
  }

  /** Whatever the clock and the order of the rows: no latency between start and `end` is negative. */
  ghost predicate NeverNegative(rs: seq<Record>, end: Action)
  {
    forall ts: seq<Timed>, rows, size | RecordsIn(ts) == rs && OneClock(ts)
        && multiset(rows) == multiset(AllRows(ts)) ::
      AllAtLeastZero(LatenciesOf(rows, size, BEGIN, Name(end)))
  }

  predicate AllAtLeastZero(ls: seq<int>)
  {
    forall l <- ls :: l >= 0
  }

  /** A clock that shows second i when the i-th record is made. */
  function Seconds(rs: seq<Record>): (ts: seq<Timed>)
    ensures |ts| == |rs| && forall i | 0 <= i < |rs| :: ts[i] == Timed(rs[i], 0, Timespec(i, 0))
  {
    seq(|rs|, i requires 0 <= i < |rs| => Timed(rs[i], 0, Timespec(i, 0)))
  }

  lemma SecondsAreOneClock(rs: seq<Record>)
    ensures OneClock(Seconds(rs)) && RecordsIn(Seconds(rs)) == rs
  {
  }

  /** Rows i and j moved to the end. */
  function LastTwo(rows: seq<Row>, i: nat, j: nat): (p: seq<Row>)
    requires i < j < |rows|
  {
    (rows[..i] + rows[i + 1..j] + rows[j + 1..]) + [rows[i]] + [rows[j]]
  }

  lemma LastTwoPermutes(rows: seq<Row>, i: nat, j: nat)
    requires i < j < |rows|
    ensures multiset(LastTwo(rows, i, j)) == multiset(rows)
  {
    assert rows == rows[..i] + [rows[i]] + rows[i + 1..j] + [rows[j]] + rows[j + 1..];
  }

  lemma LastTwoDecide(rows: seq<Row>, i: nat, j: nat, size: int)
    requires i < j < |rows| && rows[i].size == rows[j].size == size
    requires Key(rows[i]) == Key(rows[j]) && rows[i].action != rows[j].action
    ensures var m, k := JoinMap(OfSize(LastTwo(rows, i, j), size)), Key(rows[i]);
            && k in KeyOrder(OfSize(LastTwo(rows, i, j), size))
            && Filled(m, k, rows[i].action) && m[k][rows[i].action] == StampOf(rows[i])
            && Filled(m, k, rows[j].action) && m[k][rows[j].action] == StampOf(rows[j])
  {
    var front := rows[..i] + rows[i + 1..j] + rows[j + 1..];
    var x := OfSize(front, size);
    OfSizeSnoc(front, rows[i], size);
    OfSizeSnoc(front + [rows[i]], rows[j], size);
    KeysAreOrdered(OfSize(LastTwo(rows, i, j), size));
    hide OfSize, Key, KeyOrder;
    JoinSnoc(x, rows[i]);
    JoinSnoc(x + [rows[i]], rows[j]);
  }

  lemma OfSizeSnoc(rows: seq<Row>, r: Row, size: int)
    requires r.size == size
    ensures OfSize(rows + [r], size) == OfSize(rows, size) + [r]
  {
    assert (rows + [r])[..|rows|] == rows;
  }

  /** A start after an end: on a clock of seconds, with these two rows last, the latency is negative. */
  lemma StartAfterEndIsNegative(rs: seq<Record>, end: Action, i: nat, j: nat) returns (rows: seq<Row>)
    requires i < j < |rs| && rs[i].action == end != ClientSndBegin && rs[j].action == ClientSndBegin
    requires rs[i].(action := ClientSndBegin) == rs[j]
    ensures multiset(rows) == multiset(AllRows(Seconds(rs)))
    ensures !AllAtLeastZero(LatenciesOf(rows, rs[i].size, BEGIN, Name(end)))
  {
    var ts, size := Seconds(rs), rs[i].size;
    var all := AllRows(ts);
    rows := LastTwo(all, i, j);
    LastTwoPermutes(all, i, j);
    KeyIsInjective(EntryOf(ts[i]), EntryOf(ts[j]));
    if Name(end) == BEGIN {
      NamesDiffer(end, ClientSndBegin);
      assert false;
    }
    LastTwoDecide(all, i, j, size);
    var mine := OfSize(rows, size);
    LatenciesOfJoinedKeys(KeyOrder(mine), JoinMap(mine), BEGIN, Name(end));
    hide OfSize, JoinMap, KeyOrder, Name, Key, Latencies, LastTwo, Dec;
    var cells := JoinMap(mine)[Key(all[i])];
    var l := Instant(cells[Name(end)]) - Instant(cells[BEGIN]);
    assert l == (i - j) * 1_000_000_000;
    assert l in LatenciesOf(rows, size, BEGIN, Name(end));
  }

  /** The exact condition over all clocks and all orders of the rows. */
  lemma NeverNegativeIff(rs: seq<Record>, end: Action)
    requires end != ClientSndBegin
    ensures NeverNegative(rs, end) <==> NoStartAfterEnd(rs, end)
  {
    hide LatenciesOf, Name, AllAtLeastZero, After1970;
    if NoStartAfterEnd(rs, end) {
      forall ts: seq<Timed>, rows, size | RecordsIn(ts) == rs && OneClock(ts) && multiset(rows) == multiset(AllRows(ts))
        ensures AllAtLeastZero(LatenciesOf(rows, size, BEGIN, Name(end)))
      {
        PermutedRows(ts, rows);
        AllNonNegative(ts, rows, size, end);
        AtLeastZero(LatenciesOf(rows, size, BEGIN, Name(end)));
      }
    } else {
      var i, j :| 0 <= i < j < |rs| && rs[i].action == end && rs[j].action == ClientSndBegin
                  && rs[i].(action := ClientSndBegin) == rs[j];
      SecondsAreOneClock(rs);
      var rows := StartAfterEndIsNegative(rs, end, i, j);
    }
  }

  lemma AtLeastZero(ls: seq<int>)
    requires forall l <- ls :: l >= 0
    ensures AllAtLeastZero(ls)
  {
  }

  /** For every run of the whole system on one clock in which no message is started twice: every latency
      of both reports (send: end is client.snd_end; throughput: end is upstream.rcv) is non-negative, in
      any order of the rows, and so is every quantile of a report line. */
  lemma LatenciesAreNonNegative(ms: seq<Move>, ts: seq<Timed>, rows: seq<Row>, size: int, end: Action,
                                mean: seq<int> -> int, deviation: seq<int> -> int)
    requires RecordsIn(ts) == DoAll(ms).log && OneClock(ts) && StartedOnce(RecordsIn(ts)) && RowsOfRun(rows, ts)
    ensures forall l <- LatenciesOf(rows, size, BEGIN, Name(end)) :: l >= 0
    ensures var line := Report(rows, size, BEGIN, Name(end), mean, deviation);
            line.Some? ==> forall q <- line.value.quantiles :: q >= 0
  {
    SysRun(ms);
    hide DoAll;
    if end != ClientSndBegin {
      CausalStartsFirst(RecordsIn(ts), end);
    }
    AllNonNegative(ts, rows, size, end);
    QuantilesNonNegative(size, LatenciesOf(rows, size, BEGIN, Name(end)), mean, deviation);
  }

  lemma QuantilesNonNegative(size: int, ls: seq<int>, mean: seq<int> -> int, deviation: seq<int> -> int)
    requires forall l <- ls :: l >= 0
    ensures var line := LineOf(size, ls, mean, deviation);
            line.Some? ==> forall q <- line.value.quantiles :: q >= 0
  {
    QuantilesAreRanks(size, ls, mean, deviation);
    hide Sort, LineOf;
    if LineOf(size, ls, mean, deviation).Some? {
      forall q <- LineOf(size, ls, mean, deviation).value.quantiles ensures q >= 0 {
        assert q in multiset(ls);
        assert q in ls;
      }
    }
  }
}
