/** The reports as they really come about: every process prints its records in order to its own file, and
    the script reads the files one after the other, in any order of the files. */
module LatencyFiles {
  import opened BytesBuffers
  import opened Clocks
  import opened Latency
  import opened Records
  import opened RecordFiles
  import opened Reports
  import opened Scripts
  import opened Statistics
  import opened Systems

  // ---------------------------------------------------------------- the files

  predicate Inside(idx: seq<nat>, n: nat)
  {
    forall k | 0 <= k < |idx| :: idx[k] < n
  }

  /** The records that process `p` made, in order; `hop[i]` is the process of record i. */
  function IndicesAt(hop: seq<nat>, p: nat): (idx: seq<nat>)
    ensures Inside(idx, |hop|)
  {
    if hop == [] then []
    else
      var k := |hop| - 1;
      IndicesAt(hop[..k], p) + if hop[k] == p then [k] else []
  }

  /** All records in the order in which they are read. */
  function Reading(hop: seq<nat>, order: seq<nat>): (idx: seq<nat>)
    ensures Inside(idx, |hop|)
  {
    if order == [] then [] else Reading(hop, order[..|order| - 1]) + IndicesAt(hop, order[|order| - 1])
  }

  function EntriesAt(ts: seq<Timed>, idx: seq<nat>): (es: seq<Entry>)
    requires After1970(ts) && Inside(idx, |ts|)
    ensures |es| == |idx| && forall k | 0 <= k < |idx| :: es[k] == EntryOf(ts[idx[k]])
  {
    seq(|idx|, k requires 0 <= k < |idx| => EntryOf(ts[idx[k]]))
  }

  /** The file of process `p`: it did not exist before, and the process ran once. */
  function TextOf(ts: seq<Timed>, hop: seq<nat>, p: nat): string
    requires After1970(ts) && |hop| == |ts|
  {
    Opened(None) + PrintAll(EntriesAt(ts, IndicesAt(hop, p)))
  }

  function Texts(ts: seq<Timed>, hop: seq<nat>, order: seq<nat>): (texts: seq<string>)
    requires After1970(ts) && |hop| == |ts|
    ensures |texts| == |order|
  {
    seq(|order|, k requires 0 <= k < |order| => TextOf(ts, hop, order[k]))
  }

  function RowsAt(ts: seq<Timed>, idx: seq<nat>): (rows: seq<Row>)
    requires After1970(ts) && Inside(idx, |ts|)
  {
    RowsOf(EntriesAt(ts, idx))
  }

  lemma {:induction false} RowsOfEntries(es: seq<Entry>)
    ensures |RowsOf(es)| == |es| && forall k | 0 <= k < |es| :: RowsOf(es)[k] == RowOf(es[k])
  {
    if es != [] {
      RowsOfEntries(es[1..]);
    }
  }

  lemma RowsAtAre(ts: seq<Timed>, idx: seq<nat>)
    requires After1970(ts) && Inside(idx, |ts|)
    ensures |RowsAt(ts, idx)| == |idx|
    ensures forall k | 0 <= k < |idx| :: RowsAt(ts, idx)[k] == RowOf(EntryOf(ts[idx[k]]))
  {
    RowsOfEntries(EntriesAt(ts, idx));
  }

  /** The file of a process is read completely: its header is there and all names are plain. */
  lemma TextIsRead(ts: seq<Timed>, hop: seq<nat>, p: nat)
    requires After1970(ts) && |hop| == |ts|
    ensures LoadFile(TextOf(ts, hop, p)) == Some(RowsAt(ts, IndicesAt(hop, p)))
  {
    var es := EntriesAt(ts, IndicesAt(hop, p));
    forall e <- es ensures Plain(e.action) {
      var k :| 0 <= k < |es| && es[k] == e;
      NamesArePlain(ts[IndicesAt(hop, p)[k]].record.action);
    }
    hide LoadFile, PrintAll, Plain;
    PrintParseRoundTrip(es);
  }

  lemma RowsAtAppend(ts: seq<Timed>, a: seq<nat>, b: seq<nat>)
    requires After1970(ts) && Inside(a, |ts|) && Inside(b, |ts|)
    ensures Inside(a + b, |ts|)
    ensures RowsAt(ts, a + b) == RowsAt(ts, a) + RowsAt(ts, b)
  {
    RowsAtAre(ts, a);
    RowsAtAre(ts, b);
    RowsAtAre(ts, a + b);
  }

  /** What the script loads: the rows of all records, in the order of reading. */
  lemma {:induction false} TextsAreRead(ts: seq<Timed>, hop: seq<nat>, order: seq<nat>)
    requires After1970(ts) && |hop| == |ts|
    ensures LoadAll(Texts(ts, hop, order)) == Some(RowsAt(ts, Reading(hop, order)))
    decreases |order|
  {
    if order != [] {
      var k := |order| - 1;
      var texts := Texts(ts, hop, order);
      TextsAreRead(ts, hop, order[..k]);
      assert texts[..k] == Texts(ts, hop, order[..k]);
      TextIsRead(ts, hop, order[k]);
      hide LoadFile, RowsAt, TextOf;
      RowsAtAppend(ts, Reading(hop, order[..k]), IndicesAt(hop, order[k]));
    }
  }

  // ---------------------------------------------------------------- the order of reading

  /** Every process's file is read once. */
  ghost predicate Covers(order: seq<nat>, hop: seq<nat>)
  {
    && (forall i, j | 0 <= i < j < |order| :: order[i] != order[j])
    && (forall p <- hop :: p in order)
  }

  /** Every record is read, those of one process in the order in which they were made. */
  ghost predicate Orderly(idx: seq<nat>, hop: seq<nat>)
  {
    && Inside(idx, |hop|)
    && (forall i: nat | i < |hop| :: i in idx)
    && (forall a, b | 0 <= a < b < |idx| && hop[idx[a]] == hop[idx[b]] :: idx[a] < idx[b])
  }

  ghost predicate Ascending(idx: seq<nat>, hop: seq<nat>)
  {
    && Inside(idx, |hop|)
    && (forall a, b | 0 <= a < b < |idx| && hop[idx[a]] == hop[idx[b]] :: idx[a] < idx[b])
  }

  /** The places of `p`, in order. */
  ghost predicate AreIndices(idx: seq<nat>, hop: seq<nat>, p: nat)
  {
    && (forall i: nat :: i in idx <==> i < |hop| && hop[i] == p)
    && (forall a, b | 0 <= a < b < |idx| :: idx[a] < idx[b])
  }

  lemma IndexSnoc(idx: seq<nat>, hop: seq<nat>, x: nat, p: nat)
    requires AreIndices(idx, hop, p)
    ensures AreIndices(if x == p then idx + [|hop|] else idx, hop + [x], p)
  {
    var all := if x == p then idx + [|hop|] else idx;
    forall a | 0 <= a < |idx| ensures idx[a] < |hop| {
      assert idx[a] in idx;
    }
    forall i: nat ensures i in all <==> i < |hop + [x]| && (hop + [x])[i] == p {
      assert i in all <==> i in idx || (x == p && i == |hop|);
    }
  }

  lemma LastIndex(hop: seq<nat>, x: nat, p: nat)
    ensures IndicesAt(hop + [x], p) == if x == p then IndicesAt(hop, p) + [|hop|] else IndicesAt(hop, p)
  {
    assert (hop + [x])[..|hop|] == hop;
    assert IndicesAt(hop, p) + [] == IndicesAt(hop, p);
  }

  lemma {:induction false} IndicesAre(hop: seq<nat>, p: nat)
    ensures AreIndices(IndicesAt(hop, p), hop, p)
  {
    if hop != [] {
      var init, x := hop[..|hop| - 1], hop[|hop| - 1];
      IndicesAre(init, p);
      assert hop == init + [x];
      LastIndex(init, x, p);
      IndexSnoc(IndicesAt(init, p), init, x, p);
      hide IndicesAt, AreIndices;
    }
  }

  lemma IndicesAscend(idx: seq<nat>, hop: seq<nat>, p: nat)
    requires AreIndices(idx, hop, p)
    ensures Ascending(idx, hop)
  {
    forall k | 0 <= k < |idx| ensures idx[k] < |hop| {
      assert idx[k] in idx;
    }
  }

  lemma AscendingAppend(x: seq<nat>, y: seq<nat>, hop: seq<nat>)
    requires Ascending(x, hop) && Ascending(y, hop)
    requires forall i, j | i in x && j in y :: hop[i] != hop[j]
    ensures Ascending(x + y, hop)
  {
    var idx := x + y;
    forall a, b | 0 <= a < |x| <= b < |idx| ensures hop[idx[a]] != hop[idx[b]] {
      assert idx[a] == x[a] && x[a] in x;
      assert idx[b] == y[b - |x|] && y[b - |x|] in y;
    }
    forall a, b | 0 <= a < b < |idx| && hop[idx[a]] == hop[idx[b]] ensures idx[a] < idx[b] {
      if b < |x| {
        assert idx[a] == x[a] && idx[b] == x[b];
      } else if |x| <= a {
        assert idx[a] == y[a - |x|] && idx[b] == y[b - |x|];
      }
    }
  }

  lemma {:induction false} ReadingAscends(hop: seq<nat>, order: seq<nat>)
    requires forall i, j | 0 <= i < j < |order| :: order[i] != order[j]
    ensures var idx := Reading(hop, order);
            && Ascending(idx, hop)
            && (forall i: nat :: i in idx <==> i < |hop| && hop[i] in order)
    decreases |order|
  {
    hide Reading, IndicesAt, Ascending;
    if order == [] {
      NothingRead(hop);
    } else {
      var k := |order| - 1;
      var x, y := Reading(hop, order[..k]), IndicesAt(hop, order[k]);
      ReadingAscends(hop, order[..k]);
      IndicesAre(hop, order[k]);
      IndicesAscend(y, hop, order[k]);
      assert order == order[..k] + [order[k]];
      assert order[k] !in order[..k];
      AscendingAppend(x, y, hop);
      LastRead(hop, order);
      forall i: nat ensures i in x + y <==> i < |hop| && hop[i] in order {
        assert i in x + y <==> i in x || i in y;
      }
    }
  }

  lemma NothingRead(hop: seq<nat>)
    ensures Reading(hop, []) == [] && Ascending([], hop)
  {
  }

  lemma LastRead(hop: seq<nat>, order: seq<nat>)
    requires order != []
    ensures Reading(hop, order) == Reading(hop, order[..|order| - 1]) + IndicesAt(hop, order[|order| - 1])
  {
  }

  lemma ReadingIsOrderly(hop: seq<nat>, order: seq<nat>)
    requires Covers(order, hop)
    ensures Orderly(Reading(hop, order), hop)
  {
    ReadingAscends(hop, order);
    forall i: nat | i < |hop| ensures i in Reading(hop, order) {
      assert hop[i] in hop;
    }
  }

  // ---------------------------------------------------------------- cells hold the last record

  lemma StoreLookup(m: Cells, r: Row, k: string, act: string)
    ensures Filled(Store(m, r), k, act) <==> (Key(r) == k && r.action == act) || Filled(m, k, act)
    ensures Filled(Store(m, r), k, act) ==>
              Store(m, r)[k][act] == if Key(r) == k && r.action == act then StampOf(r) else m[k][act]
  {
  }

  lemma NothingFilled(size: int, k: string, act: string)
    ensures !Filled(JoinMap(OfSize([], size)), k, act)
  {
  }

  /** A cell keeps the stamp of the last row that names it. */
  lemma {:induction false} LastRow(rows: seq<Row>, size: int, k: string, act: string) returns (pos: nat)
    requires Filled(JoinMap(OfSize(rows, size)), k, act)
    ensures pos < |rows| && rows[pos].size == size && Key(rows[pos]) == k && rows[pos].action == act
    ensures JoinMap(OfSize(rows, size))[k][act] == StampOf(rows[pos])
    ensures forall q | pos < q < |rows| && rows[q].size == size && Key(rows[q]) == k :: rows[q].action != act
    decreases |rows|
  {
    NothingFilled(size, k, act);
    if rows == [] {
      assert false;
    } else {
      hide Key, JoinMap, Store, OfSize, Filled;
      var init, r := rows[..|rows| - 1], rows[|rows| - 1];
      var mine := OfSize(init, size);
      assert rows == init + [r];
      SizeSnoc(init, r, size);
      JoinSnoc(mine, r);
      StoreLookup(JoinMap(mine), r, k, act);
      if r.size == size && Key(r) == k && r.action == act {
        pos := |rows| - 1;
      } else {
        pos := LastRow(init, size, k, act);
      }
    }
  }

  /** Equal records are made by one process. */
  ghost predicate SameFile(rs: seq<Record>, hop: seq<nat>)
  {
    |hop| == |rs| && forall i, j | 0 <= i < j < |rs| && rs[i] == rs[j] :: hop[i] == hop[j]
  }

  lemma CellIsLast(ts: seq<Timed>, hop: seq<nat>, idx: seq<nat>, size: int, k: string, action: Action) returns (i: nat)
    requires After1970(ts) && SameFile(RecordsIn(ts), hop) && Orderly(idx, hop)
    requires Filled(JoinMap(OfSize(RowsAt(ts, idx), size)), k, Name(action))
    ensures i < |ts| && ts[i].record.action == action && ts[i].record.size == size
    ensures Key(RowOf(EntryOf(ts[i]))) == k
    ensures JoinMap(OfSize(RowsAt(ts, idx), size))[k][Name(action)] == (ts[i].at.sec, ts[i].at.nsec)
    ensures forall j | i < j < |ts| :: ts[j].record != ts[i].record
  {
    RowsAtAre(ts, idx);
    var rows := RowsAt(ts, idx);
    var pos := LastRow(rows, size, k, Name(action));
    hide JoinMap, OfSize, Name, Dec, Key, RowsAt;
    i := idx[pos];
    NamesDiffer(ts[i].record.action, action);
    forall j | i < j < |ts| ensures ts[j].record != ts[i].record {
      var q := ReadAt(hop, idx, j);
      if pos < q {
        SameKey(ts[i], ts[j]);
        assert rows[q] == RowOf(EntryOf(ts[j]));
      } else {
        OtherFile(RecordsIn(ts), hop, idx, q, pos);
      }
    }
  }

  lemma ReadAt(hop: seq<nat>, idx: seq<nat>, j: nat) returns (q: nat)
    requires Orderly(idx, hop) && j < |hop|
    ensures q < |idx| && idx[q] == j
  {
    assert j in idx;
    q :| 0 <= q < |idx| && idx[q] == j;
  }

  /** A later record that is read earlier is in another file, so it is another record. */
  lemma OtherFile(rs: seq<Record>, hop: seq<nat>, idx: seq<nat>, q: nat, pos: nat)
    requires SameFile(rs, hop) && Orderly(idx, hop) && q <= pos < |idx| && idx[pos] < idx[q]
    ensures rs[idx[q]] != rs[idx[pos]]
  {
    assert q < pos;
    assert hop[idx[q]] != hop[idx[pos]];
  }

  lemma SameKey(s: Timed, t: Timed)
    requires s.at.sec >= 0 && t.at.sec >= 0
    ensures var a, b := RowOf(EntryOf(s)), RowOf(EntryOf(t));
            s.record == t.record ==> Key(a) == Key(b) && a.size == b.size && a.action == b.action
  {
  }

  lemma RecordFillsCell(ts: seq<Timed>, hop: seq<nat>, idx: seq<nat>, i: nat)
    requires After1970(ts) && |hop| == |ts| && Orderly(idx, hop) && i < |ts|
    ensures var r := ts[i].record; var mine := OfSize(RowsAt(ts, idx), r.size);
            Filled(JoinMap(mine), Key(RowOf(EntryOf(ts[i]))), Name(r.action))
                && Key(RowOf(EntryOf(ts[i]))) in KeyOrder(mine)
  {
    RowsAtAre(ts, idx);
    var rows := RowsAt(ts, idx);
    assert i in idx;
    var pos :| 0 <= pos < |idx| && idx[pos] == i;
    var r := RowOf(EntryOf(ts[i]));
    assert rows[pos] == r && r in rows;
    OfSizeHas(rows, r.size);
    JoinLookup(OfSize(rows, r.size));
    KeysAreOrdered(OfSize(rows, r.size));
  }

  // ---------------------------------------------------------------- the exact condition

  /** Record j starts a message that has an end somewhere. */
  predicate Ended(rs: seq<Record>, j: nat, end: Action)
    requires j < |rs|
  {
    rs[j].action == ClientSndBegin && rs[j].(action := end) in rs
  }

  predicate EndAfter(rs: seq<Record>, j: nat, end: Action)
    requires j < |rs|
  {
    rs[j].(action := end) in rs[j + 1..]
  }

  /** A message that was started and has an end has one after its last start. */
  ghost predicate EndsLast(rs: seq<Record>, end: Action)
  {
    forall j: nat | j < |rs| && Ended(rs, j, end) :: EndAfter(rs, j, end)
  }

  /** The latencies that the script computes for one size from the files of a run. */
  function FileLatencies(ts: seq<Timed>, hop: seq<nat>, order: seq<nat>, size: int, end: Action): (ls: seq<int>)
    requires After1970(ts) && |hop| == |ts|
  {
    TextsAreRead(ts, hop, order);
    LatenciesOf(LoadAll(Texts(ts, hop, order)).value, size, BEGIN, Name(end))
  }

  lemma FileLatenciesAre(ts: seq<Timed>, hop: seq<nat>, order: seq<nat>, size: int, end: Action)
    requires After1970(ts) && |hop| == |ts|
    ensures FileLatencies(ts, hop, order, size, end) == LatenciesOf(RowsAt(ts, Reading(hop, order)), size, BEGIN,
        Name(end))
  {
    TextsAreRead(ts, hop, order);
  }

  /** Whatever the clock, the order of the files and the size: no latency of the script is negative. */
  ghost predicate FilesNeverNegative(rs: seq<Record>, hop: seq<nat>, end: Action)
    requires |hop| == |rs|
  {
    forall ts: seq<Timed>, order, size | RecordsIn(ts) == rs && OneClock(ts) && Covers(order, hop) ::
      AllAtLeastZero(FileLatencies(ts, hop, order, size, end))
  }

  lemma EndBehind(rs: seq<Record>, end: Action, i: nat, j: nat)
    requires EndsLast(rs, end) && i < |rs| && j < |rs|
    requires rs[j].action == ClientSndBegin && rs[i] == rs[j].(action := end)
    requires forall l | i < l < |rs| :: rs[l] != rs[i]
    ensures j < i
  {
    assert rs[i] in rs && Ended(rs, j, end);
    assert EndAfter(rs, j, end);
    var l :| 0 <= l < |rs[j + 1..]| && rs[j + 1..][l] == rs[i];
    assert rs[j + 1 + l] == rs[i];
  }

  ghost predicate IsLast(ts: seq<Timed>, i: nat)
    requires i < |ts|
  {
    forall l | i < l < |ts| :: ts[l].record != ts[i].record
  }

  /** `v` nanoseconds lie between the last start of a message of this size and its last end. */
  ghost predicate IsLatency(ts: seq<Timed>, i: nat, j: nat, size: int, end: Action, v: int)
  {
    && i < |ts| && j < |ts| && ts[i].record.action == ClientSndBegin && ts[i].record.size == size
    && ts[j].record == ts[i].record.(action := end) && IsLast(ts, i) && IsLast(ts, j)
    && v == Nanos(ts[j].at) - Nanos(ts[i].at)
  }

  lemma InstantIsNanos(t: Time)
    ensures Instant((t.sec, t.nsec)) == Nanos(t)
  {
  }

  /** The last records behind the two cells of a joined key. */
  lemma CellsOfMessage(ts: seq<Timed>, hop: seq<nat>, idx: seq<nat>, size: int, end: Action, k: string)
    returns (i: nat, j: nat)
    requires After1970(ts) && SameFile(RecordsIn(ts), hop) && Orderly(idx, hop)
    requires Joined(JoinMap(OfSize(RowsAt(ts, idx), size)), k, BEGIN, Name(end))
    ensures i < |ts| && Key(RowOf(EntryOf(ts[i]))) == k
    ensures var cells := JoinMap(OfSize(RowsAt(ts, idx), size))[k];
            IsLatency(ts, i, j, size, end, Instant(cells[Name(end)]) - Instant(cells[BEGIN]))
  {
    i := CellIsLast(ts, hop, idx, size, k, ClientSndBegin);
    j := CellIsLast(ts, hop, idx, size, k, end);
    KeyIsInjective(EntryOf(ts[i]), EntryOf(ts[j]));
    InstantIsNanos(ts[i].at);
    InstantIsNanos(ts[j].at);
    hide JoinMap, OfSize, Name, Dec, Key, RowsAt, RowOf, Orderly, SameFile, Nanos, Instant;
    assert ts[j].record == ts[i].record.(action := end);
  }

  lemma LastIsOne(ts: seq<Timed>, i: nat, a: nat)
    requires i < |ts| && a < |ts| && IsLast(ts, i) && IsLast(ts, a) && ts[i].record == ts[a].record
    ensures i == a
  {
  }

  /** The latency of a message is among those that the script computes. */
  lemma MessageHasLatency(ts: seq<Timed>, hop: seq<nat>, idx: seq<nat>, size: int, end: Action, i: nat, j: nat, v: int)
    requires After1970(ts) && SameFile(RecordsIn(ts), hop) && Orderly(idx, hop) && IsLatency(ts, i, j, size, end, v)
    ensures v in LatenciesOf(RowsAt(ts, idx), size, BEGIN, Name(end))
  {
    var mine, k := OfSize(RowsAt(ts, idx), size), Key(RowOf(EntryOf(ts[i])));
    RecordFillsCell(ts, hop, idx, i);
    RecordFillsCell(ts, hop, idx, j);
    KeyIsInjective(EntryOf(ts[i]), EntryOf(ts[j]));
    LatenciesOfJoinedKeys(KeyOrder(mine), JoinMap(mine), BEGIN, Name(end));
    hide JoinMap, OfSize, Name, Dec, Key, RowsAt, RowOf, KeyOrder, Latencies, Orderly, SameFile, Nanos, Instant;
    var a, b := CellsOfMessage(ts, hop, idx, size, end, k);
    KeyIsInjective(EntryOf(ts[i]), EntryOf(ts[a]));
    assert ts[a].record == ts[i].record;
    LastIsOne(ts, i, a);
    LastIsOne(ts, j, b);
  }

  ghost predicate OfSomeMessage(ts: seq<Timed>, size: int, end: Action, v: int)
  {
    exists i: nat, j: nat :: IsLatency(ts, i, j, size, end, v)
  }

  lemma KeyOfLatency(mine: seq<Row>, begin: string, end: string, v: int) returns (k: string)
    requires v in JoinedLatencies(mine, begin, end)
    ensures IsDistance(v, JoinMap(mine), k, begin, end)
  {
    LatenciesOfJoinedKeys(KeyOrder(mine), JoinMap(mine), begin, end);
    hide JoinMap, KeyOrder, Latencies;
    k :| k in KeyOrder(mine) && Joined(JoinMap(mine), k, begin, end)
        && Instant(JoinMap(mine)[k][end]) - Instant(JoinMap(mine)[k][begin]) == v;
  }

  lemma LatencyHasMessage(ts: seq<Timed>, hop: seq<nat>, idx: seq<nat>, size: int, end: Action, v: int)
    requires After1970(ts) && SameFile(RecordsIn(ts), hop) && Orderly(idx, hop)
    requires v in LatenciesOf(RowsAt(ts, idx), size, BEGIN, Name(end))
    ensures OfSomeMessage(ts, size, end, v)
  {
    hide JoinMap, OfSize, Name, RowsAt, Instant, IsLatency, JoinedLatencies;
    var k := KeyOfLatency(OfSize(RowsAt(ts, idx), size), BEGIN, Name(end), v);
    var i, j := CellsOfMessage(ts, hop, idx, size, end, k);
  }

  /** End to end: for every run, the latencies that the script computes from the files are exactly the
      nanoseconds from a message's last start to its last end, by the clock of the run. */
  lemma FileLatenciesExact(ts: seq<Timed>, hop: seq<nat>, order: seq<nat>, size: int, end: Action)
    requires After1970(ts) && |hop| == |ts| && SameFile(RecordsIn(ts), hop) && Covers(order, hop)
    ensures forall v :: v in FileLatencies(ts, hop, order, size, end) <==> OfSomeMessage(ts, size, end, v)
  {
    FileLatenciesAre(ts, hop, order, size, end);
    ReadingIsOrderly(hop, order);
    hide LatenciesOf, Name, RowsAt, Orderly, SameFile, IsLatency, Reading, FileLatencies, After1970, Covers;
    var idx := Reading(hop, order);
    forall v ensures v in LatenciesOf(RowsAt(ts, idx), size, BEGIN, Name(end)) <==> OfSomeMessage(ts, size, end, v) {
      if v in LatenciesOf(RowsAt(ts, idx), size, BEGIN, Name(end)) {
        LatencyHasMessage(ts, hop, idx, size, end, v);
      }
      if OfSomeMessage(ts, size, end, v) {
        var i: nat, j: nat :| IsLatency(ts, i, j, size, end, v);
        MessageHasLatency(ts, hop, idx, size, end, i, j, v);
      }
    }
  }

  lemma LatencyOfLast(ts: seq<Timed>, hop: seq<nat>, idx: seq<nat>, size: int, end: Action, k: string)
    requires OneClock(ts) && SameFile(RecordsIn(ts), hop) && Orderly(idx, hop) && EndsLast(RecordsIn(ts), end)
    requires Joined(JoinMap(OfSize(RowsAt(ts, idx), size)), k, BEGIN, Name(end))
    ensures var cells := JoinMap(OfSize(RowsAt(ts, idx), size))[k];
            Instant(cells[Name(end)]) - Instant(cells[BEGIN]) >= 0
  {
    var i := CellIsLast(ts, hop, idx, size, k, end);
    var j := CellIsLast(ts, hop, idx, size, k, ClientSndBegin);
    KeyIsInjective(EntryOf(ts[i]), EntryOf(ts[j]));
    hide JoinMap, OfSize, Name, Dec, Key, RowsAt, RowOf, EndsLast, Orderly, SameFile;
    var rs := RecordsIn(ts);
    assert rs[i] == rs[j].(action := end);
    EndBehind(rs, end, i, j);
    assert Nanos(ts[j].at) <= Nanos(ts[i].at);
  }

  lemma LastEndsNonNegative(ts: seq<Timed>, hop: seq<nat>, idx: seq<nat>, size: int, end: Action)
    requires OneClock(ts) && SameFile(RecordsIn(ts), hop) && Orderly(idx, hop) && EndsLast(RecordsIn(ts), end)
    ensures AllAtLeastZero(LatenciesOf(RowsAt(ts, idx), size, BEGIN, Name(end)))
  {
    var mine := OfSize(RowsAt(ts, idx), size);
    LatenciesOfJoinedKeys(KeyOrder(mine), JoinMap(mine), BEGIN, Name(end));
    hide JoinMap, OfSize, Name, OneClock, SameFile, Orderly, EndsLast, Instant, KeyOrder, Latencies, RowsAt;
    forall l <- LatenciesOf(RowsAt(ts, idx), size, BEGIN, Name(end)) ensures l >= 0 {
      var k :| k in KeyOrder(mine) && Joined(JoinMap(mine), k, BEGIN, Name(end))
          && Instant(JoinMap(mine)[k][Name(end)]) - Instant(JoinMap(mine)[k][BEGIN]) == l;
      LatencyOfLast(ts, hop, idx, size, end, k);
    }
  }

  /** A message whose last start has no end behind it although it has one before: negative on a clock
      of seconds, in every order of reading. */
  lemma StartedLastIsNegative(rs: seq<Record>, hop: seq<nat>, idx: seq<nat>, end: Action, i: nat, j: nat)
    requires SameFile(rs, hop) && Orderly(idx, hop) && end != ClientSndBegin
    requires i < |rs| && j < |rs| && rs[j].action == ClientSndBegin && rs[i] == rs[j].(action := end)
    requires forall l | j < l < |rs| :: rs[l] != rs[i]
    ensures !AllAtLeastZero(LatenciesOf(RowsAt(Seconds(rs), idx), rs[i].size, BEGIN, Name(end)))
  {
    var ts, size := Seconds(rs), rs[i].size;
    SecondsAreOneClock(rs);
    var mine := OfSize(RowsAt(ts, idx), size);
    RecordFillsCell(ts, hop, idx, i);
    RecordFillsCell(ts, hop, idx, j);
    KeyIsInjective(EntryOf(ts[i]), EntryOf(ts[j]));
    LatenciesOfJoinedKeys(KeyOrder(mine), JoinMap(mine), BEGIN, Name(end));
    var k := Key(RowOf(EntryOf(ts[i])));
    var a := CellIsLast(ts, hop, idx, size, k, end);
    var b := CellIsLast(ts, hop, idx, size, k, ClientSndBegin);
    KeyIsInjective(EntryOf(ts[i]), EntryOf(ts[a]));
    KeyIsInjective(EntryOf(ts[j]), EntryOf(ts[b]));
    hide JoinMap, OfSize, Name, Dec, Key, RowsAt, RowOf, KeyOrder, Latencies, Orderly, SameFile;
    assert ts[a].record == rs[i] && ts[b].record == rs[j];
    assert a < j <= b;
    var cells := JoinMap(mine)[k];
    assert Instant(cells[Name(end)]) - Instant(cells[BEGIN]) == (a - b) * 1_000_000_000;
    assert (a - b) * 1_000_000_000 in LatenciesOf(RowsAt(ts, idx), size, BEGIN, Name(end));
  }

  /** Some order in which all files are read. */
  lemma {:induction false} SomeOrder(hop: seq<nat>) returns (order: seq<nat>)
    ensures Covers(order, hop)
  {
    if hop == [] {
      order := [];
    } else {
      var k := |hop| - 1;
      order := SomeOrder(hop[..k]);
      assert hop == hop[..k] + [hop[k]];
      if hop[k] !in order {
        order := order + [hop[k]];
      }
    }
  }

  /** The exact condition for the files as they are written and read: over all clocks and all orders
      of the files, no latency is negative exactly if every message that has an end has one after
      its last start. */
  lemma FilesNeverNegativeIff(rs: seq<Record>, hop: seq<nat>, end: Action)
    requires |hop| == |rs| && SameFile(rs, hop) && end != ClientSndBegin
    ensures FilesNeverNegative(rs, hop, end) <==> EndsLast(rs, end)
  {
    hide LatenciesOf, Name, AllAtLeastZero, RowsAt, SameFile, Covers, FileLatencies, Reading, After1970;
    if EndsLast(rs, end) {
      hide EndsLast;
      forall ts: seq<Timed>, order, size | RecordsIn(ts) == rs && OneClock(ts) && Covers(order, hop)
        ensures AllAtLeastZero(FileLatencies(ts, hop, order, size, end))
      {
        ReadingIsOrderly(hop, order);
        FileLatenciesAre(ts, hop, order, size, end);
        LastEndsNonNegative(ts, hop, Reading(hop, order), size, end);
      }
    } else {
      var j: nat :| j < |rs| && Ended(rs, j, end) && !EndAfter(rs, j, end);
      var i :| 0 <= i < |rs| && rs[i] == rs[j].(action := end);
      assert forall l | j < l < |rs| :: rs[l] == rs[j + 1..][l - j - 1];
      StartedLastInFiles(rs, hop, end, i, j);
    }
  }

  lemma StartedLastInFiles(rs: seq<Record>, hop: seq<nat>, end: Action, i: nat, j: nat)
    requires |hop| == |rs| && SameFile(rs, hop) && end != ClientSndBegin
    requires i < |rs| && j < |rs| && rs[j].action == ClientSndBegin && rs[i] == rs[j].(action := end)
    requires forall l | j < l < |rs| :: rs[l] != rs[i]
    ensures !FilesNeverNegative(rs, hop, end)
  {
    hide LatenciesOf, Name, AllAtLeastZero, RowsAt, SameFile, Covers, FileLatencies, Reading;
    SecondsAreOneClock(rs);
    var ts := Seconds(rs);
    var order := SomeOrder(hop);
    ReadingIsOrderly(hop, order);
    FileLatenciesAre(ts, hop, order, rs[i].size, end);
    StartedLastIsNegative(rs, hop, Reading(hop, order), end, i, j);
  }

  /** No start after an end is the stronger of the two conditions. */
  lemma NoStartAfterEndEndsLast(rs: seq<Record>, end: Action)
    requires NoStartAfterEnd(rs, end) && end != ClientSndBegin
    ensures EndsLast(rs, end)
  {
    forall j: nat | j < |rs| && Ended(rs, j, end) ensures EndAfter(rs, j, end) {
      var i :| 0 <= i < |rs| && rs[i] == rs[j].(action := end);
      assert rs[i].(action := ClientSndBegin) == rs[j];
      assert rs[j + 1..][i - j - 1] == rs[i];
    }
  }
}
