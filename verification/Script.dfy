/** scripts/network_latency_analysis.py as a whole: load the record files, then write one line for every
    message size to each of two reports.  An exception ends everything, so which lines exist depends on
    the order in which the sizes come. */
module Scripts {
  import opened BytesBuffers
  import opened Records
  import opened RecordFiles
  import opened Reports
  import opened Statistics

  /** The two reports, in the order of the script's dictionary. */
  datatype Target = Send | Throughput

  const BEGIN: string := Name(ClientSndBegin)

  function End(t: Target): string
  {
    match t
    case Send => Name(ClientSndEnd)
    case Throughput => Name(UpstreamRcv)
  }

  datatype Job = Job(size: int, target: Target)
  datatype Written = Written(job: Job, line: Line)

  /** Everything that is written, in order, and whether an exception ended the script. */
  datatype Outcome = Outcome(out: seq<Written>, raised: bool)

  function Jobs(sizes: seq<int>): (js: seq<Job>)
    ensures |js| == 2 * |sizes|
    ensures forall i | 0 <= i < |sizes| ::
              js[2 * i] == Job(sizes[i], Send) && js[2 * i + 1] == Job(sizes[i], Throughput)
  {
    if sizes == [] then []
    else
      var k := |sizes| - 1;
      Jobs(sizes[..k]) + [Job(sizes[k], Send), Job(sizes[k], Throughput)]
  }

  function JobsOf(rows: seq<Row>): (js: seq<Job>)
  {
    Jobs(SizesAfter([], rows))
  }

  function JobLatencies(rows: seq<Row>, j: Job): (ls: seq<int>)
  {
    LatenciesOf(rows, j.size, BEGIN, End(j.target))
  }

  function JobLine(rows: seq<Row>, j: Job, mean: seq<int> -> int, deviation: seq<int> -> int): Option<Line>
  {
    Report(rows, j.size, BEGIN, End(j.target), mean, deviation)
  }

  /** The rest of the script after `done`: one job after the other up to the first exception. */
  function Work(done: seq<Written>, js: seq<Job>, rows: seq<Row>, mean: seq<int> -> int,
      deviation: seq<int> -> int): Outcome
    decreases |js|
  {
    if js == [] then Outcome(done, false)
    else
      var line := JobLine(rows, js[0], mean, deviation);
      if line.None? then Outcome(done, true)
      else Work(done + [Written(js[0], line.value)], js[1..], rows, mean, deviation)
  }

  /** The rows of all files, one file after the other; None if one of them cannot be read. */
  function LoadAll(texts: seq<string>): (rows: Option<seq<Row>>)
  {
    if texts == [] then Some([])
    else
      var k := |texts| - 1;
      var init, last := LoadAll(texts[..k]), LoadFile(texts[k]);
      if init.None? || last.None? then None else Some(init.value + last.value)
  }

  function Script(texts: seq<string>, mean: seq<int> -> int, deviation: seq<int> -> int): Outcome
  {
    var rows := LoadAll(texts);
    if rows.None? then Outcome([], true) else Work([], JobsOf(rows.value), rows.value, mean, deviation)
  }

  /** What one of the two files holds. */
  function FileOf(out: seq<Written>, t: Target): (ls: seq<Line>)
  {
    if out == [] then []
    else
      var w := out[|out| - 1];
      FileOf(out[..|out| - 1], t) + if w.job.target == t then [w.line] else []
  }

  lemma FileSnoc(out: seq<Written>, w: Written, t: Target)
    ensures FileOf(out + [w], t) == FileOf(out, t) + if w.job.target == t then [w.line] else []
  {
    assert (out + [w])[..|out|] == out;
  }

  lemma FilesStartEmpty()
    ensures forall t :: FileOf([], t) == []
  {
  }

  // ---------------------------------------------------------------- the loops

  lemma {:induction false} LoadAllFails(texts: seq<string>, i: nat)
    requires i <= |texts| && LoadAll(texts[..i]).None?
    ensures LoadAll(texts).None?
    decreases |texts| - i
  {
    if i == |texts| {
      assert texts[..i] == texts;
    } else {
      assert texts[..i + 1][..i] == texts[..i];
      LoadAllFails(texts, i + 1);
    }
  }

  /** The load loop. */
  method Load(texts: seq<string>) returns (ok: bool, sizes: seq<int>, dict: map<int, seq<Row>>)
    ensures ok <==> LoadAll(texts).Some?
    ensures ok ==> sizes == SizesAfter([], LoadAll(texts).value)
    ensures ok ==> forall k :: k in dict <==> k in sizes
    ensures ok ==> forall k <- dict :: dict[k] == OfSize(LoadAll(texts).value, k)
  {
    hide LoadFile;
    ok, sizes, dict := true, [], map[];
    for i := 0 to |texts|
      invariant ok && LoadAll(texts[..i]).Some?
      invariant sizes == SizesAfter([], LoadAll(texts[..i]).value)
      invariant Loaded(map[], LoadAll(texts[..i]).value, dict)
    {
      assert texts[..i + 1][..i] == texts[..i];
      ghost var before := LoadAll(texts[..i]).value;
      var rows := LoadFile(texts[i]);
      if rows.None? {
        LoadAllFails(texts, i + 1);
        ok := false;
        return;
      }
      SizesAreKeys([], before);
      SizesAppend([], before, rows.value);
      ghost var dict0 := dict;
      sizes, dict := LoadRecordListDict(sizes, dict, rows.value);
      LoadedTwice(before, rows.value, dict0, dict);
    }
    assert texts[..|texts|] == texts;
    SizesAreKeys([], LoadAll(texts).value);
  }

  lemma LoadedTwice(a: seq<Row>, b: seq<Row>, dict: map<int, seq<Row>>, out: map<int, seq<Row>>)
    requires Loaded(map[], a, dict)
    requires Loaded(dict, b, out)
    ensures Loaded(map[], a + b, out)
  {
    hide OfSize;
    forall k
      ensures k in out <==> OfSize(a + b, k) != []
      ensures k in out ==> out[k] == [] + OfSize(a + b, k)
    {
      OfSizeAppend(a, b, k);
      assert [] + OfSize(a, k) == OfSize(a, k) && [] + OfSize(a + b, k) == OfSize(a + b, k);
      assert [] + OfSize(b, k) == OfSize(b, k) && OfSize(a, k) + [] == OfSize(a, k);
    }
  }

  /** A report: line i is that of the latencies between the two actions of the i-th size. */
  ghost predicate ReportSays(lines: seq<Line>, rows: seq<Row>, begin: string, end: string,
      mean: seq<int> -> int, deviation: seq<int> -> int)
  {
    var sizes := SizesAfter([], rows);
    && |lines| <= |sizes|
    && forall i | 0 <= i < |lines| ::
         LineSays(lines[i], sizes[i], LatenciesOf(rows, sizes[i], begin, end), mean, deviation)
  }

  /** What the script leaves behind, in the names of its own reports and actions: report_send.csv goes from
      client.snd_begin to client.snd_end, report_throughout.csv from client.snd_begin to upstream.rcv; the
      sizes take turns in the order of their first rows, and the script raises exactly at the first
      list of fewer than five latencies. */
  ghost predicate ReportsSay(rows: seq<Row>, send: seq<Line>, throughput: seq<Line>, raised: bool,
      mean: seq<int> -> int, deviation: seq<int> -> int)
  {
    var sizes := SizesAfter([], rows);
    && ReportSays(send, rows, "client.snd_begin", "client.snd_end", mean, deviation)
    && ReportSays(throughput, rows, "client.snd_begin", "upstream.rcv", mean, deviation)
    && |throughput| <= |send| <= |throughput| + 1
    && if !raised then |send| == |throughput| == |sizes|
       else if |send| > |throughput| then
         |LatenciesOf(rows, sizes[|throughput|], "client.snd_begin", "upstream.rcv")| < 5
       else |send| < |sizes| && |LatenciesOf(rows, sizes[|send|], "client.snd_begin", "client.snd_end")| < 5
  }

  /** The main script: the two files' lines, and whether it raised. */
  method RunScript(texts: seq<string>, mean: seq<int> -> int, deviation: seq<int> -> int)
    returns (send: seq<Line>, throughput: seq<Line>, raised: bool)
    ensures var o := Script(texts, mean, deviation);
            send == FileOf(o.out, Send) && throughput == FileOf(o.out, Throughput) && raised == o.raised
    ensures if LoadAll(texts).None? then raised && send == throughput == []
            else ReportsSay(LoadAll(texts).value, send, throughput, raised, mean, deviation)
  {
    FilesSay(texts, mean, deviation);
    hide LoadAll, FileOf, Work, ReportsSay, OfSize, JobsOf, SizesAfter;
    FilesStartEmpty();
    var ok, sizes, dict := Load(texts);
    if !ok {
      return [], [], true;
    }
    send, throughput, raised := WriteReports(sizes, dict, LoadAll(texts).value, mean, deviation);
  }

  /** The loop over the sizes. */
  method WriteReports(sizes: seq<int>, dict: map<int, seq<Row>>, ghost rows: seq<Row>,
      mean: seq<int> -> int, deviation: seq<int> -> int)
    returns (send: seq<Line>, throughput: seq<Line>, raised: bool)
    requires sizes == SizesAfter([], rows) && forall k :: k in dict <==> k in sizes
    requires forall k <- dict :: dict[k] == OfSize(rows, k)
    ensures var o := Work([], JobsOf(rows), rows, mean, deviation);
            send == FileOf(o.out, Send) && throughput == FileOf(o.out, Throughput) && raised == o.raised
  {
    ghost var all := JobsOf(rows);
    SizesHaveJobs(rows);
    hide JobsOf, SizesAfter, OfSize, FileOf, Work, JobLine;
    FilesStartEmpty();
    send, throughput, raised := [], [], false;
    ghost var done := [];
    assert all[0..] == all;
    for i := 0 to |sizes|
      invariant !raised && Work([], all, rows, mean, deviation) == Work(done, all[2 * i..], rows, mean, deviation)
      invariant send == FileOf(done, Send) && throughput == FileOf(done, Throughput)
    {
      assert sizes[i] in sizes;
      var s, t := HandleSize(dict[sizes[i]], rows, sizes[i], mean, deviation);
      done := BothJobs(done, all, 2 * i, sizes[i], s, t, rows, mean, deviation);
      if s.Some? {
        send := send + [s.value];
      }
      if t.Some? {
        throughput := throughput + [t.value];
      }
      if s.None? || t.None? {
        raised := true;
        return;
      }
    }
    NoJobLeft(done, rows, mean, deviation);
    assert all[2 * |sizes|..] == [];
  }

  lemma SizesHaveJobs(rows: seq<Row>)
    ensures var sizes, all := SizesAfter([], rows), JobsOf(rows);
            && |all| == 2 * |sizes|
            && forall i | 0 <= i < |sizes| ::
                 all[2 * i] == Job(sizes[i], Send) && all[2 * i + 1] == Job(sizes[i], Throughput)
  {
  }

  /** The loop over the two reports of one size; the second is not reached if the first raises. */
  method HandleSize(records: seq<Row>, ghost rows: seq<Row>, size: int, mean: seq<int> -> int,
      deviation: seq<int> -> int)
    returns (s: Option<Line>, t: Option<Line>)
    requires records == OfSize(rows, size)
    ensures s == JobLine(rows, Job(size, Send), mean, deviation)
    ensures t == if s.None? then None else JobLine(rows, Job(size, Throughput), mean, deviation)
  {
    var keys, data := BuildJoin(records);
    KeysAreOrdered(records);
    hide JobLine, KeyOrder, JoinMap, OfSize;
    t := None;
    s := OneJob(keys, data, rows, Job(size, Send), mean, deviation);
    if s.Some? {
      t := OneJob(keys, data, rows, Job(size, Throughput), mean, deviation);
    }
  }

  /** One report for one size: subtract, sort and pick. */
  method OneJob(keys: seq<string>, data: Cells, ghost rows: seq<Row>, j: Job, mean: seq<int> -> int,
      deviation: seq<int> -> int)
    returns (line: Option<Line>)
    requires keys == KeyOrder(OfSize(rows, j.size)) && data == JoinMap(OfSize(rows, j.size))
    requires forall k <- keys :: k in data
    ensures line == JobLine(rows, j, mean, deviation)
  {
    hide LineOf, OfSize, KeyOrder, JoinMap;
    var list := CalLatency(keys, data, BEGIN, End(j.target));
    line := DumpStatisticsResult(j.size, list, mean, deviation);
  }

  lemma NoJobLeft(done: seq<Written>, rows: seq<Row>, mean: seq<int> -> int, deviation: seq<int> -> int)
    ensures Work(done, [], rows, mean, deviation) == Outcome(done, false)
  {
  }

  /** One job: its line is written, or the script raises. */
  lemma NextJob(done: seq<Written>, all: seq<Job>, i: nat, line: Option<Line>, rows: seq<Row>,
      mean: seq<int> -> int, deviation: seq<int> -> int)
    returns (done': seq<Written>)
    requires i < |all| && line == JobLine(rows, all[i], mean, deviation)
    ensures Work(done, all[i..], rows, mean, deviation) ==
              if line.None? then Outcome(done', true) else Work(done', all[i + 1..], rows, mean, deviation)
    ensures line.None? ==> done' == done
    ensures line.Some? ==> forall t ::
              FileOf(done', t) == if all[i].target == t then FileOf(done, t) + [line.value] else FileOf(done, t)
  {
    hide JobLine, FileOf;
    assert all[i..][1..] == all[i + 1..];
    done' := done;
    if line.Some? {
      var w := Written(all[i], line.value);
      done' := done + [w];
      forall t
        ensures FileOf(done', t) == if all[i].target == t then FileOf(done, t) + [line.value] else FileOf(done, t)
      {
        FileSnoc(done, w, t);
        assert FileOf(done, t) + [] == FileOf(done, t);
      }
    }
  }

  lemma BothJobs(done: seq<Written>, all: seq<Job>, i: nat, size: int, s: Option<Line>, t: Option<Line>,
      rows: seq<Row>, mean: seq<int> -> int, deviation: seq<int> -> int)
    returns (done': seq<Written>)
    requires i + 1 < |all| && all[i] == Job(size, Send) && all[i + 1] == Job(size, Throughput)
    requires s == JobLine(rows, all[i], mean, deviation)
    requires t == if s.None? then None else JobLine(rows, all[i + 1], mean, deviation)
    ensures Work(done, all[i..], rows, mean, deviation) ==
              if s.None? || t.None? then Outcome(done', true) else Work(done', all[i + 2..], rows, mean, deviation)
    ensures FileOf(done', Send) == if s.Some? then FileOf(done, Send) + [s.value] else FileOf(done, Send)
    ensures FileOf(done', Throughput)
         == if t.Some? then FileOf(done, Throughput) + [t.value] else FileOf(done, Throughput)
  {
    hide JobLine, FileOf, Work;
    done' := NextJob(done, all, i, s, rows, mean, deviation);
    if s.Some? {
      done' := NextJob(done', all, i + 1, t, rows, mean, deviation);
    }
  }

  // ---------------------------------------------------------------- which lines exist

  predicate Short(rows: seq<Row>, j: Job)
  {
    |JobLatencies(rows, j)| < 5
  }

  /** How many jobs come before the first one with fewer than five latencies. */
  function FirstShort(rows: seq<Row>, js: seq<Job>): (k: nat)
    ensures k <= |js| && (k < |js| ==> Short(rows, js[k])) && forall i | 0 <= i < k :: !Short(rows, js[i])
  {
    if js == [] || Short(rows, js[0]) then 0 else 1 + FirstShort(rows, js[1..])
  }

  ghost predicate LinesOfJobs(out: seq<Written>, js: seq<Job>, rows: seq<Row>, mean: seq<int> -> int,
      deviation: seq<int> -> int)
  {
    && |out| <= |js|
    && forall i | 0 <= i < |out| :: out[i].job == js[i] && JobLine(rows, js[i], mean, deviation) == Some(out[i].line)
  }

  lemma LineIffFive(rows: seq<Row>, j: Job, mean: seq<int> -> int, deviation: seq<int> -> int)
    ensures JobLine(rows, j, mean, deviation).Some? <==> !Short(rows, j)
  {
    QuantilesAreRanks(j.size, JobLatencies(rows, j), mean, deviation);
  }

  lemma {:induction false} WorkStops(done: seq<Written>, js: seq<Job>, rows: seq<Row>, mean: seq<int> -> int,
      deviation: seq<int> -> int)
    returns (more: seq<Written>)
    ensures var o := Work(done, js, rows, mean, deviation);
            && o.out == done + more && (o.raised <==> FirstShort(rows, js) < |js|)
            && |more| == FirstShort(rows, js) && LinesOfJobs(more, js, rows, mean, deviation)
    decreases |js|
  {
    hide JobLine, Short;
    more := [];
    assert done + [] == done;
    if js != [] {
      LineIffFive(rows, js[0], mean, deviation);
      var line := JobLine(rows, js[0], mean, deviation);
      if line.Some? {
        var w := Written(js[0], line.value);
        var rest := WorkStops(done + [w], js[1..], rows, mean, deviation);
        more := [w] + rest;
        assert (done + [w]) + rest == done + more;
      }
    }
  }

  /** Which lines a run of the script writes: for every size in the order in which the sizes first
      occur, one line in each report, up to the first size and report with fewer than five latencies;
      there it raises and nothing more is written, not even for sizes with enough. */
  lemma LinesBeforeFirstShort(texts: seq<string>, mean: seq<int> -> int, deviation: seq<int> -> int)
    requires LoadAll(texts).Some?
    ensures var rows, o := LoadAll(texts).value, Script(texts, mean, deviation);
            var js := JobsOf(rows);
            && LinesOfJobs(o.out, js, rows, mean, deviation)
            && (forall i | 0 <= i < |o.out| :: |JobLatencies(rows, js[i])| >= 5)
            && (if o.raised then |o.out| < |js| && |JobLatencies(rows, js[|o.out|])| < 5 else |o.out| == |js|)
  {
    var rows := LoadAll(texts).value;
    var more := WorkStops([], JobsOf(rows), rows, mean, deviation);
    assert [] + more == more;
  }

  // ---------------------------------------------------------------- what the two files say

  function Turn(t: Target): nat
  {
    if t.Send? then 0 else 1
  }

  /** Every other line, from the first or the second on. */
  ghost predicate Takes(lines: seq<Line>, out: seq<Written>, turn: nat)
  {
    && (if turn == 0 then |lines| == (|out| + 1) / 2 else |lines| == |out| / 2)
    && forall i | 0 <= i < |lines| :: 2 * i + turn < |out| && lines[i] == out[2 * i + turn].line
  }

  lemma TakesSnoc(lines: seq<Line>, out: seq<Written>, turn: nat, w: Written)
    requires turn < 2 && Takes(lines, out, turn)
    ensures Takes(if |out| % 2 == turn then lines + [w.line] else lines, out + [w], turn)
  {
  }

  /** The two files take the lines in turn. */
  lemma {:induction false} Alternates(out: seq<Written>, t: Target)
    requires forall i | 0 <= i < |out| :: Turn(out[i].job.target) == i % 2
    ensures Takes(FileOf(out, t), out, Turn(t))
  {
    hide Takes;
    if out == [] {
      NothingTaken(t);
    } else {
      var k := |out| - 1;
      var init := out[..k];
      Alternates(init, t);
      assert out == init + [out[k]];
      FileSnoc(init, out[k], t);
      assert FileOf(init, t) + [] == FileOf(init, t);
      hide FileOf;
      TakesSnoc(FileOf(init, t), init, Turn(t), out[k]);
    }
  }

  lemma NothingTaken(t: Target)
    ensures Takes(FileOf([], t), [], Turn(t))
  {
  }

  lemma Endings()
    ensures BEGIN == "client.snd_begin" && End(Send) == "client.snd_end" && End(Throughput) == "upstream.rcv"
  {
  }

  lemma JobLineSays(rows: seq<Row>, j: Job, line: Line, mean: seq<int> -> int, deviation: seq<int> -> int)
    requires JobLine(rows, j, mean, deviation) == Some(line)
    ensures LineSays(line, j.size, LatenciesOf(rows, j.size, BEGIN, End(j.target)), mean, deviation)
  {
    LineOfSays(j.size, JobLatencies(rows, j), mean, deviation);
  }

  lemma JobAt(rows: seq<Row>, i: nat)
    requires i < |JobsOf(rows)|
    ensures i / 2 < |SizesAfter([], rows)|
    ensures JobsOf(rows)[i] == Job(SizesAfter([], rows)[i / 2], if i % 2 == 0 then Send else Throughput)
  {
    assert i == 2 * (i / 2) || i == 2 * (i / 2) + 1;
  }

  /** Line i of a report stands at place 2 * i or 2 * i + 1 of everything written. */
  lemma OneReportSays(rows: seq<Row>, out: seq<Written>, lines: seq<Line>, t: Target, mean: seq<int> -> int,
      deviation: seq<int> -> int)
    requires LinesOfJobs(out, JobsOf(rows), rows, mean, deviation)
    requires Takes(lines, out, Turn(t))
    ensures ReportSays(lines, rows, BEGIN, End(t), mean, deviation)
  {
    hide JobLine, LineSays, LatenciesOf, End, SizesAfter, JobsOf;
    var sizes, odd := SizesAfter([], rows), Turn(t);
    if lines != [] {
      JobAt(rows, 2 * (|lines| - 1) + odd);
    }
    forall i | 0 <= i < |lines|
      ensures LineSays(lines[i], sizes[i], LatenciesOf(rows, sizes[i], BEGIN, End(t)), mean, deviation)
    {
      JobAt(rows, 2 * i + odd);
      JobLineSays(rows, Job(sizes[i], t), lines[i], mean, deviation);
    }
  }

  lemma InTurn(rows: seq<Row>, out: seq<Written>, mean: seq<int> -> int, deviation: seq<int> -> int)
    requires LinesOfJobs(out, JobsOf(rows), rows, mean, deviation)
    ensures forall i | 0 <= i < |out| :: Turn(out[i].job.target) == i % 2
  {
    hide JobLine, SizesAfter, JobsOf;
    forall i | 0 <= i < |out| ensures Turn(out[i].job.target) == i % 2 {
      JobAt(rows, i);
    }
  }

  lemma LinesSay(rows: seq<Row>, out: seq<Written>, raised: bool, mean: seq<int> -> int, deviation: seq<int> -> int)
    requires LinesOfJobs(out, JobsOf(rows), rows, mean, deviation)
    requires var js := JobsOf(rows);
             if raised then |out| < |js| && |JobLatencies(rows, js[|out|])| < 5 else |out| == |js|
    ensures ReportsSay(rows, FileOf(out, Send), FileOf(out, Throughput), raised, mean, deviation)
  {
    hide JobLine, LineSays, LatenciesOf, End, FileOf, SizesAfter, ReportSays;
    InTurn(rows, out, mean, deviation);
    Alternates(out, Send);
    Alternates(out, Throughput);
    OneReportSays(rows, out, FileOf(out, Send), Send, mean, deviation);
    OneReportSays(rows, out, FileOf(out, Throughput), Throughput, mean, deviation);
    Endings();
    if raised {
      JobAt(rows, |out|);
    }
  }

  lemma FilesSay(texts: seq<string>, mean: seq<int> -> int, deviation: seq<int> -> int)
    ensures var o := Script(texts, mean, deviation);
            var send, throughput := FileOf(o.out, Send), FileOf(o.out, Throughput);
            if LoadAll(texts).None? then o.raised && send == throughput == []
            else ReportsSay(LoadAll(texts).value, send, throughput, o.raised, mean, deviation)
  {
    hide ReportsSay, LinesOfJobs, JobsOf;
    if LoadAll(texts).Some? {
      LinesBeforeFirstShort(texts, mean, deviation);
      var o := Script(texts, mean, deviation);
      LinesSay(LoadAll(texts).value, o.out, o.raised, mean, deviation);
    }
  }

  // ---------------------------------------------------------------- the order of the rows

  /** The sizes and reports for which a line is written. */
  function JobsWritten(rows: seq<Row>): (js: seq<Job>)
  {
    JobsOf(rows)[..FirstShort(rows, JobsOf(rows))]
  }

  ghost predicate SameJobs(a: seq<Row>, b: seq<Row>)
  {
    forall j :: j in JobsWritten(a) <==> j in JobsWritten(b)
  }

  ghost predicate NoSizeTwice(sizes: seq<int>)
  {
    forall i, j | 0 <= i < j < |sizes| :: sizes[i] != sizes[j]
  }

  lemma {:induction false} SizesDiffer(sizes: seq<int>, rows: seq<Row>)
    requires NoSizeTwice(sizes)
    ensures NoSizeTwice(SizesAfter(sizes, rows)) && sizes <= SizesAfter(sizes, rows)
    decreases |rows|
  {
    if rows != [] {
      SizesDiffer(sizes, rows[..|rows| - 1]);
    }
  }

  lemma PermutationKeeps(a: seq<Row>, b: seq<Row>)
    requires multiset(a) == multiset(b)
    ensures SameRows(a, b)
    ensures forall k :: k in SizesAfter([], a) <==> k in SizesAfter([], b)
    ensures forall j :: Short(a, j) <==> Short(b, j)
  {
    PermutedSame(a, b);
    SizesAreKeys([], a);
    SizesAreKeys([], b);
    forall k ensures OfSize(a, k) != [] <==> OfSize(b, k) != [] {
      OfSizeHas(a, k);
      OfSizeHas(b, k);
      if OfSize(a, k) != [] { assert OfSize(a, k)[0] in OfSize(a, k); }
      if OfSize(b, k) != [] { assert OfSize(b, k)[0] in OfSize(b, k); }
    }
    hide LatenciesOf, OfSize;
    forall j ensures Short(a, j) <==> Short(b, j) {
      LatencyCount(a, b, j.size, BEGIN, End(j.target));
    }
  }

  /** Either everything has five latencies, or nothing is ever written, or there is one size only. */
  ghost predicate Indifferent(rows: seq<Row>)
  {
    var sizes := SizesAfter([], rows);
    || (forall s, t | s in sizes :: !Short(rows, Job(s, t)))
    || (forall s <- sizes :: Short(rows, Job(s, Send)))
    || |sizes| <= 1
  }

  lemma JobIn(sizes: seq<int>, j: Job)
    ensures j in Jobs(sizes) <==> j.size in sizes
  {
    var js := Jobs(sizes);
    if j in js {
      var i :| 0 <= i < |js| && js[i] == j;
      assert js[i] == Job(sizes[i / 2], if i % 2 == 0 then Send else Throughput) by {
        assert i == 2 * (i / 2) || i == 2 * (i / 2) + 1;
      }
    }
    if j.size in sizes {
      var i :| 0 <= i < |sizes| && sizes[i] == j.size;
      assert js[2 * i] == Job(sizes[i], Send) && js[2 * i + 1] == Job(sizes[i], Throughput);
      assert j == js[if j.target.Send? then 2 * i else 2 * i + 1];
    }
  }

  lemma AllJobs(rows: seq<Row>)
    requires forall s, t | s in SizesAfter([], rows) :: !Short(rows, Job(s, t))
    ensures forall j :: j in JobsWritten(rows) <==> j.size in SizesAfter([], rows)
  {
    hide Short, Jobs;
    var sizes, js := SizesAfter([], rows), JobsOf(rows);
    forall i | 0 <= i < |js| ensures !Short(rows, js[i]) {
      JobIn(sizes, js[i]);
      assert js[i] in js && js[i] == Job(js[i].size, js[i].target);
    }
    assert JobsWritten(rows) == js;
    forall j ensures j in js <==> j.size in sizes {
      JobIn(sizes, j);
    }
  }

  lemma NoJobs(rows: seq<Row>)
    requires forall s <- SizesAfter([], rows) :: Short(rows, Job(s, Send))
    ensures JobsWritten(rows) == []
  {
    hide Short;
    var sizes, js := SizesAfter([], rows), JobsOf(rows);
    if sizes != [] {
      assert sizes[0] in sizes && js[2 * 0] == Job(sizes[0], Send);
    }
  }

  lemma FirstTwoDiffer(b: seq<int>)
    requires NoSizeTwice(b)
    ensures |b| <= 1 || b[0] != b[1]
  {
  }

  lemma OneSize(a: seq<int>, b: seq<int>)
    requires |a| <= 1 && NoSizeTwice(b) && forall k: int :: k in a <==> k in b
    ensures a == b
  {
    FirstTwoDiffer(b);
    if a != [] {
      var x := a[0];
      assert x in a;
      assert x in b;
    }
    forall i | 0 <= i < |b| ensures a != [] && b[i] == a[0] {
      var y := b[i];
      assert y in b;
      assert y in a;
    }
  }

  lemma {:induction false} SameFirstShort(a: seq<Row>, b: seq<Row>, js: seq<Job>)
    requires forall j <- js :: Short(a, j) <==> Short(b, j)
    ensures FirstShort(a, js) == FirstShort(b, js)
  {
    hide Short;
    if js != [] {
      assert js[0] in js;
      SameFirstShort(a, b, js[1..]);
    }
  }

  lemma {:induction false} OnlySize(rows: seq<Row>, size: int)
    requires rows != [] && forall r <- rows :: r.size == size
    ensures SizesAfter([], rows) == [size]
  {
    assert rows[|rows| - 1] in rows;
    if |rows| > 1 {
      OnlySize(rows[..|rows| - 1], size);
    } else {
      assert SizesAfter([], rows[..0]) == [];
    }
  }

  lemma MovedToFront(rows: seq<Row>, size: int) returns (p: seq<Row>)
    requires size in SizesAfter([], rows)
    ensures multiset(p) == multiset(rows) && SizesAfter([], p) != [] && SizesAfter([], p)[0] == size
  {
    var x, y := OfSize(rows, size), Others(rows, size);
    p := x + y;
    SplitBySize(rows, size);
    SizesAreKeys([], rows);
    OfSizeHas(rows, size);
    OnlySize(x, size);
    SizesAppend([], x, y);
    SizesDiffer([size], y);
  }

  /** A size that is short and comes first leaves no line for any other size. */
  lemma ShortFirst(p: seq<Row>, s: int, t: Target, other: int)
    requires SizesAfter([], p) != [] && SizesAfter([], p)[0] == s != other && Short(p, Job(s, t))
    ensures forall j <- JobsWritten(p) :: j.size != other
  {
    hide Short, SizesAfter;
    var js := JobsOf(p);
    assert js[2 * 0] == Job(s, Send) && js[2 * 0 + 1] == Job(s, Throughput);
    assert |JobsWritten(p)| <= 1;
  }

  lemma LongFirst(p: seq<Row>, s: int)
    requires SizesAfter([], p) != [] && SizesAfter([], p)[0] == s && !Short(p, Job(s, Send))
    ensures Job(s, Send) in JobsWritten(p)
  {
    hide Short, SizesAfter;
    assert JobsOf(p)[2 * 0] == Job(s, Send);
    assert JobsWritten(p)[0] == Job(s, Send);
  }

  /** Two sizes one of which hides the other. */
  lemma TwoSizes(rows: seq<Row>) returns (s: int, t: Target, long: int)
    requires !Indifferent(rows)
    ensures s in SizesAfter([], rows) && long in SizesAfter([], rows) && s != long
    ensures Short(rows, Job(s, t)) && !Short(rows, Job(long, Send))
  {
    hide Short, SizesAfter;
    var sizes := SizesAfter([], rows);
    s, t :| s in sizes && Short(rows, Job(s, t));
    long :| long in sizes && !Short(rows, Job(long, Send));
    if s == long {
      SizesDiffer([], rows);
      assert sizes[0] in sizes && sizes[1] in sizes && sizes[0] != sizes[1];
      var x := if sizes[0] == s then sizes[1] else sizes[0];
      if Short(rows, Job(x, Send)) {
        s, t := x, Send;
      } else {
        long := x;
      }
    }
  }

  lemma HiddenSize(rows: seq<Row>) returns (p: seq<Row>)
    requires !Indifferent(rows)
    ensures multiset(p) == multiset(rows) && !SameJobs(p, rows)
  {
    hide Short, SizesAfter, Indifferent, JobsWritten, SameRows;
    var s, t, long := TwoSizes(rows);
    var p1 := MovedToFront(rows, s);
    var p2 := MovedToFront(rows, long);
    PermutationKeeps(rows, p1);
    PermutationKeeps(rows, p2);
    ShortFirst(p1, s, t, long);
    LongFirst(p2, long);
    var j := Job(long, Send);
    assert j !in JobsWritten(p1) && j in JobsWritten(p2);
    p := if j in JobsWritten(rows) then p1 else p2;
  }

  lemma AnyOrder(rows: seq<Row>, p: seq<Row>)
    requires Indifferent(rows) && multiset(p) == multiset(rows)
    ensures SameJobs(p, rows)
  {
    hide SizesAfter, Short, SameRows;
    PermutationKeeps(rows, p);
    var sizes := SizesAfter([], rows);
    if forall s, t | s in sizes :: !Short(rows, Job(s, t)) {
      AllJobs(rows);
      AllJobs(p);
    } else if forall s <- sizes :: Short(rows, Job(s, Send)) {
      NoJobs(rows);
      NoJobs(p);
    } else {
      SizesDiffer([], p);
      OneSize(sizes, SizesAfter([], p));
      SameFirstShort(rows, p, JobsOf(rows));
    }
  }

  /** For all rows: which lines exist does not depend on the order of files and rows exactly if every size
      has five latencies in both reports, or none has them in the first, or there is at most one size. */
  lemma JobsOrderIndependentIff(rows: seq<Row>)
    ensures (forall p: seq<Row> | multiset(p) == multiset(rows) :: SameJobs(p, rows)) <==> Indifferent(rows)
  {
    hide Indifferent, SameJobs;
    if Indifferent(rows) {
      forall p: seq<Row> | multiset(p) == multiset(rows) ensures SameJobs(p, rows) {
        AnyOrder(rows, p);
      }
    } else {
      var p := HiddenSize(rows);
    }
  }

  // ---------------------------------------------------------------- what the lines say

  function LinesWritten(rows: seq<Row>, mean: seq<int> -> int, deviation: seq<int> -> int): seq<Written>
  {
    Work([], JobsOf(rows), rows, mean, deviation).out
  }

  ghost predicate SameLines(a: seq<Row>, b: seq<Row>, mean: seq<int> -> int, deviation: seq<int> -> int)
  {
    forall w :: w in LinesWritten(a, mean, deviation) <==> w in LinesWritten(b, mean, deviation)
  }

  lemma LinesAre(rows: seq<Row>, mean: seq<int> -> int, deviation: seq<int> -> int)
    ensures var out := LinesWritten(rows, mean, deviation);
            |out| == |JobsWritten(rows)| && LinesOfJobs(out, JobsOf(rows), rows, mean, deviation)
  {
    var more := WorkStops([], JobsOf(rows), rows, mean, deviation);
    assert [] + more == more;
  }

  /** A line is written exactly if its size and report are reached, and it is their line. */
  lemma LineIsWritten(rows: seq<Row>, w: Written, mean: seq<int> -> int, deviation: seq<int> -> int)
    ensures w in LinesWritten(rows, mean, deviation) <==>
              w.job in JobsWritten(rows) && JobLine(rows, w.job, mean, deviation) == Some(w.line)
    ensures w.job in JobsWritten(rows) ==> JobLine(rows, w.job, mean, deviation).Some?
  {
    LinesAre(rows, mean, deviation);
    hide JobLine, LinesWritten, JobsOf, Short;
    var out, js := LinesWritten(rows, mean, deviation), JobsWritten(rows);
    if w in out {
      var i :| 0 <= i < |out| && out[i] == w;
      assert js[i] == w.job;
    }
    if w.job in js {
      var i :| 0 <= i < |js| && js[i] == w.job;
      assert out[i].job == w.job && out[i] in out;
    }
  }

  /** The rows of every size are settled for both reports. */
  ghost predicate AllSettled(rows: seq<Row>)
  {
    forall size, t: Target {:trigger Job(size, t)} :: Settled(OfSize(rows, size), BEGIN, End(t))
  }

  lemma SameJobLine(a: seq<Row>, b: seq<Row>, j: Job, mean: seq<int> -> int, deviation: seq<int> -> int)
    requires SameRows(a, b) && AllSettled(a)
    ensures JobLine(a, j, mean, deviation) == JobLine(b, j, mean, deviation)
  {
    assert j == Job(j.size, j.target);
    ReportIsOrderIndependent(a, b, j.size, BEGIN, End(j.target), mean, deviation);
  }

  lemma SameLinesIffSameJobs(a: seq<Row>, b: seq<Row>, mean: seq<int> -> int, deviation: seq<int> -> int)
    requires forall j :: JobLine(a, j, mean, deviation) == JobLine(b, j, mean, deviation)
    ensures SameLines(a, b, mean, deviation) <==> SameJobs(a, b)
  {
    hide JobLine, LinesWritten, JobsWritten;
    forall w: Written
      ensures w in LinesWritten(a, mean, deviation) <==>
                w.job in JobsWritten(a) && JobLine(a, w.job, mean, deviation) == Some(w.line)
      ensures w in LinesWritten(b, mean, deviation) <==>
                w.job in JobsWritten(b) && JobLine(b, w.job, mean, deviation) == Some(w.line)
    {
      LineIsWritten(a, w, mean, deviation);
      LineIsWritten(b, w, mean, deviation);
    }
    if SameLines(a, b, mean, deviation) {
      forall j ensures j in JobsWritten(a) <==> j in JobsWritten(b) {
        var line := JobLine(a, j, mean, deviation);
        var w := Written(j, if line.Some? then line.value else Line(0, 0, 0, 0, []));
        LineIsWritten(a, w, mean, deviation);
        LineIsWritten(b, w, mean, deviation);
        assert w in LinesWritten(a, mean, deviation) <==> w in LinesWritten(b, mean, deviation);
      }
    }
  }

  /** If the rows are settled, the same holds for what the lines say. */
  lemma LinesOrderIndependentIff(rows: seq<Row>, mean: seq<int> -> int, deviation: seq<int> -> int)
    requires AllSettled(rows)
    ensures (forall p: seq<Row> | multiset(p) == multiset(rows) :: SameLines(p, rows, mean, deviation))
            <==> Indifferent(rows)
  {
    hide Indifferent, SameJobs, SameLines, AllSettled, SameRows, JobLine;
    JobsOrderIndependentIff(rows);
    forall p: seq<Row> | multiset(p) == multiset(rows)
      ensures SameLines(p, rows, mean, deviation) <==> SameJobs(p, rows)
    {
      PermutedSame(rows, p);
      forall j ensures JobLine(p, j, mean, deviation) == JobLine(rows, j, mean, deviation) {
        SameJobLine(rows, p, j, mean, deviation);
      }
      SameLinesIffSameJobs(p, rows, mean, deviation);
    }
  }
}
