/** How the scripts read a record file back: csv.DictReader over the lines, then int(). */
module RecordFiles {
  import opened BytesBuffers
  import opened Records
  import opened Reports

  /** Behind its header line csv.DictReader skips blank lines. */
  function NonBlank(ls: seq<string>): (r: seq<string>)
  {
    if ls == [] then [] else (if ls[0] == [] then [] else [ls[0]]) + NonBlank(ls[1..])
  }

  function Lines(text: string): (ls: seq<string>)
  {
    NonBlank(SplitOn(text, '\n'))
  }

  /** The header is the first line, whatever it holds: a blank one names no column. */
  function FieldNames(line: string): (names: seq<string>)
  {
    if line == [] then [] else SplitOn(line, ',')
  }

  /** What row[name] gives: KeyError, None for a column that the row is too short for, or a field. */
  datatype Cell = NoColumn | Unfilled | Field(text: string)

  /** Of two columns with the same name the last one counts. */
  function Column(header: seq<string>, fields: seq<string>, name: string): (c: Cell)
  {
    if header == [] then NoColumn
    else
      var last := |header| - 1;
      if header[last] != name then Column(header[..last], fields, name)
      else if last < |fields| then Field(fields[last])
      else Unfilled
  }

  function Number(c: Cell): (n: Option<nat>)
  {
    if c.Field? then Int(c.text) else None
  }

  /** "{}".format(..) of a key's part. */
  function Shown(c: Cell): string
  {
    if c.Field? then c.text else "None"
  }

  /** Stands for the action None, which no field of a line can be. */
  const NO_ACTION: string := "\n"

  /** One row as the scripts use it; None where they raise KeyError, TypeError or ValueError. */
  function RowFrom(header: seq<string>, fields: seq<string>): (r: Option<Row>)
  {
    var sec, nsec := Number(Column(header, fields, "sec")), Number(Column(header, fields, "nsec"));
    var size := Number(Column(header, fields, "size"));
    var uid, id := Column(header, fields, "uid"), Column(header, fields, "id");
    var action := Column(header, fields, "action");
    if sec.None? || nsec.None? || size.None? || uid.NoColumn? || id.NoColumn? || action.NoColumn? then None
    else
      Some(Row(sec.value, nsec.value, Shown(uid), Shown(id), size.value,
               if action.Field? then action.text else NO_ACTION))
  }

  function RowsFrom(header: seq<string>, ls: seq<string>): (rs: Option<seq<Row>>)
  {
    if ls == [] then Some([])
    else
      var r, rest := RowFrom(header, SplitOn(ls[0], ',')), RowsFrom(header, ls[1..]);
      if r.None? || rest.None? then None else Some([r.value] + rest.value)
  }

  /** The rows of a file; None if the script raises while it reads them. */
  function LoadFile(text: string): (rs: Option<seq<Row>>)
  {
    var ls := SplitOn(text, '\n');
    RowsFrom(FieldNames(ls[0]), NonBlank(ls[1..]))
  }

  function RowOf(e: Entry): Row
  {
    Row(e.sec, e.nsec, Dec(e.uid), Dec(e.id), e.size, e.action)
  }

  function RowsOf(es: seq<Entry>): (rs: seq<Row>)
  {
    if es == [] then [] else [RowOf(es[0])] + RowsOf(es[1..])
  }

  // ---------------------------------------------------------------- print, then parse

  predicate AllPlain(es: seq<Entry>)
  {
    forall e <- es :: Plain(e.action)
  }

  lemma FieldsArePlain(e: Entry, x: char)
    requires !IsDigit(x) && x !in e.action
    ensures forall f <- Fields(e) :: x !in f
  {
  }

  lemma PrintedLine(e: Entry, rest: string)
    requires Plain(e.action)
    ensures var line := JoinWith(Fields(e), ',');
            && line != [] && SplitOn(line, ',') == Fields(e)
            && SplitOn(Terminated(Fields(e)) + rest, '\n') == [line] + SplitOn(rest, '\n')
  {
    var fs := Fields(e);
    FieldsArePlain(e, ',');
    FieldsArePlain(e, '\n');
    JoinSplit(fs, ',');
    JoinHasOnly(fs, ',', '\n');
    hide Dec, Fields;
    var line := JoinWith(fs, ',');
    SplitField(line, '\n', rest);
    assert Terminated(fs) + rest == line + ['\n'] + rest;
    assert |SplitOn(line, ',')| == |fs|;
  }

  lemma {:induction false} ColumnAt(header: seq<string>, fields: seq<string>, i: nat)
    requires i < |header| && i < |fields| && forall j | i < j < |header| :: header[i] != header[j]
    ensures Column(header, fields, header[i]) == Field(fields[i])
    decreases |header|
  {
    if i < |header| - 1 {
      ColumnAt(header[..|header| - 1], fields, i);
    }
  }

  lemma ColumnsDiffer()
    ensures forall i, j | 0 <= i < j < |COLUMNS| :: COLUMNS[i] != COLUMNS[j]
  {
    forall i, j | 0 <= i < j < |COLUMNS| ensures COLUMNS[i] != COLUMNS[j] {
      assert |COLUMNS[i]| != |COLUMNS[j]| || COLUMNS[i][0] != COLUMNS[j][0];
    }
  }

  lemma FieldsToRow(e: Entry)
    ensures RowFrom(COLUMNS, Fields(e)) == Some(RowOf(e))
  {
    ColumnsDiffer();
    DecRoundTrip(e.sec);
    DecRoundTrip(e.nsec);
    DecRoundTrip(e.size);
    hide Dec, Int, Column;
    forall i | 0 <= i < 7 ensures Column(COLUMNS, Fields(e), COLUMNS[i]) == Field(Fields(e)[i]) {
      ColumnAt(COLUMNS, Fields(e), i);
    }
    assert COLUMNS[1] == "sec" && COLUMNS[2] == "nsec" && COLUMNS[3] == "uid";
    assert COLUMNS[4] == "id" && COLUMNS[5] == "size" && COLUMNS[6] == "action";
  }

  lemma {:induction false} ColumnBeyond(header: seq<string>, fields: seq<string>, i: nat)
    requires |fields| <= i < |header| && forall j | i < j < |header| :: header[i] != header[j]
    ensures Column(header, fields, header[i]) == Unfilled
    decreases |header|
  {
    if i < |header| - 1 {
      ColumnBeyond(header[..|header| - 1], fields, i);
    }
  }

  /** A line that ends early, after `k` fields: without its action it is still a row, whose action matches
      nothing; without its size, or more, the script raises. */
  lemma CutLine(e: Entry, k: nat)
    requires k < 7
    ensures RowFrom(COLUMNS, Fields(e)[..k]) == if k == 6 then Some(RowOf(e).(action := NO_ACTION)) else None
  {
    ColumnsDiffer();
    DecRoundTrip(e.sec);
    DecRoundTrip(e.nsec);
    DecRoundTrip(e.size);
    hide Dec, Int, Column;
    var fields := Fields(e)[..k];
    forall i | 0 <= i < 7
      ensures Column(COLUMNS, fields, COLUMNS[i]) == if i < k then Field(Fields(e)[i]) else Unfilled
    {
      if i < k {
        ColumnAt(COLUMNS, fields, i);
      } else {
        ColumnBeyond(COLUMNS, fields, i);
      }
    }
    assert COLUMNS[1] == "sec" && COLUMNS[2] == "nsec" && COLUMNS[3] == "uid";
    assert COLUMNS[4] == "id" && COLUMNS[5] == "size" && COLUMNS[6] == "action";
  }

  /** Under a foreign header a row that ends before its user id or sequence gets the text None there. */
  lemma MissingKey(header: seq<string>, fields: seq<string>, i: nat)
    requires |fields| <= i < |header| && forall j | i < j < |header| :: header[i] != header[j]
    ensures RowFrom(header, fields).Some? && header[i] == "uid" ==> RowFrom(header, fields).value.uid == "None"
    ensures RowFrom(header, fields).Some? && header[i] == "id" ==> RowFrom(header, fields).value.id == "None"
  {
    ColumnBeyond(header, fields, i);
    hide Column, Int;
  }

  lemma {:induction false} PrintedRows(es: seq<Entry>)
    requires AllPlain(es)
    ensures RowsFrom(COLUMNS, Lines(PrintAll(es))) == Some(RowsOf(es))
  {
    if es == [] {
      assert SplitOn([], '\n') == [[]];
      assert NonBlank([[]][1..]) == [];
    } else {
      var e, rest := es[0], PrintAll(es[1..]);
      assert e in es;
      PrintedLine(e, rest);
      PrintedRows(es[1..]);
      FieldsToRow(e);
      hide Fields, RowFrom, SplitOn, Plain;
      var line := JoinWith(Fields(e), ',');
      assert ([line] + SplitOn(rest, '\n'))[1..] == SplitOn(rest, '\n');
      assert Lines(PrintAll(es)) == [line] + Lines(rest);
      assert ([line] + Lines(rest))[1..] == Lines(rest);
    }
  }

  /** The first line is the header, the others give the rows. */
  lemma HeaderAndRows(line: string, rest: string)
    requires '\n' !in line
    ensures LoadFile(line + ['\n'] + rest) == RowsFrom(FieldNames(line), Lines(rest))
  {
    SplitField(line, '\n', rest);
    assert ([line] + SplitOn(rest, '\n'))[1..] == SplitOn(rest, '\n');
  }

  lemma HeaderLine(rest: string)
    ensures LoadFile(Terminated(COLUMNS) + rest) == RowsFrom(COLUMNS, Lines(rest))
  {
    forall f <- COLUMNS ensures ',' !in f && '\n' !in f {
    }
    JoinSplit(COLUMNS, ',');
    JoinHasOnly(COLUMNS, ',', '\n');
    var line := JoinWith(COLUMNS, ',');
    assert line != [];
    hide JoinWith, COLUMNS;
    HeaderAndRows(line, rest);
    assert Terminated(COLUMNS) + rest == line + ['\n'] + rest;
  }

  /** Record round trip: a file that the logger created, read back by the scripts, gives the rows of
      the records in order. */
  lemma PrintParseRoundTrip(es: seq<Entry>)
    requires AllPlain(es)
    ensures LoadFile(Terminated(COLUMNS) + PrintAll(es)) == Some(RowsOf(es))
  {
    HeaderLine(PrintAll(es));
    PrintedRows(es);
  }

  /** A line holds the seven values of a record at the places of their columns. */
  predicate LineHolds(line: string, e: Entry)
  {
    var fields := SplitOn(line, ',');
    && |fields| == 7
    && Int(fields[0]) == Some(e.tid) && Int(fields[1]) == Some(e.sec) && Int(fields[2]) == Some(e.nsec)
    && Int(fields[3]) == Some(e.uid) && Int(fields[4]) == Some(e.id) && Int(fields[5]) == Some(e.size)
    && fields[6] == e.action
  }

  lemma FieldsHold(e: Entry)
    requires Plain(e.action)
    ensures LineHolds(JoinWith(Fields(e), ','), e)
  {
    PrintedLine(e, []);
    DecRoundTrip(e.tid);
    DecRoundTrip(e.sec);
    DecRoundTrip(e.nsec);
    DecRoundTrip(e.uid);
    DecRoundTrip(e.id);
    DecRoundTrip(e.size);
    hide Dec, Int, JoinWith, SplitOn;
  }

  /** The lines of the printed records, and the empty one behind the last line break. */
  ghost predicate RecordLines(ls: seq<string>, es: seq<Entry>)
  {
    |ls| == |es| + 1 && ls[|es|] == [] && forall k | 0 <= k < |es| :: LineHolds(ls[k], es[k])
  }

  lemma {:induction false} PrintedLines(es: seq<Entry>)
    requires AllPlain(es)
    ensures RecordLines(SplitOn(PrintAll(es), '\n'), es)
  {
    if es == [] {
      assert SplitOn([], '\n') == [[]];
    } else {
      assert es[0] in es;
      PrintedLines(es[1..]);
      PrintedLine(es[0], PrintAll(es[1..]));
      FieldsHold(es[0]);
      hide LineHolds, Fields, JoinWith, SplitOn, Plain, Terminated;
      LinesCons(JoinWith(Fields(es[0]), ','), SplitOn(PrintAll(es[1..]), '\n'), es);
    }
  }

  lemma LinesCons(line: string, ls: seq<string>, es: seq<Entry>)
    requires es != [] && LineHolds(line, es[0]) && RecordLines(ls, es[1..])
    ensures RecordLines([line] + ls, es)
  {
    hide LineHolds;
    forall k | 0 <= k < |es| ensures LineHolds(([line] + ls)[k], es[k]) {
      if k > 0 {
        assert LineHolds(ls[k - 1], es[1..][k - 1]);
      }
    }
  }

  /** What the logger writes, column by column: the header line names the columns, and line k + 1 holds the
      values of record k at their places. */
  lemma FileHoldsRecords(es: seq<Entry>)
    requires AllPlain(es)
    ensures var ls := SplitOn(Opened(None) + PrintAll(es), '\n');
            && ls[0] == "tid,sec,nsec,uid,id,size,action" && RecordLines(ls[1..], es)
    ensures SplitOn("tid,sec,nsec,uid,id,size,action", ',') == ["tid", "sec", "nsec", "uid", "id", "size", "action"]
  {
    HeaderText();
    PrintedLines(es);
    HeaderFirst(PrintAll(es));
  }

  lemma HeaderFirst(rest: string)
    ensures SplitOn(JoinWith(COLUMNS, ','), ',') == COLUMNS
    ensures var ls := SplitOn(Terminated(COLUMNS) + rest, '\n');
            ls[0] == JoinWith(COLUMNS, ',') && ls[1..] == SplitOn(rest, '\n')
  {
    forall f <- COLUMNS ensures ',' !in f && '\n' !in f {
    }
    JoinSplit(COLUMNS, ',');
    JoinHasOnly(COLUMNS, ',', '\n');
    hide JoinWith, COLUMNS;
    var line := JoinWith(COLUMNS, ',');
    SplitField(line, '\n', rest);
    assert Terminated(COLUMNS) + rest == line + ['\n'] + rest;
  }

  lemma NamesFromTid()
    ensures "tid" + [','] + "sec,nsec,uid,id,size,action" == "tid,sec,nsec,uid,id,size,action"
  {
  }

  lemma NamesFromSec()
    ensures "sec" + [','] + "nsec,uid,id,size,action" == "sec,nsec,uid,id,size,action"
  {
  }

  lemma NamesFromNsec()
    ensures "nsec" + [','] + "uid,id,size,action" == "nsec,uid,id,size,action"
  {
  }

  lemma NamesFromUid()
    ensures "uid" + [','] + "id,size,action" == "uid,id,size,action"
    ensures "id" + [','] + "size,action" == "id,size,action" && "size" + [','] + "action" == "size,action"
  {
  }

  lemma JoinCons(f: string, fs: seq<string>)
    requires fs != []
    ensures JoinWith([f] + fs, ',') == f + [','] + JoinWith(fs, ',')
  {
    assert ([f] + fs)[1..] == fs;
  }

  lemma HeaderText()
    ensures JoinWith(COLUMNS, ',') == "tid,sec,nsec,uid,id,size,action"
  {
    NamesFromTid();
    NamesFromSec();
    NamesFromNsec();
    NamesFromUid();
    assert JoinWith(["action"], ',') == "action";
    hide JoinWith;
    JoinCons("size", ["action"]);
    JoinCons("id", ["size", "action"]);
    JoinCons("uid", ["id", "size", "action"]);
    JoinCons("nsec", ["uid", "id", "size", "action"]);
    JoinCons("sec", ["nsec", "uid", "id", "size", "action"]);
    JoinCons("tid", ["sec", "nsec", "uid", "id", "size", "action"]);
    assert ["size"] + ["action"] == ["size", "action"];
    assert ["id"] + ["size", "action"] == ["id", "size", "action"];
    assert ["uid"] + ["id", "size", "action"] == ["uid", "id", "size", "action"];
    assert ["nsec"] + ["uid", "id", "size", "action"] == ["nsec", "uid", "id", "size", "action"];
    assert ["sec"] + ["nsec", "uid", "id", "size", "action"] == ["sec", "nsec", "uid", "id", "size", "action"];
    assert ["tid"] + ["sec", "nsec", "uid", "id", "size", "action"] == COLUMNS;
  }

  function ConcatRuns(runs: seq<seq<Entry>>): (es: seq<Entry>)
  {
    if runs == [] then [] else runs[0] + ConcatRuns(runs[1..])
  }

  lemma {:induction false} RunsAppend(file: string, runs: seq<seq<Entry>>)
    ensures AfterRuns(Some(file), runs) == Some(file + PrintAll(ConcatRuns(runs)))
    decreases |runs|
  {
    if runs == [] {
      assert file + [] == file;
    } else {
      RunsAppend(file + PrintAll(runs[0]), runs[1..]);
      PrintAppend(runs[0], ConcatRuns(runs[1..]));
      assert (file + PrintAll(runs[0])) + PrintAll(ConcatRuns(runs[1..]))
          == file + (PrintAll(runs[0]) + PrintAll(ConcatRuns(runs[1..])));
    }
  }

  /** The header rule: however many runs append to a file that did not exist at first, it holds one
      header and the scripts read all records of all runs. */
  lemma AppendingRunsStayReadable(runs: seq<seq<Entry>>)
    requires runs != [] && forall r <- runs :: AllPlain(r)
    ensures AfterRuns(None, runs).Some? && LoadFile(AfterRuns(None, runs).value) == Some(RowsOf(ConcatRuns(runs)))
  {
    var head := Terminated(COLUMNS);
    assert Opened(None) == Opened(Some(head)) == head;
    assert AfterRuns(None, runs) == AfterRuns(Some(head), runs);
    hide AfterRuns, PrintAll, Terminated, ConcatRuns, LoadFile;
    RunsAppend(head, runs);
    RunsArePlain(runs);
    PrintParseRoundTrip(ConcatRuns(runs));
  }

  lemma {:induction false} RunsArePlain(runs: seq<seq<Entry>>)
    requires forall r <- runs :: AllPlain(r)
    ensures AllPlain(ConcatRuns(runs))
  {
    if runs != [] {
      assert runs[0] in runs;
      RunsArePlain(runs[1..]);
    }
  }

  // ---------------------------------------------------------------- files that existed before

  /** Nothing but terminated lines. */
  predicate Closed(text: string)
  {
    text == [] || text[|text| - 1] == '\n'
  }

  /** What is appended to terminated lines does not change them. */
  lemma {:induction false} LinesAppend(text: string, rest: string)
    requires Closed(text)
    ensures Lines(text + rest) == Lines(text) + Lines(rest)
    decreases |text|
  {
    NoLines();
    hide Lines;
    if text == [] {
      assert text + rest == rest;
      assert [] + Lines(rest) == Lines(rest);
    } else {
      var line, tail := FirstLine(text);
      assert text + rest == line + ['\n'] + (tail + rest);
      LinesAppend(tail, rest);
      LineThenRest(line, tail);
      LineThenRest(line, tail + rest);
      var head := if line == [] then [] else [line];
      assert head + (Lines(tail) + Lines(rest)) == (head + Lines(tail)) + Lines(rest);
    }
  }

  lemma NoLines()
    ensures Lines([]) == []
  {
    assert SplitOn([], '\n') == [[]] && NonBlank([[]][1..]) == [];
  }

  lemma LineThenRest(line: string, rest: string)
    requires '\n' !in line
    ensures Lines(line + ['\n'] + rest) == (if line == [] then [] else [line]) + Lines(rest)
  {
    SplitField(line, '\n', rest);
    assert ([line] + SplitOn(rest, '\n'))[1..] == SplitOn(rest, '\n');
  }

  lemma {:induction false} FirstLine(text: string) returns (line: string, tail: string)
    requires Closed(text) && text != []
    ensures text == line + ['\n'] + tail && '\n' !in line && Closed(tail)
  {
    if text[0] == '\n' {
      line, tail := [], text[1..];
    } else {
      line, tail := FirstLine(text[1..]);
      line := [text[0]] + line;
    }
  }

  lemma {:induction false} RowsAppend(header: seq<string>, a: seq<string>, b: seq<string>)
    ensures var x, y := RowsFrom(header, a), RowsFrom(header, b);
            RowsFrom(header, a + b) == if x.None? || y.None? then None else Some(x.value + y.value)
  {
    if a == [] {
      assert a + b == b;
      assert RowsFrom(header, b).Some? ==> [] + RowsFrom(header, b).value == RowsFrom(header, b).value;
    } else {
      assert (a + b)[1..] == a[1..] + b;
      RowsAppend(header, a[1..], b);
      hide RowFrom;
      var r, x, y := RowFrom(header, SplitOn(a[0], ',')), RowsFrom(header, a[1..]), RowsFrom(header, b);
      if r.Some? && x.Some? && y.Some? {
        assert ([r.value] + x.value) + y.value == [r.value] + (x.value + y.value);
      }
    }
  }

  /** An existing file whose first line is the header: appending keeps every row it had and adds all
      new ones. */
  lemma HeadedFileStaysReadable(text: string, es: seq<Entry>)
    requires Closed(text) && text != [] && FieldNames(SplitOn(text, '\n')[0]) == COLUMNS && AllPlain(es)
    ensures var file := Opened(Some(text)) + PrintAll(es);
            LoadFile(file) == if LoadFile(text).None? then None else Some(LoadFile(text).value + RowsOf(es))
  {
    hide Lines, LoadFile, RowsFrom, RowsOf, PrintAll, FieldNames, COLUMNS, SplitOn;
    var line, tail := FirstLine(text);
    SplitField(line, '\n', tail);
    HeaderAndRows(line, tail);
    HeaderAndRows(line, tail + PrintAll(es));
    LinesAppend(tail, PrintAll(es));
    PrintedRows(es);
    assert text + PrintAll(es) == line + ['\n'] + (tail + PrintAll(es));
    RowsAppend(COLUMNS, Lines(tail), Lines(PrintAll(es)));
  }

  lemma {:induction false} NoSuchColumn(header: seq<string>, fields: seq<string>, name: string)
    requires name !in header
    ensures Column(header, fields, name).NoColumn?
  {
    if header != [] {
      NoSuchColumn(header[..|header| - 1], fields, name);
    }
  }

  /** The fields of a record do not work as a header: only one of them can be a column's name. */
  lemma RecordIsNoHeader(e: Entry, fields: seq<string>)
    ensures RowFrom(Fields(e), fields).None?
  {
    forall i | 0 <= i < 6 ensures Fields(e)[i] != "sec" && Fields(e)[i] != "nsec" {
      assert IsDigit(Fields(e)[i][0]) by { assert Fields(e)[i][0] in Fields(e)[i]; }
    }
    hide Dec, Int;
    var name := if e.action == "sec" then "nsec" else "sec";
    assert "sec" != "nsec" by { assert |"sec"| != |"nsec"|; }
    assert name !in Fields(e) by {
      forall i | 0 <= i < 7 ensures Fields(e)[i] != name {}
    }
    NoSuchColumn(Fields(e), fields, name);
  }

  /** The header rule looks at existence only: a file that exists but has no line with text gets no
      header.  If it is empty, its first record is taken for the header, and from the second record on the
      script raises.  If it starts with a blank line, that line is the header and the script raises at the
      first record.  So the records are read exactly if there are none. */
  lemma EmptyFileIff(text: string, es: seq<Entry>)
    requires Closed(text) && Lines(text) == [] && AllPlain(es)
    ensures var file := Opened(Some(text)) + PrintAll(es);
            && LoadFile(file) == (if |es| <= (if text == [] then 1 else 0) then Some([]) else None)
            && (LoadFile(file) == Some(RowsOf(es)) <==> es == [])
  {
    hide RowsFrom, RowOf;
    assert |RowsOf(es)| == 0 <==> es == [];
    if text == [] {
      assert [] + PrintAll(es) == PrintAll(es);
      RecordsAlone(es);
    } else {
      BlankHeader(text, es);
    }
  }

  lemma RecordsAlone(es: seq<Entry>)
    requires AllPlain(es)
    ensures LoadFile(PrintAll(es)) == if |es| <= 1 then Some([]) else None
  {
    NoLines();
    if es == [] {
      NoRows();
    } else {
      assert es[0] in es;
      HeaderIsRecord(es[0], PrintAll(es[1..]));
      if |es| > 1 {
        assert es[1] in es;
        FirstPrintedLine(es[1], PrintAll(es[1..][1..]));
        hide Lines, Fields, Terminated, RowFrom, Plain, RowOf, JoinWith;
        RecordIsNoHeader(es[0], Fields(es[1]));
      }
    }
  }

  lemma NoRows()
    ensures LoadFile([]) == Some([])
  {
    assert SplitOn([], '\n') == [[]];
    assert |SplitOn([], '\n')[1..]| == 0;
  }

  lemma HeaderIsRecord(e: Entry, rest: string)
    requires Plain(e.action)
    ensures LoadFile(Terminated(Fields(e)) + rest) == RowsFrom(Fields(e), Lines(rest))
  {
    PrintedLine(e, rest);
    FieldsArePlain(e, '\n');
    JoinHasOnly(Fields(e), ',', '\n');
    hide Fields, Plain;
    var line := JoinWith(Fields(e), ',');
    HeaderAndRows(line, rest);
    assert Terminated(Fields(e)) + rest == line + ['\n'] + rest;
  }

  lemma BlankHeader(text: string, es: seq<Entry>)
    requires Closed(text) && text != [] && Lines(text) == [] && AllPlain(es)
    ensures LoadFile(text + PrintAll(es)) == if es == [] then Some([]) else None
  {
    hide Lines, LoadFile, PrintAll, Fields, Terminated, RowFrom, JoinWith;
    var line, tail := FirstLine(text);
    LineThenRest(line, tail);
    assert line == [] && Lines(tail) == [];
    LinesAppend(tail, PrintAll(es));
    HeaderAndRows(line, tail + PrintAll(es));
    assert text + PrintAll(es) == line + ['\n'] + (tail + PrintAll(es));
    assert [] + Lines(PrintAll(es)) == Lines(PrintAll(es));
    if es == [] {
      NothingPrinted();
    } else {
      NoNames(es);
    }
  }

  lemma NothingPrinted()
    ensures PrintAll([]) == [] && Lines([]) == []
  {
    NoLines();
  }

  /** No row can be read under a blank header. */
  lemma NoNames(es: seq<Entry>)
    requires es != [] && AllPlain(es)
    ensures RowsFrom([], Lines(PrintAll(es))).None?
  {
    assert es[0] in es;
    FirstPrintedLine(es[0], PrintAll(es[1..]));
    hide Lines, Fields, Terminated, JoinWith, Plain;
    NoSuchColumn([], Fields(es[0]), "size");
  }

  lemma FirstPrintedLine(e: Entry, rest: string)
    requires Plain(e.action)
    ensures var line, ls := JoinWith(Fields(e), ','), Lines(Terminated(Fields(e)) + rest);
            ls == [line] + Lines(rest) && ls[0] == line && ls[1..] == Lines(rest) && SplitOn(line, ',') == Fields(e)
  {
    PrintedLine(e, rest);
    hide Fields, Plain;
    var line := JoinWith(Fields(e), ',');
    assert ([line] + SplitOn(rest, '\n'))[1..] == SplitOn(rest, '\n');
  }

  // ---------------------------------------------------------------- the join key

  lemma DecInjective(a: nat, b: nat)
    requires Dec(a) == Dec(b)
    ensures a == b
  {
    DecRoundTrip(a);
    DecRoundTrip(b);
  }

  /** The string key "uid_id" of the join identifies the pair. */
  lemma KeyIsInjective(e: Entry, f: Entry)
    ensures Key(RowOf(e)) == Key(RowOf(f)) <==> e.uid == f.uid && e.id == f.id
  {
    if Key(RowOf(e)) == Key(RowOf(f)) {
      SplitField(Dec(e.uid), '_', Dec(e.id));
      SplitField(Dec(f.uid), '_', Dec(f.id));
      SplitField(Dec(e.id), '_', []);
      SplitField(Dec(f.id), '_', []);
      var a, b := [Dec(e.uid)] + [Dec(e.id)], [Dec(f.uid)] + [Dec(f.id)];
      assert a == b;
      assert a[0] == b[0] && a[1] == b[1];
      DecInjective(e.uid, f.uid);
      DecInjective(e.id, f.id);
    }
  }
}
