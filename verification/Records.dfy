/** src/network_benchmark/record.c and record.h: the record lines and the file they are appended to. */
module Records {
  import opened BytesBuffers

  datatype Action = ClientSndBegin | ClientSndEnd | ServerRcv | ServerSndBegin | UpstreamRcv

  /** What NETBENCH_RECORD is given; the time stamp and thread id are added by the logger. */
  datatype Record = Record(uid: nat, id: nat, size: nat, action: Action)

  /** A record as it is printed. */
  datatype Entry = Entry(tid: nat, sec: nat, nsec: nat, uid: nat, id: nat, size: nat, action: string)

  function Name(a: Action): (s: string)
  {
    match a
    case ClientSndBegin => "client.snd_begin"
    case ClientSndEnd => "client.snd_end"
    case ServerRcv => "server.rcv"
    case ServerSndBegin => "server.snd_begin"
    case UpstreamRcv => "upstream.rcv"
  }

  /** The action strings of the hops. */
  lemma NamesAre()
    ensures Name(ClientSndBegin) == "client.snd_begin" && Name(ClientSndEnd) == "client.snd_end"
    ensures Name(ServerRcv) == "server.rcv" && Name(ServerSndBegin) == "server.snd_begin"
    ensures Name(UpstreamRcv) == "upstream.rcv"
  {
  }

  lemma NamesArePlain(a: Action)
    ensures Plain(Name(a))
  {
    LettersArePlain(Name(a)) by {
      match a
      case ClientSndBegin => assert Letters("client.snd_begin");
      case ClientSndEnd => assert Letters("client.snd_end");
      case ServerRcv => assert Letters("server.rcv");
      case ServerSndBegin => assert Letters("server.snd_begin");
      case UpstreamRcv => assert Letters("upstream.rcv");
    }
  }

  predicate Letters(s: string)
  {
    forall i | 0 <= i < |s| :: '.' <= s[i] <= 'z'
  }

  lemma LettersArePlain(s: string)
    requires Letters(s)
    ensures Plain(s)
  {
  }

  /** Nothing that the csv reader would treat specially. */
  predicate Plain(s: string)
  {
    ',' !in s && '\n' !in s && '\r' !in s && '"' !in s
  }

  // ---------------------------------------------------------------- decimal numbers

  function Digit(d: nat): (c: char)
    requires d < 10
    ensures IsDigit(c)
  {
    '0' + d as char
  }

  predicate IsDigit(c: char)
  {
    '0' <= c <= '9'
  }

  function Dec(n: nat): (s: string)
    ensures s != [] && forall c <- s :: IsDigit(c)
  {
    if n < 10 then [Digit(n)] else Dec(n / 10) + [Digit(n % 10)]
  }

  function Value(s: string): (n: nat)
    requires forall c <- s :: IsDigit(c)
  {
    if s == [] then 0
    else
      var last := s[|s| - 1];
      assert IsDigit(last);
      10 * Value(s[..|s| - 1]) + (last as int - '0' as int)
  }

  /** Python's int() on plain digits; anything else is an error here. */
  function Int(s: string): (n: Option<nat>)
  {
    if s != [] && forall c <- s :: IsDigit(c) then Some(Value(s)) else None
  }

  lemma {:induction false} DecRoundTrip(n: nat)
    ensures Value(Dec(n)) == n && Int(Dec(n)) == Some(n)
  {
    if n >= 10 {
      DecRoundTrip(n / 10);
      var init := Dec(n / 10);
      assert (init + [Digit(n % 10)])[..|init|] == init;
    } else {
      assert Value([]) == 0;
    }
  }

  // ---------------------------------------------------------------- splitting and joining

  function SplitOn(s: string, c: char): (fs: seq<string>)
    ensures fs != []
  {
    if s == [] then [[]]
    else
      var fs := SplitOn(s[1..], c);
      if s[0] == c then [[]] + fs else [[s[0]] + fs[0]] + fs[1..]
  }

  lemma {:induction false} SplitField(f: string, c: char, rest: string)
    requires c !in f
    ensures SplitOn(f, c) == [f]
    ensures SplitOn(f + [c] + rest, c) == [f] + SplitOn(rest, c)
  {
    if f == [] {
      assert [c] + rest == f + [c] + rest;
      assert ([c] + rest)[1..] == rest;
    } else {
      SplitField(f[1..], c, rest);
      assert (f + [c] + rest)[1..] == f[1..] + [c] + rest;
      assert [f[0]] + f[1..] == f;
    }
  }

  function JoinWith(fs: seq<string>, c: char): (s: string)
    requires fs != []
  {
    if |fs| == 1 then fs[0] else fs[0] + [c] + JoinWith(fs[1..], c)
  }

  lemma {:induction false} JoinSplit(fs: seq<string>, c: char)
    requires fs != [] && forall f <- fs :: c !in f
    ensures SplitOn(JoinWith(fs, c), c) == fs
  {
    SplitField(fs[0], c, []);
    if |fs| > 1 {
      JoinSplit(fs[1..], c);
      SplitField(fs[0], c, JoinWith(fs[1..], c));
    }
  }

  lemma {:induction false} JoinHasOnly(fs: seq<string>, c: char, x: char)
    requires fs != [] && x != c && forall f <- fs :: x !in f
    ensures x !in JoinWith(fs, c)
  {
    if |fs| > 1 {
      JoinHasOnly(fs[1..], c, x);
    }
  }

  // ---------------------------------------------------------------- a record file

  const COLUMNS: seq<string> := ["tid", "sec", "nsec", "uid", "id", "size", "action"]

  function Fields(e: Entry): (fs: seq<string>)
  {
    [Dec(e.tid), Dec(e.sec), Dec(e.nsec), Dec(e.uid), Dec(e.id), Dec(e.size), e.action]
  }

  function Terminated(fs: seq<string>): string
    requires fs != []
  {
    JoinWith(fs, ',') + "\n"
  }

  function PrintAll(es: seq<Entry>): (s: string)
  {
    if es == [] then [] else Terminated(Fields(es[0])) + PrintAll(es[1..])
  }

  lemma PrintOne(e: Entry)
    ensures PrintAll([e]) == Terminated(Fields(e))
  {
    assert [e][1..] == [];
    assert Terminated(Fields(e)) + [] == Terminated(Fields(e));
  }

  lemma {:induction false} PrintAppend(a: seq<Entry>, b: seq<Entry>)
    ensures PrintAll(a + b) == PrintAll(a) + PrintAll(b)
  {
    if a == [] {
      assert a + b == b;
    } else {
      assert (a + b)[1..] == a[1..] + b;
      PrintAppend(a[1..], b);
    }
  }

  /** The logger: the file that init opens for appending, and the callback that prints a record. */
  class Recorder {
    var file: Option<string>  // None: no such file
    var open: bool

    constructor (existing: Option<string>)
      ensures file == existing && !open
    {
      file, open := existing, false;
    }

    /** nb_record_init, the part about the file: a header only for a file that did not exist. */
    method Init()
      modifies this
      ensures open && file == Some(Opened(old(file)))
    {
      var needWriteHead := file == None;
      if file == None {
        file := Some([]);  // fopen(.., "a")
      }
      if needWriteHead {
        file := Some(file.value + Terminated(COLUMNS));
        assert [] + Terminated(COLUMNS) == Terminated(COLUMNS);
      }
      open := true;
    }

    /** nb_ts_record_callback */
    method Callback(e: Entry)
      requires open && file.Some?
      modifies this`file
      ensures file == Some(old(file).value + PrintAll([e]))
    {
      file := Some(file.value + Terminated(Fields(e)));
      PrintOne(e);
    }

    method Shutdown()
      modifies this`open
      ensures !open
    {
      open := false;
    }
  }

  function Opened(file: Option<string>): string
  {
    if file.None? then Terminated(COLUMNS) else file.value
  }

  /** The file after several runs of a program, each initialising the logger and recording. */
  function AfterRuns(file: Option<string>, runs: seq<seq<Entry>>): Option<string>
    decreases |runs|
  {
    if runs == [] then file else AfterRuns(Some(Opened(file) + PrintAll(runs[0])), runs[1..])
  }
}
