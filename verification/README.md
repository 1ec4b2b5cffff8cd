# Network benchmark: a verified model

The repository measures latency: a client sends framed messages in paced rounds, a TCP relay forwards
them to an upstream, every hop logs time-stamped records, and scripts join the records into reports. A
second benchmark passes messages between two threads through a channel and a block pool. This project
models that logic in Dafny and proves properties of whole runs. `dafny verify dfyconfig.toml` checks it.

## What is modelled

- **Framing and reassembly** (`Wire`, `BytesBuffers`, `Sessions`). `Wire.Parse` is the recursive
  specification of a receiver, `Wire.Splits` an independent description of the same thing. The session is
  a class over a ring buffer; its socket is an adversary that returns any number of bytes.
- **Links** (`Links`). One direction of a TCP connection as its writer sees it: whole frames, a short write
  that ends in a shutdown, nothing accepted after that. Client and relay share it.
- **Clients** (`MessageTables`, `Clients`, `ClientRuns`, `ClientTiming`, `Clocks`). The prebuilt message table byte
  by byte, the TCP and UDP round machine as one class, and whole runs with ticks, short and failed writes,
  closes and reconnects in any order.
- **Relay** (`Relays`, `RelayRuns`, `RelayContexts`, `RelayLosses`) and the **whole system** (`Systems`, `Counting`):
  clients, relay, upstream and the records of all hops in the order in which they are made, one atomic step
  for each event-loop callback (the end record of a client's write is a step of its own). In `Systems` a
  client may write any message; `Benchmark` puts the round machines in its place and proves that every write
  they make is one that the system allows.
- **Threads** (`ThreadPipe`): every schedule of producer and consumer, one step for each pool, channel and
  record operation.
- **Records and reports** (`Records`, `RecordFiles`, `Reports`, `Statistics`, `Scripts`): printing, the header rule,
  reading back, grouping, joining, sorting, quantiles, and the main script with its loops over files, sizes
  and reports and its abort.
- **From runs to reports** (`Latency`, `LatencyFiles`, `Outcomes`, `ResentMessage`): the records of a run, printed
  to one file for each process and read in any order of the files, and what the script makes of them.

Classes keep the source's fields and loops; each method is proved against a function of the old state, and
the results about runs are lemmas about those functions. `BytesBuffers.BytesBuffer` stands in for the library's
bytes buffer, which is not part of this repository: it jumps back to the front before its physical end, so
that a frame can lie in two pieces and both delivery paths of the parser are live.

## What is assumed

- Callbacks of added contexts run inside the event loop, after the loop data is set
  (`app/tcp_client/main.c:52` adds the context, line 78 sets the data that the callback dereferences).
- A socket that was shut down takes no more bytes, and TCP delivers a prefix of what was written.
- `msg_size * num_per_round * round_num` fits a uint32 (`Args.TableFits`). All uint32 products are written
  with `Wrap32` and proved exact under this assumption, the two sizes of the thread benchmark with the
  exact condition (`ThreadPipe.SizesSuffice`: one round is enough).
- No frame announces a payload of 2^32 - 8 bytes or more. The source adds 8 in uint32: the sum wraps and a
  turn of the parse loop removes fewer than 8 bytes, or none at all (`Wire.StuckHeader`, and
  `Wire.ProgressIffNoWrap` for exactly which headers). The session's model delivers everything before such a
  header, stops there and says so; for the system's own clients it is proved that there is none
  (`Systems.ReceiverAssertionsHold`).
- `muggle_channel_write` waits while the channel is full. The source ignores its return value.

## Where the code does not meet the expectation

- `tcp_client_on_close` asserts that the closing context is the recorded one. That holds exactly for the
  connections on which TCP_NODELAY could be set (`ClientRuns.CloseAssertionIff`,
  `ClientRuns.CloseAssertionCanFail`). The relay records before it sets the option, and there the
  corresponding property holds always (`RelayRuns.UpstreamConnection`).
- The UDP pacing test differs from the TCP one when the clock goes back far enough for the interval, and when
  it goes forward by 2^32 ms or more and the remainder misses the interval (`Clocks.SameTickIff`,
  `Clocks.BackwardClockDiffers`, `Clocks.ForwardClockDiffers`). Over a run the two clients send on the same ticks
  exactly if the tests agree on every tick (`Clocks.SameDecisionsIff`).
- A size and report with fewer than five latencies makes the script raise IndexError
  (`Statistics.QuantilesAreRanks`), and no line of any later size or report is written
  (`Scripts.LinesBeforeFirstShort`). So which lines exist depends on the order of files and rows, unless every
  size has five latencies in both reports, or none has them in the first, or there is one size only
  (`Scripts.JobsOrderIndependentIff`, for all rows).
- The join depends on the order of rows as soon as two rows disagree about a cell, and exactly then
  (`Reports.OrderIndependentIff`). The latencies of a size depend on it exactly if two of its rows name different
  instants for the begin or the end of a key that has both (`Statistics.LatenciesOrderIndependentIff`).
- A latency can be negative although all hops share one clock. Over all clocks and all orders of the rows it
  never is exactly if no message is started after one of its ends was recorded (`Latency.NeverNegativeIff`);
  with the files as they are written and read, exactly if every message that has an end has one after its
  last start (`LatencyFiles.FilesNeverNegativeIff`). A client that repeats a round can violate both
  (`ResentMessage.ResentMessageGoesNegative`); without a failed client write and with different user ids both hold
  (`Outcomes.FailureFreeReports`). That one process makes all equal records, which the second condition needs, is
  proved for clients under different user ids (`Outcomes.ClientFilesNeverNegativeIff`); two clients under one id
  make equal records in two files.
- A record file that exists but has no text gets no header. If it is empty, its first record is read as the
  header, and from the second record on the script raises; if it starts with a blank line, the script raises
  at the first record. It is read correctly exactly if nothing is recorded (`RecordFiles.EmptyFileIff`).
- A frame longer than the session's ring is never delivered, and nothing behind it is
  (`Sessions.TcpSession.OversizeNeverDelivered`). The read loop is sure to find room exactly for frames of at most
  the capacity less two read units, plus one byte (`BytesBuffers.NeverFullIff`).

## Model

| member | source | states |
|---|---|---|
| Wire.ParseIffSplits | src/network_benchmark/session.c:281-331 | A stream splits into accepted frames and a residue that gives up none in exactly one way, and that is what the receiver delivers and keeps |
| Wire.HeadOfStream | src/network_benchmark/session.c:281-331 | What the receiver does with the head of any stream, told by the announced payload length: wait, reject above the limit, or deliver header and payload and go on behind them |
| Wire.ParseAppend | src/network_benchmark/session.c:281-331 | Feeding bytes in two parts delivers the frames of the first, then those of its residue followed by the second |
| Wire.FeedIsParse | src/network_benchmark/session.c:258-331 | Chunking independence: over any number of chunks the frames, the residue and the reason for stopping depend on the bytes only |
| Wire.StopIsSticky | src/network_benchmark/session.c:290-296 | Once the limit has rejected a header, later bytes deliver nothing: the same header is met again on every call |
| Wire.ResidueIsShort | src/network_benchmark/session.c:298-301 | Maximal delivery: with frames of at most L bytes fewer than L bytes are left over |
| Wire.FramingRoundTrip | app/tcp_client/main.c:63-75 | Encoding any messages and feeding the bytes in any pieces gives each message's id and payload back, in order, with nothing left over |
| Wire.ProgressIffNoWrap | src/network_benchmark/session.c:289 | Exactly which announced payload lengths make the uint32 sum zero or less than a header |
| Wire.StuckHeader | src/network_benchmark/session.c:282-331 | A concrete header on which the parse loop removes no byte |
| BytesBuffers.BytesBuffer.RoomForUnit | src/network_benchmark/session.c:260-265 | A ring with two read units to spare always has a contiguous stretch of one |
| Sessions.TcpSession.OnMsg | src/network_benchmark/session.c:246-332 | For any stream: one call reads some prefix of the pending bytes; afterwards exactly the parsed frames of all bytes ever read are delivered and exactly the residue is held; it shuts down exactly on an oversized header and reports exactly a wrapping one; it attempts a read whenever two units are spare |
| Sessions.TcpSession.ReadBytes | src/network_benchmark/session.c:258-278 | The read loop appends what the socket gave, whatever the splits, and ends only when a read has brought nothing or no stretch of a unit is free; its error branch is dead |
| Sessions.TcpSession.ParseNext | src/network_benchmark/session.c:282-331 | One turn delivers the head frame and shortens the buffer, or stops because no frame is ready, telling a rejected and a wrapping header from missing bytes |
| Sessions.TcpSession.HandleMessage | src/network_benchmark/session.c:303-330 | In-place and copied delivery hand over the same bytes and consume them; both error branches are dead |
| Sessions.TcpSession.ChunkingIndependence | src/network_benchmark/session.c:258-331 | Two sessions that have read the same bytes have delivered the same frames, whatever their rings, reads and delivery paths |
| Sessions.TcpSession.BytesConserved | src/network_benchmark/session.c:258-331 | Delivered frames followed by the buffer's contents are the bytes read, and no complete frame is held back |
| Sessions.TcpSession.NeverWedged | src/network_benchmark/session.c:258-265 | While frames are at least two units (less one byte) shorter than the ring, the read loop finds room |
| BytesBuffers.NeverFullIff | src/network_benchmark/session.c:260-265 | That margin is exact: with one byte more some positions of the ring leave no stretch of a unit |
| Sessions.TcpSession.OversizeNeverDelivered | src/network_benchmark/session.c:298-301 | A frame longer than the ring blocks the session for good |
| Links.StreamShape | app/tcp_server/tcp_server_handle.c:152-157 | A link carries whole frames followed by at most one truncated one |
| Links.ReceiverSeesWholeFrames | app/tcp_server/tcp_server_handle.c:152-157 | A reader of any prefix of a link delivers a prefix of the frames that went through, and all of them at the end |
| MessageTables.Prefill | app/tcp_client/main.c:60-75 | The fill loop leaves message id 1, payload length, user id and sequence k in slot k |
| MessageTables.OffsetsInside | app/tcp_client/tcp_client_handle.c:104-109 | The sequence and byte offset of every message are exact in uint32 and inside the allocation |
| MessageTables.MessageIsFrame | app/tcp_client/main.c:63-75 | Every table entry is a frame that a receiver without limit accepts |
| Clients.Prepare | app/tcp_client/main.c:11-15 | `run` refuses exactly the message sizes below 16 and otherwise starts with a filled table |
| Clients.Client.OnTimer | app/tcp_client/tcp_client_handle.c:75-133 | The whole tick over the real fields: exit, no connection, too early, complete or abandoned round; the table is unchanged. What the tick does in a run is ClientTiming.TickStartsIff and ClientRuns.ScanRun |
| Clients.Client.SendFrom | app/tcp_client/tcp_client_handle.c:111-128 | The send loop writes the round's messages in order up to the first short write; both assertions hold |
| Clients.RecordsTellWrites | app/udp_client/udp_client_handle.c:59-75 | Begin records list every write in order; end records every write over TCP, only the successful ones over UDP |
| Clients.EndsFollowBegins | app/udp_client/udp_client_handle.c:59-75 | Every end record stands right behind the begin record of the same message |
| ClientRuns.CompletedRunKeepsEverySequence | app/tcp_client/tcp_client_handle.c:80-132 | When the loop exits, the write log is completed rounds and abandoned attempts, each attempt starts at round_index * n, and without the abandoned ones it is 0 .. round_num * n - 1 in order |
| ClientRuns.ScanRun | app/tcp_client/tcp_client_handle.c:104-132 | The same for every reachable state and its round index |
| ClientRuns.NoFailureNoResend | app/tcp_client/tcp_client_handle.c:111-128 | Without a failed write every sequence is sent once, in order |
| ClientRuns.CloseAssertionIff | app/tcp_client/tcp_client_handle.c:15-28 | In every run the close assertion holds exactly for connections whose TCP_NODELAY succeeded |
| ClientRuns.CloseAssertionCanFail | app/tcp_client/tcp_client_handle.c:46 | A run in which it fails |
| ClientRuns.PacingDoesNotDrift | app/tcp_client/tcp_client_handle.c:91-100 | On one connection the k-th attempt starts no earlier than cli_wait and k intervals after it was added, for any clock; less than 1 ms of true time is lost in all |
| ClientTiming.TickStartsIff | app/tcp_client/tcp_client_handle.c:80-100 | In every reachable state a tick starts an attempt exactly if rounds are left, there is a connection, and the interval has passed since the last start on it, or since it was added and cli_wait; over UDP modulo 2^32 ms; the client exits exactly at a tick with all rounds done |
| ClientTiming.TimeRun | app/tcp_client/tcp_client_handle.c:28-31 | The start times and the time of the connection are those that the events of the run tell |
| ClientTiming.PatternIsDecisions | app/udp_client/udp_client_handle.c:32-41 | A client starts attempts on exactly the ticks that its pacing test picks, whatever becomes of the writes |
| ClientTiming.SocketShutIff | app/tcp_client/tcp_client_handle.c:122-126 | In every run the client's live socket is shut down exactly if TCP_NODELAY failed on it or a write on it came up short |
| ClientRuns.ServerSeesWholeMessages | app/tcp_client/tcp_client_handle.c:118-126 | Whatever fails, what can be delivered from one client connection is a prefix of the whole messages written to it |
| Clocks.SameDecisionsIff | app/udp_client/udp_client_handle.c:32-41 | For any clock and runs of any length, the uint32 test sends on the same ticks as the int64 test exactly if the two agree on every tick of the history |
| Clocks.UdpPacingRefinesTcp | app/udp_client/udp_client_handle.c:32-41 | They do on clocks that do not go back, with tick gaps plus interval within 2^32 ms |
| Clocks.SameTickIff | app/udp_client/udp_client_handle.c:35-37 | Exactly when the two tests agree on one tick |
| Clocks.BackwardClockDiffers | app/udp_client/udp_client_handle.c:35-37 | A clock step of -1 ms on which they differ |
| Clocks.ForwardClockDiffers | app/udp_client/udp_client_handle.c:35-37 | A clock step of 2^32 ms on which they differ for every interval of at least 1 |
| Relays.Relay.HandleMessage | app/tcp_server/tcp_server_handle.c:119-163 | A client's frame is recorded and dropped, or written with exactly the bytes that the write took; the upstream socket is shut down exactly after a short write; upstream frames are ignored |
| RelayRuns.UpstreamConnection | app/tcp_server/tcp_server_handle.c:23-87 | In every run either conn_ctx is the one live upstream context with no connect in flight, or it is NULL with exactly one; an upstream session that closes is the one in conn_ctx |
| RelayContexts.ContextsRun | app/tcp_server/tcp_server_handle.c:23-64 | In every run: a context has an upstream session exactly if it was added as one, a client session exactly if a client connected and TCP_NODELAY could be set; its socket is shut down exactly if TCP_NODELAY failed or a write to it came up short |
| RelayRuns.ForwardRun | app/tcp_server/tcp_server_handle.c:137-158 | In every run each client's handled frames are exactly the parse of its bytes, and every upstream link obeys the shutdown rule |
| RelayRuns.RelayEndToEnd | app/tcp_server/tcp_server_handle.c:137-158 | For any read splits on both hops, any clients and failures: an upstream connection carries whole frames and at most one truncated one, the upstream delivers a prefix of them, and each client's share is its own frame sequence with some frames deleted |
| RelayLosses.SharesAddUp | app/tcp_server/tcp_server_handle.c:137-158 | Loss accounting for every run: a client's shares on all upstream connections, in the order of the connections, concatenate to the frames of its bytes, minus exactly those completed while no upstream was connected or cut by a short write |
| RelayLosses.NothingLostWithoutReason | app/tcp_server/tcp_server_handle.c:137-158 | If the upstream connects before any data and stays, and no write is short, its connection carries all frames of every client |
| Systems.Causality | app/tcp_upstream/tcp_upstream_handle.c:61-73 | In every run each upstream.rcv record comes after server.snd_begin, that after server.rcv, that after client.snd_begin, for the same user, sequence and size |
| Systems.ReceiverAssertionsHold | app/tcp_server/tcp_server_handle.c:127 | In every run every frame that relay or upstream can complete has message id 1 and room for the data, and no header wraps |
| Systems.TableMessagesFit | app/tcp_client/tcp_client_handle.c:112-120 | A table message satisfies what the system requires of client frames, and its records carry user id, position and size |
| Systems.SysRun | app/tcp_server/tcp_server_handle.c:119-163 | The invariant of the whole system holds in every run: records announce every write, nothing is read that was not written |
| Counting.NeverMoreThanBefore | app/tcp_server/tcp_server_handle.c:137-158 | At every moment of every run and for every message: no more upstream.rcv than server.snd_begin, no more of these than server.rcv, no more of those or of client.snd_end than client.snd_begin |
| Benchmark.WriteIsPossible | app/tcp_client/tcp_client_handle.c:111-128 | Whatever write a client's round machine makes next, the system allows it: a message of its table, on a link that is intact or takes nothing any more |
| Benchmark.PlayInv | app/tcp_client/tcp_client_handle.c:75-133 | In every run of real clients with relay and upstream, each connection carries what its round machine wrote, and each client's records are those of its writes |
| ThreadPipe.EverySchedule | app/thread/main.c:6-52 | In every schedule the allocation never fails, blocks are conserved and bounded by the channel's capacity plus two, given back in the order taken, and the consumer records messages 0, 1, 2, .. unchanged |
| ThreadPipe.NoOverwriteInFlight | app/thread/main.c:42-48 | No step changes a block that is in the channel or held by the consumer |
| ThreadPipe.CompletedSchedule | app/thread/main.c:98-108 | When the threads are joined every message was recorded once, every block freed once, the channel is empty and the pool full |
| ThreadPipe.EveryScheduleEnds | app/thread/main.c:6-52 | Every schedule has at most 6 N + 3 steps, and stops exactly when the producer is done |
| ThreadPipe.NoDeadlock | app/thread/main.c:6-52 | Until then some step is enabled |
| ThreadPipe.SizesSuffice | app/thread/main.c:86-91 | Exactly which numbers per round give uint32 products 8 n and 16 n that satisfy the sizing condition; with one round and a table that fits, every number does |
| ThreadPipe.WrappedSizes | app/thread/main.c:86-91 | Without a round, 2^29 messages per round give a channel of size 0 |
| ThreadPipe.PoolSizeIsTight | app/thread/main.c:42-43 | For every size of the pool the unchecked allocation can fail in some schedule exactly if the pool has fewer than capacity + 2 blocks and fewer than there are messages |
| ThreadPipe.ProducerAssertionsHold | app/thread/main.c:31-37 | The producer's uint32 sequence and offset are exact, and its two assertions hold in every schedule |
| Records.DecRoundTrip | src/network_benchmark/record.c:66-68 | Decimal printing and int() are inverse |
| RecordFiles.FileHoldsRecords | src/network_benchmark/record.c:66-68 | The header line is tid,sec,nsec,uid,id,size,action, and line k + 1 holds the seven values of record k at the places of these columns |
| RecordFiles.PrintParseRoundTrip | src/network_benchmark/record.c:66-68 | A file of the logger, read by the scripts' csv reader, gives the sec, nsec, uid, id, size and action of every record back in order |
| RecordFiles.CutLine | scripts/latency_handle.py:57-62 | What the script makes of a line that ends early |
| RecordFiles.AppendingRunsStayReadable | src/network_benchmark/record.c:98-111 | After any number of runs on one file all records of all runs are read |
| RecordFiles.HeadedFileStaysReadable | src/network_benchmark/record.c:98-111 | Appending to an existing file whose first line is the header keeps its rows and adds all new ones |
| RecordFiles.EmptyFileIff | src/network_benchmark/record.c:98-101 | An existing file without text: an empty one gives no row for one record and makes the script raise for more, one that starts with a blank line makes it raise at the first record; so the records are read exactly if there are none |
| RecordFiles.KeyIsInjective | scripts/network_latency_analysis.py:45-49 | The string key of the join identifies the pair of user and sequence |
| Reports.LoadRecordListDict | scripts/latency_handle.py:49-63 | Appends each row of a file to the list of its size and changes nothing else; new sizes are inserted in the order of their first rows |
| Reports.BuildJoin | scripts/network_latency_analysis.py:44-49 | The join loop builds the dictionary and its insertion order |
| Reports.JoinLookup | scripts/network_latency_analysis.py:44-49 | A cell is filled exactly if a row names it, with the stamp of such a row |
| Reports.CalLatency | scripts/latency_handle.py:66-86 | One latency for each key that has both actions, in order: the nanoseconds from its begin to its end |
| Reports.LatenciesOfJoinedKeys | scripts/latency_handle.py:74-86 | The values are exactly the distances in nanoseconds between the two stamps of the keys that have both actions |
| Reports.OrderIndependentIff | scripts/network_latency_analysis.py:44-49 | The join is the same for every permutation of the rows exactly if no two rows disagree about a cell |
| Statistics.DumpStatisticsResult | scripts/latency_handle.py:106-128 | Sorts, looks up the quantiles one by one and fails exactly below five latencies; the line's size, count, mean, deviation and quantiles are those of the sorted latencies, field by field |
| Statistics.QuantilesAreRanks | scripts/latency_handle.py:116-123 | dump_statistics_result yields a line exactly from five latencies on; its eleven quantiles ascend from minimum to maximum, are elements, and stand at the integer nearest to their exact position, on a tie the even one |
| Statistics.LatenciesOrderIndependentIff | scripts/network_latency_analysis.py:44-59 | For all rows, every order gives the same latencies of a size exactly if no two of its rows name different instants for the begin or end of a joined key |
| Statistics.ReportIsOrderIndependent | scripts/network_latency_analysis.py:44-63 | Under that condition any order of files and rows gives the size the same line |
| Scripts.RunScript | scripts/network_latency_analysis.py:17-63 | The whole script over any files: report_send.csv holds the lines from client.snd_begin to client.snd_end, report_throughout.csv those from client.snd_begin to upstream.rcv, size by size; it raises exactly at the first list of fewer than five latencies |
| Scripts.LinesBeforeFirstShort | scripts/network_latency_analysis.py:41-63 | The lines written are those of the sizes in the order of their first rows, one in each report, up to the first with fewer than five latencies; the script raises exactly if there is one |
| Scripts.JobsOrderIndependentIff | scripts/network_latency_analysis.py:41-63 | For all rows, the sizes and reports that get a line are the same for every order of the rows exactly if every size has five latencies in both reports, none has them in the first, or there is at most one size |
| Scripts.LinesOrderIndependentIff | scripts/network_latency_analysis.py:41-63 | The same for what the lines say, if no two rows of a size name different instants for the begin or end of a joined key |
| Latency.NeverNegativeIff | scripts/latency_handle.py:82-85 | Over all monotone clocks and all orders of the rows of a run, no latency is negative exactly if no message is started after its end was recorded |
| Latency.LatenciesAreNonNegative | scripts/latency_handle.py:82-85 | For every run of the whole system in which no message is started twice, all latencies and quantiles of both reports are non-negative |
| LatencyFiles.TextsAreRead | scripts/network_latency_analysis.py:18-23 | The files of all processes, read in any order, give the rows of all their records in that order |
| LatencyFiles.FileLatenciesExact | scripts/latency_handle.py:82-85 | End to end: the latencies computed from the files of a run are exactly the nanoseconds from a message's last start to its last end by the run's clock |
| LatencyFiles.FilesNeverNegativeIff | scripts/network_latency_analysis.py:44-49 | With the files as they are written: over all clocks and orders of the files, no latency is negative exactly if every message that has an end has one after its last start |
| LatencyFiles.NoStartAfterEndEndsLast | scripts/network_latency_analysis.py:44-49 | The condition for any order of rows implies the one for the files as written |
| Outcomes.NoFailureStartsOnceInAll | app/tcp_client/tcp_client_handle.c:111-128 | Clients under different user ids whose writes do not fail start no message twice in the whole system |
| Outcomes.EveryRecordOnce | app/tcp_server/tcp_server_handle.c:137-158 | Then no hop makes any record twice |
| Outcomes.MakersRun | app/tcp_client/tcp_client_handle.c:118-120 | In every run of clients under different user ids each record is made by the process that its action and user id name |
| Outcomes.ClientFilesNeverNegativeIff | scripts/network_latency_analysis.py:44-49 | The exact condition on the files for every such run, each process with its own file |
| Outcomes.FailureFreeReports | scripts/network_latency_analysis.py:18-63 | For such clients, whatever relay and upstream connections do: every file is read, no latency and no quantile of a written line is negative, and the numbers of latencies alone decide whether the order of rows matters |
| ResentMessage.ResentMessageGoesNegative | app/tcp_client/tcp_client_handle.c:122-126 | A run of the real client: its second write fails, it sends the round again, and the first message gets a negative throughput latency in every order of the files |

## Left out

- Sockets, name resolution, the retry loops of connect, listen and bind, and their sleeps: a connect is a step
  that eventually adds a context.
- The event loop, channel, pool, record ring, huge-page memory and log of the libraries: the buffer and the
  pool are stand-ins, the channel is a bounded sequence, the others do not appear.
- `tcp_server_on_release` and the other release callbacks: sessions are never removed from the model, and a
  closed context simply gets no more data.
- Callbacks are handed over as a list of delivered frames; that the callback runs before the in-place bytes
  are consumed makes no difference, since it does not touch the buffer.
- Argument parsing, log levels, CPU binding, opening files and creating directories, and the loop over the
  default message sizes in `main`.
- The UDP server and upstream, the hello program, `nb_sockaddr_equal` and `scripts/thread_latency_analysis.py`: the
  last is the network script with other action names.
- The records of the thread benchmark, and its sleep between rounds.
- The UDP client does not take part in the whole system; its round machine and its pacing are modelled.
- The script's log and its files of single latencies. It converts `sec` and `nsec` when it joins, the model when
  it loads: the two differ only for rows that cannot be read.
- A process of the benchmark runs once and its record file is new; files that existed before, and several runs
  on one file, are treated for one file (`RecordFiles`).
- Mean and standard deviation are arbitrary functions of the sorted list; quantile positions are exact
  rationals, without floating-point rounding.
- `int()` is modelled on plain digits only, and the csv reader on fields without comma, quote and line break.
- Sessions.TcpSession.OnMsg: stops at a header that wraps around uint32 and reports it; that the source goes on
  there, handing over memory that holds no frame, or never returns, is not modelled.
- Sessions.TcpSession.NeverWedged: is about the stand-in ring; the library's own ring may need another margin.
