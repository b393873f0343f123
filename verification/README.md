# NNTP client model

A Dafny model of an NNTP client library: its multi-line wire codec, its connection and pipelining layer,
its connection pool, its failover downloader and its lossless overview parser. To verify it, run
`dafny verify dfyconfig.toml`.

## What is modelled

* `Bytes`, `Decimal`, `Wire`: byte strings, the checked u64 parser, and the dot-stuffed blocks of RFC 3977
  section 3.1.1. `Wire.Scan` is the reference decoding of a block at the head of a stream. It gives the decoded
  bytes and how reading ended, with the exact remainder of the stream; every reader is proved against it.
* `Standard`: the reader that RFC 3977 section 3.1.1 prescribes, by which the writers are judged and with which the
  client's reader is compared.
* `Peer`: the mock server's block writer and its reader of posted articles, as their loops.
* `Status`: status lines, and what each response code means to each call (`Dispose`). A server is a function from
  the whole history of commands to the bytes it answers, so a claim for every server covers servers with
  state. `Obeys` says that each answer is one well-formed reply.
* `ConnectionModel`: the connection as a class over the bytes answered and not yet read. Any read or write may
  fail or time out at any moment; `broken` remembers that one did.
* `Codes`: what each call makes of each response code, and of the replies a well-behaved server sends, stated apart from
  the match that computes it.
* `PipelineModel`, `StatPipelineModel`: the two pipelines, as classes that share that connection.
* `PoolSystem`, `ServerModel`: one server's pool, first as a system of interleaved steps of any number of async
  tasks, then as a class whose methods do those steps and are interfered with at every await point.
* `DownloaderModel`: the work queue. Availability, connects, answers and shutdown are oracles consulted once a pass.
* `Overview`: the lossless overview parser and the overview format.

## Where the code is sharper than it looks

Each of these is how the code behaves, with the statement that says so.

* The two POST encoders send the same bytes for exactly the articles that do not end in a bare CR
  (`Wire.EncodersAgree`). `str::lines` keeps that CR, the byte loop drops it.
* A prefix read whose body is exactly as long as the bound reports an incomplete body (`Wire.PrefixAgrees`), and so
  costs the connection (`FetchBodyPrefix`).
* The mock server sends empty data as one blank line (`Wire.EncodeBlockRoundTrip`).
* The client's reader keeps a single dot at the start of a line and takes a dot ended by a bare LF for the terminator. It
  follows the standard on exactly the streams without either (`Standard.ReadersAgree`).
* Header stripping needs at least one header line: it does not find a blank line at the very start, so it gives back the
  body only when that is empty (`ConnectionModel.StripNoHeaders`).
* `process_all` gives up on exactly the codes of `PipelineModel.AbortsExactly`. On any other unexpected code it marks the
  connection bad and, against its own comment (src/pipeline.rs:208), goes on over it.
* A failed write in `flush_sends` loses exactly the request being written, and a failed flush loses none
  (`Pipeline.FlushSends`). A failed `receive_one` has taken its request off the queue (`Pipeline.ReceiveOne`).
* The pipeline looks only at the first character of a message id, so an id opened with `<` and never closed is sent
  differently by a pipeline and by `fetch_article`, and only such an id (`PipelineModel.SameCommand`).
* A 403 to a pipelined STAT is a protocol error; to `stat_article` it is a denied permission
  (`StatPipelineModel.CheckMatchesStat`).
* `StatPipeline::execute` sets the connection's state and never consults it. From a ready connection in step it stays in
  step. A connection that was not ready comes out ready on success, and is then at a reply boundary if and only if no
  line was left on it (`StatPipeline.Execute`); `StatPipelineModel.StaleReply` is an input where it is not.
* Two servers with one id hide each other: the scheduler follows "first server in order that has the article" for
  every store exactly when ids are distinct (`DownloaderModel.PlainRuleExactly`).
* `AllServersExhausted` is reported exactly when every server is tried or unavailable at that pass
  (`DownloaderModel.ExhaustedExactly`), so also for an article that a server has
  (`DownloaderModel.ExhaustedThoughHeld`).
* A connection dropped while it is counted leaves `connections_active` one too high for good
  (`PoolSystem.ActiveCountExact`, `PoolSystem.LeakIsForGood`); `PoolSystem.CountedGuardDropped` is a run that does it.

## Model

| member | source | states |
|---|---|---|
| Wire.EncodeRoundTrip | src/connection.rs:2184-2231 | Codec round trip with framing: decoding what `post_article_bytes` writes for any article, followed by any bytes, gives the CRLF-normalised article and leaves exactly those bytes |
| Wire.EncodeBlockRoundTrip | src/testutil.rs:790-834 | The mock server's writer round-trips the same way, except that empty data arrives as one blank line |
| Wire.NormalizeIdempotent | src/connection.rs:2184-2231 | Normalising line endings a second time changes nothing |
| Wire.NormalizeFixes | src/connection.rs:2184-2231 | Normalisation fixes exactly the empty text and the texts that end in a line ending and have CR before every LF |
| Wire.NormalizeExactly | src/connection.rs:2184-2231 | Normalising is, byte by byte, putting a CR before every LF that has none and ending the last line |
| Wire.StuffLinesInjective | src/connection.rs:2206-2226 | Different lists of lines never look the same on the wire |
| Wire.EncodersAgree | src/connection.rs:2072-2149 | `post_article` and `post_article_bytes` send the same bytes if and only if the article does not end in a bare CR |
| Wire.BareCRKept | src/connection.rs:2100-2128 | An article ending in a bare CR is sent by `post_article` as if CRLF followed: the CR is kept |
| Standard.PostedByTheStandard | src/connection.rs:2184-2231 | A server that reads by the standard gets any posted article in normal form, and reads no byte of what follows |
| Standard.PostedTextByTheStandard | src/connection.rs:2100-2128 | The same for `post_article`, a final bare CR being kept |
| Standard.SentByTheStandard | src/testutil.rs:790-834 | The same for a client that reads by the standard from the mock server |
| Standard.ReadersAgree | src/connection.rs:2486-2523 | The client reads by the standard if and only if no line starts with a single dot and no dot is ended by a bare LF |
| Wire.DecodersAgree | src/testutil.rs:836-867 | On every block the client's reader accepts, the mock server's reader stops at the same byte with the same data, normalised |
| Wire.PostRoundTrip | src/testutil.rs:836-867 | What is posted is what the peer stores, normalised, and the peer stops right after it |
| Wire.ScanAppend | src/connection.rs:2449-2526 | A terminated block decodes the same whatever follows it, and what follows is left unread |
| Wire.ScanRest | src/connection.rs:2449-2526 | What is left after a block is a proper suffix of the stream |
| Wire.PrefixAgrees | src/connection.rs:2393-2440 | On any well-formed block, a prefix read fails exactly when a line over 16 KiB comes before the bound is reached; otherwise it gives the first bytes of the full read and says complete exactly when the full read is strictly below the bound |
| Wire.PrefixBrokenOff | src/connection.rs:2412-2416 | A block that breaks off fails a prefix read exactly when the bound is not reached first |
| Wire.OverlongExactly | src/connection.rs:2423-2426 | A line is over the limit exactly when it has more than 16384 bytes as read, with ending and stuffing |
| Wire.ScanLimitPrefix | src/connection.rs:2423-2426 | A reader with a line limit sees the same block cut short at the first line over the limit |
| Wire.PrefixRoundTrip | src/connection.rs:2393-2440 | The same for anything encoded, with the terminator's position |
| Wire.BoundedAgrees | src/connection.rs:2513-2522 | A bounded read of a well-formed block succeeds exactly when the full read fits, with the same bytes; of any other stream it fails |
| Peer.WriteMultilineBody | src/testutil.rs:790-834 | The writing loop, unless cut off, puts exactly the encoded block on the wire |
| Peer.ReadPostedArticle | src/testutil.rs:836-867 | The reading loop computes the reference decoding of posted articles |
| Decimal.ParseU64Exact | src/overview.rs:148-153 | The parser accepts exactly the non-empty digit strings of value below 2^64, and returns that value |
| Decimal.ParsePrint | src/overview.rs:148-153 | Printed numbers parse back exactly when they fit 64 bits |
| Status.StatusRoundTrip | src/connection.rs:2540-2572 | A status line reads back with its code, with its message up to trailing CRs, and reading stops right after it |
| Status.ParseStatusRefuses | src/connection.rs:2540-2557 | A line is refused exactly when, without its ending, it does not start with three digits |
| Status.AnySeparator | src/connection.rs:2558-2566 | One character of any length separates code and text, and may be missing |
| Status.Utf8Length | src/connection.rs:2340-2375 | Every Unicode scalar's encoding is recognised as one character |
| Status.Utf8Only | src/connection.rs:2340-2375 | Nothing else is: what is recognised is the encoding of a scalar |
| Status.NormalizedId | src/connection.rs:2575-2581 | The id sent is bracketed, and is the id itself or has it between the brackets |
| Status.ReadyReadsWholeReply | src/connection.rs:1017-2056 | So with a server that obeys the protocol, a call that stays ready has consumed the whole reply |
| Status.ReplyAtHead | src/connection.rs:2340-2375 | A reply at the head of a stream is read as if alone, and what follows it is what is left |
| Status.RepliesAppend | src/pipeline.rs:94-120 | The replies owed to two runs of commands are those to the first, then those to the second |
| ConnectionModel.StripHeaders | src/connection.rs:2590-2604 | Stripping finds the body after one or more non-empty header lines, whatever the body holds |
| ConnectionModel.BodyOfExactly | src/connection.rs:2590-2604 | The body is what follows the first CRLF CRLF or LF LF, and empty without one |
| ConnectionModel.StripNoHeaders | src/connection.rs:2590-2604 | With no header line it finds the body if and only if the body is empty |
| ConnectionModel.BodyFallback | src/connection.rs:1827-1841 | The ARTICLE reply for an article, decoded and stripped, is the same response as the BODY reply for its body |
| ConnectionModel.StripArticleHeaders | src/connection.rs:2590-2604 | The scanning loop computes the part after the first blank line |
| ConnectionModel.NntpConnection.ReadResponseLine | src/connection.rs:2340-2375 | Reads one status line and leaves the cursor right after it, or the transport has failed |
| ConnectionModel.NntpConnection.ReadMultilineBodyInto | src/connection.rs:2449-2526 | Agrees with the reference decoding and its bound and stops right after the terminator; its buffer, which only grows, holds decoded data within the bound also when it fails |
| ConnectionModel.NntpConnection.ReadMultilineBody | src/connection.rs:2379-2391 | The bounded and the unbounded read are the reference decoding, bounded or not, with the cursor right after the terminator |
| ConnectionModel.NntpConnection.ReadMultilineBodyPrefix | src/connection.rs:2393-2440 | Agrees with the reference decoding cut at the bound; complete means it stopped right after the terminator |
| ConnectionModel.NntpConnection.Exchange | src/connection.rs:1017-2056 | Ready means in step: a call from Ready ends Ready or Error, Ready only at a reply boundary, and its result is the meaning of the server's reply |
| ConnectionModel.NntpConnection.FetchArticle | src/connection.rs:1017-1117 | ARTICLE: sends one command; the result and the state after it are exactly what the reply means |
| ConnectionModel.NntpConnection.FetchHeadNumber | src/connection.rs:1120-1197 | HEAD by number within a bound: bad arguments change nothing, otherwise as for ARTICLE, and stays in step |
| ConnectionModel.NntpConnection.Stat | src/connection.rs:1212-1273 | STAT: without the capability the article is reported missing and nothing is sent; otherwise as above |
| ConnectionModel.NntpConnection.Ping | src/connection.rs:1284-1314 | The probe succeeds exactly when a readable status arrives that does not end the session, and then the connection is ready and in step |
| ConnectionModel.NntpConnection.NegotiateOverview | src/connection.rs:1393-1440 | LIST OVERVIEW.FMT gives the format the reply describes, or its error, and stays in step |
| ConnectionModel.NntpConnection.XoverLossless | src/connection.rs:1469-1541 | XOVER gives the lossless rows of the reply for the range asked, and stays in step |
| ConnectionModel.NntpConnection.FetchBody | src/connection.rs:1827-1903 | BODY, or the stripped ARTICLE on a server without BODY, and stays in step |
| ConnectionModel.NntpConnection.FetchBodyPrefix | src/connection.rs:1905-1994 | A body cut short takes the transport down, a complete one leaves the connection ready and in step, a refusal keeps it, anything else spoils it |
| Codes.ArticleCodes | src/connection.rs:1034-1116 | For ARTICLE: which codes give which error, which give success, and after which the connection is still ready, each if and only if |
| Codes.HeadCodes | src/connection.rs:1145-1196 | For HEAD: which codes give which error, which give success, and after which the connection is still ready, each if and only if |
| Codes.BodyCodes | src/connection.rs:1857-1902 | For BODY: which codes give which error, which give success, and after which the connection is still ready, each if and only if |
| Codes.BodyPrefixCodes | src/connection.rs:1941-1993 | For a prefix read, and the state of the connection: which codes give which error, which give success, and after which the connection is still ready, each if and only if |
| Codes.StatCodes | src/connection.rs:1233-1272 | For STAT: which codes give which error, which give success, and after which the connection is still ready, each if and only if |
| Codes.PingCodes | src/connection.rs:1301-1313 | For the liveness probe: which codes give which error, which give success, and after which the connection is still ready, each if and only if |
| Codes.GroupCodes | src/connection.rs:1340-1386 | For GROUP: which codes give which error, which give success, and after which the connection is still ready, each if and only if |
| Codes.OverviewFormatCodes | src/connection.rs:1408-1439 | For LIST OVERVIEW.FMT: which codes give which error, which give success, and after which the connection is still ready, each if and only if |
| Codes.OverviewCodes | src/connection.rs:1490-1540 | For XOVER: which codes give which error, which give success, and after which the connection is still ready, each if and only if |
| Codes.HeadersCodes | src/connection.rs:1647-1689 | For XHDR: which codes give which error, which give success, and after which the connection is still ready, each if and only if |
| Codes.PatternsCodes | src/connection.rs:1752-1814 | For XPAT: which codes give which error, which give success, and after which the connection is still ready, each if and only if |
| Codes.ActiveListCodes | src/connection.rs:2029-2055 | For LIST ACTIVE: which codes give which error, which give success, and after which the connection is still ready, each if and only if |
| Codes.UnexpectedExactly | src/error.rs:89-103 | A 400 reports a dead session exactly when its text has the words that say so, in any case |
| Codes.BlockDelivered | src/connection.rs:1017-2056 | For every call that gets a block, the success reply with any data that fits is delivered normalised and the connection stays ready |
| Codes.BlockWellFormed | src/connection.rs:1017-2056 | Such a reply is one well-formed reply |
| Codes.PrefixDelivered | src/connection.rs:1941-1957 | A BODY reply read up to a bound gives the first bytes; the connection is kept exactly when the body is below the bound |
| Codes.RowsDelivered | src/connection.rs:1469-1541 | XOVER end to end: the rows a server sends for the range are the rows returned, with nothing defective |
| Codes.FormatDelivered | src/connection.rs:1393-1440 | LIST OVERVIEW.FMT end to end: a valid format sent is the format returned |
| ConnectionModel.NntpConnection.WriteArticleBytes | src/connection.rs:2184-2231 | The piecewise writing loop uploads exactly the encoding of the article |
| ConnectionModel.NntpConnection.WriteArticleLines | src/connection.rs:2100-2128 | The `str::lines` loop uploads exactly its encoding |
| ConnectionModel.NntpConnection.PostArticleBytes | src/connection.rs:2159-2252 | POST: the server receives the encoded article, whole and once, only after a 340; stays in step |
| ConnectionModel.NntpConnection.PostArticle | src/connection.rs:2072-2149 | The same for the `str::lines` encoder |
| PipelineModel.PipelineMatchesFetch | src/pipeline.rs:139-184 | A pipelined reply means what `fetch_article` makes of it, but for the spelling of the id in a not-found error |
| PipelineModel.AgainstFetchArticle | src/pipeline.rs:192-244 | A pipelined run against `fetch_article` one by one on another connection: results agree position by position up to the first reply that spoils that connection, and otherwise the server has been sent exactly the same |
| PipelineModel.FetchEach | src/connection.rs:1017-1117 | The loop over `fetch_article` sends the pipeline's commands and gets, up to the spelling of a not-found id, the server's answers |
| PipelineModel.OneByOneExact | src/pipeline.rs:192-244 | Result i carries the server's answer to request i up to the first aborting reply, and everything after that is aborted |
| PipelineModel.ReadsAlone | src/pipeline.rs:139-184 | Reading the oldest reply off the stream gives its request's outcome and leaves exactly the other replies |
| PipelineModel.Pipeline.FlushSends | src/pipeline.rs:94-120 | Keeps queue and cursor aligned, fills up to the depth, loses no request on success or on a failed flush, and exactly the one being written on a failed write |
| PipelineModel.Pipeline.ReceiveOne | src/pipeline.rs:124-187 | Keeps queue and cursor aligned, and gives the oldest request exactly the outcome of its own reply |
| PipelineModel.Interleave | src/pipeline.rs:94-187 | The alignment invariant and the depth bound hold after every interleaving of submits, sends and receives, also past failures; until a write fails every request is answered, in flight or pending |
| PipelineModel.Pipeline.ProcessAll | src/pipeline.rs:192-244 | On success one result per request in order; without a failed transfer the results of fetching one at a time, with the commands of all requests answered sent and no others but the rest, in order; a connection still ready afterwards is at a reply boundary |
| PipelineModel.AbortsExactly | src/pipeline.rs:206-217 | A run is given up on exactly the listed codes; exactly the other unexpected ones spoil the connection without ending the run |
| PipelineModel.AtTwoDepths | src/pipeline.rs:60-67 | Depth is unobservable: through any two pipelines, on connections to the same server at the same point, the results are the same unless a transfer fails on one of them |
| StatPipelineModel.CheckAllExact | src/pipeline.rs:297-372 | One result per id, in order, each from its own reply; otherwise the first error |
| StatPipelineModel.CheckAllSplit | src/pipeline.rs:301-369 | Working through a list is working through its front and then, from there, the rest |
| StatPipelineModel.CheckMatchesStat | src/pipeline.rs:333-363 | A pipelined STAT agrees with `stat_article` on found and missing, and on errors if and only if the code is not 403 |
| StatPipelineModel.CheckCodes | src/pipeline.rs:331-363 | Which codes mean found, missing and each error, each if and only if |
| StatPipelineModel.AgainstStat | src/pipeline.rs:297-372 | A pipelined check against `stat_article` one by one on another connection: the same said of every id and the same sent, or both fail at the same id |
| StatPipelineModel.StatPipeline.Execute | src/pipeline.rs:297-372 | Batching is unobservable for every sequence of reply lines, readable or not: the results or first error of checking one id at a time, ending at a reply boundary. Started ready and in step it stays in step; from any other usable connection success ends in step exactly when no line was left unread |
| StatPipelineModel.StaleReply | src/pipeline.rs:301-303 | On a connection in `Error` with one reply left unread, a check succeeds on that stale reply and the connection comes out ready, out of step |
| StatPipelineModel.RepliesInLines | src/pipeline.rs:326-363 | Reading a batch of replies line by line gives what checking one id at a time gives, and leaves nothing |
| StatPipelineModel.ObeyingAnswersInLines | src/pipeline.rs:293-296 | A server that obeys the protocol answers each STAT with one line |
| PoolSystem.StepKeeps | src/pool.rs:113-299 | Every step of every async task, cancellations and failures included, keeps the pool's invariant |
| PoolSystem.OpenConnectionBound | src/pool.rs:113-299 | In every reachable state, parked, probed, connecting and checked-out connections together are at most `connections` |
| PoolSystem.PermitConservation | src/pool.rs:54-64 | Permits free, owned, carried or on their way back always add up to `connections`; parked connections are ready and disarmed; at rest all permits are free |
| PoolSystem.NoConnectionShared | src/pool.rs:113-263 | No connection is ever in two places |
| PoolSystem.PlacesExactly | src/pool.rs:113-299 | Conservation of connections: a step moves them, but for the one it makes and exactly those it throws away |
| PoolSystem.ConnectionsConserved | src/pool.rs:113-299 | Over every run a connection once made is in exactly one place until a step throws it away |
| PoolSystem.ParkedIsReused | src/pool.rs:234-246 | A good connection given back is parked last, and the next to look at the idle list gets it, armed or to be probed |
| PoolSystem.ActiveCountExact | src/downloader.rs:182-265 | `connections_active` counts the connections between increment and return plus the counted guards the run has dropped; it is exact if and only if there was no such drop, and is then within the limit and back at zero at rest |
| PoolSystem.RunLeaks | src/pool.rs:54-64 | Over every run the counter goes wrong once for each counted guard dropped and on no other step |
| PoolSystem.LeakIsForGood | src/server.rs:235-254 | Whatever happens after such a drop, the counter stays at least as far above the truth |
| PoolSystem.CountedGuardDropped | src/pool.rs:54-64 | A run that connects, counts and drops one guard leaves the counter at one with nothing active |
| PoolSystem.DecrementNeverSaturates | src/server.rs:235-254 | The saturating decrement never meets zero |
| ServerModel.OthersRun | src/pool.rs:113-228 | Any run of the other async tasks leaves this one's state, the limit and its lock alone |
| ServerModel.AwaitAllows | src/pool.rs:113-228 | What an await point promises is kept by every run of the others from there |
| ServerModel.ServerState.FieldsSafe | src/pool.rs:113-299 | The fields are always where a legal run has brought them, so the bounds proved of every run hold of them |
| ServerModel.ServerState.Acquire | src/pool.rs:113-228 | Its own steps of the system are one of the listed ways through, in order; it ends with a ready, armed connection or with nothing held |
| ServerModel.ServerState.CheckHealth | src/pool.rs:159-192 | A stale connection is handed out armed, replaced, or given up with its permit, and nothing else |
| ServerModel.ServerState.Create | src/pool.rs:347-385 | Exactly one step: connected, or a failed or cancelled connect that gives the permit back once |
| ServerModel.ServerState.Release | src/pool.rs:234-263 | Right after its first section the idle list is the old one with the disarmed connection at its end, exactly when it was good, and no permit is returned yet; then the permit, and for a counted one the counter; it ends holding nothing |
| ServerModel.ServerState.ParkOrDrop | src/pool.rs:234-246 | That first section, on the real fields |
| ServerModel.ServerState.Discard | src/pool.rs:266-277 | Its first section leaves idle list and permits alone; then it returns its permit once, and for a counted one lowers the counter |
| ServerModel.ServerState.DropGuard | src/pool.rs:54-64 | A dropped guard returns its permit exactly if armed |
| ServerModel.ServerState.CloseIdle | src/pool.rs:285-299 | Empties the parked list and frees no permit |
| DownloaderModel.RankedExactly | src/downloader.rs:81-98 | The servers are the configurations at exactly the enabled places, by ascending priority and, within one, in configured order |
| DownloaderModel.RankedCount | src/downloader.rs:85-88 | No enabled server is lost or repeated, and no disabled one is kept |
| DownloaderModel.RankedOrder | src/downloader.rs:81-98 | Within a priority, ranking the servers is filtering the configured ones |
| DownloaderModel.PassProgress | src/downloader.rs:147-271 | Every pass of the loop strictly decreases the work left |
| DownloaderModel.PassesBounded | src/downloader.rs:147-271 | At most articles times (distinct servers + 1) passes, whatever the servers do |
| DownloaderModel.QueueRotates | src/downloader.rs:139-273 | The requests ahead get their turn, one pass each, before any that has been put back, and reports only ever follow those made |
| DownloaderModel.RunPasses | src/downloader.rs:147-271 | Without a shutdown the run is those passes and then the rest |
| DownloaderModel.ArticlesConserved | src/downloader.rs:139-273 | The articles given are always those reported plus those pending; without shutdown each is reported exactly once |
| DownloaderModel.NoServerTwice | src/downloader.rs:160-265 | No request is attempted twice on one server id, nor on an id it came in with as tried |
| DownloaderModel.OnlyGenuine | src/downloader.rs:190-213 | Data is only delivered as an available, connected server answered it |
| DownloaderModel.ExhaustedOnlyIfRuledOut | src/downloader.rs:160-176 | In every world an article is reported exhausted only if, at some pass, each server was initially tried, tried for it, or unavailable just then |
| DownloaderModel.ExhaustedExactly | src/downloader.rs:160-176 | The front request is reported exhausted if and only if every server is tried or unavailable at that pass |
| DownloaderModel.ExhaustedThoughHeld | src/downloader.rs:281-293 | With the one server that has the article unavailable at the first pass, the article is reported exhausted |
| DownloaderModel.FailoverRefinesSimpleRule | src/downloader.rs:139-273 | With servers steady, every article gets exactly the simple rule's result |
| DownloaderModel.FirstServerThatHasIt | src/downloader.rs:160-227 | With distinct ids that is the first server not initially tried that has the article, and exhausted exactly when none has |
| DownloaderModel.PlainRuleExactly | src/downloader.rs:281-316 | The scheduler follows that rule for every store if and only if no two servers share an id |
| DownloaderModel.BestPriorityServes | src/downloader.rs:281-316 | The serving server has the best priority among those that have the article, and comes first among them in configured order within that priority |
| DownloaderModel.Downloader.PickServer | src/downloader.rs:281-316 | The scan finds the first available server whose id is not tried |
| DownloaderModel.Downloader.TryServer | src/downloader.rs:182-265 | One attempt: statistics change only after a connect, active counts come back to what they were, and the server is penalized exactly on a failed connect or a fatal failure |
| DownloaderModel.Downloader.Download | src/downloader.rs:128-274 | The loop computes the run of passes; active counts are restored, the servers together gain the bytes delivered and one success per article delivered, and the servers penalized are exactly those of its failed connects and fatal failures |
| Overview.ParseRows | src/overview.rs:95-139 | The one-pass parser with its set of numbers seen computes the declarative classification |
| Overview.ReasonExactly | src/overview.rs:107-119 | A line is accepted, or defective for each reason, exactly as its numeral, its range, its field count and the lines before it say |
| Overview.WireLinesCut | src/overview.rs:141-146 | Lines are cut at LF, one CR is taken off the end, and empty ones are skipped |
| Overview.EveryLineLands | src/overview.rs:95-139 | Every non-empty line lands in exactly one of rows and defective rows, whole and in input order |
| Overview.RowsSound | src/overview.rs:95-139 | Accepted numbers are distinct and in range, and rows have the negotiated number of fields |
| Overview.DuplicateExactly | src/overview.rs:113-115 | An otherwise good line is a duplicate if and only if an earlier accepted row has its number |
| Overview.LineRebuilt | src/overview.rs:103-106 | A line is its number text followed by its fields, joined with tabs |
| Overview.RowsRoundTrip | src/overview.rs:95-146 | Printing well-formed rows and parsing them gives the same rows and no defects |
| Overview.WireLinesJoin | src/overview.rs:141-146 | Non-empty LF-free lines sent with CRLF are split back exactly |
| Overview.ParseFormat | src/overview.rs:58-93 | The loop accepts exactly the valid formats and keeps every descriptor as sent |
| Overview.FormatRoundTrip | src/overview.rs:58-93 | A valid format, sent one descriptor a line, reads back |
| Overview.StandardFormats | src/overview.rs:58-93 | The standard formats are accepted under either pair of metadata names with up to 57 extra descriptors; mixed or swapped names are refused |
| Overview.SameIgnoringCaseExactly | src/overview.rs:67-69 | Names are compared up to the case of ASCII letters |
| Overview.FormatRefused | src/overview.rs:62-82 | Fewer than 7 or more than 64 descriptors, or one that is empty, over 256 bytes or not ASCII, is refused |

## Left out

- TCP, TLS, SOCKS5, socket options, the heartbeat and timeouts as real time: a failed or timed-out read or write is a nondeterministic fault.
- gzip and its negotiation: every block is read uncompressed.
- `connect`, authentication and capability negotiation: alignment is claimed from a ready, settled connection on; `connect` itself swallows a failed CAPABILITIES read.
- The lenient parsers of XOVER, XHDR, LIST ACTIVE and GROUP numbers: they replace what they cannot read by zero. These commands are covered as exchanges, not in how their data is parsed.
- XPAT's own argument rules and its bounded variant: only its exchange is modelled.
- The wording of error messages: errors keep a payload only where it carries data.
- `AllServersExhausted` as its own error: it is the `Exhausted` report.
- Speed, failure ratio and penalty lengths: availability is an oracle, so every penalty policy is covered and none is described.
- Pause, ramp-up and bandwidth yielding: timing only; shutdown seen while paused is an oracle answer like any other.
- QUIT, the body-buffer pool and `PooledConnection::unmanaged`.
- A server that answers before it has been sent the flushed commands: it answers at the flush.
- Connections that `close_idle` is still closing: they have left the pool and are outside the count, as in the code.
- Aliasing of pooled connections and servers: both are values inside their owner, with an identity number for a connection.
- The rest of the mock server.
- DownloaderModel.Downloader.Download: one download at a time on its servers; what interleaved downloads do to the pool and the active count is `PoolSystem`, and what they do to availability and answers is in the oracles.
- DownloaderModel.Downloader.TryServer: release and discard are the same for these counters; the two are told apart in `ServerModel`.
- ServerModel.ServerState.Await: its body takes no step; callers are verified against its contract, which allows any run of the others.
- ServerModel.ServerState.Acquire: says nothing about how long it waits for a permit, nor about fairness.
- Peer.WriteMultilineBody: when the socket closes early nothing is said about the part written.
