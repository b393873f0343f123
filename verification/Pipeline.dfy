/**
 * Pipelined fetching over one connection (RFC 3977 section 3.5). Replies are matched to requests by queue
 * position alone, so the claims rest on every reply being consumed to its last byte.
 */
module PipelineModel {
  import opened Bytes
  import opened ConnectionModel
  import opened Status
  import opened Wire

  datatype Request = Request(id: Text, tag: nat)

  /** One use of a pipeline by its owner. */
  datatype Turn = Queue(id: Text, tag: nat) | Send | Receive

  datatype Fetched = Fetched(request: Request, result: Result<Response>)

  /** The pipeline's own bracketing of ids: it looks only at the first character. */
  function PipelineId(id: Text): Text {
    if id != [] && id[0] == LT then id else [LT] + id + [GT]
  }

  /** The pipeline and `fetch_article` send the same command for exactly the ids that are not left unclosed. */
  lemma SameCommand(id: Text)
    ensures PipelineId(id) == NormalizeId(id) <==> !Unclosed(id)
  {
    if Unclosed(id) {
      assert |[LT] + id + [GT]| == |id| + 2;
    }
  }

  predicate Unclosed(id: Text) {
    id != [] && id[0] == LT && !EndsWith(id, GT)
  }

  function CommandOf(request: Request): Command {
    Command(Article, PipelineId(request.id))
  }

  /** What the server's reply means for a request, wherever it sits in the queue. */
  function Outcome(request: Request, reply: Text): Result<Response> {
    Meaning(FetchArticle, request.id, None, reply)
  }

  /** The errors after which `process_all` gives up; a protocol error is not among them. */
  predicate Aborts(r: Result<Response>) {
    r.Err? && (r.error.Auth? || r.error.AuthRequired? || r.error.PermissionDenied?
               || r.error.ServiceUnavailable? || r.error.Connection? || r.error.Io?)
  }

  function Aborted(requests: seq<Request>): seq<Fetched> {
    seq(|requests|, i requires 0 <= i < |requests| => Fetched(requests[i], Err(Connection)))
  }

  /** The results of fetching one at a time, each request sent only once the one before it is answered. */
  function OneByOne(server: Server, hist: seq<Command>, requests: seq<Request>): seq<Fetched>
    decreases |requests|
  {
    if requests == [] then [] else
    var next := hist + [CommandOf(requests[0])];
    var first := Fetched(requests[0], Outcome(requests[0], server(next)));
    [first] + if Aborts(first.result) then Aborted(requests[1..]) else OneByOne(server, next, requests[1..])
  }

  /** What the server says to the `k`th request when all before it have been sent. */
  function Answer(server: Server, hist: seq<Command>, requests: seq<Request>, k: nat): Result<Response>
    requires k < |requests|
  {
    Outcome(requests[k], server(hist + Commands(CommandOf, requests[..k + 1])))
  }

  ghost predicate AbortedBefore(server: Server, hist: seq<Command>, requests: seq<Request>, k: nat)
    requires k <= |requests|
  {
    exists j :: 0 <= j < k && Aborts(Answer(server, hist, requests, j))
  }

  lemma AnswerFirst(server: Server, hist: seq<Command>, requests: seq<Request>)
    requires requests != []
    ensures Answer(server, hist, requests, 0) == Outcome(requests[0], server(hist + [CommandOf(requests[0])]))
  {
    assert requests[..1] == [requests[0]];
    assert Commands(CommandOf, requests[..1]) == [CommandOf(requests[0])];
  }

  lemma AnswerRest(server: Server, hist: seq<Command>, requests: seq<Request>, k: nat)
    requires 0 < k < |requests|
    ensures Answer(server, hist, requests, k) == Answer(server, hist + [CommandOf(requests[0])], requests[1..], k - 1)
  {
    var first, rest := CommandOf(requests[0]), requests[1..][..k];
    assert requests[..k + 1] == [requests[0]] + rest;
    assert ([requests[0]] + rest)[1..] == rest;
    assert Commands(CommandOf, requests[..k + 1]) == [first] + Commands(CommandOf, rest);
    assert hist + ([first] + Commands(CommandOf, rest)) == hist + [first] + Commands(CommandOf, rest);
  }

  lemma AbortedBeforeRest(server: Server, hist: seq<Command>, requests: seq<Request>, k: nat)
    requires 0 < k <= |requests|
    ensures AbortedBefore(server, hist, requests, k) <==>
      || Aborts(Answer(server, hist, requests, 0))
      || AbortedBefore(server, hist + [CommandOf(requests[0])], requests[1..], k - 1)
  {
    var next := hist + [CommandOf(requests[0])];
    forall j | 0 < j < k
      ensures Answer(server, hist, requests, j) == Answer(server, next, requests[1..], j - 1)
    {
      AnswerRest(server, hist, requests, j);
    }
    if AbortedBefore(server, next, requests[1..], k - 1) {
      var j :| 0 <= j < k - 1 && Aborts(Answer(server, next, requests[1..], j));
      assert Aborts(Answer(server, hist, requests, j + 1));
    }
  }

  /**
   * What the results of a run are, position by position: each request in order carries what the server
   * answers to it, up to the first aborting reply; everything after that is reported as aborted.
   */
  lemma {:induction false} OneByOneExact(server: Server, hist: seq<Command>, requests: seq<Request>, k: nat)
    requires k < |requests|
    ensures var results := OneByOne(server, hist, requests);
      && |results| == |requests|
      && results[k] == Fetched(requests[k], if AbortedBefore(server, hist, requests, k) then Err(Connection)
                                            else Answer(server, hist, requests, k))
    decreases |requests|
  {
    hide Outcome, CommandOf, Aborts;
    var next, rest := hist + [CommandOf(requests[0])], requests[1..];
    var first := Outcome(requests[0], server(next));
    var tail := if Aborts(first) then Aborted(rest) else OneByOne(server, next, rest);
    assert OneByOne(server, hist, requests) == [Fetched(requests[0], first)] + tail;
    AnswerFirst(server, hist, requests);
    if rest != [] && !Aborts(first) {
      OneByOneExact(server, next, rest, if k == 0 then 0 else k - 1);
    }
    if k > 0 {
      AbortedBeforeRest(server, hist, requests, k);
      AnswerRest(server, hist, requests, k);
      assert OneByOne(server, hist, requests)[k] == tail[k - 1];
    }
  }

  class Pipeline {
    const depth: nat
    /** Sent, not yet answered. */
    var inFlight: seq<Request>
    /** Not yet sent. */
    var pending: seq<Request>

    constructor (depth: nat)
      ensures this.depth == (if depth == 0 then 1 else depth) && inFlight == [] && pending == []
    {
      this.depth := if depth == 0 then 1 else depth;
      inFlight, pending := [], [];
    }

    predicate Valid()
      reads this
    {
      1 <= depth && |inFlight| <= depth
    }

    /**
     * Queue and cursor in step after the commands `hist`: the server has seen `hist` and the commands in flight,
     * and what is unread is exactly its replies to those, in queue order.
     */
    ghost predicate Aligned(conn: NntpConnection, hist: seq<Command>)
      reads this, conn
    {
      && conn.open && conn.outbox == [] && conn.upload == []
      && conn.sent == hist + Commands(CommandOf, inFlight)
      && conn.unread == Replies(conn.server, hist, Commands(CommandOf, inFlight))
    }

    /**
     * The alignment invariant: either a transfer failed and the connection says so, or all is aligned.
     * Alignment is claimed while `lawful`, that is, for a server that obeys the protocol.
     */
    ghost predicate Tracks(conn: NntpConnection, hist: seq<Command>, lawful: bool)
      reads this, conn
    {
      && Valid()
      && (conn.broken ==> conn.state == Error)
      && (lawful && !conn.broken ==> Aligned(conn, hist))
    }

    method Submit(id: Text, tag: nat)
      modifies this
      ensures inFlight == old(inFlight) && pending == old(pending) + [Request(id, tag)]
    {
      pending := pending + [Request(id, tag)];
    }

    /** Write commands up to the depth, unflushed. */
    method WriteSends(conn: NntpConnection) returns (ok: bool, ghost moved: seq<Request>)
      requires Valid()
      modifies this, conn`outbox, conn`broken, conn`state
      ensures Valid()
      ensures ok ==> inFlight == old(inFlight) + moved && inFlight + pending == old(inFlight + pending)
      ensures ok ==> |inFlight| == depth || pending == []
      ensures ok ==> conn.broken == old(conn.broken) && conn.state == old(conn.state)
      ensures ok ==> conn.outbox == old(conn.outbox) + Commands(CommandOf, moved) && (conn.open || moved == [])
      ensures !ok ==> conn.state == Error && (if conn.open then conn.broken else conn.broken == old(conn.broken))
      ensures old(conn.broken) ==> conn.broken
      ensures !ok ==> |inFlight| < depth && exists lost :: inFlight + [lost] + pending == old(inFlight + pending)
    {
      moved := [];
      assert inFlight + [] == inFlight && conn.outbox + [] == conn.outbox;
      while |inFlight| < depth && pending != []
        invariant Valid() && inFlight + pending == old(inFlight + pending)
        invariant inFlight == old(inFlight) + moved
        invariant conn.broken == old(conn.broken) && conn.state == old(conn.state)
        invariant conn.outbox == old(conn.outbox) + Commands(CommandOf, moved)
        invariant conn.open || moved == []
        decreases |pending|
      {
        var req := pending[0];
        pending := pending[1..];
        assert inFlight + [req] + pending == old(inFlight + pending);
        var written := conn.SendNoFlush(CommandOf(req));
        if !written {
          conn.state := Error;
          return false, moved;
        }
        CommandsAppend(CommandOf, moved, [req]);
        assert Commands(CommandOf, [req]) == [CommandOf(req)];
        moved := moved + [req];
        inFlight := inFlight + [req];
      }
      return true, moved;
    }

    /**
     * Send up to the depth. A failed write loses exactly the request it was writing, with room left in the pipeline;
     * a failed flush loses none, and comes only after the pipeline has been filled with something new.
     */
    method FlushSends(conn: NntpConnection, ghost hist: seq<Command>, ghost lawful: bool)
      returns (ok: bool, ghost written: bool)
      requires Tracks(conn, hist, lawful)
      modifies this, conn
      ensures Tracks(conn, hist, lawful)
      ensures ok ==> conn.broken == old(conn.broken) && conn.state == old(conn.state)
      ensures ok ==> inFlight + pending == old(inFlight + pending) && old(inFlight) <= inFlight
      ensures ok ==> |inFlight| == depth || pending == []
      ensures !ok ==> conn.state == Error && (lawful ==> conn.broken)
      ensures old(conn.broken) ==> conn.broken
      ensures ok ==> written
      ensures !written ==>
        |inFlight| < depth && exists lost :: inFlight + [lost] + pending == old(inFlight + pending)
      ensures written ==>
        inFlight + pending == old(inFlight + pending) && (|inFlight| == depth || pending == [])
      ensures !ok && written ==> |old(inFlight)| < |inFlight|
    {
      ghost var moved;
      var before := |inFlight|;
      hide Replies, Commands, CommandOf;
      ok, moved := WriteSends(conn);
      written := ok;
      if !ok {
        return;
      }
      ghost var owed := Commands(CommandOf, moved);
      assert lawful && !conn.broken ==> conn.outbox == owed;
      InFlightGrows(conn.server, hist, old(inFlight), moved);
      if |inFlight| > before {
        ok := conn.Flush();
        if !ok {
          conn.state := Error;
          return;
        }
      } else {
        assert moved == [] && inFlight == old(inFlight);
      }
    }

    /** The match on the status of a reply: what the request gets, and whether the connection is given up. */
    method Interpret(conn: NntpConnection, request: Request, st: Status) returns (result: Result<Response>)
      modifies conn`state, conn`unread, conn`broken
      ensures var d := Dispose(FetchArticle, request.id, st);
        old(conn.open && !conn.broken) ==>
        || (conn.broken && conn.state == Error)
        || (!conn.broken && result == Acted(d, st, None, old(conn.unread))
            && conn.state == (if Settles(d, result) then old(conn.state) else Error))
      ensures conn.broken && !old(conn.broken) ==> conn.state == Error && Aborts(result)
      ensures old(conn.broken) ==> conn.broken
      ensures conn.state == old(conn.state) || conn.state == Error
      ensures st.code != 220 ==> conn.unread == old(conn.unread) && conn.broken == old(conn.broken)
      ensures st.code == 220 && result.Ok? ==> Scan(old(conn.unread), None).end == Terminated(conn.unread)
    {
      if st.code == 220 {
        var data := conn.ReadMultilineBody(None);
        if data.Ok? {
          return Ok(Response(st.code, st.message, Some(data.value)));
        }
        conn.state := Error;
        return Err(data.error);
      } else if st.code == 430 {
        return Err(ArticleNotFound(request.id));
      } else if st.code == 411 {
        return Err(NoSuchGroup(st.message));
      } else if st.code == 412 || st.code == 420 || st.code == 423 {
        return Err(NoArticleSelected(st.message));
      }
      conn.state := Error;
      if st.code == 403 {
        return Err(PermissionDenied(st.message));
      } else if st.code == 480 {
        return Err(AuthRequired(st.message));
      } else if st.code == 481 || st.code == 482 {
        return Err(Auth(st.message));
      } else if st.code == 502 {
        return Err(ServiceUnavailable(st.message));
      }
      return Err(UnexpectedArticle(st));
    }

    /** Read the reply to the oldest request in flight, to its last byte. */
    method ReceiveOne(conn: NntpConnection, ghost hist: seq<Command>, ghost lawful: bool)
      returns (r: Result<Option<Fetched>>)
      requires Tracks(conn, hist, lawful) && (lawful ==> Obeys(conn.server))
      modifies this`inFlight, conn`state, conn`unread, conn`broken
      ensures old(conn.broken) ==> conn.broken
      ensures conn.state == old(conn.state) || conn.state == Error
      ensures old(inFlight) == [] ==> r == Ok(None) && inFlight == [] && unchanged(conn)
      ensures old(inFlight) != [] ==>
        && inFlight == old(inFlight)[1..]
        && Tracks(conn, hist + [CommandOf(old(inFlight)[0])], lawful)
        && (r.Ok? ==> r.value.Some? && r.value.value.request == old(inFlight)[0])
        && (r.Err? ==> conn.state == Error && (lawful ==> conn.broken))
      ensures old(inFlight) != [] && lawful && !conn.broken ==>
        var reply := conn.server(hist + [CommandOf(old(inFlight)[0])]);
        && r == Ok(Some(Fetched(old(inFlight)[0], Outcome(old(inFlight)[0], reply))))
        && conn.state == if Survives(FetchArticle, old(inFlight)[0].id, None, reply) then old(conn.state) else Error
    {
      hide Dispose, Obeys, Scan, Acted, Settles, ReadStatus, Survives, WellFormedReply;
      hide Replies, Commands, AfterLine, Outcome, PipelineId;
      if inFlight == [] {
        return Ok(None);
      }
      var request := inFlight[0];
      inFlight := inFlight[1..];
      ghost var next := hist + [CommandOf(request)];
      if lawful {
        OldestReply(conn.server, hist, request, inFlight);
        ReadsAlone(request, conn.server(next), Replies(conn.server, next, Commands(CommandOf, inFlight)));
        assert old(inFlight) == [request] + inFlight;
      }
      var status := conn.ReadResponseLine();
      if status.Err? {
        conn.state := Error;
        return Err(status.error);
      }
      var result := Interpret(conn, request, status.value);
      r := Ok(Some(Fetched(request, result)));
    }

    /** Any one call; `taken` is the request it answers, if any, and `kept` that no write failed. */
    method TakeTurn(conn: NntpConnection, turn: Turn, ghost hist: seq<Command>, ghost lawful: bool)
      returns (ghost kept: bool, ghost taken: seq<Request>)
      requires Tracks(conn, hist, lawful) && (lawful ==> Obeys(conn.server))
      modifies this, conn
      ensures Tracks(conn, hist + Commands(CommandOf, taken), lawful)
      ensures kept ==> taken + (inFlight + pending) == old(inFlight + pending) + Submitted(turn)
      ensures !kept ==>
        turn.Send? && taken == [] && exists lost :: inFlight + [lost] + pending == old(inFlight + pending)
    {
      hide Obeys, Outcome, Survives, PipelineId, Replies, CommandOf;
      kept, taken := true, [];
      assert hist + [] == hist;
      match turn {
        case Queue(id, tag) => Submit(id, tag);
        case Send =>
          var _, written := FlushSends(conn, hist, lawful);
          kept := written;
        case Receive =>
          ghost var queue := inFlight;
          var _ := ReceiveOne(conn, hist, lawful);
          if queue != [] {
            taken := [queue[0]];
            assert Commands(CommandOf, taken) == [CommandOf(queue[0])];
            assert taken + inFlight == queue;
          }
      }
    }

    /** Report everything still queued as aborted, the requests in flight first. */
    method Drain(results: seq<Fetched>) returns (all: seq<Fetched>)
      modifies this
      ensures inFlight == [] && pending == []
      ensures all == results + Aborted(old(inFlight + pending))
    {
      hide Aborted;
      all := results;
      AbortedNone(results);
      ghost var queued := inFlight + pending;
      ghost var k := 0;
      assert queued[0..] == queued;
      while inFlight != []
        invariant k <= |queued| && inFlight + pending == queued[k..] && all == results + Aborted(queued[..k])
        decreases |inFlight|
      {
        var req := inFlight[0];
        inFlight := inFlight[1..];
        assert queued[k] == req && queued[k + 1..] == queued[k..][1..] && inFlight + pending == queued[k + 1..];
        AbortedStep(results, queued, k);
        all := all + [Fetched(req, Err(Connection))];
        k := k + 1;
      }
      while pending != []
        invariant inFlight == []
        invariant k <= |queued| && inFlight + pending == queued[k..] && all == results + Aborted(queued[..k])
        decreases |pending|
      {
        var req := pending[0];
        pending := pending[1..];
        assert queued[k] == req && queued[k + 1..] == queued[k..][1..];
        AbortedStep(results, queued, k);
        all := all + [Fetched(req, Err(Connection))];
        k := k + 1;
      }
      assert queued[..k] == queued;
    }

    /** With nothing in flight, alignment is a reply boundary. */
    lemma EmptyQueueSettled(conn: NntpConnection, hist: seq<Command>, lawful: bool)
      requires Tracks(conn, hist, lawful) && inFlight == []
      ensures lawful && conn.state == Ready ==> conn.Settled()
    {
    }

    lemma EmptyQueueCovers(conn: NntpConnection, hist: seq<Command>, lawful: bool)
      requires Tracks(conn, hist, lawful) && inFlight == [] && pending == []
      ensures lawful && !conn.broken ==> Covers(conn.sent, conn.server, hist, [])
    {
      assert hist + [] == hist;
    }

    /** When a run is given up, what has been sent ends with the commands still in flight. */
    lemma AbortCovers(conn: NntpConnection, hist: seq<Command>, lawful: bool)
      requires Tracks(conn, hist, lawful)
      ensures lawful && !conn.broken ==> hist <= conn.sent <= hist + Commands(CommandOf, inFlight + pending)
    {
      CommandsAppend(CommandOf, inFlight, pending);
      Regroup(hist, Commands(CommandOf, inFlight), Commands(CommandOf, pending));
    }

    /**
     * Keep the pipeline full and read the replies in order. On `Ok` every request has its result, in order;
     * without a failed transfer the results are those of fetching one at a time, whatever the depth. A connection
     * that is still ready afterwards is at a reply boundary. The server has been sent the commands of the requests
     * answered, at least, and of all requests, at most.
     */
    method ProcessAll(conn: NntpConnection, ghost hist: seq<Command>, ghost lawful: bool) returns (r: Result<seq<Fetched>>)
      requires Tracks(conn, hist, lawful) && (lawful ==> Obeys(conn.server))
      modifies this, conn
      ensures r.Ok? ==> inFlight == [] && pending == []
      ensures r.Ok? ==> RequestsOf(r.value) == old(inFlight + pending)
      ensures lawful && !conn.broken ==> r == Ok(OneByOne(conn.server, hist, old(inFlight + pending)))
      ensures r.Err? ==> conn.state == Error
      ensures conn.state == old(conn.state) || conn.state == Error
      ensures lawful && conn.state == Ready ==> conn.Settled()
      ensures lawful && !conn.broken ==> Covers(conn.sent, conn.server, hist, old(inFlight + pending))
    {
      hide Covers, AnsweredCount;
      hide Obeys, Outcome, Survives, PipelineId, Replies, Commands, Aligned, Aborts;
      var results: seq<Fetched> := [];
      ghost var all := inFlight + pending;
      ghost var now := hist;
      ghost var target := OneByOne(conn.server, hist, all);
      while true
        invariant Tracks(conn, now, lawful) && (conn.state == old(conn.state) || conn.state == Error)
        invariant RequestsOf(results) + (inFlight + pending) == all
        invariant lawful && !conn.broken ==> results + OneByOne(conn.server, now, inFlight + pending) == target
        invariant lawful && !conn.broken ==> forall sent: seq<Command> ::
          Covers(sent, conn.server, now, inFlight + pending) ==> Covers(sent, conn.server, hist, all)
        decreases |inFlight| + |pending|
      {
        ghost var queue := inFlight + pending;
        var ok, _ := FlushSends(conn, now, lawful);
        if !ok {
          return Err(Io);
        }
        if inFlight == [] {
          assert RequestsOf(results) + [] == RequestsOf(results) && results + [] == results;
          EmptyQueueSettled(conn, now, lawful);
          EmptyQueueCovers(conn, now, lawful);
          break;
        }
        ghost var first, rest := queue[0], queue[1..];
        assert queue == [first] + rest && first == inFlight[0] && rest == inFlight[1..] + pending;
        var received := ReceiveOne(conn, now, lawful);
        if received.Err? {
          return Err(received.error);
        }
        var result := received.value.value;
        RequestsOfAppend(results, result, rest);
        OneByOneStep(conn.server, now, first, rest, results);
        CoversStep(conn.server, now, first, rest);
        now := now + [CommandOf(first)];
        results := results + [result];
        AbortingSpoils(first, conn.server(now));
        if Aborts(result.result) {
          ghost var base := results;
          AbortCovers(conn, now, lawful);
          results := Drain(results);
          RequestsOfAborted(base, rest);
          break;
        }
      }
      r := Ok(results);
    }
  }

  /** How many requests are answered: all, or those up to the first aborting reply. */
  function AnsweredCount(server: Server, hist: seq<Command>, requests: seq<Request>): (n: nat)
    ensures n <= |requests|
    decreases |requests|
  {
    if requests == [] then 0 else
    var next := hist + [CommandOf(requests[0])];
    if Aborts(Outcome(requests[0], server(next))) then 1 else 1 + AnsweredCount(server, next, requests[1..])
  }

  /** `sent` has the command of every request answered, and no other than those of the requests, in order. */
  predicate Covers(sent: seq<Command>, server: Server, hist: seq<Command>, requests: seq<Request>) {
    && hist + Commands(CommandOf, requests[..AnsweredCount(server, hist, requests)]) <= sent
    && sent <= hist + Commands(CommandOf, requests)
  }

  lemma CoversStep(server: Server, hist: seq<Command>, first: Request, rest: seq<Request>)
    ensures var next := hist + [CommandOf(first)];
      forall sent: seq<Command> ::
        (if Aborts(Outcome(first, server(next))) then next <= sent <= next + Commands(CommandOf, rest)
         else Covers(sent, server, next, rest))
        ==> Covers(sent, server, hist, [first] + rest)
  {
    hide Commands, CommandOf, Outcome, Aborts;
    var next, queue := hist + [CommandOf(first)], [first] + rest;
    var n := AnsweredCount(server, hist, queue);
    assert queue[1..] == rest && queue[..n] == [first] + rest[..n - 1];
    CommandsCons(CommandOf, first, rest);
    CommandsCons(CommandOf, first, rest[..n - 1]);
    Regroup(hist, [CommandOf(first)], Commands(CommandOf, rest));
    Regroup(hist, [CommandOf(first)], Commands(CommandOf, rest[..n - 1]));
    if n == 1 {
      CommandsNone(CommandOf, rest[..0]);
      assert next + [] == next;
    }
  }

  function Submitted(turn: Turn): seq<Request> {
    if turn.Queue? then [Request(turn.id, turn.tag)] else []
  }

  /** The requests a sequence of turns submits. */
  function Queued(turns: seq<Turn>): seq<Request> {
    if turns == [] then [] else
    var last := turns[|turns| - 1];
    Queued(turns[..|turns| - 1]) + Submitted(last)
  }

  /**
   * The alignment invariant over every interleaving of `submit`, `flush_sends` and `receive_one`, also past
   * failures. From a fresh pipeline on a settled connection it holds after any turns, `answered` being the requests
   * taken off the queue so far; until a write fails, every request submitted is answered, in flight or pending.
   */
  method Interleave(conn: NntpConnection, pipeline: Pipeline, turns: seq<Turn>, ghost lawful: bool)
    returns (ghost kept: bool, ghost answered: seq<Request>)
    requires pipeline.Valid() && pipeline.inFlight == [] && pipeline.pending == []
    requires conn.state == Ready && conn.Settled() && (lawful ==> Obeys(conn.server))
    modifies conn, pipeline
    ensures pipeline.Tracks(conn, old(conn.sent) + Commands(CommandOf, answered), lawful)
    ensures kept ==> answered + (pipeline.inFlight + pipeline.pending) == Queued(turns)
  {
    kept, answered := true, [];
    ghost var hist := conn.sent;
    assert hist + [] == hist;
    hide Obeys, Replies, Commands, Pipeline.Tracks;
    for k := 0 to |turns|
      invariant pipeline.Tracks(conn, hist + Commands(CommandOf, answered), lawful)
      invariant kept ==> answered + (pipeline.inFlight + pipeline.pending) == Queued(turns[..k])
    {
      assert turns[..k + 1][..k] == turns[..k];
      ghost var before := pipeline.inFlight + pipeline.pending;
      ghost var keeps, taken := pipeline.TakeTurn(conn, turns[k], hist + Commands(CommandOf, answered), lawful);
      CommandsAppend(CommandOf, answered, taken);
      Regroup(hist, Commands(CommandOf, answered), Commands(CommandOf, taken));
      Regroup(answered, taken, pipeline.inFlight + pipeline.pending);
      Regroup(answered, before, Submitted(turns[k]));
      kept, answered := kept && keeps, answered + taken;
    }
    assert turns[..|turns|] == turns;
  }

  lemma Regroup<T>(a: seq<T>, b: seq<T>, c: seq<T>)
    ensures a + b + c == a + (b + c)
  {
  }

  lemma AbortedNone(results: seq<Fetched>)
    ensures results + Aborted([]) == results
  {
  }

  lemma AbortedStep(results: seq<Fetched>, queued: seq<Request>, k: nat)
    requires k < |queued|
    ensures results + Aborted(queued[..k]) + [Fetched(queued[k], Err(Connection))] == results + Aborted(queued[..k + 1])
  {
  }

  function RequestsOf(results: seq<Fetched>): seq<Request> {
    seq(|results|, i requires 0 <= i < |results| => results[i].request)
  }

  lemma RequestsOfAppend(results: seq<Fetched>, next: Fetched, rest: seq<Request>)
    ensures RequestsOf(results + [next]) + rest == RequestsOf(results) + ([next.request] + rest)
  {
  }

  lemma RequestsOfAborted(results: seq<Fetched>, rest: seq<Request>)
    ensures RequestsOf(results + Aborted(rest)) == RequestsOf(results) + rest
  {
  }

  lemma OneByOneStep(server: Server, hist: seq<Command>, first: Request, rest: seq<Request>, results: seq<Fetched>)
    ensures var next := hist + [CommandOf(first)];
      var fetched := Fetched(first, Outcome(first, server(next)));
      results + OneByOne(server, hist, [first] + rest)
        == results + [fetched] + if Aborts(fetched.result) then Aborted(rest) else OneByOne(server, next, rest)
  {
    hide Outcome, Aborted, CommandOf, Aborts;
    assert ([first] + rest)[1..] == rest;
  }

  /**
   * Depth cannot be observed: the same requests, sent through any two pipelines over connections to the same server
   * at the same point of its history, give the same results unless a transfer fails on one of them.
   */
  method AtTwoDepths(conn1: NntpConnection, conn2: NntpConnection, pipeline1: Pipeline, pipeline2: Pipeline)
    returns (a: Result<seq<Fetched>>, b: Result<seq<Fetched>>)
    requires conn1 != conn2 && conn1.Settled() && conn2.Settled()
    requires conn1.server == conn2.server && Obeys(conn1.server) && conn1.sent == conn2.sent
    requires pipeline1 != pipeline2 && pipeline1.Valid() && pipeline2.Valid()
    requires pipeline1.inFlight == pipeline2.inFlight == [] && pipeline1.pending == pipeline2.pending
    modifies conn1, conn2, pipeline1, pipeline2
    ensures !conn1.broken ==> a == Ok(OneByOne(conn1.server, old(conn1.sent), old(pipeline1.pending)))
    ensures !conn2.broken ==> b == Ok(OneByOne(conn1.server, old(conn1.sent), old(pipeline1.pending)))
    ensures !conn1.broken && !conn2.broken ==> a == b
  {
    hide Obeys, OneByOne;
    FreshTracks(conn1, pipeline1);
    FreshTracks(conn2, pipeline2);
    a := pipeline1.ProcessAll(conn1, conn1.sent, true);
    b := pipeline2.ProcessAll(conn2, conn2.sent, true);
  }

  lemma FreshTracks(conn: NntpConnection, pipeline: Pipeline)
    requires conn.Settled() && pipeline.Valid() && pipeline.inFlight == []
    ensures pipeline.Tracks(conn, conn.sent, true)
    ensures pipeline.inFlight + pipeline.pending == pipeline.pending
  {
    assert conn.sent + [] == conn.sent;
  }

  /**
   * A pipelined fetch and a single `fetch_article` agree on everything but the spelling of the id in a
   * not-found error: the one reports it as given, the other bracketed.
   */
  lemma PipelineMatchesFetch(request: Request, reply: Text)
    ensures var piped, single := Outcome(request, reply), Meaning(FetchArticle, NormalizeId(request.id), None, reply);
      if single == Err(ArticleNotFound(NormalizeId(request.id))) then piped == Err(ArticleNotFound(request.id))
      else piped == single
  {
    hide UnexpectedArticle, ReadStatus, Bounded, Scan, AfterLine;
    if ReadStatus(reply).Ok? && ReadStatus(reply).value.code == 430 {
      assert Outcome(request, reply) == Err(ArticleNotFound(request.id));
    }
  }

  /** The same result, but for the spelling of the id in a not-found error. */
  predicate Alike(id: Text, piped: Result<Response>, single: Result<Response>) {
    if single == Err(ArticleNotFound(NormalizeId(id))) then piped == Err(ArticleNotFound(id)) else piped == single
  }

  lemma {:induction false} AnsweredAtLeast(server: Server, hist: seq<Command>, requests: seq<Request>, k: nat)
    requires k < |requests| && !AbortedBefore(server, hist, requests, k)
    ensures AnsweredCount(server, hist, requests) > k
    decreases k
  {
    hide Outcome, Aborts, CommandOf;
    AnswerFirst(server, hist, requests);
    if k > 0 {
      AbortedBeforeRest(server, hist, requests, k);
      AnsweredAtLeast(server, hist + [CommandOf(requests[0])], requests[1..], k - 1);
    }
  }

  /** Fetch one article after another over one connection, as long as it is ready. */
  method FetchEach(conn: NntpConnection, requests: seq<Request>) returns (single: seq<Result<Response>>)
    requires conn.state == Ready && conn.Settled() && Obeys(conn.server)
    requires forall k :: 0 <= k < |requests| ==> !Unclosed(requests[k].id)
    modifies conn
    ensures |single| <= |requests|
    ensures conn.state == Ready ==> |single| == |requests|
    ensures !conn.broken ==>
      && conn.sent == old(conn.sent) + Commands(CommandOf, requests[..|single|])
      && (forall k :: 0 <= k < |single| ==>
            Alike(requests[k].id, Answer(conn.server, old(conn.sent), requests, k), single[k]))
      && (forall k :: 0 <= k < |single| - 1 ==> !Aborts(Answer(conn.server, old(conn.sent), requests, k)))
  {
    hide Obeys, Outcome, Meaning, Survives, Aborts, Alike, PipelineId, NormalizeId;
    single := [];
    ghost var hist := conn.sent;
    assert requests[..0] == [] && hist + [] == hist;
    while |single| < |requests| && conn.state == Ready
      invariant |single| <= |requests| && (conn.state == Ready ==> conn.Settled() && !conn.broken)
      invariant conn.state != Ready ==> single != []
      invariant !conn.broken ==>
        && conn.sent == hist + Commands(CommandOf, requests[..|single|])
        && (forall k :: 0 <= k < |single| ==> Alike(requests[k].id, Answer(conn.server, hist, requests, k), single[k]))
        && (forall k :: 0 <= k < |single| - (if conn.state == Ready then 0 else 1) ==>
              !Aborts(Answer(conn.server, hist, requests, k)))
      decreases |requests| - |single|
    {
      var k := |single|;
      var r := conn.FetchArticle(requests[k].id);
      FetchedAlike(conn.server, hist, requests, k);
      single := single + [r];
    }
  }

  lemma FetchedAlike(server: Server, hist: seq<Command>, requests: seq<Request>, k: nat)
    requires k < |requests| && !Unclosed(requests[k].id)
    ensures var id := NormalizeId(requests[k].id);
      var sent := hist + Commands(CommandOf, requests[..k]) + [Command(Article, id)];
      && sent == hist + Commands(CommandOf, requests[..k + 1])
      && Alike(requests[k].id, Answer(server, hist, requests, k), Meaning(FetchArticle, id, None, server(sent)))
      && (Survives(FetchArticle, id, None, server(sent)) ==> !Aborts(Answer(server, hist, requests, k)))
  {
    hide Outcome, Meaning, Survives, Aborts, PipelineId, NormalizeId;
    var id := NormalizeId(requests[k].id);
    SameCommand(requests[k].id);
    assert CommandOf(requests[k]) == Command(Article, id);
    CommandsAppend(CommandOf, requests[..k], [requests[k]]);
    CommandsOne(CommandOf, requests[k]);
    assert requests[..k + 1] == requests[..k] + [requests[k]];
    Regroup(hist, Commands(CommandOf, requests[..k]), [CommandOf(requests[k])]);
    var reply := server(hist + Commands(CommandOf, requests[..k + 1]));
    PipelineMatchesFetch(requests[k], reply);
    AbortingSpoils(requests[k], reply);
  }

  /**
   * A pipelined run against fetching the same articles one by one over another connection to the same server. Up to
   * the first reply that spoils that connection, the results agree position by position; if none does, the server has
   * been sent exactly the same.
   */
  method AgainstFetchArticle(conn1: NntpConnection, conn2: NntpConnection, pipeline: Pipeline)
    returns (piped: Result<seq<Fetched>>, single: seq<Result<Response>>)
    requires conn1 != conn2 && conn1.Settled() && conn2.Settled() && conn2.state == Ready
    requires conn1.server == conn2.server && Obeys(conn1.server) && conn1.sent == conn2.sent
    requires pipeline.Valid() && pipeline.inFlight == []
    requires forall k :: 0 <= k < |pipeline.pending| ==> !Unclosed(pipeline.pending[k].id)
    modifies conn1, conn2, pipeline
    ensures |single| <= |old(pipeline.pending)|
    ensures conn2.state == Ready ==> |single| == |old(pipeline.pending)|
    ensures !conn1.broken && !conn2.broken ==>
      && piped.Ok? && |piped.value| == |old(pipeline.pending)|
      && (forall k :: 0 <= k < |single| ==>
            && piped.value[k].request == old(pipeline.pending)[k]
            && Alike(old(pipeline.pending)[k].id, piped.value[k].result, single[k]))
      && conn2.sent <= conn1.sent && (conn2.state == Ready ==> conn1.sent == conn2.sent)
  {
    hide Obeys, OneByOne, Aborts, Alike, Unclosed, Answer, Covers, Commands;
    var requests := pipeline.pending;
    ghost var hist := conn1.sent;
    FreshTracks(conn1, pipeline);
    piped := pipeline.ProcessAll(conn1, conn1.sent, true);
    single := FetchEach(conn2, requests);
    if !conn1.broken && !conn2.broken {
      EachAgrees(conn1.server, hist, requests, |single|);
      SentAgrees(conn1.sent, conn1.server, hist, requests, |single|);
    }
  }

  lemma EachAgrees(server: Server, hist: seq<Command>, requests: seq<Request>, n: nat)
    requires n <= |requests| && forall k :: 0 <= k < n - 1 ==> !Aborts(Answer(server, hist, requests, k))
    ensures var results := OneByOne(server, hist, requests);
      && |results| == |requests|
      && forall k :: 0 <= k < n ==> results[k] == Fetched(requests[k], Answer(server, hist, requests, k))
  {
    hide OneByOne, Answer, Aborts;
    if requests == [] {
      assert OneByOne(server, hist, requests) == [] by { OneByOneNone(server, hist); }
    } else {
      OneByOneExact(server, hist, requests, 0);
    }
    forall k | 0 <= k < n
      ensures OneByOne(server, hist, requests)[k] == Fetched(requests[k], Answer(server, hist, requests, k))
    {
      OneByOneExact(server, hist, requests, k);
    }
  }

  lemma OneByOneNone(server: Server, hist: seq<Command>)
    ensures OneByOne(server, hist, []) == []
  {
  }

  lemma SentAgrees(sent: seq<Command>, server: Server, hist: seq<Command>, requests: seq<Request>, n: nat)
    requires n <= |requests| && Covers(sent, server, hist, requests)
    requires forall k :: 0 <= k < n - 1 ==> !Aborts(Answer(server, hist, requests, k))
    ensures hist + Commands(CommandOf, requests[..n]) <= sent
    ensures n == |requests| ==> hist + Commands(CommandOf, requests[..n]) == sent
  {
    hide Answer, Aborts, Commands, CommandOf;
    var m := AnsweredCount(server, hist, requests);
    if n > 0 {
      AnsweredAtLeast(server, hist, requests, n - 1);
    } else {
      CommandsNone(CommandOf, requests[..0]);
    }
    assert requests[..m] == requests[..n] + requests[n..m];
    CommandsAppend(CommandOf, requests[..n], requests[n..m]);
    assert requests[..|requests|] == requests;
  }

  /** The owed replies start with the whole reply to the oldest request. */
  lemma OldestReply(server: Server, hist: seq<Command>, request: Request, queue: seq<Request>)
    requires Obeys(server)
    ensures var next := hist + [CommandOf(request)];
      && WellFormedReply(Article, server(next))
      && hist + Commands(CommandOf, [request] + queue) == next + Commands(CommandOf, queue)
      && Replies(server, hist, Commands(CommandOf, [request] + queue))
           == server(next) + Replies(server, next, Commands(CommandOf, queue))
  {
    hide WellFormedReply;
    var next := hist + [CommandOf(request)];
    assert ([request] + queue)[1..] == queue;
    assert ([CommandOf(request)] + Commands(CommandOf, queue))[1..] == Commands(CommandOf, queue);
    assert hist + ([CommandOf(request)] + Commands(CommandOf, queue)) == next + Commands(CommandOf, queue);
    ObeysAt(server, next);
  }

  /** An aborting outcome never leaves the connection in use, under whatever name the article was asked for. */
  lemma AbortingSpoils(request: Request, reply: Text)
    ensures forall id: Text :: Aborts(Outcome(request, reply)) ==> !Survives(FetchArticle, id, None, reply)
  {
    hide ReadStatus, AfterLine, Scan, Bounded, UnexpectedArticle;
  }

  /** The codes after which `process_all` gives up, whatever the text; a 400 counts only when it reports a dead session. */
  predicate AbortingCode(st: Status) {
    st.code in {403, 480, 481, 482, 502} || (st.code == 400 && UnexpectedArticle(st) == Connection)
  }

  /**
   * A run is given up on exactly the aborting codes. On every other code that is not an answer about the article the
   * connection is spoiled and the run goes on over it all the same.
   */
  lemma AbortsExactly(request: Request, reply: Text)
    requires WellFormedReply(Article, reply)
    ensures var st := ReadStatus(reply).value;
      && (Aborts(Outcome(request, reply)) <==> AbortingCode(st))
      && ((!Survives(FetchArticle, request.id, None, reply) && !Aborts(Outcome(request, reply)))
            <==> (st.code !in {220, 411, 412, 420, 423, 430} && !AbortingCode(st)))
  {
    hide ReadStatus, AfterLine, Scan, UnexpectedArticle;
    var st := ReadStatus(reply).value;
    UnexpectedIs(st);
    if st.code == 220 {
      assert Outcome(request, reply).Ok?;
    }
  }

  lemma UnexpectedIs(st: Status)
    ensures UnexpectedArticle(st) == Connection ==> st.code == 400
  {
  }

  /** Reading on after the status line gives the request its outcome and leaves `rest`. */
  ghost predicate Reads(request: Request, st: Status, after: Text, reply: Text, rest: Text) {
    var d := Dispose(FetchArticle, request.id, st);
    && Acted(d, st, None, after) == Outcome(request, reply)
    && (Survives(FetchArticle, request.id, None, reply) <==> Settles(d, Outcome(request, reply)))
    && (if st.code == 220 then Outcome(request, reply).Ok? && Scan(after, None).end == Terminated(rest) else after == rest)
  }

  /** A whole reply at the head of the stream means what it means alone, and what follows it is left. */
  lemma ReadsAlone(request: Request, reply: Text, rest: Text)
    requires WellFormedReply(Article, reply)
    ensures ReadStatus(reply).Ok? && ReadStatus(reply + rest) == ReadStatus(reply)
    ensures Reads(request, ReadStatus(reply).value, AfterLine(reply + rest), reply, rest)
  {
    hide Scan, UnexpectedArticle, ReadStatus;
    ReplyAtHead(Article, reply, rest);
    var st := ReadStatus(reply).value;
    if st.code != 220 {
      assert AfterLine(reply + rest) == rest by { assert [] + rest == rest; }
    }
  }

  /** The owed replies grow by those to the requests just sent. */
  lemma InFlightGrows(server: Server, hist: seq<Command>, inFlight: seq<Request>, moved: seq<Request>)
    ensures var a, b := Commands(CommandOf, inFlight), Commands(CommandOf, moved);
      var all := Commands(CommandOf, inFlight + moved);
      hist + a + b == hist + all && Replies(server, hist, a) + Replies(server, hist + a, b) == Replies(server, hist, all)
  {
    CommandsAppend(CommandOf, inFlight, moved);
    var a, b := Commands(CommandOf, inFlight), Commands(CommandOf, moved);
    hide Commands, Replies, CommandOf;
    assert hist + a + b == hist + (a + b);
    RepliesAppend(server, hist, a, b);
  }
}
