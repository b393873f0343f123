/**
 * Batched availability checks: STAT commands are sent a hundred at a time, and the batching cannot be seen in
 * the results.
 */
module StatPipelineModel {
  import opened Bytes
  import opened ConnectionModel
  import opened Status
  import opened Wire

  const BATCH: nat := 100

  datatype Found = Found(id: Text, present: bool)

  function CommandOf(id: Text): Command {
    Command(Stat, NormalizeId(id))
  }

  /** What one reply says about one id. */
  function Check(id: Text, reply: Text): Result<Found> {
    var status := ReadStatus(reply);
    if status.Err? then Err(status.error)
    else if status.value.code == 223 then Ok(Found(id, true))
    else if status.value.code == 430 then Ok(Found(id, false))
    else Err(Challenged(status.value))
  }

  /** Checking one id at a time, stopping at the first error. */
  function CheckAll(server: Server, hist: seq<Command>, ids: seq<Text>): Result<seq<Found>>
    decreases |ids|
  {
    if ids == [] then Ok([]) else
    var next := hist + [CommandOf(ids[0])];
    var first := Check(ids[0], server(next));
    if first.Err? then Err(first.error) else
    var rest := CheckAll(server, next, ids[1..]);
    if rest.Err? then rest else Ok([first.value] + rest.value)
  }

  /** The results of one run of checks put before those of the next. */
  function Prepend(done: seq<Found>, rest: Result<seq<Found>>): Result<seq<Found>> {
    if rest.Err? then rest else Ok(done + rest.value)
  }

  /** What a successful check says, id by id and in order; an unsuccessful one reports the first error. */
  lemma {:induction false} CheckAllExact(server: Server, hist: seq<Command>, ids: seq<Text>, k: nat)
    requires k < |ids|
    ensures var all := CheckAll(server, hist, ids);
      var own := Check(ids[k], server(hist + Commands(CommandOf, ids[..k + 1])));
      && (all.Ok? ==> |all.value| == |ids| && own == Ok(all.value[k]) && all.value[k].id == ids[k])
      && (own.Err? && CheckAll(server, hist, ids[..k]).Ok? ==> all == Err(own.error))
    decreases |ids|
  {
    hide Check, CommandOf, Commands;
    var next := hist + [CommandOf(ids[0])];
    if k == 0 {
      CommandsOne(CommandOf, ids[0]);
      assert ids[..1] == [ids[0]];
      CheckOwn(ids[0], server(next));
      if |ids| > 1 {
        CheckAllExact(server, next, ids[1..], 0);
      }
    } else {
      var rest := ids[1..];
      CheckAllExact(server, next, rest, k - 1);
      assert ids[..k + 1] == [ids[0]] + rest[..k];
      CommandsCons(CommandOf, ids[0], rest[..k]);
      assert hist + ([CommandOf(ids[0])] + Commands(CommandOf, rest[..k])) == next + Commands(CommandOf, rest[..k]);
      assert ids[..k][1..] == rest[..k - 1];
    }
  }

  lemma CheckOwn(id: Text, reply: Text)
    ensures Check(id, reply).Ok? ==> Check(id, reply).value.id == id
  {
  }

  /** What a check makes of each code. */
  lemma CheckCodes(id: Text, reply: Text)
    requires ReadStatus(reply).Ok?
    ensures var st, r := ReadStatus(reply).value, Check(id, reply);
      && (r == Ok(Found(id, true)) <==> st.code == 223)
      && (r == Ok(Found(id, false)) <==> st.code == 430)
      && (r == Err(AuthRequired(st.message)) <==> st.code == 480)
      && (r == Err(Auth(st.message)) <==> st.code in {481, 482})
      && (r == Err(ServiceUnavailable(st.message)) <==> st.code == 502)
      && (r == Err(Protocol) <==> st.code !in {223, 430, 480, 481, 482, 502})
  {
    hide ReadStatus;
  }

  /** A batched check of an id agrees with `stat_article`, except that only the latter names a denied permission. */
  lemma CheckMatchesStat(id: Text, reply: Text)
    ensures var single := Meaning(StatArticle, NormalizeId(id), None, reply);
      && (single.Ok? <==> Check(id, reply) == Ok(Found(id, true)))
      && (single == Err(ArticleNotFound(NormalizeId(id))) <==> Check(id, reply) == Ok(Found(id, false)))
      && (Check(id, reply).Err? ==>
            (single == Err(Check(id, reply).error) <==> !(ReadStatus(reply).Ok? && ReadStatus(reply).value.code == 403)))
  {
    hide ReadStatus, UnexpectedArticle, AfterLine, Scan, Bounded;
    if ReadStatus(reply).Ok? {
      var st := ReadStatus(reply).value;
      assert Dispose(StatArticle, NormalizeId(id), st).Fatal? ==>
        (st.code == 403 <==> Denied(st) != Challenged(st));
    }
  }

  // ----- reading checks off a stream -----

  /** One line, whatever it says: it need not even be a status. */
  ghost predicate OneLine(reply: Text) {
    EndsWith(TakeLine(reply), LF) && AfterLine(reply) == []
  }

  /** The server answers each STAT with one line. */
  ghost predicate AnswersInLines(server: Server) {
    forall h: seq<Command> {:trigger server(h)} :: h != [] && h[|h| - 1].verb == Stat ==> OneLine(server(h))
  }

  lemma ObeyingAnswersInLines(server: Server)
    requires Obeys(server)
    ensures AnswersInLines(server)
  {
    hide ReadStatus, AfterLine, TakeLine, Scan;
    forall h: seq<Command> | h != [] && h[|h| - 1].verb == Stat
      ensures OneLine(server(h))
    {
      ObeysAt(server, h);
    }
  }

  /** Checking `ids` against the lines of a stream, one line each, stopping at the first error. */
  function CheckStream(ids: seq<Text>, s: Text): Result<seq<Found>>
    decreases |ids|
  {
    if ids == [] then Ok([]) else
    var first := Check(ids[0], s);
    if first.Err? then Err(first.error) else Prepend([first.value], CheckStream(ids[1..], AfterLine(s)))
  }

  /** What is left of a stream after `n` lines. */
  function AfterLines(s: Text, n: nat): Text {
    if n == 0 then s else AfterLines(AfterLine(s), n - 1)
  }

  function LineEnds(s: Text): nat {
    multiset(s)[LF]
  }

  /** Reading a line takes one line end, if there is one; it is the same line whatever follows. */
  lemma LineTaken(s: Text)
    requires LineEnds(s) > 0
    ensures EndsWith(TakeLine(s), LF) && LineEnds(AfterLine(s)) == LineEnds(s) - 1
    ensures EndsWith(s, LF) && AfterLine(s) != [] ==> EndsWith(AfterLine(s), LF)
  {
    var i := IndexOf(s, LF);
    assert LF in s;
    assert s == s[..i] + [LF] + s[i + 1..];
  }

  lemma CheckAppend(id: Text, s: Text, t: Text)
    requires LineEnds(s) > 0
    ensures Check(id, s + t) == Check(id, s) && AfterLine(s + t) == AfterLine(s) + t
  {
    LineTaken(s);
    TakeLineAppend(s, t);
  }

  /** Where there are lines enough, what follows them changes nothing and stays. */
  lemma {:induction false} StreamAppend(ids: seq<Text>, s: Text, t: Text)
    requires LineEnds(s) >= |ids|
    ensures CheckStream(ids, s + t) == CheckStream(ids, s)
    ensures AfterLines(s + t, |ids|) == AfterLines(s, |ids|) + t
    decreases |ids|
  {
    hide Check, AfterLine;
    if ids != [] {
      LineTaken(s);
      CheckAppend(ids[0], s, t);
      StreamAppend(ids[1..], AfterLine(s), t);
    }
  }

  /** Checking a list is checking its front, then, if that succeeds, the rest from where the front left off. */
  lemma {:induction false} StreamSplit(a: seq<Text>, b: seq<Text>, s: Text)
    ensures var front := CheckStream(a, s);
      CheckStream(a + b, s)
        == if front.Err? then front else Prepend(front.value, CheckStream(b, AfterLines(s, |a|)))
    decreases |a|
  {
    hide Check, AfterLine;
    if a == [] {
      assert a + b == b;
      PrependNone(CheckStream(b, s));
    } else {
      assert (a + b)[1..] == a[1..] + b;
      StreamSplit(a[1..], b, AfterLine(s));
      var first, front := Check(a[0], s), CheckStream(a[1..], AfterLine(s));
      if first.Ok? && front.Ok? {
        PrependTwice([first.value], front.value, CheckStream(b, AfterLines(s, |a|)));
      }
    }
  }

  lemma OneLineEnd(reply: Text)
    requires OneLine(reply)
    ensures LineEnds(reply) == 1 && EndsWith(reply, LF)
  {
    assert reply == TakeLine(reply);
    var i := IndexOf(reply, LF);
    assert reply == reply[..i] + [LF];
  }

  /** The replies to a batch are as many whole lines, and read in order they are the replies one at a time. */
  lemma {:induction false} RepliesInLines(server: Server, hist: seq<Command>, ids: seq<Text>)
    requires AnswersInLines(server)
    ensures var replies := Replies(server, hist, Commands(CommandOf, ids));
      && LineEnds(replies) == |ids| && (replies != [] ==> EndsWith(replies, LF))
      && CheckStream(ids, replies) == CheckAll(server, hist, ids) && AfterLines(replies, |ids|) == []
    decreases |ids|
  {
    hide Check, AfterLine, OneLine;
    if ids != [] {
      var next := hist + [CommandOf(ids[0])];
      var reply, rest := server(next), Replies(server, next, Commands(CommandOf, ids[1..]));
      assert ([CommandOf(ids[0])] + Commands(CommandOf, ids[1..]))[1..] == Commands(CommandOf, ids[1..]);
      assert OneLine(reply);
      OneLineEnd(reply);
      CheckAppend(ids[0], reply, rest);
      assert AfterLine(reply + rest) == rest by { NothingAfter(reply); assert [] + rest == rest; }
      RepliesInLines(server, next, ids[1..]);
    }
  }

  lemma NothingAfter(reply: Text)
    requires OneLine(reply)
    ensures AfterLine(reply) == []
  {
  }

  class StatPipeline {
    var pending: seq<Text>

    constructor ()
      ensures pending == []
    {
      pending := [];
    }

    method Add(id: Text)
      modifies this
      ensures pending == old(pending) + [id]
    {
      pending := pending + [id];
    }

    /** Send the STATs of one batch and flush them together. */
    method SendBatch(conn: NntpConnection, batch: seq<Text>) returns (ok: bool)
      modifies conn`outbox, conn`sent, conn`unread, conn`broken, conn`state
      ensures old(conn.broken) ==> conn.broken
      ensures ok ==> conn.open && conn.broken == old(conn.broken) && conn.state == old(conn.state)
      ensures ok && old(conn.outbox) == [] ==>
        && conn.outbox == [] && conn.sent == old(conn.sent) + Commands(CommandOf, batch)
        && conn.unread == old(conn.unread) + Replies(conn.server, old(conn.sent), Commands(CommandOf, batch))
      ensures !ok ==> conn.state == Error && (old(conn.open) ==> conn.broken)
    {
      hide CommandOf, Replies;
      assert conn.outbox + [] == conn.outbox;
      for i := 0 to |batch|
        invariant conn.outbox == old(conn.outbox) + Commands(CommandOf, batch[..i])
        invariant conn.broken == old(conn.broken) && conn.state == old(conn.state)
        invariant conn.sent == old(conn.sent) && conn.unread == old(conn.unread)
      {
        ok := conn.SendNoFlush(CommandOf(batch[i]));
        if !ok {
          conn.state := Error;
          return;
        }
        CommandsAppend(CommandOf, batch[..i], [batch[i]]);
        assert batch[..i + 1] == batch[..i] + [batch[i]];
        assert Commands(CommandOf, [batch[i]]) == [CommandOf(batch[i])];
      }
      assert batch[..|batch|] == batch;
      assert old(conn.outbox) == [] ==> conn.outbox == Commands(CommandOf, batch);
      ok := conn.Flush();
      if !ok {
        conn.state := Error;
      }
    }

    /** Read one line and what it says about `id`. */
    method ReceiveCheck(conn: NntpConnection, id: Text) returns (r: Result<Found>)
      modifies conn`unread, conn`broken, conn`state
      ensures old(conn.broken) ==> conn.broken
      ensures r.Ok? ==> conn.broken == old(conn.broken) && conn.state == old(conn.state)
      ensures r.Err? ==> conn.state == Error
      ensures conn.open && !conn.broken ==> r == Check(id, old(conn.unread)) && conn.unread == AfterLine(old(conn.unread))
    {
      hide ReadStatus, AfterLine, TakeLine;
      var status := conn.ReadResponseLine();
      if status.Err? {
        conn.state := Error;
        return Err(status.error);
      }
      var st := status.value;
      if st.code == 223 {
        return Ok(Found(id, true));
      } else if st.code == 430 {
        return Ok(Found(id, false));
      }
      conn.state := Error;
      if st.code == 480 {
        return Err(AuthRequired(st.message));
      } else if st.code == 481 || st.code == 482 {
        return Err(Auth(st.message));
      } else if st.code == 502 {
        return Err(ServiceUnavailable(st.message));
      }
      return Err(Protocol);
    }

    /** Read a line for each id of a batch, in order. */
    method ReceiveBatch(conn: NntpConnection, batch: seq<Text>) returns (r: Result<seq<Found>>)
      modifies conn`unread, conn`broken, conn`state
      ensures old(conn.broken) ==> conn.broken
      ensures r.Ok? ==> |r.value| == |batch| && conn.broken == old(conn.broken) && conn.state == old(conn.state)
      ensures r.Err? ==> conn.state == Error
      ensures conn.open && !conn.broken ==>
        r == CheckStream(batch, old(conn.unread)) && (r.Ok? ==> conn.unread == AfterLines(old(conn.unread), |batch|))
    {
      hide Check, AfterLine;
      var results: seq<Found> := [];
      ghost var stream := conn.unread;
      assert batch[0..] == batch;
      PrependNone(CheckStream(batch, stream));
      for i := 0 to |batch|
        invariant |results| == i
        invariant conn.broken == old(conn.broken) && conn.state == old(conn.state)
        invariant conn.open && !conn.broken ==>
          && AfterLines(stream, |batch|) == AfterLines(conn.unread, |batch| - i)
          && CheckStream(batch, stream) == Prepend(results, CheckStream(batch[i..], conn.unread))
      {
        ghost var before := conn.unread;
        assert batch[i..][1..] == batch[i + 1..];
        var found := ReceiveCheck(conn, batch[i]);
        if found.Err? {
          return Err(found.error);
        }
        PrependStep(results, found.value, CheckStream(batch[i + 1..], AfterLine(before)));
        results := results + [found.value];
      }
      assert batch[|batch|..] == [] && results + [] == results;
      r := Ok(results);
    }

    /**
     * Check everything queued, a batch at a time. Unless a transfer fails, the results, or the first error, are those
     * of reading one line for each id off what was unread and the replies after it; on a settled connection that is
     * checking one id at a time, and success ends at a reply boundary.
     *
     * The state is set and never consulted: a connection that was not ready comes out ready on success, and is then at
     * a reply boundary exactly when no line had been left on it.
     */
    method Execute(conn: NntpConnection, ghost lawful: bool) returns (r: Result<seq<Found>>)
      requires lawful ==> AnswersInLines(conn.server)
      modifies this, conn`outbox, conn`sent, conn`unread, conn`broken, conn`state
      ensures pending == [] && (old(conn.broken) ==> conn.broken)
      ensures r.Ok? ==>
        && |r.value| == |old(pending)| && conn.broken == old(conn.broken)
        && conn.state == (if old(pending) == [] then old(conn.state) else Ready)
      ensures r.Err? ==> conn.state == Error
      ensures lawful && old(Fit(conn)) && !conn.broken ==>
        r == CheckStream(old(pending), Owed(conn.server, old(conn.sent), old(conn.unread), old(pending)))
      ensures lawful && old(Fit(conn)) && r.Ok? && old(pending) != [] ==>
        conn.state == Ready && (conn.Settled() <==> LF !in old(conn.unread))
      ensures old(conn.outbox) == [] && r.Ok? ==> conn.sent == old(conn.sent) + Commands(CommandOf, old(pending))
      ensures lawful && old(conn.Settled()) && !conn.broken ==> r == CheckAll(conn.server, old(conn.sent), old(pending))
      ensures lawful && old(conn.Settled()) && r.Ok? ==> conn.Settled()
      ensures lawful && old(conn.state == Ready && conn.InStep()) ==> conn.state in {Ready, Error} && conn.InStep()
    {
      hide CommandOf, Check, Replies, CheckAll, Commands, CheckStream, AfterLines, LineEnds, AnswersInLines;
      hide Leaves;
      var ids := pending;
      pending := [];
      var results: seq<Found> := [];
      var start := 0;
      ghost var left := conn.unread;
      ghost var whole := CheckStream(ids, Owed(conn.server, conn.sent, left, ids));
      assert ids[0..] == ids;
      NothingSent(conn.sent, ids);
      PrependNone(whole);
      assert Leaves(left, left, true) by { LeavesAll(left); }
      if lawful {
        SettledOwed(conn.server, conn.sent, ids);
      }
      while start < |ids|
        invariant pending == [] && conn.broken == old(conn.broken)
        invariant start <= |ids| && |results| == start
        invariant conn.state == if start == 0 then old(conn.state) else Ready
        invariant old(conn.outbox) == [] ==>
          conn.outbox == [] && conn.sent == old(conn.sent) + Commands(CommandOf, ids[..start])
        invariant lawful && old(Fit(conn)) ==>
          && Fit(conn) && Leaves(left, conn.unread, start == 0)
          && whole == Prepend(results, CheckStream(ids[start..], Owed(conn.server, conn.sent, conn.unread, ids[start..])))
      {
        var end := if start + BATCH <= |ids| then start + BATCH else |ids|;
        var batch := ids[start..end];
        ghost var hist, before := conn.sent, conn.unread;
        conn.state := Busy;
        var ok := SendBatch(conn, batch);
        if !ok {
          return Err(Io);
        }
        ghost var sent := conn.sent;
        SentStep(old(conn.sent), ids, start, end);
        if lawful && old(Fit(conn)) {
          assert ids[start..] == batch + ids[end..];
          BatchStep(conn.server, hist, before, batch, ids[end..]);
          LeavesStep(conn.server, hist, left, before, batch, start == 0);
        }
        var found := ReceiveBatch(conn, batch);
        if found.Err? {
          return Err(found.error);
        }
        if lawful && old(Fit(conn)) {
          PrependTwice(results, found.value, CheckStream(ids[end..], Owed(conn.server, sent, conn.unread, ids[end..])));
        }
        results := results + found.value;
        conn.state := Ready;
        start := end;
      }
      if lawful && old(Fit(conn)) {
        assert ids[start..] == [];
        NothingToCheck(Owed(conn.server, conn.sent, conn.unread, []));
        assert results + [] == results;
        LeavesNothing(left, conn.unread, start == 0);
      }
      assert ids[..start] == ids;
      r := Ok(results);
    }
  }

  /** A pipelined check and `stat_article` say the same of an id, but that only the latter names a denied permission. */
  predicate Told(id: Text, check: Result<Found>, single: Result<Response>) {
    match check
    case Ok(found) =>
      found.id == id && (if found.present then single.Ok? else single == Err(ArticleNotFound(NormalizeId(id))))
    case Err(e) => single == Err(e) || (single.Err? && single.error.PermissionDenied? && e == Protocol)
  }

  /** What the server says of the `k`th id when all before it have been asked for. */
  function Own(server: Server, hist: seq<Command>, ids: seq<Text>, k: nat): Result<Found>
    requires k < |ids|
  {
    Check(ids[k], server(hist + Commands(CommandOf, ids[..k + 1])))
  }

  lemma StatTells(server: Server, hist: seq<Command>, ids: seq<Text>, k: nat)
    requires k < |ids|
    ensures var id := NormalizeId(ids[k]);
      var sent := hist + Commands(CommandOf, ids[..k]) + [Command(Verb.Stat, id)];
      && sent == hist + Commands(CommandOf, ids[..k + 1])
      && Told(ids[k], Own(server, hist, ids, k), Meaning(StatArticle, id, None, server(sent)))
      && (Survives(StatArticle, id, None, server(sent)) <==> Own(server, hist, ids, k).Ok?)
  {
    var id := NormalizeId(ids[k]);
    CommandsAppend(CommandOf, ids[..k], [ids[k]]);
    CommandsOne(CommandOf, ids[k]);
    assert ids[..k + 1] == ids[..k] + [ids[k]];
    hide Commands;
    var a := Commands(CommandOf, ids[..k]);
    assert hist + a + [CommandOf(ids[k])] == hist + (a + [CommandOf(ids[k])]);
    CheckTells(ids[k], server(hist + Commands(CommandOf, ids[..k + 1])));
  }

  lemma CheckTells(id: Text, reply: Text)
    ensures Told(id, Check(id, reply), Meaning(StatArticle, NormalizeId(id), None, reply))
    ensures Survives(StatArticle, NormalizeId(id), None, reply) <==> Check(id, reply).Ok?
  {
    hide ReadStatus, UnexpectedArticle, AfterLine, Scan, Bounded;
    CheckMatchesStat(id, reply);
    CheckOwn(id, reply);
  }

  /** `stat_article` on one id after another over one connection, as long as it is ready. */
  method StatEach(conn: NntpConnection, ids: seq<Text>) returns (single: seq<Result<Response>>)
    requires conn.state == Ready && conn.Settled() && conn.caps.haveStat && Obeys(conn.server)
    modifies conn
    ensures |single| <= |ids|
    ensures if conn.state == Ready then |single| == |ids| else single != []
    ensures !conn.broken ==>
      && conn.sent == old(conn.sent) + Commands(CommandOf, ids[..|single|])
      && (forall k :: 0 <= k < |single| ==> Told(ids[k], Own(conn.server, old(conn.sent), ids, k), single[k]))
      && (forall k :: 0 <= k < |single| ==>
            (Own(conn.server, old(conn.sent), ids, k).Err? <==> conn.state != Ready && k == |single| - 1))
  {
    hide Obeys, Meaning, Survives, Told, Own, NormalizeId;
    single := [];
    ghost var hist := conn.sent;
    NothingSent(hist, ids);
    while |single| < |ids| && conn.state == Ready
      invariant |single| <= |ids| && (conn.state == Ready ==> conn.Settled() && !conn.broken)
      invariant conn.state != Ready ==> single != []
      invariant !conn.broken ==>
        && conn.sent == hist + Commands(CommandOf, ids[..|single|])
        && (forall k :: 0 <= k < |single| ==> Told(ids[k], Own(conn.server, hist, ids, k), single[k]))
        && (forall k :: 0 <= k < |single| ==>
              (Own(conn.server, hist, ids, k).Err? <==> conn.state != Ready && k == |single| - 1))
      decreases |ids| - |single|
    {
      var k := |single|;
      var r := conn.Stat(ids[k]);
      StatTells(conn.server, hist, ids, k);
      single := single + [r];
    }
  }

  /**
   * A pipelined check against asking for the same ids one by one over another connection to the same server. On
   * success both say the same of every id and have sent the server exactly the same; otherwise both fail at the same
   * id, the single calls having said the same of all before it.
   */
  method AgainstStat(conn1: NntpConnection, conn2: NntpConnection, stats: StatPipeline)
    returns (piped: Result<seq<Found>>, single: seq<Result<Response>>)
    requires conn1 != conn2 && conn1.Settled() && conn2.Settled() && conn2.state == Ready && conn2.caps.haveStat
    requires conn1.server == conn2.server && Obeys(conn1.server) && conn1.sent == conn2.sent
    modifies conn1, conn2, stats
    ensures |single| <= |old(stats.pending)|
    ensures !conn1.broken && !conn2.broken ==>
      match piped
      case Ok(found) =>
        && |found| == |single| == |old(stats.pending)| && conn1.sent == conn2.sent && conn2.state == Ready
        && (forall k :: 0 <= k < |single| ==> Told(old(stats.pending)[k], Ok(found[k]), single[k]))
      case Err(e) =>
        && single != [] && conn2.state != Ready
        && Told(old(stats.pending)[|single| - 1], Err(e), single[|single| - 1])
        && (forall k :: 0 <= k < |single| - 1 ==>
              single[k].Ok? || single[k] == Err(ArticleNotFound(NormalizeId(old(stats.pending)[k]))))
  {
    hide Obeys, Told, Own, CheckAll, Commands, CheckStream, Owed, NormalizeId, AnswersInLines;
    var ids := stats.pending;
    ghost var hist := conn1.sent;
    ObeyingAnswersInLines(conn1.server);
    piped := stats.Execute(conn1, true);
    single := StatEach(conn2, ids);
    if !conn1.broken && !conn2.broken {
      ChecksAgree(conn1.server, hist, ids, single, conn2.state == Ready);
      assert ids[..|ids|] == ids;
    }
  }

  lemma ChecksAgree(server: Server, hist: seq<Command>, ids: seq<Text>, single: seq<Result<Response>>, ready: bool)
    requires |single| <= |ids| && (ready ==> |single| == |ids|) && (!ready ==> single != [])
    requires forall k :: 0 <= k < |single| ==> Told(ids[k], Own(server, hist, ids, k), single[k])
    requires forall k :: 0 <= k < |single| ==> (Own(server, hist, ids, k).Err? <==> !ready && k == |single| - 1)
    ensures match CheckAll(server, hist, ids)
      case Ok(found) =>
        && ready && |found| == |single|
        && (forall k :: 0 <= k < |single| ==> Told(ids[k], Ok(found[k]), single[k]))
      case Err(e) =>
        && !ready && Told(ids[|single| - 1], Err(e), single[|single| - 1])
        && (forall k :: 0 <= k < |single| - 1 ==>
              single[k].Ok? || single[k] == Err(ArticleNotFound(NormalizeId(ids[k]))))
  {
    hide CheckAll, NormalizeId, Check;
    var n := if ready then |ids| else |single| - 1;
    AllFound(server, hist, ids, n);
    assert ids[..|ids|] == ids;
    if !ready {
      CheckAllExact(server, hist, ids, n);
    }
    forall k | 0 <= k < |single| && ready
      ensures CheckAll(server, hist, ids).Ok? && |CheckAll(server, hist, ids).value| == |ids|
      ensures Told(ids[k], Ok(CheckAll(server, hist, ids).value[k]), single[k])
    {
      CheckAllExact(server, hist, ids, k);
    }
    if ids == [] {
      CheckNone(server, hist);
    } else if ready {
      CheckAllExact(server, hist, ids, 0);
    }
  }

  lemma CheckNone(server: Server, hist: seq<Command>)
    ensures CheckAll(server, hist, []) == Ok([])
  {
  }

  lemma {:induction false} AllFound(server: Server, hist: seq<Command>, ids: seq<Text>, n: nat)
    requires n <= |ids| && forall k :: 0 <= k < n ==> Own(server, hist, ids, k).Ok?
    ensures CheckAll(server, hist, ids[..n]).Ok?
  {
    hide CheckAll, Check;
    if n == 0 {
      assert ids[..0] == [];
      CheckNone(server, hist);
    } else {
      AllFound(server, hist, ids, n - 1);
      var front, id := ids[..n - 1], ids[n - 1];
      assert ids[..n] == front + [id] && Own(server, hist, ids, n - 1).Ok?;
      SentUpTo(hist, front, id);
      CheckAllLast(server, hist, front, id);
    }
  }

  lemma SentUpTo(hist: seq<Command>, front: seq<Text>, id: Text)
    ensures hist + Commands(CommandOf, front) + [CommandOf(id)] == hist + Commands(CommandOf, front + [id])
  {
    hide CommandOf, Commands;
    CommandsAppend(CommandOf, front, [id]);
    CommandsOne(CommandOf, id);
    var a := Commands(CommandOf, front);
    assert hist + a + [CommandOf(id)] == hist + (a + [CommandOf(id)]);
  }

  lemma CheckAllLast(server: Server, hist: seq<Command>, front: seq<Text>, id: Text)
    ensures var sent := hist + Commands(CommandOf, front);
      (CheckAll(server, hist, front).Ok? && Check(id, server(sent + [CommandOf(id)])).Ok?)
        ==> CheckAll(server, hist, front + [id]).Ok?
  {
    hide CheckAll, Check, CommandOf, Commands;
    CheckAllSplit(server, hist, front, [id]);
    CheckOne(server, hist + Commands(CommandOf, front), id);
  }

  lemma CheckOne(server: Server, hist: seq<Command>, id: Text)
    ensures CheckAll(server, hist, [id]).Ok? <==> Check(id, server(hist + [CommandOf(id)])).Ok?
  {
    hide Check, CommandOf;
    assert [id][1..] == [];
    CheckNone(server, hist + [CommandOf(id)]);
  }

  /**
   * A connection left in `Error` with one unread reply: a single check succeeds on the stale reply, whatever the
   * server now answers, and the connection comes out ready but out of step.
   */
  method StaleReply(server: Server, id: Text) returns (conn: NntpConnection, r: Result<seq<Found>>)
    requires AnswersInLines(server)
    ensures !conn.broken ==> r == Ok([Found(id, true)]) && conn.state == Ready && !conn.InStep()
  {
    hide CheckStream, Replies, Commands, CommandOf, StatusLine, CheckAll, AnswersInLines;
    conn := new NntpConnection(server, Capabilities(true, true, true, true));
    conn.state := Error;
    conn.unread := StatusLine(223, []);
    var stats := new StatPipeline();
    stats.Add(id);
    StaleCheck(id, Replies(server, [], Commands(CommandOf, [id])));
    assert stats.pending == [id];
    r := stats.Execute(conn, true);
  }

  lemma StaleCheck(id: Text, rest: Text)
    ensures CheckStream([id], StatusLine(223, []) + rest) == Ok([Found(id, true)])
    ensures LF in StatusLine(223, [])
  {
    StatusRoundTrip(223, [], rest);
    var s := StatusLine(223, []) + rest;
    assert s[|StatusLine(223, [])| - 1] == LF && LF == StatusLine(223, [])[|StatusLine(223, [])| - 1];
    hide ReadStatus, StatusLine, AfterLine;
    assert Check(id, s) == Ok(Found(id, true));
    assert [id][1..] == [];
    NothingToCheck(AfterLine(s));
    assert [Found(id, true)] + [] == [Found(id, true)];
  }

  /** Nothing is half written, and no transfer has failed; something may have been left unread. */
  predicate Fit(conn: NntpConnection)
    reads conn
  {
    conn.open && !conn.broken && conn.outbox == [] && conn.upload == []
  }

  /** The stream a run reads from: what is left on it, then the replies. */
  function Owed(server: Server, hist: seq<Command>, left: Text, ids: seq<Text>): Text {
    left + Replies(server, hist, Commands(CommandOf, ids))
  }

  lemma NothingSent(hist: seq<Command>, ids: seq<Text>)
    ensures hist + Commands(CommandOf, ids[..0]) == hist
  {
    assert Commands(CommandOf, ids[..0]) == [];
  }

  lemma SentStep(hist: seq<Command>, ids: seq<Text>, start: nat, end: nat)
    requires start <= end <= |ids|
    ensures hist + Commands(CommandOf, ids[..start]) + Commands(CommandOf, ids[start..end])
         == hist + Commands(CommandOf, ids[..end])
  {
    hide Commands, CommandOf;
    CommandsAppend(CommandOf, ids[..start], ids[start..end]);
    assert ids[..end] == ids[..start] + ids[start..end];
    var a, b := Commands(CommandOf, ids[..start]), Commands(CommandOf, ids[start..end]);
    assert hist + a + b == hist + (a + b);
  }

  lemma NothingToCheck(s: Text)
    ensures CheckStream([], s) == Ok([])
  {
  }

  lemma SettledOwed(server: Server, hist: seq<Command>, ids: seq<Text>)
    requires AnswersInLines(server)
    ensures CheckStream(ids, Owed(server, hist, [], ids)) == CheckAll(server, hist, ids)
  {
    RepliesInLines(server, hist, ids);
    assert Owed(server, hist, [], ids) == Replies(server, hist, Commands(CommandOf, ids));
  }

  /** One batch: a run over the rest reads the batch from the stream so far, then goes on behind it. */
  lemma BatchStep(server: Server, hist: seq<Command>, left: Text, batch: seq<Text>, more: seq<Text>)
    requires AnswersInLines(server)
    ensures var stream := Owed(server, hist, left, batch);
      var front := CheckStream(batch, stream);
      CheckStream(batch + more, Owed(server, hist, left, batch + more))
        == if front.Err? then front
           else Prepend(front.value, CheckStream(more,
                  Owed(server, hist + Commands(CommandOf, batch), AfterLines(stream, |batch|), more)))
  {
    hide CheckStream, AfterLines, AnswersInLines, Replies, Commands;
    var stream := Owed(server, hist, left, batch);
    var sent := hist + Commands(CommandOf, batch);
    var rest := Replies(server, sent, Commands(CommandOf, more));
    CommandsAppend(CommandOf, batch, more);
    RepliesAppend(server, hist, Commands(CommandOf, batch), Commands(CommandOf, more));
    Assoc(left, Replies(server, hist, Commands(CommandOf, batch)), rest);
    assert Owed(server, hist, left, batch + more) == stream + rest;
    RepliesInLines(server, hist, batch);
    assert LineEnds(stream) >= |batch|;
    StreamSplit(batch, more, stream + rest);
    StreamAppend(batch, stream, rest);
  }

  /** What is unread later against what was left at first: the same until a batch, then as many lines, all whole. */
  ghost predicate Leaves(left: Text, unread: Text, untouched: bool) {
    if untouched then unread == left
    else LineEnds(unread) == LineEnds(left) && (unread != [] ==> EndsWith(unread, LF))
  }

  lemma {:induction false} AfterLinesEnds(s: Text, n: nat)
    requires LineEnds(s) >= n && EndsWith(s, LF)
    ensures LineEnds(AfterLines(s, n)) == LineEnds(s) - n
    ensures AfterLines(s, n) != [] ==> EndsWith(AfterLines(s, n), LF)
    decreases n
  {
    hide AfterLine;
    if n > 0 {
      LineTaken(s);
      if AfterLine(s) == [] {
        assert LineEnds([]) == 0;
      } else {
        AfterLinesEnds(AfterLine(s), n - 1);
      }
    }
  }

  lemma LineEndsAppend(a: Text, b: Text)
    ensures LineEnds(a + b) == LineEnds(a) + LineEnds(b)
    ensures b != [] ==> EndsWith(a + b, LF) == EndsWith(b, LF)
    ensures LineEnds(b) > 0 ==> b != []
  {
  }

  lemma LeavesStep(server: Server, hist: seq<Command>, left: Text, unread: Text, batch: seq<Text>, untouched: bool)
    requires AnswersInLines(server) && batch != [] && Leaves(left, unread, untouched)
    ensures Leaves(left, AfterLines(Owed(server, hist, unread, batch), |batch|), false)
  {
    hide AnswersInLines, Replies, AfterLines, Commands, EndsWith, CommandOf, CheckStream, CheckAll;
    RepliesInLines(server, hist, batch);
    var replies := Replies(server, hist, Commands(CommandOf, batch));
    LineEndsAppend(unread, replies);
    AfterLinesEnds(unread + replies, |batch|);
  }

  lemma LeavesAll(left: Text)
    ensures Leaves(left, left, true)
  {
  }

  lemma LeavesNothing(left: Text, unread: Text, untouched: bool)
    requires Leaves(left, unread, untouched)
    ensures if untouched then unread == left else unread == [] <==> LF !in left
  {
    assert LF in left <==> LineEnds(left) > 0;
  }

  lemma PrependStep(done: seq<Found>, first: Found, rest: Result<seq<Found>>)
    ensures Prepend(done, Prepend([first], rest)) == Prepend(done + [first], rest)
  {
    if rest.Ok? {
      assert done + ([first] + rest.value) == done + [first] + rest.value;
    }
  }

  lemma PrependNone(rest: Result<seq<Found>>)
    ensures Prepend([], rest) == rest
  {
    if rest.Ok? {
      assert [] + rest.value == rest.value;
    }
  }

  lemma PrependTwice(a: seq<Found>, b: seq<Found>, rest: Result<seq<Found>>)
    ensures Prepend(a, Prepend(b, rest)) == Prepend(a + b, rest)
  {
    if rest.Ok? {
      assert a + (b + rest.value) == a + b + rest.value;
    }
  }

  /** Checking a list is checking its front, then, if that succeeds, the rest from where the front left off. */
  lemma {:induction false} CheckAllSplit(server: Server, hist: seq<Command>, a: seq<Text>, b: seq<Text>)
    ensures var front := CheckAll(server, hist, a);
      CheckAll(server, hist, a + b)
        == if front.Err? then front else Prepend(front.value, CheckAll(server, hist + Commands(CommandOf, a), b))
    decreases |a|
  {
    hide Check, CommandOf;
    if a == [] {
      assert a + b == b && hist + Commands(CommandOf, a) == hist;
      PrependNone(CheckAll(server, hist, b));
    } else {
      var next := hist + [CommandOf(a[0])];
      assert (a + b)[1..] == a[1..] + b;
      CheckAllSplit(server, next, a[1..], b);
      assert next + Commands(CommandOf, a[1..]) == hist + Commands(CommandOf, a);
      var first, front := Check(a[0], server(next)), CheckAll(server, next, a[1..]);
      if first.Ok? && front.Ok? {
        PrependTwice([first.value], front.value, CheckAll(server, hist + Commands(CommandOf, a), b));
      }
    }
  }
}
