/**
 * One NNTP connection. The transport is the bytes the server has answered and the client has not read yet;
 * a read or write that fails or times out may happen at any call, and is remembered in `broken`.
 */
module ConnectionModel {
  import opened Bytes
  import opened Decimal
  import opened Overview
  import opened Status
  import opened Wire

  datatype State = Disconnected | Ready | Busy | Error

  datatype Capabilities = Capabilities(haveArticle: bool, haveBody: bool, haveHead: bool, haveStat: bool)

  /** What `fetch_body` does to an ARTICLE response when the server has no BODY. */
  function AsBody(r: Result<Response>): Result<Response> {
    match r
    case Ok(response) =>
      var data := if response.data.Some? then Some(BodyOf(response.data.value)) else None;
      Ok(Response(222, response.message, data))
    case Err(_) => r
  }

  // ----- header stripping -----

  /** The length of the blank-line separator at `i`: CRLF CRLF, or LF LF, or none. */
  function Separator(a: Text, i: nat): nat {
    if i + 1 < |a| && a[i] == CR && a[i + 1] == LF then
      if i + 3 < |a| && a[i + 2] == CR && a[i + 3] == LF then 4 else 0
    else if i + 1 < |a| && a[i] == LF && a[i + 1] == LF then 2
    else 0
  }

  function BodyFrom(a: Text, i: nat): Text
    decreases |a| - i
  {
    if i >= |a| then []
    else if Separator(a, i) > 0 then a[i + Separator(a, i)..]
    else BodyFrom(a, i + 1)
  }

  /** The part of an article after its first blank line; nothing when there is none. */
  function BodyOf(a: Text): Text {
    BodyFrom(a, 0)
  }

  lemma {:induction false} BodyFromSkip(a: Text, i: nat, j: nat)
    requires i <= j < |a| && forall k :: i <= k < j ==> Separator(a, k) == 0
    ensures BodyFrom(a, i) == BodyFrom(a, j)
    decreases j - i
  {
    if i < j {
      BodyFromSkip(a, i + 1, j);
    }
  }

  predicate StandsAt(a: Text, i: nat, what: Text) {
    i + |what| <= |a| && a[i..i + |what|] == what
  }

  /** A blank line, in either line ending, starts at the line end at `i`. */
  predicate BlankAt(a: Text, i: nat) {
    StandsAt(a, i, [13, 10, 13, 10]) || StandsAt(a, i, [10, 10])
  }

  lemma SeparatorIs(a: Text, i: nat)
    ensures Separator(a, i) == if StandsAt(a, i, [13, 10, 13, 10]) then 4 else if StandsAt(a, i, [10, 10]) then 2 else 0
  {
    if i + 4 <= |a| {
      assert a[i..i + 4] == [a[i], a[i + 1], a[i + 2], a[i + 3]];
    }
    if i + 2 <= |a| {
      assert a[i..i + 2] == [a[i], a[i + 1]];
    }
  }

  lemma FirstByte(a: Text, i: nat, what: Text)
    requires i < |a| && what != []
    ensures StandsAt(a, i, what) ==> a[i] == what[0]
  {
    if i + |what| <= |a| {
      assert a[i..i + |what|][0] == a[i];
    }
  }

  /** The body is what follows the first blank line that ends a line before it; without one it is empty. */
  lemma {:induction false} BodyFromExactly(a: Text, i: nat) returns (at: nat)
    requires i <= |a|
    ensures i <= at <= |a| && forall k :: i <= k < at ==> !BlankAt(a, k)
    ensures if at == |a| then BodyFrom(a, i) == []
            else BlankAt(a, at) && BodyFrom(a, i) == a[at + (if StandsAt(a, at, [10, 10]) then 2 else 4)..]
    decreases |a| - i
  {
    at := i;
    if i < |a| {
      SeparatorIs(a, i);
      FirstByte(a, i, [13, 10, 13, 10]);
      FirstByte(a, i, [10, 10]);
      if Separator(a, i) == 0 {
        at := BodyFromExactly(a, i + 1);
      }
    }
  }

  lemma BodyOfExactly(a: Text) returns (at: nat)
    ensures at <= |a| && forall k :: 0 <= k < at ==> !BlankAt(a, k)
    ensures if at == |a| then BodyOf(a) == []
            else BlankAt(a, at) && BodyOf(a) == a[at + (if StandsAt(a, at, [10, 10]) then 2 else 4)..]
  {
    at := BodyFromExactly(a, 0);
  }

  ghost predicate HeaderLines(lines: seq<Text>) {
    FreeOf(lines, LF) && forall k :: 0 <= k < |lines| ==> lines[k] != []
  }

  /** No blank line starts inside a run of non-empty lines. */
  lemma {:induction false} NoSeparatorInside(lines: seq<Text>, tail: Text, k: nat)
    requires HeaderLines(lines) && k + 2 < |JoinLines(lines)|
    ensures Separator(JoinLines(lines) + CRLF + tail, k) == 0
  {
    var line, more := lines[0], lines[1..];
    var a := JoinLines(lines) + CRLF + tail;
    var rest := JoinLines(more) + CRLF + tail;
    assert a == line + CRLF + rest;
    assert forall i :: 0 <= i < |line| ==> a[i] == line[i];
    var n := |line| + 2;
    if k >= n {
      NoSeparatorInside(more, tail, k - n);
      assert forall i :: 0 <= i < |rest| ==> a[n + i] == rest[i];
    } else if k == |line| {
      assert more != [];
      var next := more[0];
      assert rest == next + CRLF + (JoinLines(more[1..]) + CRLF + tail);
      assert a[k + 2] == next[0] && a[k + 3] == (next + CRLF)[1];
    }
  }

  /** Stripping finds the body after one or more non-empty header lines, whatever the body holds. */
  lemma StripHeaders(lines: seq<Text>, body: Text)
    requires HeaderLines(lines) && lines != []
    ensures BodyOf(JoinLines(lines) + CRLF + body) == body
  {
    var head := JoinLines(lines);
    var a := head + CRLF + body;
    JoinLinesNormal(lines);
    var at := |head| - 2;
    assert head[|head| - 1] == LF && head[at] == CR;
    forall k | 0 <= k < at
      ensures Separator(a, k) == 0
    {
      NoSeparatorInside(lines, body, k);
    }
    BodyFromSkip(a, 0, at);
    assert a[at] == CR && a[at + 1] == LF && a[at + 2] == CR && a[at + 3] == LF;
    assert a[at + 4..] == body;
  }

  lemma {:induction false} BodyFromLength(a: Text, i: nat)
    ensures |BodyFrom(a, i)| == 0 || |BodyFrom(a, i)| + i + 2 <= |a|
    decreases |a| - i
  {
    if i < |a| && Separator(a, i) == 0 {
      BodyFromLength(a, i + 1);
    }
  }

  /** Without header lines the leading blank line is not seen as the separator, so only the empty body survives. */
  lemma StripNoHeaders(body: Text)
    ensures BodyOf(CRLF + body) == body <==> body == []
  {
    var a := CRLF + body;
    if body == [] {
      assert Separator(a, 0) == 0 && Separator(a, 1) == 0;
      assert BodyFrom(a, 0) == BodyFrom(a, 1) == BodyFrom(a, 2) == [];
    } else if Separator(a, 0) == 0 {
      BodyFromLength(a, 1);
    }
  }

  lemma NormalizeLine(line: Text, rest: Text)
    requires LF !in line
    ensures Normalize(line + CRLF + rest) == line + CRLF + Normalize(rest)
  {
    var wire := line + CRLF;
    assert wire[..|wire| - 1] == line + [CR];
    assert StripCR(StripLF(wire)) == line;
    NormalizeCons(wire, rest);
  }

  lemma {:induction false} NormalizeLines(lines: seq<Text>, tail: Text)
    requires FreeOf(lines, LF)
    ensures Normalize(JoinLines(lines) + tail) == JoinLines(lines) + Normalize(tail)
  {
    if lines == [] {
      assert JoinLines(lines) + tail == tail;
      assert JoinLines(lines) + Normalize(tail) == Normalize(tail);
    } else {
      var head, more := lines[0] + CRLF, JoinLines(lines[1..]);
      Assoc(head, more, tail);
      NormalizeLine(lines[0], more + tail);
      NormalizeLines(lines[1..], tail);
      Assoc(head, more, Normalize(tail));
    }
  }

  lemma ArticleNormal(lines: seq<Text>, body: Text)
    requires FreeOf(lines, LF)
    ensures Normalize(JoinLines(lines) + CRLF + body) == JoinLines(lines) + CRLF + Normalize(body)
  {
    NormalizeLines(lines, CRLF + body);
    Assoc(JoinLines(lines), CRLF, body);
    var blank: Text := [];
    assert blank + CRLF == CRLF;
    NormalizeLine(blank, body);
    Assoc(JoinLines(lines), CRLF, Normalize(body));
  }

  /** A well-formed success reply means its data, normalised. */
  lemma BlockReply(call: Call, id: Text, code: nat, message: Text, data: Text)
    requires code < 1000 && LF !in message && ValidUtf8(message)
    requires Dispose(call, id, Status(code, TrimEnd(message))).ReadBlock?
    ensures Meaning(call, id, None, StatusLine(code, message) + Encode(data))
         == Ok(Response(code, TrimEnd(message), Some(Normalize(data))))
  {
    StatusRoundTrip(code, message, Encode(data));
    EncodeRoundTrip(data, []);
    assert Encode(data) + [] == Encode(data);
  }

  lemma BlockCodes(id: Text, message: Text)
    ensures Dispose(FetchArticle, id, Status(220, message)) == ReadBlock
    ensures Dispose(FetchBody, id, Status(222, message)) == ReadBlock
  {
  }

  /** BODY fallback: the ARTICLE reply for an article, stripped, is the BODY reply for its body. */
  lemma BodyFallback(lines: seq<Text>, body: Text, message: Text, id: Text)
    requires HeaderLines(lines) && lines != [] && LF !in message && ValidUtf8(message)
    ensures AsBody(Meaning(FetchArticle, id, None, StatusLine(220, message) + Encode(JoinLines(lines) + CRLF + body)))
         == Meaning(FetchBody, id, None, StatusLine(222, message) + Encode(body))
         == Ok(Response(222, TrimEnd(message), Some(Normalize(body))))
  {
    var article, text := JoinLines(lines) + CRLF + body, TrimEnd(message);
    BlockCodes(id, text);
    BlockReply(FetchArticle, id, 220, message, article);
    BlockReply(FetchBody, id, 222, message, body);
    ArticleNormal(lines, body);
    StripHeaders(lines, Normalize(body));
    assert AsBody(Ok(Response(220, text, Some(Normalize(article)))))
        == Ok(Response(222, text, Some(BodyOf(Normalize(article)))));
  }

  /** `strip_article_headers`, as its scanning loop. */
  method StripArticleHeaders(article: Text) returns (body: Text)
    ensures body == BodyOf(article)
  {
    var i := 0;
    while i + 1 < |article|
      invariant i <= |article|
      invariant BodyFrom(article, i) == BodyOf(article)
    {
      if article[i] == CR && article[i + 1] == LF {
        if i + 3 < |article| && article[i + 2] == CR && article[i + 3] == LF {
          return article[i + 4..];
        }
      } else if article[i] == LF && article[i + 1] == LF {
        return article[i + 2..];
      }
      i := i + 1;
    }
    body := [];
  }

  /** What a caller makes of a filled buffer. */
  function Filled(failure: Option<NntpError>, out: Text): Result<Text> {
    if failure.Some? then Err(failure.value) else Ok(out)
  }

  function DataOf(response: Response): Text {
    if response.data.Some? then response.data.value else []
  }

  function FormatMeaning(r: Result<Response>): Result<Format> {
    match r
    case Err(e) => Err(e)
    case Ok(response) => ParsedFormat(DataOf(response))
  }

  function RowsMeaning(r: Result<Response>, w: Window): Result<Rows> {
    match r
    case Err(e) => Err(e)
    case Ok(response) => Ok(Parsed(DataOf(response), w))
  }

  function Plain(st: Status): Response {
    Response(st.code, st.message, None)
  }

  /** What `fetch_body_prefix` makes of the server's reply. */
  function PrefixMeaning(id: Text, max: nat, reply: Text): Result<BodyPrefix> {
    hide Dispose;
    var status := ReadStatus(reply);
    if status.Err? then Err(status.error) else
    PrefixActed(Dispose(Call.FetchBodyPrefix, id, status.value), max, AfterLine(reply))
  }

  /** A body cut short ends the connection, and any other failure but a refusal spoils it. */
  function PrefixState(id: Text, max: nat, reply: Text): State {
    hide Dispose;
    var status := ReadStatus(reply);
    var r := PrefixMeaning(id, max, reply);
    if r.Ok? then if r.value.complete then Ready else Disconnected
    else if status.Ok? && Dispose(Call.FetchBodyPrefix, id, status.value).Refused? then Ready
    else Error
  }

  function PrefixActed(d: Disposition, max: nat, after: Text): Result<BodyPrefix>
    requires !d.Done?
  {
    match d
    case ReadBlock => Prefixed(Scan(after, Some(LINE_LIMIT)), max)
    case Refused(e) => Err(e)
    case Fatal(e) => Err(e)
  }

  lemma StuffAt(done: Text, lines: seq<Text>, i: nat)
    requires i < |lines|
    ensures done + StuffLines(lines[i..]) == done + (Stuff(lines[i]) + CRLF) + StuffLines(lines[i + 1..])
  {
    assert lines[i..] == [lines[i]] + lines[i + 1..];
    StuffCons(lines[i], lines[i + 1..]);
    Assoc(done, Stuff(lines[i]) + CRLF, StuffLines(lines[i + 1..]));
  }

  lemma SingleLineReply(server: Server, h: seq<Command>)
    requires Obeys(server) && h != [] && (h[|h| - 1].verb == Post || h[|h| - 1].verb == Posted)
    ensures ReadStatus(server(h)).Ok? && AfterLine(server(h)) == []
  {
    hide Obeys, ReadStatus, AfterLine, Scan;
    ObeysAt(server, h);
  }

  /** One step of a bounded read: the whole block is over the bound as soon as the data so far is. */
  lemma BoundStep(block: Scanned, out: Text, line: Text, tail: Text, max: Option<nat>)
    requires block.body == out + (line + tail)
    ensures if Exceeds(out + line, max) then Bounded(block, max) == Err(ResponseTooLarge)
            else block.body == out + line + tail
  {
    Assoc(out, line, tail);
  }

  /** One step of a prefix read: the bound is reached exactly when the data so far is cut to it. */
  lemma PrefixStep(block: Scanned, data: Text, line: Text, tail: Text, max: nat)
    requires line != [] && |data| <= max && (data == [] || |data| < max)
    requires block.body == data + (line + tail)
    ensures var remaining := max - |data|;
      var taken := data + line[..Least(|line|, remaining)];
      if |line| > remaining || |taken| == max then Prefixed(block, max) == Ok(BodyPrefix(taken, false))
      else taken == data + line && |taken| < max && block.body == taken + tail
  {
    var taken := data + line[..Least(|line|, max - |data|)];
    if |taken| == max {
      assert taken == block.body[..max];
    } else {
      assert taken == data + line;
    }
  }

  // ----- the connection -----

  class NntpConnection {
    /** The peer: what it answers to each command, given all commands so far. */
    const server: Server
    const caps: Capabilities
    var state: State
    /** Whether there is a transport. */
    var open: bool
    /** Answered by the server, not yet read. */
    var unread: Text
    /** Written, not yet flushed. */
    var outbox: seq<Command>
    /** The part written so far of an article being posted. */
    var upload: Text
    /** All that the server has received. */
    var sent: seq<Command>
    /** A read or write has failed or timed out. */
    var broken: bool

    /** At a reply boundary: everything sent has been answered and read. */
    predicate Settled()
      reads this
    {
      open && !broken && outbox == [] && upload == [] && unread == []
    }

    /** The discipline of the command methods: a connection that claims to be ready is at a reply boundary. */
    predicate InStep()
      reads this
    {
      state == Ready ==> Settled()
    }

    /** What every command method keeps, whatever the transport and the server do. */
    twostate predicate KeepsStep()
      reads this
    {
      && (old(state) == Ready ==> state in {Ready, Error, Disconnected})
      && (old(state) != Ready ==> unchanged(this))
      && (old(InStep()) && Obeys(server) ==> InStep())
    }

    /** The call found the connection ready and at a reply boundary. */
    twostate predicate Started()
      reads this
    {
      old(state) == Ready && old(Settled())
    }

    /** A connected, ready connection to `server` that has sent nothing yet. */
    constructor (server: Server, caps: Capabilities)
      ensures this.server == server && this.caps == caps
      ensures state == Ready && Settled() && sent == []
    {
      this.server, this.caps := server, caps;
      state, open, broken := Ready, true, false;
      unread, outbox, upload, sent := [], [], [], [];
    }

    // ----- transport -----

    method SendNoFlush(cmd: Command) returns (ok: bool)
      modifies `outbox, `broken
      ensures ok ==> open && outbox == old(outbox) + [cmd] && broken == old(broken)
      ensures !ok ==> outbox == old(outbox) && (if open then broken else broken == old(broken))
    {
      var fault: bool := *;
      if !open {
        return false;
      }
      if fault {
        broken := true;
        return false;
      }
      outbox := outbox + [cmd];
      return true;
    }

    /** The flushed commands reach the server, which answers them in order. */
    method Flush() returns (ok: bool)
      modifies `outbox, `sent, `unread, `broken
      ensures ok ==> open && outbox == [] && sent == old(sent + outbox) && broken == old(broken)
      ensures ok ==> unread == old(unread + Replies(server, sent, outbox))
      ensures !ok ==> (if open then broken else broken == old(broken))
      ensures !ok ==> sent == old(sent) && unread == old(unread)
    {
      var fault: bool := *;
      if !open {
        return false;
      }
      if fault {
        broken := true;
        return false;
      }
      unread := unread + Replies(server, sent, outbox);
      sent := sent + outbox;
      outbox := [];
      return true;
    }

    method SendCommand(cmd: Command) returns (ok: bool)
      modifies `outbox, `sent, `unread, `broken
      ensures ok && old(outbox) == [] ==>
        && open && outbox == [] && broken == old(broken)
        && sent == old(sent) + [cmd] && unread == old(unread) + server(sent)
      ensures !ok ==> (if open then broken else broken == old(broken))
    {
      ok := SendNoFlush(cmd);
      if ok {
        ok := Flush();
      }
    }

    method WriteAll(data: Text) returns (ok: bool)
      modifies `upload, `broken
      ensures ok ==> open && upload == old(upload) + data && broken == old(broken)
      ensures !ok ==> (if open then broken else broken == old(broken))
    {
      var fault: bool := *;
      if !open {
        return false;
      }
      if fault {
        broken := true;
        return false;
      }
      upload := upload + data;
      return true;
    }

    /** The server has an article up to its terminator, and answers it. */
    method PeerTakesUpload()
      modifies `upload, `sent, `unread
      ensures upload == [] && sent == old(sent) + [Command(Posted, old(upload))]
      ensures unread == old(unread) + server(sent)
    {
      sent := sent + [Command(Posted, upload)];
      unread := unread + server(sent);
      upload := [];
    }

    /** `read_until(b'\n')` with its timeout; an empty line is the end of the stream. */
    method ReadLine() returns (r: Result<Text>)
      modifies `unread, `broken
      ensures r.Ok? ==> open && r.value == TakeLine(old(unread)) && unread == AfterLine(old(unread)) && broken == old(broken)
      ensures r.Err? ==> if open then broken && r == Err(Io) else broken == old(broken)
    {
      var fault: bool := *;
      if !open {
        return Err(Connection);
      }
      if fault {
        broken := true;
        return Err(Io);
      }
      var line := TakeLine(unread);
      unread := unread[|line|..];
      return Ok(line);
    }

    method ReadResponseLine() returns (r: Result<Status>)
      modifies `unread, `broken
      ensures r.Ok? ==> open && broken == old(broken)
      ensures open ==>
        || (broken && r.Err?)
        || (broken == old(broken) && r == ReadStatus(old(unread)) && unread == AfterLine(old(unread)))
      ensures !open ==> r.Err? && broken == old(broken)
    {
      var line := ReadLine();
      if line.Err? {
        return Err(line.error);
      }
      if line.value == [] {
        return Err(Connection);
      }
      if !ValidUtf8(line.value) {
        return Err(Io);
      }
      r := ParseStatus(line.value);
    }

    /**
     * `read_multiline_body_into_bounded`: fills `out`, which only grows and also on failure holds decoded data
     * within the bound; agrees with the reference decoding and stops right after the terminator.
     */
    method ReadMultilineBodyInto(max: Option<nat>) returns (failure: Option<NntpError>, out: Text)
      modifies `unread, `broken
      ensures !Exceeds(out, max) && (open ==> out <= Scan(old(unread), None).body)
      ensures failure.None? ==> open && broken == old(broken)
      ensures open ==>
        || (broken && failure == Some(Io))
        || (broken == old(broken) && Filled(failure, out) == Bounded(Scan(old(unread), None), max)
            && (failure.None? ==> unread == Scan(old(unread), None).end.rest))
      ensures !open ==> failure.Some? && broken == old(broken)
      ensures broken && !old(broken) ==> failure == Some(Io)
    {
      out := [];
      ghost var block := Scan(unread, None);
      while true
        invariant Scan(unread, None).end == block.end && out + Scan(unread, None).body == block.body
        invariant !Exceeds(out, max)
        invariant broken == old(broken)
        decreases |unread|
      {
        ghost var ahead := Scan(unread, None);
        var read := ReadLine();
        if read.Err? {
          return Some(read.error), out;
        }
        if read.value == [] {
          return Some(Connection), out;
        }
        if IsTerminator(read.value) {
          assert ahead == Scanned([], Terminated(unread)) && out + [] == out;
          return None, out;
        }
        var line := Unstuff(read.value);
        assert ahead.body == line + Scan(unread, None).body;
        BoundStep(block, out, line, Scan(unread, None).body, max);
        if max.Some? && |out| + |line| > max.value {
          return Some(ResponseTooLarge), out;
        }
        out := out + line;
      }
    }

    /** `read_multiline_body` and `read_multiline_body_bounded`. */
    method ReadMultilineBody(max: Option<nat>) returns (r: Result<Text>)
      modifies `unread, `broken
      ensures r.Ok? ==> open && broken == old(broken)
      ensures open ==>
        || (broken && r.Err?)
        || (broken == old(broken) && r == Bounded(Scan(old(unread), None), max)
            && (r.Ok? ==> unread == Scan(old(unread), None).end.rest))
      ensures !open ==> r.Err? && broken == old(broken)
      ensures broken && !old(broken) ==> r == Err(Io)
    {
      var failure, out := ReadMultilineBodyInto(max);
      r := Filled(failure, out);
    }

    /** `read_multiline_body_prefix`: stops at the bound, or right after the terminator. */
    method ReadMultilineBodyPrefix(max: nat) returns (r: Result<BodyPrefix>)
      modifies `unread, `broken
      ensures r.Ok? ==> open && broken == old(broken)
      ensures open ==>
        || (broken && r.Err?)
        || (broken == old(broken) && r == Prefixed(Scan(old(unread), Some(LINE_LIMIT)), max)
            && (r.Ok? && r.value.complete ==> Scan(old(unread), Some(LINE_LIMIT)).end == Terminated(unread)))
      ensures !open ==> r.Err? && broken == old(broken)
    {
      hide TakeLine, IsTerminator;
      var data: Text := [];
      ghost var block := Scan(unread, Some(LINE_LIMIT));
      while true
        invariant Scan(unread, Some(LINE_LIMIT)).end == block.end && data + Scan(unread, Some(LINE_LIMIT)).body == block.body
        invariant data == [] || |data| < max
        invariant broken == old(broken)
        decreases |unread|
      {
        ghost var ahead := Scan(unread, Some(LINE_LIMIT));
        var read := ReadLine();
        if read.Err? {
          var timedOut: bool := *;
          return Err(if timedOut then Timeout else read.error);
        }
        if read.value == [] {
          return Err(Connection);
        }
        if IsTerminator(read.value) {
          assert ahead == Scanned([], Terminated(unread)) && data + [] == data;
          return Ok(BodyPrefix(data, true));
        }
        if |read.value| > LINE_LIMIT {
          return Err(ResponseTooLarge);
        }
        var line := Unstuff(read.value);
        assert ahead.body == line + Scan(unread, Some(LINE_LIMIT)).body;
        PrefixStep(block, data, line, Scan(unread, Some(LINE_LIMIT)).body, max);
        var remaining := if |data| <= max then max - |data| else 0;
        var taken := data + line[..Least(|line|, remaining)];
        if |line| > remaining || |taken| == max {
          return Ok(BodyPrefix(taken, false));
        }
        data := taken;
      }
    }

    // ----- command methods -----

    /** Send one command and read the status line of its reply. */
    method Request(cmd: Command) returns (r: Result<Status>)
      modifies this
      ensures open == old(open) && upload == old(upload)
      ensures if r.Ok? then state == Busy else state == Error
      ensures old(Settled()) ==>
        || (broken && r.Err?)
        || (!broken && outbox == [] && sent == old(sent) + [cmd]
            && r == ReadStatus(server(sent)) && unread == AfterLine(server(sent)))
    {
      state := Busy;
      var ok := SendCommand(cmd);
      if !ok {
        state := Error;
        return Err(if open then Io else Connection);
      }
      assert old(Settled()) ==> unread == server(sent);
      r := ReadResponseLine();
      if r.Err? {
        state := Error;
      }
    }

    /** The end of a command method: read the block or not, and settle the state. */
    method Act(d: Disposition, st: Status, max: Option<nat>) returns (r: Result<Response>)
      modifies `state, `unread, `broken
      ensures state == Ready || state == Error
      ensures open && !old(broken) ==>
        || (broken && r.Err? && state == Error)
        || (!broken && r == Acted(d, st, max, old(unread)) && (state == Ready <==> Settles(d, r)))
      ensures state == Ready ==> !d.Fatal? && broken == old(broken)
      ensures state == Ready && d.ReadBlock? ==> open && Scan(old(unread), None).end == Terminated(unread)
      ensures state == Ready && !d.ReadBlock? ==> unread == old(unread)
    {
      match d {
        case ReadBlock =>
          var data := ReadMultilineBody(max);
          if data.Err? {
            state := Error;
            return Err(data.error);
          }
          state := Ready;
          r := Ok(Response(st.code, st.message, Some(data.value)));
        case Done =>
          state := Ready;
          r := Ok(Response(st.code, st.message, None));
        case Refused(e) =>
          state := Ready;
          r := Err(e);
        case Fatal(e) =>
          state := Error;
          r := Err(e);
      }
    }

    /**
     * The body shared by the command methods: check the state, send, read the status, act on its code.
     * `id` is what a not-found error names; `arg` is the rest of the command line.
     */
    method Exchange(call: Call, id: Text, arg: Text, max: Option<nat>) returns (r: Result<Response>)
      modifies this
      ensures KeepsStep()
      ensures old(state) != Ready ==> r == Err(Protocol)
      ensures Started() ==>
        || (broken && r.Err? && state == Error)
        || (!broken && sent == old(sent) + [Command(VerbOf(call), arg)] && r == Meaning(call, id, max, server(sent))
            && (state == Ready <==> Survives(call, id, max, server(sent))))
    {
      hide Dispose, Acted, Scan, ReadStatus, AfterLine, Obeys, Settles;
      if state != Ready {
        return Err(Protocol);
      }
      var status := Request(Command(VerbOf(call), arg));
      if status.Err? {
        return Err(status.error);
      }
      if old(Settled()) && Obeys(server) {
        ReadyReadsWholeReply(call, id, server, sent);
      }
      ghost var before := unread;
      ghost var d := Dispose(call, id, status.value);
      r := Act(Dispose(call, id, status.value), status.value, max);
      assert old(Settled()) && !broken ==> Meaning(call, id, max, server(sent)) == Acted(d, status.value, max, before);
    }

    /** ARTICLE: the whole article. */
    method FetchArticle(id: Text) returns (r: Result<Response>)
      modifies this
      ensures KeepsStep() && (old(state) != Ready ==> r == Err(Protocol))
      ensures Started() && !broken ==>
        && sent == old(sent) + [Command(Article, NormalizeId(id))]
        && r == Meaning(Call.FetchArticle, NormalizeId(id), None, server(sent))
        && (state == Ready <==> Survives(Call.FetchArticle, NormalizeId(id), None, server(sent)))
      ensures Started() && broken ==> r.Err? && state == Error
    {
      r := Exchange(Call.FetchArticle, NormalizeId(id), NormalizeId(id), None);
    }

    /** HEAD by number, bounded. */
    method FetchHeadNumber(number: nat, max: nat) returns (r: Result<Response>)
      modifies this
      ensures KeepsStep() && (old(state) != Ready ==> r == Err(Protocol))
      ensures !caps.haveHead || number == 0 || max == 0 || max > 64 * 1024 ==> r == Err(Protocol) && unchanged(this)
      ensures Started() && broken ==> r.Err? && state == Error
      ensures caps.haveHead && number != 0 && 1 <= max <= 64 * 1024 && Started() && !broken ==>
        && sent == old(sent) + [Command(Head, Print(number))]
        && r == Meaning(FetchHead, Print(number), Some(max), server(sent))
        && (state == Ready <==> Survives(FetchHead, Print(number), Some(max), server(sent)))
    {
      if !caps.haveHead || number == 0 || max == 0 || max > 64 * 1024 {
        return Err(Protocol);
      }
      r := Exchange(FetchHead, Print(number), Print(number), Some(max));
    }

    /** STAT; a server without it is reported as not having the article. */
    method Stat(id: Text) returns (r: Result<Response>)
      modifies this
      ensures KeepsStep()
      ensures !caps.haveStat ==> r == Err(ArticleNotFound(NormalizeId(id))) && unchanged(this)
      ensures caps.haveStat && old(state) != Ready ==> r == Err(Protocol)
      ensures Started() && broken ==> r.Err? && state == Error
      ensures caps.haveStat && Started() && !broken ==>
        && sent == old(sent) + [Command(Verb.Stat, NormalizeId(id))]
        && r == Meaning(StatArticle, NormalizeId(id), None, server(sent))
        && (state == Ready <==> Survives(StatArticle, NormalizeId(id), None, server(sent)))
    {
      if !caps.haveStat {
        return Err(ArticleNotFound(NormalizeId(id)));
      }
      r := Exchange(StatArticle, NormalizeId(id), NormalizeId(id), None);
    }

    /** DATE as a liveness probe: any reply that does not end the session will do. */
    method Ping() returns (alive: bool)
      modifies this
      ensures KeepsStep() && (old(state) != Ready ==> !alive)
      ensures Started() && broken ==> !alive && state == Error
      ensures Started() && !broken ==>
        && sent == old(sent) + [Command(Date, [])]
        && (alive <==> state == Ready)
        && (alive <==> ReadStatus(server(sent)).Ok?
                       && ReadStatus(server(sent)).value.code !in {400, 403, 480, 481, 482, 502})
    {
      var r := Exchange(Call.Ping, [], [], None);
      alive := r.Ok?;
    }

    /** LIST OVERVIEW.FMT. */
    method NegotiateOverview() returns (r: Result<Format>)
      modifies this
      ensures KeepsStep() && (old(state) != Ready ==> r == Err(Protocol))
      ensures Started() && broken ==> r.Err? && state == Error
      ensures Started() && !broken ==>
        && sent == old(sent) + [Command(ListOverviewFmt, [])]
        && r == FormatMeaning(Meaning(OverviewFormat, [], None, server(sent)))
        && (state == Ready <==> Survives(OverviewFormat, [], None, server(sent)))
    {
      var response := Exchange(OverviewFormat, [], [], None);
      if response.Err? {
        return Err(response.error);
      }
      r := ParseFormat(DataOf(response.value));
    }

    /** XOVER over a range, optionally bounded, parsed without loss. */
    method XoverLossless(first: nat, last: nat, format: Format, max: Option<nat>) returns (r: Result<Rows>)
      modifies this
      ensures KeepsStep() && (old(state) != Ready ==> r == Err(Protocol))
      ensures Started() && broken ==> r.Err? && state == Error
      ensures max.Some? && (max.value == 0 || max.value > 8 * 1024 * 1024) ==> r == Err(Protocol) && unchanged(this)
      ensures (max.Some? ==> 1 <= max.value <= 8 * 1024 * 1024) && Started() && !broken ==>
        && sent == old(sent) + [Command(Xover, Print(first) + Ascii("-") + Print(last))]
        && r == RowsMeaning(Meaning(Overview, [], max, server(sent)), Window(|format.fields|, first, last))
        && (state == Ready <==> Survives(Overview, [], max, server(sent)))
    {
      hide Dispose, Acted, ReadStatus, AfterLine, Obeys, Parsed, Survives, Print;
      if max.Some? && (max.value == 0 || max.value > 8 * 1024 * 1024) {
        return Err(Protocol);
      }
      var response := Exchange(Overview, [], Print(first) + Ascii("-") + Print(last), max);
      if response.Err? {
        return Err(response.error);
      }
      var rows := ParseRows(DataOf(response.value), format, first, last);
      r := Ok(rows);
    }

    /** BODY, or ARTICLE with its headers stripped on a server that only has that. */
    method FetchBody(id: Text) returns (r: Result<Response>)
      modifies this
      ensures KeepsStep() && (old(state) != Ready ==> r == Err(Protocol))
      ensures Started() && broken ==> r.Err? && state == Error
      ensures Started() && !broken && (caps.haveBody || !caps.haveArticle) ==>
        && sent == old(sent) + [Command(Body, NormalizeId(id))]
        && r == Meaning(Call.FetchBody, NormalizeId(id), None, server(sent))
        && (state == Ready <==> Survives(Call.FetchBody, NormalizeId(id), None, server(sent)))
      ensures Started() && !broken && !caps.haveBody && caps.haveArticle ==>
        && sent == old(sent) + [Command(Article, NormalizeId(id))]
        && r == AsBody(Meaning(Call.FetchArticle, NormalizeId(id), None, server(sent)))
        && (state == Ready <==> Survives(Call.FetchArticle, NormalizeId(id), None, server(sent)))
    {
      if !caps.haveBody && caps.haveArticle {
        r := FetchArticle(id);
        if r.Ok? {
          var data := r.value.data;
          if data.Some? {
            var body := StripArticleHeaders(data.value);
            data := Some(body);
          }
          r := Ok(Response(222, r.value.message, data));
        }
        return;
      }
      r := Exchange(Call.FetchBody, NormalizeId(id), NormalizeId(id), None);
    }

    /** The end of `fetch_body_prefix`: a body cut short leaves no transport. */
    method ActPrefix(d: Disposition, max: nat) returns (r: Result<BodyPrefix>)
      requires !d.Done?
      modifies `state, `open, `unread, `broken
      ensures state in {Ready, Error, Disconnected}
      ensures old(open && !broken) ==>
        || (broken && r.Err? && state == Error)
        || (!broken && r == PrefixActed(d, max, old(unread))
            && (r.Ok? ==> if r.value.complete then state == Ready else state == Disconnected && !open)
            && (state != Disconnected ==> open)
            && (r.Err? ==> state == if d.Refused? then Ready else Error))
      ensures state == Ready ==> !d.Fatal? && open == old(open) && broken == old(broken)
      ensures state == Ready && d.ReadBlock? ==> open && Scan(old(unread), Some(LINE_LIMIT)).end == Terminated(unread)
      ensures state == Ready && !d.ReadBlock? ==> unread == old(unread)
    {
      match d {
        case ReadBlock =>
          r := ReadMultilineBodyPrefix(max);
          if r.Err? {
            state := Error;
          } else if r.value.complete {
            state := Ready;
          } else {
            open := false;
            state := Disconnected;
          }
        case Refused(e) =>
          state := Ready;
          r := Err(e);
        case Fatal(e) =>
          state := Error;
          r := Err(e);
      }
    }

    /** BODY, read only up to a bound: a body cut short takes the connection down with it. */
    method FetchBodyPrefix(id: Text, max: nat) returns (r: Result<BodyPrefix>)
      modifies this
      ensures KeepsStep()
      ensures max == 0 || max > 256 * 1024 ==> r == Err(Protocol) && unchanged(this)
      ensures 1 <= max <= 256 * 1024 && !caps.haveBody ==> r == Err(UnsupportedCommand([])) && unchanged(this)
      ensures 1 <= max <= 256 * 1024 && caps.haveBody && old(state) != Ready ==> r == Err(Protocol)
      ensures Started() && broken ==> r.Err? && state == Error
      ensures 1 <= max <= 256 * 1024 && caps.haveBody && Started() && !broken ==>
        && sent == old(sent) + [Command(Body, NormalizeId(id))]
        && r == PrefixMeaning(NormalizeId(id), max, server(sent))
        && state == PrefixState(NormalizeId(id), max, server(sent)) && open == (state != Disconnected)
    {
      hide Dispose, Scan, Prefixed, ReadStatus, AfterLine, Obeys, Bounded;
      if max == 0 || max > 256 * 1024 {
        return Err(Protocol);
      }
      if !caps.haveBody {
        return Err(UnsupportedCommand([]));
      }
      if state != Ready {
        return Err(Protocol);
      }
      var id := NormalizeId(id);
      var status := Request(Command(Body, id));
      if status.Err? {
        return Err(status.error);
      }
      if old(Settled()) && Obeys(server) {
        ReadyReadsWholeReply(Call.FetchBodyPrefix, id, server, sent);
        ScanLimitPrefix(AfterLine(server(sent)), Some(LINE_LIMIT));
      }
      r := ActPrefix(Dispose(Call.FetchBodyPrefix, id, status.value), max);
    }

    // ----- posting -----

    /** After the terminator: the server answers the article. */
    method FinishPost() returns (r: Result<Response>)
      modifies this
      ensures open == old(open) && (state == Ready || state == Error)
      ensures old(open && !broken && outbox == [] && unread == []) ==>
        || (broken && r.Err? && state == Error)
        || (!broken && outbox == [] && upload == [] && sent == old(sent) + [Command(Posted, old(upload))]
            && unread == AfterLine(server(sent))
            && if ReadStatus(server(sent)).Ok? then r == Ok(Plain(ReadStatus(server(sent)).value)) && state == Ready
               else r.Err? && state == Error)
    {
      hide ReadStatus, AfterLine;
      PeerTakesUpload();
      assert old(unread) == [] ==> unread == server(sent);
      var status := ReadResponseLine();
      if status.Err? {
        state := Error;
        return Err(status.error);
      }
      state := Ready;
      r := Ok(Plain(status.value));
    }

    /** One stuffed line, written in up to three pieces. */
    method WriteLine(line: Text) returns (ok: bool)
      modifies `upload, `broken
      ensures ok ==> open && upload == old(upload) + (Stuff(line) + CRLF) && broken == old(broken)
      ensures !ok ==> (if open then broken else broken == old(broken))
    {
      if line != [] && line[0] == DOT {
        ok := WriteAll([DOT]);
        if !ok { return; }
      }
      ok := WriteAll(line);
      if !ok { return; }
      ok := WriteAll(CRLF);
    }

    /** The loop of `post_article_bytes`: line by line over the bytes, dot-stuffing and ending each line with CRLF. */
    method WriteArticleBytes(article: Text) returns (ok: bool)
      modifies `upload, `broken
      ensures ok ==> open && upload == old(upload) + Encode(article) && broken == old(broken)
      ensures !ok ==> (if open then broken else broken == old(broken))
    {
      hide Stuff, StuffLines, Lines;
      var start := 0;
      assert article[0..] == article;
      while start < |article|
        invariant start <= |article|
        invariant upload + StuffLines(Lines(article[start..])) == old(upload) + StuffLines(Lines(article))
        invariant broken == old(broken)
      {
        var todo := article[start..];
        var newline := IndexOf(todo, LF);
        StuffFirst(upload, todo);
        ok := WriteLine(StripCR(todo[..newline]));
        if !ok { return; }
        start := if newline < |todo| then start + newline + 1 else |article|;
        assert article[start..] == AfterFirst(todo);
      }
      NothingLeft(upload, article[start..]);
      ok := WriteAll(TERMINATOR);
      Assoc(old(upload), StuffLines(Lines(article)), TERMINATOR);
    }

    /** The loop of `post_article`, over `str::lines`. */
    method WriteArticleLines(article: Text) returns (ok: bool)
      modifies `upload, `broken
      ensures ok ==> open && upload == old(upload) + EncodeStr(article) && broken == old(broken)
      ensures !ok ==> (if open then broken else broken == old(broken))
    {
      hide StuffLines, StrLines;
      var lines := StrLines(article);
      assert lines[0..] == lines;
      for i := 0 to |lines|
        invariant upload + StuffLines(lines[i..]) == old(upload) + StuffLines(lines)
        invariant broken == old(broken)
      {
        StuffAt(upload, lines, i);
        if lines[i] != [] && lines[i][0] == DOT {
          ok := WriteAll([DOT] + lines[i] + CRLF);
        } else {
          ok := WriteAll(lines[i] + CRLF);
        }
        if !ok { return; }
      }
      NoLinesLeft(upload, lines[|lines|..]);
      ok := WriteAll(TERMINATOR);
      Assoc(old(upload), StuffLines(lines), TERMINATOR);
    }

    /** The outcome of posting `wire`: declined, unexpected, or answered after exactly `wire` was uploaded. */
    twostate predicate PostOutcome(wire: Text, new r: Result<Response>)
      reads this
    {
      var asked := old(sent) + [Command(Post, [])];
      var first := ReadStatus(server(asked));
      if broken then r.Err? && state == Error
      else if first.Err? then sent == asked && r == Err(first.error) && state == Error
      else if first.value.code == 340 then
        && sent == asked + [Command(Posted, wire)]
        && if ReadStatus(server(sent)).Ok? then r == Ok(Plain(ReadStatus(server(sent)).value)) && state == Ready
           else r.Err? && state == Error
      else if first.value.code == 440 then sent == asked && r == Ok(Plain(first.value)) && state == Ready
      else sent == asked && r == Err(Protocol) && state == Error
    }

    /** The frame shared by the two POST methods, which differ only in how they cut the article into lines. */
    method PostWith(article: Text, asText: bool) returns (r: Result<Response>)
      modifies this
      ensures if old(state) == Ready then state == Ready || state == Error else unchanged(this) && r == Err(Protocol)
      ensures Started() && AfterLine(server(old(sent) + [Command(Post, [])])) == [] ==>
        && PostOutcome(if asText then EncodeStr(article) else Encode(article), r)
        && (state == Ready && AfterLine(server(sent)) == [] ==> Settled())
    {
      if state != Ready {
        return Err(Protocol);
      }
      var status := Request(Command(Post, []));
      if status.Err? {
        return Err(status.error);
      }
      if status.value.code == 340 {
        var ok;
        if asText {
          ok := WriteArticleLines(article);
        } else {
          ok := WriteArticleBytes(article);
        }
        if !ok {
          state := Error;
          return Err(Io);
        }
        assert [] + EncodeStr(article) == EncodeStr(article) && [] + Encode(article) == Encode(article);
        r := FinishPost();
      } else if status.value.code == 440 {
        state := Ready;
        r := Ok(Plain(status.value));
      } else {
        state := Error;
        r := Err(Protocol);
      }
    }

    /** POST with the byte encoder: the server gets the encoded article, whole, and nothing else. */
    method PostArticleBytes(article: Text) returns (r: Result<Response>)
      modifies this
      ensures KeepsStep() && (old(state) != Ready ==> r == Err(Protocol))
      ensures Started() && Obeys(server) ==> PostOutcome(Encode(article), r)
    {
      r := PostWith(article, false);
      if Started() && Obeys(server) {
        SingleLineReply(server, old(sent) + [Command(Post, [])]);
        if state == Ready {
          SingleLineReply(server, sent);
        }
      }
    }

    /** POST with the `str::lines` encoder. */
    method PostArticle(article: Text) returns (r: Result<Response>)
      modifies this
      ensures KeepsStep() && (old(state) != Ready ==> r == Err(Protocol))
      ensures Started() && Obeys(server) ==> PostOutcome(EncodeStr(article), r)
    {
      r := PostWith(article, true);
      if Started() && Obeys(server) {
        SingleLineReply(server, old(sent) + [Command(Post, [])]);
        if state == Ready {
          SingleLineReply(server, sent);
        }
      }
    }
  }
}
