/**
 * What each call makes of each response code, code by code, and of the replies a well-behaved server sends. The
 * readings are `Status.Meaning` and, for a prefix read, `ConnectionModel.PrefixMeaning`; nothing here is stated
 * through the match they are computed by.
 */
module Codes {
  import opened Bytes
  import opened ConnectionModel
  import opened Decimal
  import opened Overview
  import opened Status
  import opened Wire

  /** The call reports this error on just these codes. */
  predicate OnlyOn<T>(r: Result<T>, e: NntpError, code: nat, codes: set<nat>) {
    r == Err(e) <==> code in codes
  }

  /** The codes that end the session, when a denied permission has no error of its own. */
  predicate Rejects<T>(r: Result<T>, st: Status) {
    && OnlyOn(r, Auth(st.message), st.code, {481, 482})
    && OnlyOn(r, ServiceUnavailable(st.message), st.code, {502})
  }

  predicate Challenges<T>(r: Result<T>, st: Status) {
    Rejects(r, st) && OnlyOn(r, AuthRequired(st.message), st.code, {480})
  }

  predicate Denies<T>(r: Result<T>, st: Status) {
    Challenges(r, st) && OnlyOn(r, PermissionDenied(st.message), st.code, {403})
  }

  /** A block that cannot be read whole leaves no connection; otherwise success means ready. */
  predicate BlockOn(r: Result<Response>, ready: bool, code: nat, block: nat) {
    code == block ==>
      && ready == r.Ok?
      && (if r.Ok? then r.value.code == block && r.value.data.Some?
          else r.error == Connection || r.error == ResponseTooLarge)
  }

  lemma ArticleCodes(id: Text, max: Option<nat>, reply: Text)
    requires ReadStatus(reply).Ok?
    ensures var st, r := ReadStatus(reply).value, Meaning(FetchArticle, id, max, reply);
      var ready := Survives(FetchArticle, id, max, reply);
      && BlockOn(r, ready, st.code, 220) && (r.Ok? ==> st.code == 220)
      && OnlyOn(r, ArticleNotFound(id), st.code, {430})
      && OnlyOn(r, NoSuchGroup(st.message), st.code, {411})
      && OnlyOn(r, NoArticleSelected(st.message), st.code, {412, 420, 423})
      && Denies(r, st)
      && (r == Err(Protocol) <==>
            && st.code !in {220, 403, 411, 412, 420, 423, 430, 480, 481, 482, 502}
            && !(st.code == 400 && SaysExpired(st.message)))
      && (st.code != 220 ==> (r == Err(Connection) <==> st.code == 400 && SaysExpired(st.message)))
      && (st.code != 220 ==> (ready <==> st.code in {411, 412, 420, 423, 430}))
  {
    hide ReadStatus, AfterLine, Scan, UnexpectedArticle, Bounded, SaysExpired;
    UnexpectedExactly(ReadStatus(reply).value);
  }

  lemma HeadCodes(id: Text, max: Option<nat>, reply: Text)
    requires ReadStatus(reply).Ok?
    ensures var st, r := ReadStatus(reply).value, Meaning(FetchHead, id, max, reply);
      var ready := Survives(FetchHead, id, max, reply);
      && BlockOn(r, ready, st.code, 221) && (r.Ok? ==> st.code == 221)
      && OnlyOn(r, ArticleNotFound(id), st.code, {423})
      && OnlyOn(r, NoSuchGroup(st.message), st.code, {411})
      && OnlyOn(r, NoArticleSelected(st.message), st.code, {412, 420})
      && Denies(r, st)
      && (r == Err(Protocol) <==> st.code !in {221, 403, 411, 412, 420, 423, 480, 481, 482, 502})
      && (st.code != 221 ==> (ready <==> st.code in {411, 412, 420, 423}))
  {
    hide ReadStatus, AfterLine, Scan, Bounded;
  }

  lemma BodyCodes(id: Text, max: Option<nat>, reply: Text)
    requires ReadStatus(reply).Ok?
    ensures var st, r := ReadStatus(reply).value, Meaning(FetchBody, id, max, reply);
      var ready := Survives(FetchBody, id, max, reply);
      && BlockOn(r, ready, st.code, 222) && (r.Ok? ==> st.code == 222)
      && OnlyOn(r, ArticleNotFound(id), st.code, {430})
      && OnlyOn(r, NoArticleSelected(st.message), st.code, {412, 420, 423})
      && Challenges(r, st)
      && (r == Err(Protocol) <==> st.code !in {222, 412, 420, 423, 430, 480, 481, 482, 502})
      && (st.code != 222 ==> (ready <==> st.code in {412, 420, 423, 430}))
  {
    hide ReadStatus, AfterLine, Scan, Bounded;
  }

  lemma BodyPrefixCodes(id: Text, max: nat, reply: Text)
    requires ReadStatus(reply).Ok?
    ensures var st, r := ReadStatus(reply).value, PrefixMeaning(id, max, reply);
      var state := PrefixState(id, max, reply);
      && (st.code == 222 ==>
            if r.Ok? then state == (if r.value.complete then Ready else Disconnected)
            else state == Error && (r.error == Connection || r.error == ResponseTooLarge))
      && (r.Ok? ==> st.code == 222)
      && OnlyOn(r, ArticleNotFound(id), st.code, {430})
      && OnlyOn(r, NoArticleSelected(st.message), st.code, {412, 420, 423})
      && OnlyOn(r, UnsupportedCommand(st.message), st.code, {500, 501})
      && Denies(r, st)
      && (r == Err(Protocol) <==> st.code !in {222, 403, 412, 420, 423, 430, 480, 481, 482, 500, 501, 502})
      && (st.code != 222 ==> state == if st.code in {412, 420, 423, 430, 500, 501} then Ready else Error)
  {
    hide ReadStatus, AfterLine, Scan;
  }

  lemma StatCodes(id: Text, max: Option<nat>, reply: Text)
    requires ReadStatus(reply).Ok?
    ensures var st, r := ReadStatus(reply).value, Meaning(StatArticle, id, max, reply);
      && (r.Ok? <==> st.code == 223) && (r.Ok? ==> r.value == Plain(st))
      && OnlyOn(r, ArticleNotFound(id), st.code, {430})
      && Denies(r, st)
      && (r == Err(Protocol) <==> st.code !in {223, 403, 430, 480, 481, 482, 502})
      && (Survives(StatArticle, id, max, reply) <==> st.code in {223, 430})
  {
    hide ReadStatus, AfterLine, Scan, Bounded;
  }

  lemma PingCodes(id: Text, max: Option<nat>, reply: Text)
    requires ReadStatus(reply).Ok?
    ensures var st, r := ReadStatus(reply).value, Meaning(Call.Ping, id, max, reply);
      && (r.Ok? <==> st.code !in {400, 403, 480, 481, 482, 502}) && (r.Err? ==> r == Err(Connection))
      && (Survives(Call.Ping, id, max, reply) <==> r.Ok?)
  {
    hide ReadStatus, AfterLine, Scan, Bounded;
  }

  lemma GroupCodes(name: Text, max: Option<nat>, reply: Text)
    requires ReadStatus(reply).Ok?
    ensures var st, r := ReadStatus(reply).value, Meaning(SelectGroup, name, max, reply);
      && (r.Ok? <==> st.code == 211) && (r.Ok? ==> r.value == Plain(st))
      && OnlyOn(r, NoSuchGroup(name), st.code, {411})
      && Challenges(r, st)
      && (r == Err(Protocol) <==> st.code !in {211, 411, 480, 481, 482, 502})
      && (Survives(SelectGroup, name, max, reply) <==> st.code in {211, 411})
  {
    hide ReadStatus, AfterLine, Scan, Bounded;
  }

  lemma OverviewFormatCodes(id: Text, max: Option<nat>, reply: Text)
    requires ReadStatus(reply).Ok?
    ensures var st, r := ReadStatus(reply).value, Meaning(OverviewFormat, id, max, reply);
      var ready := Survives(OverviewFormat, id, max, reply);
      && BlockOn(r, ready, st.code, 215) && (r.Ok? ==> st.code == 215)
      && Challenges(r, st)
      && (r == Err(Protocol) <==> st.code !in {215, 480, 481, 482, 502})
      && (st.code != 215 ==> !ready)
  {
    hide ReadStatus, AfterLine, Scan, Bounded;
  }

  lemma OverviewCodes(id: Text, max: Option<nat>, reply: Text)
    requires ReadStatus(reply).Ok?
    ensures var st, r := ReadStatus(reply).value, Meaning(Call.Overview, id, max, reply);
      var ready := Survives(Call.Overview, id, max, reply);
      && BlockOn(r, ready, st.code, 224) && (r.Ok? ==> st.code in {224, 420, 423})
      && (st.code in {420, 423} ==> r == Ok(Plain(st)))
      && OnlyOn(r, NoSuchGroup([]), st.code, {412})
      && Rejects(r, st)
      && (r == Err(Protocol) <==> st.code !in {224, 412, 420, 423, 481, 482, 502})
      && (st.code != 224 ==> (ready <==> st.code in {412, 420, 423}))
  {
    hide ReadStatus, AfterLine, Scan, Bounded;
  }

  lemma HeadersCodes(id: Text, max: Option<nat>, reply: Text)
    requires ReadStatus(reply).Ok?
    ensures var st, r := ReadStatus(reply).value, Meaning(Headers, id, max, reply);
      var ready := Survives(Headers, id, max, reply);
      && BlockOn(r, ready, st.code, 221) && (r.Ok? ==> st.code in {221, 420, 423})
      && (st.code in {420, 423} ==> r == Ok(Plain(st)))
      && OnlyOn(r, NoSuchGroup([]), st.code, {412})
      && OnlyOn(r, ArticleNotFound(id), st.code, {430})
      && Rejects(r, st)
      && (r == Err(Protocol) <==> st.code !in {221, 412, 420, 423, 430, 481, 482, 502})
      && (st.code != 221 ==> (ready <==> st.code in {412, 420, 423, 430}))
  {
    hide ReadStatus, AfterLine, Scan, Bounded;
  }

  lemma PatternsCodes(id: Text, max: Option<nat>, reply: Text)
    requires ReadStatus(reply).Ok?
    ensures var st, r := ReadStatus(reply).value, Meaning(Patterns, id, max, reply);
      var ready := Survives(Patterns, id, max, reply);
      && BlockOn(r, ready, st.code, 221) && (r.Ok? ==> st.code in {221, 420, 423})
      && (st.code in {420, 423} ==> r == Ok(Plain(st)))
      && OnlyOn(r, NoSuchGroup([]), st.code, {412})
      && OnlyOn(r, ArticleNotFound(id), st.code, {430})
      && OnlyOn(r, UnsupportedCommand(st.message), st.code, {500, 501})
      && Rejects(r, st)
      && (r == Err(Protocol) <==> st.code !in {221, 412, 420, 423, 430, 481, 482, 500, 501, 502})
      && (st.code != 221 ==> (ready <==> st.code in {412, 420, 423, 430, 500, 501}))
  {
    hide ReadStatus, AfterLine, Scan, Bounded;
  }

  lemma ActiveListCodes(id: Text, max: Option<nat>, reply: Text)
    requires ReadStatus(reply).Ok?
    ensures var st, r := ReadStatus(reply).value, Meaning(ActiveList, id, max, reply);
      var ready := Survives(ActiveList, id, max, reply);
      && BlockOn(r, ready, st.code, 215) && (r.Ok? ==> st.code == 215)
      && Rejects(r, st)
      && (r == Err(Protocol) <==> st.code !in {215, 481, 482, 502})
      && (st.code != 215 ==> !ready)
  {
    hide ReadStatus, AfterLine, Scan, Bounded;
  }

  // ----- which 400 means a dead session -----

  /** The word stands somewhere in the text, in any mixture of cases. */
  ghost predicate Has(text: Text, word: Text) {
    exists i: nat :: i + |word| <= |text| && SpeltAt(text, word, i)
  }

  predicate SpeltAt(text: Text, word: Text, i: nat)
    requires i + |word| <= |text|
  {
    forall j :: 0 <= j < |word| ==> SameLetter(text[i + j], word[j])
  }

  /** Equal, or the capital of a small letter. */
  predicate SameLetter(b: Byte, small: Byte) {
    b == small || (97 <= small <= 122 && b == small - 32)
  }

  ghost predicate SaysExpired(text: Text) {
    || (Has(text, Ascii("idle")) && Has(text, Ascii("timeout")))
    || (Has(text, Ascii("session"))
        && (Has(text, Ascii("timeout")) || Has(text, Ascii("expired")) || Has(text, Ascii("closed"))))
  }

  predicate Small(word: Text) {
    forall j :: 0 <= j < |word| ==> 97 <= word[j] <= 122
  }

  lemma ContainsWord(text: Text, word: Text)
    requires Small(word)
    ensures Contains(ToLower(text), word) <==> Has(text, word)
  {
    var low := ToLower(text);
    if Contains(low, word) {
      var i :| 0 <= i <= |low| && OccursAt(low, word, i);
      var rest := low[i..];
      assert word <= rest;
      forall j | 0 <= j < |word|
        ensures SameLetter(text[i + j], word[j])
      {
        assert rest[j] == low[i + j] == Lower(text[i + j]);
        assert rest[..|word|][j] == word[j];
      }
      assert SpeltAt(text, word, i);
    }
    if Has(text, word) {
      var i: nat :| i + |word| <= |text| && SpeltAt(text, word, i);
      var rest := low[i..];
      forall j | 0 <= j < |word|
        ensures rest[j] == word[j]
      {
        assert rest[j] == Lower(text[i + j]) && SameLetter(text[i + j], word[j]);
      }
      assert word == rest[..|word|];
      assert OccursAt(low, word, i);
    }
  }

  /** A 400 reports a dead session exactly when its text says so. */
  lemma UnexpectedExactly(st: Status)
    ensures UnexpectedArticle(st) == if st.code == 400 && SaysExpired(st.message) then Connection else Protocol
  {
    var m := st.message;
    hide Contains, Has;
    ContainsWord(m, Ascii("idle"));
    ContainsWord(m, Ascii("timeout"));
    ContainsWord(m, Ascii("session"));
    ContainsWord(m, Ascii("expired"));
    ContainsWord(m, Ascii("closed"));
  }

  // ----- success replies -----

  /** The code of a call's success reply, for the calls that get a block. */
  predicate SucceedsOn(call: Call, code: nat) {
    || (call == FetchArticle && code == 220) || (call == FetchHead && code == 221) || (call == FetchBody && code == 222)
    || (call == OverviewFormat && code == 215) || (call == Call.Overview && code == 224)
    || (call == Headers && code == 221) || (call == Patterns && code == 221) || (call == ActiveList && code == 215)
  }

  /** The reply a server sends with `data`, and any data that fits the bound is delivered, with the connection kept. */
  lemma BlockDelivered(call: Call, id: Text, max: Option<nat>, code: nat, message: Text, data: Text)
    requires SucceedsOn(call, code) && LF !in message && ValidUtf8(message) && !Exceeds(Normalize(data), max)
    ensures var reply := StatusLine(code, message) + Encode(data);
      && Meaning(call, id, max, reply) == Ok(Response(code, TrimEnd(message), Some(Normalize(data))))
      && Survives(call, id, max, reply)
  {
    StatusRoundTrip(code, message, Encode(data));
    EncodeRoundTrip(data, []);
    assert Encode(data) + [] == Encode(data);
    hide StatusLine, ReadStatus, AfterLine, Encode, Normalize, Scan, TrimEnd;
    assert Dispose(call, id, Status(code, TrimEnd(message))).ReadBlock?;
  }

  lemma LineEnded(code: nat, message: Text, rest: Text)
    requires code < 1000 && LF !in message
    ensures EndsWith(TakeLine(StatusLine(code, message) + rest), LF)
  {
    CodeValue(code);
    TakeStatusLine(Code(code), message, rest);
  }

  /** Such a reply is well formed, with just its own block after the status line. */
  lemma BlockWellFormed(call: Call, code: nat, message: Text, data: Text)
    requires SucceedsOn(call, code) && LF !in message && ValidUtf8(message)
    ensures WellFormedReply(VerbOf(call), StatusLine(code, message) + Encode(data))
  {
    hide StatusLine, ReadStatus, AfterLine, Encode, Normalize, Scan, TrimEnd, TakeLine;
    StatusRoundTrip(code, message, Encode(data));
    LineEnded(code, message, Encode(data));
    EncodeRoundTrip(data, []);
    assert Encode(data) + [] == Encode(data);
    assert CarriesBlock(VerbOf(call), code);
  }

  /** A reply with no block is one status line. */
  lemma LineWellFormed(verb: Verb, code: nat, message: Text)
    requires code < 1000 && LF !in message && ValidUtf8(message) && code !in {215, 220, 221, 222, 224}
    ensures WellFormedReply(verb, StatusLine(code, message))
  {
    hide StatusLine, ReadStatus, AfterLine, Scan, TrimEnd, TakeLine;
    var line := StatusLine(code, message);
    StatusRoundTrip(code, message, []);
    LineEnded(code, message, []);
    assert line + [] == line;
    assert !CarriesBlock(verb, code);
  }

  /** BODY within the line limit, read up to a bound. */
  lemma PrefixDelivered(id: Text, max: nat, message: Text, data: Text)
    requires 1 <= max && LF !in message && ValidUtf8(message) && WithinLimit(Lines(data), Some(LINE_LIMIT))
    ensures var reply, body := StatusLine(222, message) + Encode(data), Normalize(data);
      && PrefixMeaning(id, max, reply) == Ok(BodyPrefix(body[..Least(max, |body|)], |body| < max))
      && PrefixState(id, max, reply) == if |body| < max then Ready else Disconnected
  {
    StatusRoundTrip(222, message, Encode(data));
    PrefixRoundTrip(data, [], max);
    assert Encode(data) + [] == Encode(data);
    hide StatusLine, ReadStatus, AfterLine, Encode, Normalize, Scan, TrimEnd;
  }

  /** XOVER end to end: the rows a server sends for the range are the rows returned, with nothing defective. */
  lemma RowsDelivered(id: Text, max: Option<nat>, message: Text, rows: seq<Row>, w: Window)
    requires Printable(rows, w) && LF !in message && ValidUtf8(message) && !Exceeds(PrintRows(rows), max)
    ensures var reply := StatusLine(224, message) + Encode(PrintRows(rows));
      && RowsMeaning(Meaning(Call.Overview, id, max, reply), w) == Ok(Rows(rows, []))
      && Survives(Call.Overview, id, max, reply)
  {
    PrintedFree(rows, w);
    NormalLines(PrintLines(rows));
    BlockDelivered(Call.Overview, id, max, 224, message, PrintRows(rows));
    RowsRoundTrip(rows, w);
  }

  lemma PrintedFree(rows: seq<Row>, w: Window)
    requires Printable(rows, w)
    ensures FreeOf(PrintLines(rows), LF)
  {
    forall k | 0 <= k < |rows|
      ensures LF !in PrintLines(rows)[k]
    {
      PrintedLine(rows[k]);
    }
  }

  lemma NormalLines(lines: seq<Text>)
    requires FreeOf(lines, LF)
    ensures Normalize(JoinLines(lines)) == JoinLines(lines)
  {
    LinesJoin(lines);
  }

  /** Errors are passed on, no rows are an empty result, and a format that is not valid is a protocol error. */
  lemma PassedOn(e: NntpError, st: Status, data: Text, w: Window)
    ensures RowsMeaning(Err(e), w) == Err(e) && FormatMeaning(Err(e)) == Err(e) && AsBody(Err(e)) == Err(e)
    ensures RowsMeaning(Ok(Plain(st)), w) == Ok(Rows([], []))
    ensures !ValidFormat(WireLines(data)) ==> FormatMeaning(Ok(Response(st.code, st.message, Some(data)))) == Err(Protocol)
  {
    WireLinesCut([], []);
    assert Parsed([], w) == Rows(RowsOf([], 0, w), DefectsOf([], 0, w));
  }

  /** LIST OVERVIEW.FMT end to end. */
  lemma FormatDelivered(message: Text, fields: seq<Text>)
    requires ValidFormat(fields) && FreeOf(fields, LF) && LF !in message && ValidUtf8(message)
    ensures var reply := StatusLine(215, message) + Encode(JoinLines(fields));
      && FormatMeaning(Meaning(OverviewFormat, [], None, reply)) == Ok(Format(fields))
      && Survives(OverviewFormat, [], None, reply)
  {
    NormalLines(fields);
    BlockDelivered(OverviewFormat, [], None, 215, message, JoinLines(fields));
    FormatRoundTrip(fields);
  }
}
