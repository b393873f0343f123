/** Status lines, the commands that cause them, and what each response code means to the client. */
module Status {
  import opened Bytes
  import opened Decimal
  import opened Wire

  datatype Status = Status(code: nat, message: Text)

  datatype Response = Response(code: nat, message: Text, data: Option<Text>)

  // ----- status lines -----

  predicate Continues(s: Text, i: nat) {
    i < |s| && 0x80 <= s[i] <= 0xBF
  }

  /** The number of bytes of the UTF-8 scalar at the head of `s`; zero when there is none. */
  function CharLen(s: Text): (n: nat)
    ensures n <= |s|
  {
    if s == [] then 0
    else if s[0] < 0x80 then 1
    else if 0xC2 <= s[0] <= 0xDF && Continues(s, 1) then 2
    else if 0xE0 <= s[0] <= 0xEF && Continues(s, 1) && Continues(s, 2)
         && (s[0] == 0xE0 ==> s[1] >= 0xA0) && (s[0] == 0xED ==> s[1] <= 0x9F) then 3
    else if 0xF0 <= s[0] <= 0xF4 && Continues(s, 1) && Continues(s, 2) && Continues(s, 3)
         && (s[0] == 0xF0 ==> s[1] >= 0x90) && (s[0] == 0xF4 ==> s[1] <= 0x8F) then 4
    else 0
  }

  predicate ValidUtf8(s: Text)
    decreases |s|
  {
    s == [] || (CharLen(s) > 0 && ValidUtf8(s[CharLen(s)..]))
  }

  function TrimEnd(s: Text): (t: Text)
    ensures t <= s
    ensures !EndsWith(t, CR) && !EndsWith(t, LF)
    ensures forall i :: |t| <= i < |s| ==> s[i] == 13 || s[i] == 10
  {
    if EndsWith(s, CR) || EndsWith(s, LF) then TrimEnd(s[..|s| - 1]) else s
  }

  /** `parse_response_line`: three digits, then the text after one separator character. */
  function ParseStatus(line: Text): (r: Result<Status>)
    ensures r.Err? ==> r.error == Protocol
  {
    ParseTrimmed(TrimEnd(line))
  }

  function ParseTrimmed(line: Text): (r: Result<Status>)
    ensures r.Err? ==> r.error == Protocol
  {
    if |line| < 3 || !AllDigits(line[..3]) then Err(Protocol)
    else
      var rest := line[3..];
      Ok(Status(Value(line[..3]), rest[CharLen(rest)..]))
  }

  /** `read_response_line` on what the stream holds, when the read itself does not fail. */
  function ReadStatus(s: Text): (r: Result<Status>)
    ensures r.Err? ==> r.error == Protocol || r.error == Io || r.error == Connection
  {
    var line := TakeLine(s);
    if line == [] then Err(Connection)
    else if !ValidUtf8(line) then Err(Io)
    else ParseStatus(line)
  }

  /** The three ways to fail: nothing more to read, a line that is not text, and a line that is not a status. */
  lemma ReadStatusFails(s: Text)
    ensures ReadStatus(s) == Err(Connection) <==> s == []
    ensures ReadStatus(s) == Err(Io) <==> s != [] && !ValidUtf8(TakeLine(s))
    ensures ReadStatus(s) == Err(Protocol) <==> s != [] && ValidUtf8(TakeLine(s)) && ParseStatus(TakeLine(s)).Err?
  {
  }

  function AfterLine(s: Text): Text {
    s[|TakeLine(s)|..]
  }

  function Digit(d: nat): (b: Byte)
    requires d <= 9
    ensures IsDigit(b) && DigitValue(b) == d
  {
    d as Byte + ZERO
  }

  function Code(code: nat): Text
    requires code < 1000
  {
    [Digit(code / 100), Digit(code / 10 % 10), Digit(code % 10)]
  }

  /** A status line as a server writes it. */
  function StatusLine(code: nat, message: Text): Text
    requires code < 1000
  {
    Code(code) + [SPACE] + message + CRLF
  }

  lemma {:induction false} ValidUtf8Concat(a: Text, b: Text)
    requires ValidUtf8(a) && ValidUtf8(b)
    ensures ValidUtf8(a + b)
    decreases |a|
  {
    if a == [] {
      assert a + b == b;
    } else {
      var n := CharLen(a);
      assert CharLen(a + b) == n && (a + b)[n..] == a[n..] + b;
      ValidUtf8Concat(a[n..], b);
    }
  }

  lemma {:induction false} ValidUtf8Ascii(s: Text)
    requires forall i :: 0 <= i < |s| ==> s[i] < 0x80
    ensures ValidUtf8(s)
  {
    if s != [] {
      ValidUtf8Ascii(s[1..]);
    }
  }

  lemma ThreeDigits(s: Text)
    requires |s| == 3 && AllDigits(s)
    ensures Value(s) == DigitValue(s[0]) * 100 + DigitValue(s[1]) * 10 + DigitValue(s[2])
  {
    assert s[..2][..1] == s[..1] && s[..1][..0] == [];
    assert Value(s[..1]) == DigitValue(s[0]);
    assert Value(s[..2]) == DigitValue(s[0]) * 10 + DigitValue(s[1]);
  }

  lemma CodeValue(code: nat)
    requires code < 1000
    ensures AllDigits(Code(code)) && Value(Code(code)) == code
  {
    var h, t, u := code / 100, code / 10 % 10, code % 10;
    assert h * 100 + t * 10 + u == code;
    ThreeDigits([Digit(h), Digit(t), Digit(u)]);
  }

  lemma ParseTrimmedIs(code: Text, message: Text)
    requires |code| == 3 && AllDigits(code)
    ensures ParseTrimmed(code + [SPACE] + message) == Ok(Status(Value(code), message))
  {
    var line := code + [SPACE] + message;
    assert line[..3] == code && line[3..] == [SPACE] + message;
    assert line[3..][1..] == message;
  }

  lemma TrimStatusLine(code: Text, message: Text)
    ensures TrimEnd(code + [SPACE] + message + CRLF) == code + [SPACE] + TrimEnd(message)
  {
    TrimCRLF(code + [SPACE] + message);
    TrimHead(code + [SPACE], message);
  }

  lemma ParseStatusLine(code: nat, message: Text)
    requires code < 1000
    ensures ParseStatus(StatusLine(code, message)) == Ok(Status(code, TrimEnd(message)))
  {
    CodeValue(code);
    TrimStatusLine(Code(code), message);
    ParseTrimmedIs(Code(code), TrimEnd(message));
  }

  lemma TakeStatusLine(code: Text, message: Text, r: Text)
    requires LF !in code && LF !in message
    ensures TakeLine(code + [SPACE] + message + CRLF + r) == code + [SPACE] + message + CRLF
    ensures AfterLine(code + [SPACE] + message + CRLF + r) == r
  {
    var line := code + [SPACE] + message + CRLF;
    assert line[..|line| - 1] == code + [SPACE] + message + [CR];
    TakeLineOf(line, r);
  }

  lemma StatusLineUtf8(code: nat, message: Text)
    requires code < 1000 && ValidUtf8(message)
    ensures ValidUtf8(StatusLine(code, message))
  {
    var head := Code(code) + [SPACE];
    ValidUtf8Ascii(head);
    ValidUtf8Ascii(CRLF);
    ValidUtf8Concat(head, message);
    ValidUtf8Concat(head + message, CRLF);
  }

  /**
   * A status line is read back with its code, and with its message exactly when that does not end in CR;
   * reading stops after it.
   */
  lemma StatusRoundTrip(code: nat, message: Text, r: Text)
    requires code < 1000 && LF !in message && ValidUtf8(message)
    ensures ReadStatus(StatusLine(code, message) + r) == Ok(Status(code, TrimEnd(message)))
    ensures TrimEnd(message) == message <==> !EndsWith(message, CR)
    ensures AfterLine(StatusLine(code, message) + r) == r
  {
    TakeStatusLine(Code(code), message, r);
    StatusLineUtf8(code, message);
    ParseStatusLine(code, message);
  }

  /** A line is refused exactly when, without its line ending, it does not start with three digits. */
  lemma ParseStatusRefuses(line: Text)
    ensures var text := TrimEnd(line);
      ParseStatus(line).Err? <==> |text| < 3 || exists i :: 0 <= i < 3 && (text[i] < 48 || text[i] > 57)
  {
    var text := TrimEnd(line);
    if |text| >= 3 {
      assert forall i :: 0 <= i < 3 ==> text[..3][i] == text[i];
    }
  }

  /** Just one character separates code and text, whatever it is and however many bytes it takes; it may be missing. */
  lemma AnySeparator(code: nat, c: nat, message: Text)
    requires code < 1000 && Scalar(c) && c != 13 && c != 10
    ensures ParseStatus(Code(code) + Utf8(c) + message + CRLF) == Ok(Status(code, TrimEnd(message)))
    ensures ParseStatus(Code(code) + CRLF) == Ok(Status(code, []))
  {
    var head := Code(code) + Utf8(c);
    CodeValue(code);
    Utf8Length(c, TrimEnd(message));
    Utf8End(c);
    assert EndsWith(head, CR) == EndsWith(Utf8(c), CR) && EndsWith(head, LF) == EndsWith(Utf8(c), LF);
    TrimCRLF(head + message);
    TrimHead(head, message);
    SeparatorSkipped(Code(code), Utf8(c), TrimEnd(message));
    TrimCRLF(Code(code));
    assert Code(code)[3..] == [] && Code(code)[..3] == Code(code);
    assert TrimEnd(Code(code)) == Code(code);
  }

  lemma SeparatorSkipped(code: Text, sep: Text, message: Text)
    requires |code| == 3 && AllDigits(code) && CharLen(sep + message) == |sep|
    ensures ParseTrimmed(code + sep + message) == Ok(Status(Value(code), message))
  {
    var line := code + sep + message;
    assert line[..3] == code && line[3..] == sep + message;
    assert (sep + message)[|sep|..] == message;
  }

  // ----- UTF-8 -----

  /** A Unicode scalar value. */
  predicate Scalar(c: nat) {
    c < 0xD800 || 0xE000 <= c < 0x11_0000
  }

  /** Its encoding, as RFC 3629 section 3 gives it. */
  function Utf8(c: nat): (s: Text)
    requires Scalar(c)
    ensures s != []
  {
    if c < 0x80 then [c as Byte]
    else if c < 0x800 then [(0xC0 + c / 64) as Byte, Tail(c)]
    else if c < 0x1_0000 then [(0xE0 + c / 4096) as Byte, Tail(c / 64), Tail(c)]
    else [(0xF0 + c / 262144) as Byte, Tail(c / 4096), Tail(c / 64), Tail(c)]
  }

  function Tail(c: nat): (b: Byte)
    ensures 0x80 <= b <= 0xBF
  {
    (0x80 + c % 64) as Byte
  }

  lemma Utf8End(c: nat)
    requires Scalar(c) && c != 13 && c != 10
    ensures !EndsWith(Utf8(c), CR) && !EndsWith(Utf8(c), LF)
  {
  }

  /** Every scalar's encoding is recognised as one character, whatever follows. */
  lemma Utf8Length(c: nat, rest: Text)
    requires Scalar(c)
    ensures CharLen(Utf8(c) + rest) == |Utf8(c)|
  {
    hide Utf8;
    Utf8Whole(c);
    CharLenAppend(Utf8(c), rest);
  }

  lemma CharLenAppend(s: Text, rest: Text)
    requires CharLen(s) > 0
    ensures CharLen(s + rest) == CharLen(s)
  {
    assert forall i :: 0 <= i < |s| ==> (s + rest)[i] == s[i];
  }

  lemma Utf8Whole(c: nat)
    requires Scalar(c)
    ensures CharLen(Utf8(c)) == |Utf8(c)|
  {
    if c >= 0x1_0000 {
      Split64(c / 4096);
      assert c / 4096 / 64 == c / 262144;
    } else if c >= 0x800 {
      Split64(c / 64);
      assert c / 64 / 64 == c / 4096;
    }
  }

  lemma Split64(n: nat)
    ensures n == n / 64 * 64 + n % 64
  {
  }

  /** And nothing else is: what is recognised is the encoding of a scalar. */
  lemma Utf8Only(s: Text) returns (c: nat)
    requires CharLen(s) > 0
    ensures Scalar(c) && s[..CharLen(s)] == Utf8(c)
  {
    var n := CharLen(s);
    if n == 1 {
      c := s[0] as nat;
    } else if n == 2 {
      c := (s[0] as nat - 0xC0) * 64 + (s[1] as nat - 0x80);
    } else if n == 3 {
      c := ThreeBytes(s);
    } else {
      c := FourBytes(s);
    }
  }

  lemma ThreeBytes(s: Text) returns (c: nat)
    requires CharLen(s) == 3
    ensures Scalar(c) && s[..3] == Utf8(c)
  {
    var a, b, d := s[0] as nat - 0xE0, s[1], s[2];
    assert s[..3] == [s[0], b, d] && 0xE0 <= s[0] <= 0xEF && Continues(s, 1) && Continues(s, 2);
    assert (a == 0 ==> b >= 0xA0) && (a == 13 ==> b <= 0x9F);
    hide CharLen, Tail;
    var high := a * 64 + (b as nat - 0x80);
    c := high * 64 + (d as nat - 0x80);
    TailOf(a, b);
    TailOf(high, d);
    assert c / 4096 == c / 64 / 64;
  }

  lemma FourBytes(s: Text) returns (c: nat)
    requires CharLen(s) == 4
    ensures Scalar(c) && s[..4] == Utf8(c)
  {
    var a, b, d, e := s[0] as nat - 0xF0, s[1], s[2], s[3];
    assert s[..4] == [s[0], b, d, e] && 0xF0 <= s[0] <= 0xF4 && Continues(s, 1) && Continues(s, 2) && Continues(s, 3);
    assert (a == 0 ==> b >= 0x90) && (a == 4 ==> b <= 0x8F);
    hide CharLen, Tail;
    var top := a * 64 + (b as nat - 0x80);
    var high := top * 64 + (d as nat - 0x80);
    c := high * 64 + (e as nat - 0x80);
    TailOf(a, b);
    TailOf(top, d);
    TailOf(high, e);
    assert c / 4096 == c / 64 / 64 && c / 262144 == c / 64 / 64 / 64;
  }

  /** Six more bits. */
  lemma TailOf(high: nat, b: Byte)
    requires 0x80 <= b <= 0xBF
    ensures var c := high * 64 + (b as nat - 0x80);
      c / 64 == high && c % 64 == b as nat - 0x80 && Tail(c) == b
  {
  }

  lemma TrimCRLF(s: Text)
    ensures TrimEnd(s + CRLF) == TrimEnd(s)
  {
    var once := s + [CR];
    assert (s + CRLF)[..|s| + 1] == once && once[..|s|] == s;
    assert TrimEnd(once) == TrimEnd(s);
  }

  lemma {:induction false} TrimHead(head: Text, s: Text)
    requires head != [] && !EndsWith(head, CR) && !EndsWith(head, LF)
    ensures TrimEnd(head + s) == head + TrimEnd(s)
    decreases |s|
  {
    if s == [] {
      assert head + s == head;
    } else {
      assert (head + s)[|head + s| - 1] == s[|s| - 1];
      assert (head + s)[..|head + s| - 1] == head + s[..|s| - 1];
      if EndsWith(s, CR) || EndsWith(s, LF) {
        TrimHead(head, s[..|s| - 1]);
      }
    }
  }

  // ----- commands -----

  datatype Verb =
    | Article | Head | Body | Stat | Date | Group | ListOverviewFmt | ListActive | Xover | Xhdr | Xpat | Post | Posted

  /** One command line, or (`Posted`) the article uploaded after a 340. */
  datatype Command = Command(verb: Verb, arg: Text)

  /** The commands for a queue, in order. */
  function Commands<T>(of: T -> Command, items: seq<T>): seq<Command> {
    if items == [] then [] else [of(items[0])] + Commands(of, items[1..])
  }

  lemma CommandsNone<T>(of: T -> Command, items: seq<T>)
    requires items == []
    ensures Commands(of, items) == []
  {
  }

  lemma CommandsOne<T>(of: T -> Command, item: T)
    ensures Commands(of, [item]) == [of(item)]
  {
    assert [item][1..] == [];
  }

  lemma CommandsCons<T>(of: T -> Command, first: T, rest: seq<T>)
    ensures Commands(of, [first] + rest) == [of(first)] + Commands(of, rest)
  {
    assert ([first] + rest)[1..] == rest;
  }

  lemma {:induction false} CommandsAppend<T>(of: T -> Command, a: seq<T>, b: seq<T>)
    ensures Commands(of, a + b) == Commands(of, a) + Commands(of, b)
  {
    if a == [] {
      assert a + b == b;
    } else {
      assert (a + b)[1..] == a[1..] + b;
      CommandsAppend(of, a[1..], b);
    }
  }

  /** A server answers from everything it has been sent, the last command being the one answered. */
  type Server = seq<Command> -> Text

  /** Which replies carry a multi-line block: ARTICLE 220, HEAD 221, BODY 222, LIST 215, XOVER 224, XHDR and XPAT 221. */
  predicate CarriesBlock(verb: Verb, code: nat) {
    match verb
    case Article => code == 220
    case Head | Xhdr | Xpat => code == 221
    case Body => code == 222
    case ListOverviewFmt | ListActive => code == 215
    case Xover => code == 224
    case _ => false
  }

  /** One complete reply and nothing more. */
  ghost predicate WellFormedReply(verb: Verb, reply: Text) {
    && EndsWith(TakeLine(reply), LF)
    && ReadStatus(reply).Ok?
    && Complete(CarriesBlock(verb, ReadStatus(reply).value.code), AfterLine(reply))
  }

  /** What follows the status line: one block and no more, or nothing. */
  ghost predicate Complete(block: bool, after: Text) {
    if block then Scan(after, None).end == Terminated([]) else after == []
  }

  ghost predicate Obeys(server: Server) {
    forall h: seq<Command> {:trigger server(h)} :: h != [] ==> WellFormedReply(h[|h| - 1].verb, server(h))
  }

  lemma ObeysAt(server: Server, h: seq<Command>)
    requires Obeys(server) && h != []
    ensures WellFormedReply(h[|h| - 1].verb, server(h))
  {
  }

  /** The replies to `cmds` sent in order after `hist`. */
  function Replies(server: Server, hist: seq<Command>, cmds: seq<Command>): Text
    decreases |cmds|
  {
    if cmds == [] then [] else server(hist + [cmds[0]]) + Replies(server, hist + [cmds[0]], cmds[1..])
  }

  lemma {:induction false} RepliesAppend(server: Server, hist: seq<Command>, a: seq<Command>, b: seq<Command>)
    ensures Replies(server, hist, a + b) == Replies(server, hist, a) + Replies(server, hist + a, b)
    decreases |a|
  {
    if a == [] {
      assert a + b == b && hist + a == hist;
    } else {
      var next := hist + [a[0]];
      assert (a + b)[1..] == a[1..] + b && next + a[1..] == hist + a;
      RepliesAppend(server, next, a[1..], b);
    }
  }

  /** Wrap a message-id in angle brackets unless it has both. */
  function NormalizeId(id: Text): Text {
    if id != [] && id[0] == LT && EndsWith(id, GT) then id else [LT] + id + [GT]
  }

  /** The result is bracketed, and is the id itself or has the id between the brackets. */
  lemma NormalizedId(id: Text)
    ensures var n := NormalizeId(id);
      && |n| >= 2 && n[0] == 60 && n[|n| - 1] == 62
      && (if id != [] && id[0] == 60 && id[|id| - 1] == 62 then n == id else n[1..|n| - 1] == id)
  {
  }

  // ----- what a response code means -----

  /** The calls of the connection; `FetchBodyPrefix` sends the same command as `FetchBody`. */
  datatype Call =
    | FetchArticle | FetchHead | FetchBody | FetchBodyPrefix | StatArticle | Ping | SelectGroup
    | OverviewFormat | Overview | Headers | Patterns | ActiveList

  function VerbOf(call: Call): Verb {
    match call
    case FetchArticle => Article
    case FetchHead => Head
    case FetchBody => Body
    case FetchBodyPrefix => Body
    case StatArticle => Stat
    case Ping => Date
    case SelectGroup => Group
    case OverviewFormat => ListOverviewFmt
    case Overview => Xover
    case Headers => Xhdr
    case Patterns => Xpat
    case ActiveList => ListActive
  }

  /** Read a block and be ready; be ready at once; be ready but report an error; give the connection up. */
  datatype Disposition = ReadBlock | Done | Refused(error: NntpError) | Fatal(error: NntpError)

  /** `unexpected_article_response`: a 400 that reports an expired session is a dead connection. */
  function UnexpectedArticle(st: Status): (e: NntpError)
    ensures e == Connection || e == Protocol
  {
    var m := ToLower(st.message);
    if st.code == 400
       && ((Contains(m, Ascii("idle")) && Contains(m, Ascii("timeout")))
           || (Contains(m, Ascii("session"))
               && (Contains(m, Ascii("timeout")) || Contains(m, Ascii("expired")) || Contains(m, Ascii("closed")))))
    then Connection else Protocol
  }

  /** The codes that end the session for every command; anything else is unexpected. */
  function Rejected(st: Status): NntpError {
    if st.code == 481 || st.code == 482 then Auth(st.message)
    else if st.code == 502 then ServiceUnavailable(st.message)
    else Protocol
  }

  function Denied(st: Status): NntpError {
    if st.code == 480 then AuthRequired(st.message)
    else if st.code == 403 then PermissionDenied(st.message)
    else Rejected(st)
  }

  function Challenged(st: Status): NntpError {
    if st.code == 480 then AuthRequired(st.message) else Rejected(st)
  }

  /** The match on the status code in each command method. */
  function Dispose(call: Call, id: Text, st: Status): (d: Disposition)
    ensures call == FetchBodyPrefix ==> !d.Done?
  {
    match call
    case FetchArticle =>
      if st.code == 220 then ReadBlock
      else if st.code == 430 then Refused(ArticleNotFound(id))
      else if st.code == 411 then Refused(NoSuchGroup(st.message))
      else if st.code in {412, 420, 423} then Refused(NoArticleSelected(st.message))
      else if st.code in {403, 480, 481, 482, 502} then Fatal(Denied(st))
      else Fatal(UnexpectedArticle(st))
    case FetchHead =>
      if st.code == 221 then ReadBlock
      else if st.code == 423 then Refused(ArticleNotFound(id))
      else if st.code == 411 then Refused(NoSuchGroup(st.message))
      else if st.code in {412, 420} then Refused(NoArticleSelected(st.message))
      else Fatal(Denied(st))
    case FetchBody =>
      if st.code == 222 then ReadBlock
      else if st.code == 430 then Refused(ArticleNotFound(id))
      else if st.code in {412, 420, 423} then Refused(NoArticleSelected(st.message))
      else Fatal(Challenged(st))
    case FetchBodyPrefix =>
      if st.code == 222 then ReadBlock
      else if st.code == 430 then Refused(ArticleNotFound(id))
      else if st.code in {412, 420, 423} then Refused(NoArticleSelected(st.message))
      else if st.code in {500, 501} then Refused(UnsupportedCommand(st.message))
      else Fatal(Denied(st))
    case StatArticle =>
      if st.code == 223 then Done
      else if st.code == 430 then Refused(ArticleNotFound(id))
      else Fatal(Denied(st))
    case Ping =>
      if st.code in {400, 403, 480, 481, 482, 502} then Fatal(Connection) else Done
    case SelectGroup =>
      if st.code == 211 then Done
      else if st.code == 411 then Refused(NoSuchGroup(id))
      else Fatal(Challenged(st))
    case OverviewFormat =>
      if st.code == 215 then ReadBlock else Fatal(Challenged(st))
    case Overview =>
      if st.code == 224 then ReadBlock
      else if st.code in {420, 423} then Done
      else if st.code == 412 then Refused(NoSuchGroup([]))
      else Fatal(Rejected(st))
    case Headers =>
      if st.code == 221 then ReadBlock
      else if st.code in {420, 423} then Done
      else if st.code == 412 then Refused(NoSuchGroup([]))
      else if st.code == 430 then Refused(ArticleNotFound(id))
      else Fatal(Rejected(st))
    case Patterns =>
      if st.code == 221 then ReadBlock
      else if st.code in {420, 423} then Done
      else if st.code == 412 then Refused(NoSuchGroup([]))
      else if st.code == 430 then Refused(ArticleNotFound(id))
      else if st.code in {500, 501} then Refused(UnsupportedCommand(st.message))
      else Fatal(Rejected(st))
    case ActiveList =>
      if st.code == 215 then ReadBlock else Fatal(Rejected(st))
  }

  /** A call reads a block on just the codes that carry one, unless it gives the connection up. */
  lemma BlockWhereCarried(call: Call, id: Text, st: Status)
    ensures Dispose(call, id, st).Fatal? || (Dispose(call, id, st).ReadBlock? <==> CarriesBlock(VerbOf(call), st.code))
  {
  }

  /** So, with a server that obeys the protocol, a call that ends ready has read exactly the reply. */
  lemma ReadyReadsWholeReply(call: Call, id: Text, server: Server, h: seq<Command>)
    requires Obeys(server) && h != [] && h[|h| - 1].verb == VerbOf(call)
    ensures ReadStatus(server(h)).Ok?
    ensures var d := Dispose(call, id, ReadStatus(server(h)).value);
      d.Fatal? || Complete(d.ReadBlock?, AfterLine(server(h)))
  {
    ObeysAt(server, h);
    BlockWhereCarried(call, id, ReadStatus(server(h)).value);
  }

  /** What acting on a status makes of the bytes after it. */
  function Acted(d: Disposition, st: Status, max: Option<nat>, after: Text): Result<Response> {
    match d
    case ReadBlock =>
      (match Bounded(Scan(after, None), max)
       case Ok(data) => Ok(Response(st.code, st.message, Some(data)))
       case Err(e) => Err(e))
    case Done => Ok(Response(st.code, st.message, None))
    case Refused(e) => Err(e)
    case Fatal(e) => Err(e)
  }

  /** What a call makes of the server's reply. */
  function Meaning(call: Call, id: Text, max: Option<nat>, reply: Text): Result<Response> {
    var status := ReadStatus(reply);
    if status.Err? then Err(status.error)
    else Acted(Dispose(call, id, status.value), status.value, max, AfterLine(reply))
  }

  /** Whether the connection is still good after the reply. */
  predicate Survives(call: Call, id: Text, max: Option<nat>, reply: Text) {
    ReadStatus(reply).Ok? && Settles(Dispose(call, id, ReadStatus(reply).value), Meaning(call, id, max, reply))
  }

  predicate Settles(d: Disposition, r: Result<Response>) {
    d.Done? || d.Refused? || (d.ReadBlock? && r.Ok?)
  }

  /** One reply at the head of the stream is read as if it were alone, whatever follows. */
  lemma ReplyAtHead(verb: Verb, reply: Text, r: Text)
    requires WellFormedReply(verb, reply)
    ensures ReadStatus(reply + r) == ReadStatus(reply)
    ensures AfterLine(reply + r) == AfterLine(reply) + r
    ensures CarriesBlock(verb, ReadStatus(reply).value.code)
        ==> Scan(AfterLine(reply) + r, None) == Scanned(Scan(AfterLine(reply), None).body, Terminated(r))
  {
    TakeLineAppend(reply, r);
    if CarriesBlock(verb, ReadStatus(reply).value.code) {
      ScanAppend(AfterLine(reply), r, None);
      assert [] + r == r;
    }
  }
}
