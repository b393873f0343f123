/**
 * The multi-line block codec of RFC 3977 section 3.1.1: what the readers accept, what the
 * writers emit, and the laws between them. A block is a run of LF-ended lines closed by a lone dot.
 */
module Wire {
  import opened Bytes

  /** How reading a block ended: at its terminator, with what follows it; at end of stream; or at a line over the limit. */
  datatype End = Terminated(rest: Text) | Closed | Overlong

  datatype Scanned = Scanned(body: Text, end: End)

  /** `read_until(b'\n')`: up to and including the first LF, or all that is left. */
  function TakeLine(s: Text): (line: Text)
    ensures line <= s && (s != [] ==> line != [])
  {
    var i := IndexOf(s, LF);
    if i < |s| then s[..i + 1] else s
  }

  predicate IsTerminator(line: Text) {
    line == [DOT, CR, LF] || line == [DOT, LF]
  }

  function Unstuff(line: Text): Text {
    if [DOT, DOT] <= line then line[1..] else line
  }

  predicate Exceeds(line: Text, limit: Option<nat>) {
    limit.Some? && |line| > limit.value
  }

  /** The decoded block at the head of the stream: the reference every reader is proved against. */
  function Scan(s: Text, limit: Option<nat>): Scanned
    decreases |s|
  {
    var line := TakeLine(s);
    if line == [] then Scanned([], Closed)
    else if IsTerminator(line) then Scanned([], Terminated(s[|line|..]))
    else if Exceeds(line, limit) then Scanned([], Overlong)
    else
      var tail := Scan(s[|line|..], limit);
      Scanned(Unstuff(line) + tail.body, tail.end)
  }

  /** What a full read with an optional byte bound makes of a decoded block. */
  function Bounded(block: Scanned, max: Option<nat>): (r: Result<Text>)
    ensures r.Err? ==> r.error == ResponseTooLarge || r.error == Connection
  {
    if Exceeds(block.body, max) then Err(ResponseTooLarge)
    else if block.end.Terminated? then Ok(block.body)
    else if block.end.Closed? then Err(Connection)
    else Err(ResponseTooLarge)
  }

  datatype BodyPrefix = BodyPrefix(data: Text, complete: bool)

  /** What a prefix read makes of a decoded block: a body that only just fits is reported incomplete. */
  function Prefixed(block: Scanned, max: nat): Result<BodyPrefix> {
    if block.body != [] && |block.body| >= max then Ok(BodyPrefix(block.body[..max], false))
    else if block.end.Terminated? then Ok(BodyPrefix(block.body, true))
    else if block.end.Closed? then Err(Connection)
    else Err(ResponseTooLarge)
  }

  // ----- line structure of the data being sent -----

  function FirstLine(a: Text): Text {
    StripCR(a[..IndexOf(a, LF)])
  }

  function AfterFirst(a: Text): (rest: Text)
    ensures a != [] ==> |rest| < |a|
  {
    var i := IndexOf(a, LF);
    if i < |a| then a[i + 1..] else []
  }

  /** The lines the byte-level encoders see: cut at each LF, one CR removed from the end of each. */
  function Lines(a: Text): seq<Text>
    decreases |a|
  {
    if a == [] then [] else [FirstLine(a)] + Lines(AfterFirst(a))
  }

  /** `str::lines`: as `Lines`, but an unterminated last line keeps its CR. */
  function StrLines(a: Text): seq<Text>
    decreases |a|
  {
    if a == [] then []
    else if LF !in a then [a]
    else [FirstLine(a)] + StrLines(AfterFirst(a))
  }

  function Stuff(line: Text): Text {
    if line != [] && line[0] == DOT then [DOT] + line else line
  }

  function StuffLines(lines: seq<Text>): Text {
    if lines == [] then [] else Stuff(lines[0]) + CRLF + StuffLines(lines[1..])
  }

  function JoinLines(lines: seq<Text>): Text {
    if lines == [] then [] else lines[0] + CRLF + JoinLines(lines[1..])
  }

  /** The article with every line ended by CRLF. */
  function Normalize(a: Text): Text {
    JoinLines(Lines(a))
  }

  /** What `post_article_bytes` puts on the wire. */
  function Encode(a: Text): Text {
    StuffLines(Lines(a)) + TERMINATOR
  }

  /** What `post_article` puts on the wire. */
  function EncodeStr(a: Text): Text {
    StuffLines(StrLines(a)) + TERMINATOR
  }

  /** What the mock server's `write_multiline_body` puts on the wire: empty data is sent as one blank line. */
  function EncodeBlock(a: Text): Text {
    (if a == [] then CRLF else StuffLines(Lines(a))) + TERMINATOR
  }

  predicate FreeOf(lines: seq<Text>, b: Byte) {
    forall k :: 0 <= k < |lines| ==> b !in lines[k]
  }

  predicate WithinLimit(lines: seq<Text>, limit: Option<nat>) {
    forall k :: 0 <= k < |lines| ==> !Exceeds(Stuff(lines[k]) + CRLF, limit)
  }

  // ----- encoding, line by line -----

  lemma Assoc(a: Text, b: Text, c: Text)
    ensures a + b + c == a + (b + c)
  {
  }

  lemma StuffCons(line: Text, rest: seq<Text>)
    ensures StuffLines([line] + rest) == Stuff(line) + CRLF + StuffLines(rest)
  {
    assert ([line] + rest)[1..] == rest;
  }

  lemma NoLinesLeft(out: Text, lines: seq<Text>)
    requires lines == []
    ensures out + StuffLines(lines) == out
  {
  }

  lemma NothingLeft(out: Text, todo: Text)
    requires todo == []
    ensures out + StuffLines(Lines(todo)) == out
  {
  }

  /** Encoding goes line by line. */
  lemma StuffFirst(done: Text, todo: Text)
    requires todo != []
    ensures done + StuffLines(Lines(todo)) == done + (Stuff(FirstLine(todo)) + CRLF) + StuffLines(Lines(AfterFirst(todo)))
  {
    hide Stuff, FirstLine, AfterFirst;
    var line, rest := FirstLine(todo), Lines(AfterFirst(todo));
    StuffCons(line, rest);
    assert StuffLines(Lines(todo)) == Stuff(line) + CRLF + StuffLines(rest);
    Assoc(done, Stuff(line) + CRLF, StuffLines(rest));
  }

  // ----- reading one line -----

  lemma TakeLineOf(line: Text, tail: Text)
    requires EndsWith(line, LF) && LF !in line[..|line| - 1]
    ensures TakeLine(line + tail) == line
    ensures (line + tail)[|line|..] == tail
  {
    var s := line + tail;
    forall j | 0 <= j < |line| - 1
      ensures s[j] != LF
    {
      assert line[..|line| - 1][j] == s[j];
    }
    IndexOfIs(s, LF, |line| - 1);
  }

  /** A line that ends in LF is read the same whatever follows. */
  lemma TakeLineAppend(s: Text, r: Text)
    requires EndsWith(TakeLine(s), LF)
    ensures TakeLine(s + r) == TakeLine(s)
    ensures (s + r)[|TakeLine(s)|..] == s[|TakeLine(s)|..] + r
  {
    var i := IndexOf(s, LF);
    IndexOfIs(s + r, LF, i);
    assert (s + r)[..i + 1] == s[..i + 1];
  }

  /** Only an LF-ended line can start a terminated block: a line without LF is the last of the stream. */
  lemma TerminatedLine(s: Text, limit: Option<nat>)
    ensures Scan(s, limit).end.Terminated? ==> EndsWith(TakeLine(s), LF)
  {
    if !EndsWith(TakeLine(s), LF) {
      assert s[|TakeLine(s)|..] == [];
      assert Scan([], limit).end == Closed;
    }
  }

  // ----- reading a block -----

  /** A terminated block is decoded the same whatever follows it, and reading stops right after it. */
  lemma {:induction false} ScanAppend(s: Text, r: Text, limit: Option<nat>)
    requires Scan(s, limit).end.Terminated?
    ensures Scan(s + r, limit) == Scanned(Scan(s, limit).body, Terminated(Scan(s, limit).end.rest + r))
    decreases |s|
  {
    var line := TakeLine(s);
    TerminatedLine(s, limit);
    TakeLineAppend(s, r);
    if !IsTerminator(line) {
      ScanAppend(s[|line|..], r, limit);
    }
  }

  /** What is left after a block is a suffix of the stream. */
  lemma {:induction false} ScanRest(s: Text, limit: Option<nat>)
    requires Scan(s, limit).end.Terminated?
    ensures |Scan(s, limit).end.rest| < |s|
    ensures Scan(s, limit).end.rest == s[|s| - |Scan(s, limit).end.rest|..]
    decreases |s|
  {
    hide TakeLine, Unstuff;
    var line := TakeLine(s);
    if !IsTerminator(line) {
      var after := s[|line|..];
      ScanRest(after, limit);
      var keep := |after| - |Scan(after, limit).end.rest|;
      assert after[keep..] == s[|line| + keep..];
    }
  }

  /** One stored line in front of a block. */
  lemma ScanCons(line: Text, tail: Text, limit: Option<nat>)
    requires EndsWith(line, LF) && LF !in line[..|line| - 1]
    requires !IsTerminator(line) && !Exceeds(line, limit)
    ensures Scan(line + tail, limit) == Scanned(Unstuff(line) + Scan(tail, limit).body, Scan(tail, limit).end)
  {
    TakeLineOf(line, tail);
  }

  // ----- round trips -----

  lemma StuffedLine(line: Text)
    requires LF !in line
    ensures var wire := Stuff(line) + CRLF;
      EndsWith(wire, LF) && LF !in wire[..|wire| - 1] && !IsTerminator(wire) && Unstuff(wire) == line + CRLF
  {
    var wire := Stuff(line) + CRLF;
    assert wire[..|wire| - 1] == Stuff(line) + [CR];
    assert line != [] ==> wire[0] == line[0];
    assert line != [] && line[0] == DOT ==> wire[1] == DOT && wire[1..] == line + CRLF;
    assert wire[0] == DOT ==> |wire| >= 4;
  }

  /** Decoding stuffed lines gives the lines back and stops exactly after the terminator. */
  lemma {:induction false} ScanStuffed(lines: seq<Text>, r: Text, limit: Option<nat>)
    requires FreeOf(lines, LF) && WithinLimit(lines, limit)
    ensures Scan(StuffLines(lines) + TERMINATOR + r, limit) == Scanned(JoinLines(lines), Terminated(r))
  {
    if lines == [] {
      assert StuffLines(lines) + TERMINATOR + r == TERMINATOR + r;
      TakeLineOf(TERMINATOR, r);
    } else {
      var wire, tail := Stuff(lines[0]) + CRLF, StuffLines(lines[1..]) + TERMINATOR + r;
      assert StuffLines(lines) + TERMINATOR + r == wire + tail;
      StuffedLine(lines[0]);
      ScanStuffed(lines[1..], r, limit);
      ScanCons(wire, tail, limit);
    }
  }

  lemma {:induction false} LinesFree(a: Text)
    ensures FreeOf(Lines(a), LF)
    decreases |a|
  {
    if a != [] {
      LinesFree(AfterFirst(a));
    }
  }

  lemma {:induction false} StrLinesFree(a: Text)
    ensures FreeOf(StrLines(a), LF)
    decreases |a|
  {
    if LF in a {
      StrLinesFree(AfterFirst(a));
    }
  }

  /**
   * Codec round trip with framing: any article, followed by anything, decodes to its normal form and leaves
   * exactly what follows.
   */
  lemma EncodeRoundTrip(a: Text, r: Text)
    ensures Scan(Encode(a) + r, None) == Scanned(Normalize(a), Terminated(r))
  {
    LinesFree(a);
    ScanStuffed(Lines(a), r, None);
  }

  /** The mock server's writer is the same codec, except that empty data arrives as one blank line. */
  lemma EncodeBlockRoundTrip(a: Text, r: Text)
    ensures Scan(EncodeBlock(a) + r, None) == Scanned(if a == [] then CRLF else Normalize(a), Terminated(r))
  {
    if a == [] {
      var blank: seq<Text> := [[]];
      assert StuffLines(blank) == CRLF && JoinLines(blank) == CRLF;
      ScanStuffed(blank, r, None);
    } else {
      EncodeRoundTrip(a, r);
    }
  }

  lemma {:induction false} LinesJoin(lines: seq<Text>)
    requires FreeOf(lines, LF)
    ensures Lines(JoinLines(lines)) == lines
  {
    if lines != [] {
      var a := JoinLines(lines);
      var tail := JoinLines(lines[1..]);
      assert a == (lines[0] + [CR]) + [LF] + tail;
      IndexOfIs(a, LF, |lines[0]| + 1);
      assert a[..|lines[0]| + 1] == lines[0] + [CR] && a[|lines[0]| + 2..] == tail;
      LinesJoin(lines[1..]);
    }
  }

  lemma NormalizeIdempotent(a: Text)
    ensures Normalize(Normalize(a)) == Normalize(a)
  {
    LinesFree(a);
    LinesJoin(Lines(a));
  }

  /** Every LF follows a CR, and the text is empty or ends in a line ending. */
  ghost predicate InNormalForm(a: Text) {
    && (a != [] ==> EndsWith(a, LF))
    && forall i :: 0 <= i < |a| && a[i] == LF ==> 0 < i && a[i - 1] == CR
  }

  lemma {:induction false} JoinLinesNormal(lines: seq<Text>)
    requires FreeOf(lines, LF)
    ensures InNormalForm(JoinLines(lines))
  {
    if lines != [] {
      JoinLinesNormal(lines[1..]);
      var head, tail := lines[0] + CRLF, JoinLines(lines[1..]);
      var a := head + tail;
      assert JoinLines(lines) == a;
      forall i | 0 <= i < |a| && a[i] == LF
        ensures 0 < i && a[i - 1] == CR
      {
        if i < |head| {
          assert i == |head| - 1;
        } else {
          assert tail[i - |head|] == LF;
        }
      }
    }
  }

  function StripLF(line: Text): Text {
    if EndsWith(line, LF) then line[..|line| - 1] else line
  }

  /** One LF-ended line normalises on its own. */
  lemma NormalizeCons(line: Text, tail: Text)
    requires EndsWith(line, LF) && LF !in line[..|line| - 1]
    ensures Normalize(line + tail) == StripCR(StripLF(line)) + CRLF + Normalize(tail)
  {
    var a := line + tail;
    var n := |line| - 1;
    forall j | 0 <= j < n
      ensures a[j] != LF
    {
      assert line[..n][j] == a[j];
    }
    IndexOfIs(a, LF, n);
    assert a[..n] == line[..n] && a[n + 1..] == tail;
    var x := StripCR(line[..n]);
    assert Lines(a) == [x] + Lines(tail);
    assert ([x] + Lines(tail))[1..] == Lines(tail);
  }

  /** A text in normal form is a CRLF line followed by a text in normal form. */
  lemma NormalFormStep(a: Text)
    requires InNormalForm(a) && a != []
    ensures var line := TakeLine(a);
      && EndsWith(line, LF) && LF !in line[..|line| - 1]
      && StripCR(StripLF(line)) + CRLF == line
      && InNormalForm(a[|line|..])
  {
    hide IndexOf;
    var i := IndexOf(a, LF);
    assert a[|a| - 1] == LF;
    assert TakeLine(a)[..i] == a[..i] && i > 0 && a[i - 1] == CR;
    assert a[..i][..i - 1] + CRLF == TakeLine(a);
    var tail := a[i + 1..];
    forall j | 0 <= j < |tail| && tail[j] == LF
      ensures 0 < j && tail[j - 1] == CR
    {
      assert a[i + 1 + j] == LF && a[i] == LF;
    }
    assert tail != [] ==> tail[|tail| - 1] == a[|a| - 1];
  }

  lemma {:induction false} NormalFormFixed(a: Text)
    requires InNormalForm(a)
    ensures Normalize(a) == a
    decreases |a|
  {
    if a != [] {
      NormalFormStep(a);
      var line := TakeLine(a);
      NormalFormFixed(a[|line|..]);
      NormalizeCons(line, a[|line|..]);
      assert a == line + a[|line|..];
    }
  }

  /** Normalisation fixes exactly the texts in normal form. */
  lemma NormalizeFixes(a: Text)
    ensures Normalize(a) == a <==> InNormalForm(a)
  {
    LinesFree(a);
    JoinLinesNormal(Lines(a));
    if InNormalForm(a) {
      NormalFormFixed(a);
    }
  }

  // ----- the normal form, byte by byte -----

  /** `a` from `k` on, with a CR put before every LF that has none, and the last line ended if it is not. */
  function Converted(a: Text, k: nat): Text
    requires k <= |a|
    decreases |a| - k
  {
    if k == |a| then
      if a == [] || a[k - 1] == LF then [] else if a[k - 1] == CR then [LF] else [CR, LF]
    else
      (if a[k] == LF && (k == 0 || a[k - 1] != CR) then [CR, LF] else [a[k]]) + Converted(a, k + 1)
  }

  lemma {:induction false} ConvertedRun(a: Text, i: nat, j: nat)
    requires i <= j <= |a| && LF !in a[i..j]
    ensures Converted(a, i) == a[i..j] + Converted(a, j)
    decreases j - i
  {
    if i < j {
      assert a[i] in a[i..j] && a[i + 1..j] == a[i..j][1..];
      ConvertedRun(a, i + 1, j);
      assert a[i..j] == [a[i]] + a[i + 1..j];
      Assoc([a[i]], a[i + 1..j], Converted(a, j));
    }
  }

  lemma {:induction false} ConvertedShift(line: Text, rest: Text, k: nat)
    requires EndsWith(line, LF) && k <= |rest|
    ensures Converted(line + rest, |line| + k) == Converted(rest, k)
    decreases |rest| - k
  {
    if k < |rest| {
      ConvertedShift(line, rest, k + 1);
    }
  }

  /** Normalising is exactly that, byte by byte. */
  lemma {:induction false} NormalizeExactly(a: Text)
    ensures Normalize(a) == Converted(a, 0)
    decreases |a|
  {
    hide Normalize;
    var i := IndexOf(a, LF);
    assert LF !in a[0..i];
    ConvertedRun(a, 0, i);
    if i < |a| {
      var line, rest := a[..i + 1], a[i + 1..];
      assert a == line + rest && a[0..i] == line[..i] == StripLF(line);
      NormalizeCons(line, rest);
      NormalizeExactly(rest);
      ConvertedShift(line, rest, 0);
      EndedLine(a[0..i], Converted(rest, 0));
      assert Converted(a, i) == (if i == 0 || a[i - 1] != CR then [CR, LF] else [LF]) + Converted(rest, 0);
    } else {
      assert a[0..i] == a;
      LastLine(a);
    }
  }

  lemma EndedLine(line: Text, rest: Text)
    ensures StripCR(line) + CRLF + rest == line + ((if line == [] || line[|line| - 1] != CR then [CR, LF] else [LF]) + rest)
  {
  }

  lemma LastLine(a: Text)
    requires LF !in a
    ensures Normalize(a) == a + Converted(a, |a|)
  {
    hide JoinLines, Lines;
    if a == [] {
      assert Lines(a) == [] && JoinLines([]) == [] by { NoLines(); }
    } else {
      OnlyLine(a);
      JoinOne(StripCR(a));
      EndedLine(a, []);
    }
  }

  lemma NoLines()
    ensures Lines([]) == [] && JoinLines([]) == []
  {
  }

  lemma OnlyLine(a: Text)
    requires a != [] && LF !in a
    ensures Lines(a) == [StripCR(a)]
  {
    IndexOfIs(a, LF, |a|);
    assert a[..|a|] == a;
    NoLines();
  }

  lemma JoinOne(line: Text)
    ensures JoinLines([line]) == line + CRLF
  {
    assert [line][1..] == [];
    NoLines();
  }

  // ----- the two POST encoders -----

  /** True when the text after the last LF (all of it, without one) ends in CR. */
  predicate EndsInBareCR(a: Text) {
    EndsWith(a, CR)
  }

  lemma {:induction false} StuffLinesInjective(x: seq<Text>, y: seq<Text>)
    requires FreeOf(x, LF) && FreeOf(y, LF) && StuffLines(x) == StuffLines(y)
    ensures x == y
  {
    ScanStuffed(x, [], None);
    ScanStuffed(y, [], None);
    LinesJoin(x);
    LinesJoin(y);
  }

  lemma {:induction false} StrLinesAgree(a: Text)
    ensures StrLines(a) == Lines(a) <==> !EndsInBareCR(a)
    decreases |a|
  {
    hide Lines, FirstLine, AfterFirst;
    if LF in a {
      hide StrLines, StripCR;
      var i := IndexOf(a, LF);
      var line, tail := a[..i], a[i + 1..];
      assert LF !in line && a == line + [LF] + tail;
      StrLinesAgree(tail);
      FirstCut(line, tail);
      SameTail(StripCR(line), StrLines(tail), Lines(tail));
      assert tail != [] ==> tail[|tail| - 1] == a[|a| - 1];
      assert tail == [] ==> a[|a| - 1] == LF;
    } else if a == [] {
      NoLines();
    } else {
      OnlyLine(a);
      assert StrLines(a) == [a];
    }
  }

  lemma SameTail(line: Text, x: seq<Text>, y: seq<Text>)
    ensures [line] + x == [line] + y <==> x == y
  {
    assert ([line] + x)[1..] == x && ([line] + y)[1..] == y;
  }

  /** `post_article` and `post_article_bytes` send the same bytes for exactly the articles that do not end in a bare CR. */
  lemma EncodersAgree(a: Text)
    ensures EncodeStr(a) == Encode(a) <==> !EndsInBareCR(a)
  {
    StrLinesAgree(a);
    if EncodeStr(a) == Encode(a) {
      var x, y := StuffLines(StrLines(a)), StuffLines(Lines(a));
      assert x == (x + TERMINATOR)[..|x + TERMINATOR| - 3] == (y + TERMINATOR)[..|y + TERMINATOR| - 3] == y;
      LinesFree(a);
      StrLinesFree(a);
      StuffLinesInjective(StrLines(a), Lines(a));
    }
  }

  lemma FirstCut(line: Text, tail: Text)
    requires LF !in line
    ensures var a := line + [LF] + tail;
      Lines(a) == [StripCR(line)] + Lines(tail) && StrLines(a) == [StripCR(line)] + StrLines(tail)
  {
    var a := line + [LF] + tail;
    IndexOfIs(a, LF, |line|);
    assert a[..|line|] == line && a[|line| + 1..] == tail;
    assert LF in a;
  }

  /** An article that ends in a bare CR is sent by `post_article` as if it went on with CRLF: the CR is kept. */
  lemma {:induction false} BareCRKept(a: Text)
    requires EndsInBareCR(a)
    ensures StrLines(a) == Lines(a + CRLF) && EncodeStr(a) == Encode(a + CRLF)
    decreases |a|
  {
    hide Lines, FirstLine, AfterFirst, StripCR, StuffLines;
    if LF in a {
      hide StrLines;
      var i := IndexOf(a, LF);
      var line, tail := a[..i], a[i + 1..];
      assert LF !in line && a == line + [LF] + tail && i < |a| - 1;
      BareCRKept(tail);
      FirstCut(line, tail);
      FirstCut(line, tail + CRLF);
      assert line + [LF] + (tail + CRLF) == a + CRLF;
    } else {
      FirstCut(a + [CR], []);
      assert a + [CR] + [LF] + [] == a + CRLF;
      OneCR(a);
      assert Lines([]) == [];
    }
  }

  lemma OneCR(a: Text)
    ensures StripCR(a + [CR]) == a && Lines([]) == []
  {
  }

  // ----- the peer's decoder -----

  datatype Received = Received(article: Text, rest: Text)

  /** The mock server's `read_posted_article`: the line ending is dropped first and always written back as CRLF. */
  function ReadPosted(s: Text): Option<Received>
    decreases |s|
  {
    var wire := TakeLine(s);
    if wire == [] then None else
    var line := StripCR(StripLF(wire));
    if line == [DOT] then Some(Received([], s[|wire|..])) else
    var tail := ReadPosted(s[|wire|..]);
    if tail.None? then None
    else Some(Received(Unstuff(line) + CRLF + tail.value.article, tail.value.rest))
  }

  lemma EndingDropped(text: Text, ending: Text)
    requires ending == CRLF || (ending == [LF] && !EndsWith(text, CR))
    ensures StripCR(StripLF(text + ending)) == text
  {
    assert StripLF(text + ending) == text + if ending == CRLF then [CR] else [];
    assert text + [] == text;
  }

  lemma UnstuffEnded(line: Text, ending: Text)
    requires LF !in line && (ending == CRLF || (ending == [LF] && !EndsWith(line, CR)))
    ensures Unstuff(line + ending) == Unstuff(line) + ending
    ensures LF !in Unstuff(line) && (EndsWith(Unstuff(line), CR) ==> EndsWith(line, CR))
  {
    if [DOT, DOT] <= line {
      assert (line + ending)[1..] == line[1..] + ending;
    } else {
      assert |line| < 2 ==> (line + ending)[|line|] != DOT;
      assert |line| >= 2 ==> (line + ending)[0] == line[0] && (line + ending)[1] == line[1];
      assert !([DOT, DOT] <= line + ending);
    }
  }

  /** Both decoders make the same line of a wire line that is not the terminator. */
  lemma SameLine(wire: Text)
    requires EndsWith(wire, LF) && LF !in wire[..|wire| - 1] && !IsTerminator(wire)
    ensures var line, raw := StripCR(StripLF(wire)), Unstuff(wire);
      && line != [DOT]
      && EndsWith(raw, LF) && LF !in raw[..|raw| - 1]
      && StripCR(StripLF(raw)) == Unstuff(line)
  {
    hide Unstuff;
    var line := StripCR(StripLF(wire));
    var ending := if EndsWith(StripLF(wire), CR) then CRLF else [LF];
    assert wire == line + ending;
    UnstuffEnded(line, ending);
    EndingDropped(Unstuff(line), ending);
  }

  /**
   * On every block that a client reader accepts, the peer's decoder stops at the same byte with the same data,
   * normalised.
   */
  lemma {:induction false} DecodersAgree(s: Text)
    requires Scan(s, None).end.Terminated?
    ensures ReadPosted(s) == Some(Received(Normalize(Scan(s, None).body), Scan(s, None).end.rest))
    decreases |s|
  {
    var wire := TakeLine(s);
    TerminatedLine(s, None);
    if IsTerminator(wire) {
      assert StripCR(StripLF(wire)) == [DOT];
    } else {
      DecodersAgree(s[|wire|..]);
      SameLine(wire);
      NormalizeCons(Unstuff(wire), Scan(s[|wire|..], None).body);
    }
  }

  /** What the client posts is what the peer stores, normalised, and the peer stops right after it. */
  lemma PostRoundTrip(a: Text, r: Text)
    ensures ReadPosted(Encode(a) + r) == Some(Received(Normalize(a), r))
  {
    EncodeRoundTrip(a, r);
    DecodersAgree(Encode(a) + r);
    NormalizeIdempotent(a);
  }

  // ----- prefix and bounded reads of encoded data -----

  /** The longest wire line a prefix read admits. */
  const LINE_LIMIT: nat := 16 * 1024

  /** The limit is on the wire line as read, with its line ending and its stuffing. */
  lemma OverlongExactly(line: Text, tail: Text)
    requires EndsWith(line, LF) && LF !in line[..|line| - 1] && !IsTerminator(line)
    ensures var seen := Scan(line + tail, Some(LINE_LIMIT));
      if |line| > 16384 then seen == Scanned([], Overlong) else Unstuff(line) <= seen.body
  {
    TakeLineOf(line, tail);
  }

  function Least(x: nat, y: nat): nat {
    if x <= y then x else y
  }

  /** A reader with a line limit sees the same block, cut short at the first line over the limit. */
  lemma {:induction false} ScanLimitPrefix(s: Text, limit: Option<nat>)
    ensures Scan(s, limit).body <= Scan(s, None).body
    ensures !Scan(s, limit).end.Overlong? ==> Scan(s, limit) == Scan(s, None)
    decreases |s|
  {
    var line := TakeLine(s);
    if line != [] && !IsTerminator(line) && !Exceeds(line, limit) {
      ScanLimitPrefix(s[|line|..], limit);
    }
  }

  /**
   * A prefix read of any well-formed block fails exactly when it meets a line over the limit before it has reached
   * its bound. Otherwise it returns the first bytes of the full read, and calls them complete only when the full
   * read is strictly shorter than the bound.
   */
  lemma PrefixAgrees(s: Text, max: nat)
    requires 1 <= max && Bounded(Scan(s, None), None).Ok?
    ensures var full, seen := Bounded(Scan(s, None), None).value, Scan(s, Some(LINE_LIMIT));
      Prefixed(seen, max)
        == if seen.end.Overlong? && |seen.body| < max then Err(ResponseTooLarge)
           else Ok(BodyPrefix(full[..Least(max, |full|)], |full| < max))
    ensures Scan(s, Some(LINE_LIMIT)).body <= Scan(s, None).body
  {
    ScanLimitPrefix(s, Some(LINE_LIMIT));
    var full, seen := Scan(s, None).body, Scan(s, Some(LINE_LIMIT)).body;
    assert full[..|full|] == full;
    assert |seen| >= max ==> full[..max] == seen[..max];
  }

  /** A block that breaks off fails a prefix read exactly when the bound is not reached first. */
  lemma PrefixBrokenOff(s: Text, max: nat)
    requires 1 <= max && Scan(s, Some(LINE_LIMIT)).end.Closed?
    ensures var body := Scan(s, None).body;
      Prefixed(Scan(s, Some(LINE_LIMIT)), max)
        == if |body| < max then Err(Connection) else Ok(BodyPrefix(body[..max], false))
  {
    ScanLimitPrefix(s, Some(LINE_LIMIT));
  }

  /** So it does for anything encoded in lines within the limit. */
  lemma PrefixRoundTrip(a: Text, r: Text, max: nat)
    requires 1 <= max && WithinLimit(Lines(a), Some(LINE_LIMIT))
    ensures Scan(Encode(a) + r, Some(LINE_LIMIT)).end == Terminated(r)
    ensures Prefixed(Scan(Encode(a) + r, Some(LINE_LIMIT)), max)
         == Ok(BodyPrefix(Normalize(a)[..Least(max, |Normalize(a)|)], |Normalize(a)| < max))
  {
    LinesFree(a);
    ScanStuffed(Lines(a), r, Some(LINE_LIMIT));
    EncodeRoundTrip(a, r);
    PrefixAgrees(Encode(a) + r, max);
  }

  /**
   * A bounded read of any well-formed block succeeds exactly when the full read fits the bound, and then agrees
   * with it; of anything else it fails as the full read does, or because the bound is passed first.
   */
  lemma {:induction false} BoundedAgrees(s: Text, max: nat)
    ensures var full, bounded := Bounded(Scan(s, None), None), Bounded(Scan(s, None), Some(max));
      && (full.Ok? ==> bounded == if |full.value| <= max then full else Err(ResponseTooLarge))
      && (full.Err? ==> full == Err(Connection) && (bounded == full || bounded == Err(ResponseTooLarge)))
  {
    NeverOverlong(s);
  }

  /** Without a line limit a block ends at its terminator or at the end of the stream. */
  lemma {:induction false} NeverOverlong(s: Text)
    ensures !Scan(s, None).end.Overlong?
    decreases |s|
  {
    var line := TakeLine(s);
    if line != [] && !IsTerminator(line) {
      NeverOverlong(s[|line|..]);
    }
  }
}
