/** The mock server's side of the codec: the block writer and the reader of posted articles, as their loops. */
module Peer {
  import opened Bytes
  import opened Wire

  /** `write_multiline_body`; it may stop early when the peer closes the socket. */
  method WriteMultilineBody(data: Text) returns (out: Text, ok: bool)
    ensures ok ==> out == EncodeBlock(data)
  {
    hide StuffLines, Lines, Stuff, StripCR, IndexOf;
    out := [];
    ok := false;
    var start := 0;
    var wroteAnything := false;
    assert data[0..] == data;
    assert out + StuffLines(Lines(data)) == StuffLines(Lines(data));
    while start < |data|
      invariant start <= |data| && (wroteAnything <==> start > 0)
      invariant out + StuffLines(Lines(data[start..])) == StuffLines(Lines(data))
      invariant start == 0 ==> out == []
    {
      var closed: bool := *;
      if closed {
        return;
      }
      var todo := data[start..];
      var newline := IndexOf(todo, LF);
      StuffFirst(out, todo);
      wroteAnything := true;
      out := WriteLine(out, StripCR(todo[..newline]));
      start := if newline < |todo| then start + newline + 1 else |data|;
      assert data[start..] == AfterFirst(todo);
    }
    if !wroteAnything {
      out := out + CRLF;
    } else {
      NothingLeft(out, data[start..]);
    }
    out := out + TERMINATOR;
    ok := true;
  }

  /** One line, dot-stuffed. */
  method WriteLine(out: Text, line: Text) returns (r: Text)
    ensures r == out + (Stuff(line) + CRLF)
  {
    r := out;
    if line != [] && line[0] == DOT {
      r := r + [DOT];
    }
    r := r + line;
    r := r + CRLF;
  }

  /** `read_posted_article`: `None` when the stream ends before the terminator. */
  method ReadPostedArticle(stream: Text) returns (r: Option<Received>)
    ensures r == ReadPosted(stream)
  {
    hide ReadPosted, Prefix, Unstuff;
    var article: Text := [];
    var unread := stream;
    PrefixNone(ReadPosted(stream));
    while true
      invariant ReadPosted(stream) == Prefix(article, ReadPosted(unread))
      decreases |unread|
    {
      PostedStep(article, unread);
      var line := TakeLine(unread);
      if line == [] {
        return None;
      }
      unread := unread[|line|..];
      if EndsWith(line, LF) {
        line := line[..|line| - 1];
      }
      if EndsWith(line, CR) {
        line := line[..|line| - 1];
      }
      if line == [DOT] {
        return Some(Received(article, unread));
      }
      article := article + (Unstuff(line) + CRLF);
    }
  }

  function Prefix(done: Text, r: Option<Received>): Option<Received> {
    if r.None? then None else Some(Received(done + r.value.article, r.value.rest))
  }

  lemma PrefixNone(r: Option<Received>)
    ensures Prefix([], r) == r
  {
    if r.Some? {
      assert [] + r.value.article == r.value.article;
    }
  }

  /** One turn of the reading loop. */
  lemma PostedStep(done: Text, s: Text)
    ensures var wire := TakeLine(s);
      var line := StripCR(StripLF(wire));
      if wire == [] then Prefix(done, ReadPosted(s)) == None
      else if line == [DOT] then Prefix(done, ReadPosted(s)) == Some(Received(done, s[|wire|..]))
      else Prefix(done, ReadPosted(s)) == Prefix(done + (Unstuff(line) + CRLF), ReadPosted(s[|wire|..]))
  {
    hide TakeLine, StripCR, StripLF, Unstuff;
    var wire := TakeLine(s);
    var line := StripCR(StripLF(wire));
    if wire != [] {
      if line == [DOT] {
        assert done + [] == done;
      } else {
        var tail := ReadPosted(s[|wire|..]);
        var decoded := Unstuff(line) + CRLF;
        if tail.Some? {
          assert done + (decoded + tail.value.article) == done + decoded + tail.value.article;
        }
      }
    }
  }
}
