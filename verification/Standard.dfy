/**
 * The reader of RFC 3977 section 3.1.1: it stops at a dot alone on a CRLF line and takes the first dot off every
 * other line that starts with one. The writers are judged by it, and the client's reader is compared with it.
 */
module Standard {
  import opened Bytes
  import opened Wire

  function Read(s: Text): Scanned
    decreases |s|
  {
    var line := TakeLine(s);
    if line == [] then Scanned([], Closed)
    else if line == [DOT, CR, LF] then Scanned([], Terminated(s[|line|..]))
    else
      var tail := Read(s[|line|..]);
      Scanned((if line[0] == DOT then line[1..] else line) + tail.body, tail.end)
  }

  lemma ReadCons(line: Text, tail: Text)
    requires EndsWith(line, LF) && LF !in line[..|line| - 1] && line != [DOT, CR, LF]
    ensures Read(line + tail)
         == Scanned((if line[0] == DOT then line[1..] else line) + Read(tail).body, Read(tail).end)
  {
    TakeLineOf(line, tail);
  }

  /** The standard's reader gets stuffed lines back, and stops right after the terminator. */
  lemma {:induction false} ReadStuffed(lines: seq<Text>, r: Text)
    requires FreeOf(lines, LF)
    ensures Read(StuffLines(lines) + TERMINATOR + r) == Scanned(JoinLines(lines), Terminated(r))
  {
    if lines == [] {
      assert StuffLines(lines) + TERMINATOR + r == TERMINATOR + r;
      TakeLineOf(TERMINATOR, r);
    } else {
      var line := lines[0];
      var wire, tail := Stuff(line) + CRLF, StuffLines(lines[1..]) + TERMINATOR + r;
      assert StuffLines(lines) + TERMINATOR + r == wire + tail;
      StuffedLine(line);
      assert wire[0] == DOT ==> wire[1..] == line + CRLF;
      assert wire[0] != DOT ==> wire == line + CRLF;
      ReadStuffed(lines[1..], r);
      ReadCons(wire, tail);
    }
  }

  /** Whatever follows, a server that reads by the standard gets what the client posts, in normal form and no more. */
  lemma PostedByTheStandard(a: Text, r: Text)
    ensures Read(Encode(a) + r) == Scanned(Normalize(a), Terminated(r))
  {
    LinesFree(a);
    ReadStuffed(Lines(a), r);
  }

  /** The same for the text encoder, but that it keeps a bare CR at the very end. */
  lemma PostedTextByTheStandard(a: Text, r: Text)
    ensures Read(EncodeStr(a) + r) == Scanned(Normalize(if EndsWith(a, CR) then a + CRLF else a), Terminated(r))
  {
    if EndsWith(a, CR) {
      BareCRKept(a);
      PostedByTheStandard(a + CRLF, r);
    } else {
      StrLinesAgree(a);
      PostedByTheStandard(a, r);
    }
  }

  /** And so does a client that reads by the standard from the mock server. */
  lemma SentByTheStandard(a: Text, r: Text)
    ensures Read(EncodeBlock(a) + r) == Scanned(if a == [] then CRLF else Normalize(a), Terminated(r))
  {
    if a == [] {
      var blank: seq<Text> := [[]];
      assert StuffLines(blank) == CRLF && JoinLines(blank) == CRLF;
      ReadStuffed(blank, r);
    } else {
      PostedByTheStandard(a, r);
    }
  }

  /** No line up to the end of the block starts with a single dot, or is a dot ended by a bare LF. */
  predicate Stuffed(s: Text)
    decreases |s|
  {
    var line := TakeLine(s);
    line == [] || line == [DOT, CR, LF]
    || ((line[0] == DOT ==> |line| > 1 && line[1] == DOT) && Stuffed(s[|line|..]))
  }

  lemma {:induction false} ReadStopsInside(s: Text)
    ensures Read(s).end.Terminated? ==> |Read(s).end.rest| < |s|
    decreases |s|
  {
    var line := TakeLine(s);
    if line != [] && line != [DOT, CR, LF] {
      ReadStopsInside(s[|line|..]);
    }
  }

  /** Where both stop at the same place, the client's reader has dropped no more than the standard's. */
  lemma {:induction false} ClientKeepsMore(s: Text)
    ensures Scan(s, None).end == Read(s).end ==> |Scan(s, None).body| >= |Read(s).body|
    decreases |s|
  {
    var line := TakeLine(s);
    if line != [] && line != [DOT, CR, LF] {
      if line == [DOT, LF] {
        ReadStopsInside(s[|line|..]);
      } else {
        ClientKeepsMore(s[|line|..]);
      }
    }
  }

  /**
   * The client's reader follows the standard on exactly the streams that are stuffed by it: it keeps a single dot at
   * the start of a line, and takes a dot ended by a bare LF for the terminator.
   */
  lemma {:induction false} ReadersAgree(s: Text)
    ensures Scan(s, None) == Read(s) <==> Stuffed(s)
    decreases |s|
  {
    var line := TakeLine(s);
    if line != [] && line != [DOT, CR, LF] {
      var rest := s[|line|..];
      if line == [DOT, LF] {
        ReadStopsInside(rest);
      } else {
        ReadersAgree(rest);
        ClientKeepsMore(rest);
        SameLineOrLonger(line, Scan(rest, None).body, Read(rest).body);
      }
    }
  }

  lemma SameLineOrLonger(line: Text, a: Text, b: Text)
    requires line != []
    ensures var strict := if line[0] == DOT then line[1..] else line;
      if line[0] == DOT ==> [DOT, DOT] <= line then Unstuff(line) + a == strict + b <==> a == b
      else |a| >= |b| ==> Unstuff(line) + a != strict + b
  {
    var strict := if line[0] == DOT then line[1..] else line;
    if line[0] == DOT ==> [DOT, DOT] <= line {
      assert Unstuff(line) == strict;
      assert (strict + a)[|strict|..] == a && (strict + b)[|strict|..] == b;
    } else {
      assert Unstuff(line) == line;
      assert |Unstuff(line) + a| > |strict + b| || |a| < |b|;
    }
  }
}
