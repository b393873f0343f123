/** Byte strings, results, and the splitting and joining shared by the wire codec and the overview parser. */
module Bytes {

  newtype Byte = x: int | 0 <= x < 256

  type Text = seq<Byte>

  const TAB: Byte := 9
  const LF: Byte := 10
  const CR: Byte := 13
  const SPACE: Byte := 32
  const DOT: Byte := 46
  const ZERO: Byte := 48
  const NINE: Byte := 57
  const LT: Byte := 60
  const GT: Byte := 62

  const CRLF: Text := [CR, LF]
  const TERMINATOR: Text := [DOT, CR, LF]

  datatype Option<+T> = None | Some(value: T)

  /** The errors of the client; a payload is kept where it carries data rather than wording. */
  datatype NntpError =
    | Connection
    | Io
    | Timeout
    | Protocol
    | ResponseTooLarge
    | Auth(message: Text)
    | AuthRequired(message: Text)
    | PermissionDenied(message: Text)
    | ServiceUnavailable(message: Text)
    | UnsupportedCommand(message: Text)
    | ArticleNotFound(id: Text)
    | NoSuchGroup(message: Text)
    | NoArticleSelected(message: Text)

  datatype Result<+T> = Ok(value: T) | Err(error: NntpError)

  /** The position of the first `b`, or the length of `s` when there is none. */
  function IndexOf(s: Text, b: Byte): (i: nat)
    ensures i <= |s| && (i < |s| ==> s[i] == b)
    ensures forall j :: 0 <= j < i ==> s[j] != b
  {
    if s == [] || s[0] == b then 0 else 1 + IndexOf(s[1..], b)
  }

  lemma IndexOfIs(s: Text, b: Byte, i: nat)
    requires i <= |s| && (i < |s| ==> s[i] == b) && forall j :: 0 <= j < i ==> s[j] != b
    ensures IndexOf(s, b) == i
  {
    assert IndexOf(s, b) == |s| || s[IndexOf(s, b)] == b;
  }

  predicate EndsWith(s: Text, b: Byte) {
    s != [] && s[|s| - 1] == b
  }

  /** `strip_suffix(b"\r")`, leaving other lines alone. */
  function StripCR(line: Text): Text {
    if EndsWith(line, CR) then line[..|line| - 1] else line
  }

  /** The pieces of `s` between occurrences of `sep`; always at least one. */
  function Split(s: Text, sep: Byte): (parts: seq<Text>)
    ensures parts != []
    decreases |s|
  {
    var i := IndexOf(s, sep);
    if i == |s| then [s] else [s[..i]] + Split(s[i + 1..], sep)
  }

  function Join(parts: seq<Text>, sep: Byte): Text {
    if parts == [] then [] else if |parts| == 1 then parts[0] else parts[0] + [sep] + Join(parts[1..], sep)
  }

  lemma {:induction false} JoinSplit(s: Text, sep: Byte)
    ensures Join(Split(s, sep), sep) == s
    ensures forall k :: 0 <= k < |Split(s, sep)| ==> sep !in Split(s, sep)[k]
    decreases |s|
  {
    var i := IndexOf(s, sep);
    if i < |s| {
      JoinSplit(s[i + 1..], sep);
      var tail := Split(s[i + 1..], sep);
      assert ([s[..i]] + tail)[1..] == tail;
      assert s == s[..i] + [sep] + s[i + 1..];
    }
  }

  lemma {:induction false} SplitJoin(parts: seq<Text>, sep: Byte)
    requires parts != [] && forall k :: 0 <= k < |parts| ==> sep !in parts[k]
    ensures Split(Join(parts, sep), sep) == parts
  {
    var s := Join(parts, sep);
    if |parts| == 1 {
      IndexOfIs(s, sep, |s|);
    } else {
      IndexOfIs(s, sep, |parts[0]|);
      assert s[..|parts[0]|] == parts[0] && s[|parts[0]| + 1..] == Join(parts[1..], sep);
      SplitJoin(parts[1..], sep);
    }
  }

  /** The bytes of an ASCII string. */
  function Ascii(s: string): Text
    requires forall i :: 0 <= i < |s| ==> s[i] < 128 as char
  {
    seq(|s|, i requires 0 <= i < |s| => s[i] as int as Byte)
  }

  function Lower(b: Byte): Byte {
    if 65 <= b <= 90 then b + 32 else b
  }

  function ToLower(s: Text): (t: Text)
    ensures |t| == |s|
  {
    seq(|s|, i requires 0 <= i < |s| => Lower(s[i]))
  }

  lemma SplitCut(head: Text, tail: Text, sep: Byte)
    requires sep !in head
    ensures Split(head + [sep] + tail, sep) == [head] + Split(tail, sep)
  {
    var s := head + [sep] + tail;
    IndexOfIs(s, sep, |head|);
    assert s[..|head|] == head && s[|head| + 1..] == tail;
  }

  lemma SplitWhole(s: Text, sep: Byte)
    requires sep !in s
    ensures Split(s, sep) == [s]
  {
    IndexOfIs(s, sep, |s|);
    assert s[..|s|] == s;
  }

  predicate OccursAt(hay: Text, needle: Text, i: nat) {
    needle <= hay[Clip(i, |hay|)..]
  }

  function Clip(i: nat, n: nat): nat {
    if i <= n then i else n
  }

  predicate Contains(hay: Text, needle: Text) {
    exists i :: 0 <= i <= |hay| && OccursAt(hay, needle, i)
  }
}
