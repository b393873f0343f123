/**
 * The lossless overview parser: every non-empty line of an XOVER block becomes a row or a
 * defective row, never both and never neither.
 */
module Overview {
  import opened Bytes
  import opened Decimal
  import opened Wire

  datatype Format = Format(fields: seq<Text>)

  datatype Row = Row(number: nat, fields: seq<Text>)

  datatype Defect = NumberInvalid | NumberOutOfRange | DuplicateNumber | FieldCountInvalid

  datatype DefectiveRow = DefectiveRow(number: Option<nat>, line: Text, defect: Defect)

  datatype Rows = Rows(rows: seq<Row>, defective: seq<DefectiveRow>)

  /** What a row must satisfy: the negotiated number of fields, and an article number asked for. */
  datatype Window = Window(columns: nat, first: nat, last: nat)

  // ----- lines and fields -----

  function Stripped(parts: seq<Text>): seq<Text> {
    if parts == [] then []
    else (if StripCR(parts[0]) == [] then [] else [StripCR(parts[0])]) + Stripped(parts[1..])
  }

  /** `wire_lines`: the non-empty lines, without their line endings. */
  function WireLines(data: Text): seq<Text> {
    Stripped(Split(data, LF))
  }

  function NumberText(line: Text): Text {
    Split(line, TAB)[0]
  }

  function Number(line: Text): Option<nat> {
    ParseU64(NumberText(line))
  }

  function Fields(line: Text): seq<Text> {
    Split(line, TAB)[1..]
  }

  function InRange(n: nat, w: Window): bool {
    w.first <= n <= w.last
  }

  /** A line that would be a row if it were the only one. */
  predicate Acceptable(line: Text, w: Window) {
    Number(line).Some? && InRange(Number(line).value, w) && |Fields(line)| == w.columns
  }

  /** An acceptable line earlier in the block has the same number. */
  predicate Repeats(lines: seq<Text>, k: nat, w: Window)
    requires k < |lines|
  {
    exists j :: 0 <= j < k && Acceptable(lines[j], w) && Number(lines[j]) == Number(lines[k])
  }

  predicate Accepted(lines: seq<Text>, k: nat, w: Window)
    requires k < |lines|
  {
    Acceptable(lines[k], w) && !Repeats(lines, k, w)
  }

  /** The first reason that applies to a line that is not accepted. */
  function Reason(lines: seq<Text>, k: nat, w: Window): Defect
    requires k < |lines| && !Accepted(lines, k, w)
  {
    var line := lines[k];
    if Number(line).None? then NumberInvalid
    else if !InRange(Number(line).value, w) then NumberOutOfRange
    else if |Fields(line)| != w.columns then FieldCountInvalid
    else DuplicateNumber
  }

  function RowOf(line: Text): Row
    requires Number(line).Some?
  {
    Row(Number(line).value, Fields(line))
  }

  /** The rows among the first `k` lines, in order. */
  function RowsOf(lines: seq<Text>, k: nat, w: Window): seq<Row>
    requires k <= |lines|
  {
    if k == 0 then []
    else RowsOf(lines, k - 1, w) + if Accepted(lines, k - 1, w) then [RowOf(lines[k - 1])] else []
  }

  /** The defective rows among the first `k` lines, in order. */
  function DefectsOf(lines: seq<Text>, k: nat, w: Window): seq<DefectiveRow>
    requires k <= |lines|
  {
    if k == 0 then [] else
    var last := if Accepted(lines, k - 1, w) then []
                else [DefectiveRow(Number(lines[k - 1]), lines[k - 1], Reason(lines, k - 1, w))];
    DefectsOf(lines, k - 1, w) + last
  }

  function Parsed(data: Text, w: Window): Rows {
    var lines := WireLines(data);
    Rows(RowsOf(lines, |lines|, w), DefectsOf(lines, |lines|, w))
  }

  /** The numbers of the acceptable lines among the first `k`. */
  function Seen(lines: seq<Text>, k: nat, w: Window): set<nat>
    requires k <= |lines|
  {
    if k == 0 then {}
    else Seen(lines, k - 1, w) + if Acceptable(lines[k - 1], w) then {Number(lines[k - 1]).value} else {}
  }

  lemma {:induction false} SeenExact(lines: seq<Text>, k: nat, w: Window, n: nat)
    requires k <= |lines|
    ensures n in Seen(lines, k, w) <==> exists j :: 0 <= j < k && Acceptable(lines[j], w) && Number(lines[j]) == Some(n)
  {
    if k > 0 {
      SeenExact(lines, k - 1, w, n);
    }
  }

  /** `parse_lossless_overview_rows`: one pass with a set of the numbers seen. */
  method ParseRows(data: Text, format: Format, first: nat, last: nat) returns (r: Rows)
    ensures r == Parsed(data, Window(|format.fields|, first, last))
  {
    var lines := WireLines(data);
    var rows: seq<Row> := [];
    var defective: seq<DefectiveRow> := [];
    var seen: set<nat> := {};
    ghost var w := Window(|format.fields|, first, last);
    for i := 0 to |lines|
      invariant rows == RowsOf(lines, i, w) && defective == DefectsOf(lines, i, w)
      invariant seen == Seen(lines, i, w)
    {
      var line := lines[i];
      var parts := Split(line, TAB);
      var number := ParseU64(parts[0]);
      var fields := parts[1..];
      var failure: Option<Defect>;
      if number.None? {
        failure := Some(NumberInvalid);
      } else if number.value < first || number.value > last {
        failure := Some(NumberOutOfRange);
      } else if |fields| != |format.fields| {
        failure := Some(FieldCountInvalid);
      } else {
        SeenExact(lines, i, w, number.value);
        if number.value in seen {
          failure := Some(DuplicateNumber);
        } else {
          seen := seen + {number.value};
          failure := None;
        }
      }
      assert failure == if Accepted(lines, i, w) then None else Some(Reason(lines, i, w));
      if failure.Some? {
        defective := defective + [DefectiveRow(number, line, failure.value)];
      } else {
        rows := rows + [Row(number.value, fields)];
      }
    }
    r := Rows(rows, defective);
  }

  /** The text is a decimal numeral of a u64. */
  predicate Numeral(text: Text) {
    text != [] && AllDigits(text) && Value(text) < 0x1_0000_0000_0000_0000
  }

  /** A line is accepted, or is defective for a reason, exactly as its number, its fields and the lines before it say. */
  lemma ReasonExactly(lines: seq<Text>, k: nat, w: Window)
    requires k < |lines|
    ensures var text, fields := NumberText(lines[k]), Fields(lines[k]);
      var good := Numeral(text) && w.first <= Value(text) <= w.last && |fields| == w.columns;
      && (Accepted(lines, k, w) <==> good && !Repeats(lines, k, w))
      && (!Accepted(lines, k, w) ==>
            && (Reason(lines, k, w) == NumberInvalid <==> !Numeral(text))
            && (Reason(lines, k, w) == NumberOutOfRange <==>
                  Numeral(text) && (Value(text) < w.first || Value(text) > w.last))
            && (Reason(lines, k, w) == FieldCountInvalid <==>
                  Numeral(text) && w.first <= Value(text) <= w.last && |fields| != w.columns)
            && (Reason(lines, k, w) == DuplicateNumber <==> good && Repeats(lines, k, w)))
  {
    hide NumberText, Fields, Value, Repeats;
    ParseU64Exact(NumberText(lines[k]));
  }

  /** The lines of a block: cut at LF, one CR taken off the end, and empty ones skipped. */
  lemma WireLinesCut(line: Text, rest: Text)
    requires LF !in line
    ensures WireLines(line + [LF] + rest) == (if StripCR(line) == [] then [] else [StripCR(line)]) + WireLines(rest)
    ensures WireLines(line) == if StripCR(line) == [] then [] else [StripCR(line)]
  {
    SplitCut(line, rest, LF);
    SplitWhole(line, LF);
    assert [line][1..] == [] && Stripped([]) == [];
    assert ([line] + Split(rest, LF))[1..] == Split(rest, LF);
  }

  // ----- nothing is lost -----

  lemma {:induction false} PrefixesGrow(lines: seq<Text>, k: nat, n: nat, w: Window)
    requires k <= n <= |lines|
    ensures RowsOf(lines, k, w) <= RowsOf(lines, n, w) && DefectsOf(lines, k, w) <= DefectsOf(lines, n, w)
  {
    if k < n {
      PrefixesGrow(lines, k, n - 1, w);
    }
  }

  lemma {:induction false} Counted(lines: seq<Text>, k: nat, w: Window)
    requires k <= |lines|
    ensures |RowsOf(lines, k, w)| + |DefectsOf(lines, k, w)| == k
  {
    if k > 0 {
      Counted(lines, k - 1, w);
    }
  }

  /**
   * Line `k` lands in exactly one of the two lists, whole, at the place its order among the earlier lines
   * of that kind gives it; together the two lists hold as many entries as there are lines.
   */
  lemma EveryLineLands(lines: seq<Text>, k: nat, w: Window)
    requires k < |lines|
    ensures var rows, defects := RowsOf(lines, |lines|, w), DefectsOf(lines, |lines|, w);
      && |rows| + |defects| == |lines|
      && |RowsOf(lines, k, w)| + |DefectsOf(lines, k, w)| == k
      && (Accepted(lines, k, w) ==>
            |RowsOf(lines, k, w)| < |rows| && rows[|RowsOf(lines, k, w)|] == RowOf(lines[k]))
      && (!Accepted(lines, k, w) ==>
            && |DefectsOf(lines, k, w)| < |defects|
            && defects[|DefectsOf(lines, k, w)|] == DefectiveRow(Number(lines[k]), lines[k], Reason(lines, k, w)))
  {
    Counted(lines, |lines|, w);
    Counted(lines, k, w);
    PrefixesGrow(lines, k + 1, |lines|, w);
  }

  /** The fields of a line, joined by tabs, rebuild it after its number. */
  lemma LineRebuilt(line: Text)
    ensures line == NumberText(line) + if Fields(line) == [] then [] else [TAB] + Join(Fields(line), TAB)
  {
    JoinSplit(line, TAB);
  }

  /** Row `i` comes from an accepted line, the one that lands there. */
  lemma {:induction false} RowSource(lines: seq<Text>, n: nat, w: Window, i: nat) returns (k: nat)
    requires n <= |lines| && i < |RowsOf(lines, n, w)|
    ensures k < n && Accepted(lines, k, w) && RowsOf(lines, n, w)[i] == RowOf(lines[k]) && |RowsOf(lines, k, w)| == i
  {
    if i < |RowsOf(lines, n - 1, w)| {
      k := RowSource(lines, n - 1, w, i);
    } else {
      k := n - 1;
    }
  }

  /** Rows have the negotiated number of fields, numbers that were asked for, and no two the same. */
  lemma RowsSound(lines: seq<Text>, w: Window)
    ensures var rows := RowsOf(lines, |lines|, w);
      && (forall i :: 0 <= i < |rows| ==>
            w.first <= rows[i].number <= w.last && |rows[i].fields| == w.columns && rows[i].number < U64_LIMIT)
      && (forall i, j :: 0 <= i < j < |rows| ==> rows[i].number != rows[j].number)
  {
    var rows := RowsOf(lines, |lines|, w);
    forall i | 0 <= i < |rows|
      ensures w.first <= rows[i].number <= w.last && |rows[i].fields| == w.columns && rows[i].number < U64_LIMIT
    {
      var k := RowSource(lines, |lines|, w, i);
      ParseU64Exact(NumberText(lines[k]));
    }
    forall i, j | 0 <= i < j < |rows|
      ensures rows[i].number != rows[j].number
    {
      var a := RowSource(lines, |lines|, w, i);
      var b := RowSource(lines, |lines|, w, j);
      if b <= a {
        PrefixesGrow(lines, b, a, w);
      }
      assert a < b && Acceptable(lines[a], w);
    }
  }

  /** The first line with a given number is the accepted one. */
  lemma {:induction false} FirstIsAccepted(lines: seq<Text>, k: nat, w: Window) returns (j: nat)
    requires k < |lines| && Acceptable(lines[k], w)
    ensures j <= k && Accepted(lines, j, w) && Number(lines[j]) == Number(lines[k])
  {
    j := k;
    if Repeats(lines, k, w) {
      var i :| 0 <= i < k && Acceptable(lines[i], w) && Number(lines[i]) == Number(lines[k]);
      j := FirstIsAccepted(lines, i, w);
    }
  }

  /** An otherwise good line is a duplicate exactly when a row accepted before it has its number. */
  lemma DuplicateExactly(lines: seq<Text>, k: nat, w: Window)
    requires k < |lines| && Acceptable(lines[k], w)
    ensures !Accepted(lines, k, w) <==>
      exists i :: 0 <= i < |RowsOf(lines, k, w)| && RowsOf(lines, k, w)[i].number == Number(lines[k]).value
  {
    hide Number, Fields, InRange, DefectsOf;
    if Repeats(lines, k, w) {
      var j := FirstIsAccepted(lines, k, w);
      PrefixesGrow(lines, j + 1, k, w);
      assert RowsOf(lines, k, w)[|RowsOf(lines, j, w)|] == RowOf(lines[j]);
    } else {
      forall i | 0 <= i < |RowsOf(lines, k, w)|
        ensures RowsOf(lines, k, w)[i].number != Number(lines[k]).value
      {
        var j := RowSource(lines, k, w, i);
        assert Acceptable(lines[j], w);
      }
    }
  }

  // ----- printing and parsing back -----

  function PrintLine(row: Row): Text {
    Join([Print(row.number)] + row.fields, TAB)
  }

  function PrintLines(rows: seq<Row>): seq<Text> {
    seq(|rows|, i requires 0 <= i < |rows| => PrintLine(rows[i]))
  }

  /** Rows as a server sends them: decimal number, tab-separated fields, CRLF. */
  function PrintRows(rows: seq<Row>): Text {
    JoinLines(PrintLines(rows))
  }

  ghost predicate Printable(rows: seq<Row>, w: Window) {
    && (forall i :: 0 <= i < |rows| ==>
          && w.first <= rows[i].number <= w.last && rows[i].number < U64_LIMIT && |rows[i].fields| == w.columns
          && FreeOf(rows[i].fields, TAB) && FreeOf(rows[i].fields, LF))
    && (forall i, j :: 0 <= i < j < |rows| ==> rows[i].number != rows[j].number)
  }

  lemma {:induction false} JoinFree(parts: seq<Text>, sep: Byte, b: Byte)
    requires FreeOf(parts, b) && b != sep
    ensures b !in Join(parts, sep)
  {
    if |parts| > 1 {
      JoinFree(parts[1..], sep, b);
    }
  }

  lemma {:induction false} JoinHead(parts: seq<Text>, sep: Byte)
    requires parts != [] && parts[0] != []
    ensures Join(parts, sep) != []
  {
  }

  lemma PrintedLine(row: Row)
    requires row.number < U64_LIMIT && FreeOf(row.fields, TAB) && FreeOf(row.fields, LF)
    ensures PrintLine(row) != [] && LF !in PrintLine(row)
    ensures Number(PrintLine(row)) == Some(row.number) && Fields(PrintLine(row)) == row.fields
  {
    var parts := [Print(row.number)] + row.fields;
    assert FreeOf(parts, TAB) && FreeOf(parts, LF);
    SplitJoin(parts, TAB);
    JoinFree(parts, TAB, LF);
    JoinHead(parts, TAB);
    ParsePrint(row.number);
  }

  lemma {:induction false} WireLinesJoin(lines: seq<Text>)
    requires FreeOf(lines, LF) && forall k :: 0 <= k < |lines| ==> lines[k] != []
    ensures WireLines(JoinLines(lines)) == lines
  {
    var data := JoinLines(lines);
    if lines == [] {
      var none: seq<Text> := [[]];
      assert Split(data, LF) == none && Stripped(none) == [];
    } else {
      var head, tail := lines[0] + [CR], JoinLines(lines[1..]);
      assert data == head + [LF] + tail;
      IndexOfIs(data, LF, |head|);
      assert data[..|head|] == head && data[|head| + 1..] == tail;
      assert Split(data, LF)[1..] == Split(tail, LF);
      assert StripCR(head) == lines[0];
      WireLinesJoin(lines[1..]);
    }
  }

  lemma PrintedAccepted(rows: seq<Row>, k: nat, w: Window)
    requires Printable(rows, w) && k < |rows|
    ensures Accepted(PrintLines(rows), k, w) && RowOf(PrintLines(rows)[k]) == rows[k]
  {
    var lines := PrintLines(rows);
    PrintedLine(rows[k]);
    forall j | 0 <= j < k
      ensures Number(lines[j]) != Number(lines[k])
    {
      PrintedLine(rows[j]);
    }
  }

  lemma {:induction false} AllAccepted(rows: seq<Row>, k: nat, w: Window)
    requires Printable(rows, w) && k <= |rows|
    ensures RowsOf(PrintLines(rows), k, w) == rows[..k] && DefectsOf(PrintLines(rows), k, w) == []
  {
    hide Printable, Accepted, PrintLine;
    if k > 0 {
      AllAccepted(rows, k - 1, w);
      PrintedAccepted(rows, k - 1, w);
      assert rows[..k] == rows[..k - 1] + [rows[k - 1]];
    }
  }

  /** Overview round trip: well-formed rows come back exactly, with no defects. */
  lemma RowsRoundTrip(rows: seq<Row>, w: Window)
    requires Printable(rows, w)
    ensures Parsed(PrintRows(rows), w) == Rows(rows, [])
  {
    var lines := PrintLines(rows);
    forall k | 0 <= k < |lines|
      ensures LF !in lines[k] && lines[k] != []
    {
      PrintedLine(rows[k]);
    }
    WireLinesJoin(lines);
    AllAccepted(rows, |rows|, w);
    assert rows[..|rows|] == rows;
  }

  // ----- LIST OVERVIEW.FMT -----

  const MAX_FIELDS: nat := 64
  const MAX_DESCRIPTOR: nat := 256

  function RequiredFields(): (f: seq<Text>)
    ensures |f| == 5
  {
    [Ascii("Subject:"), Ascii("From:"), Ascii("Date:"), Ascii("Message-ID:"), Ascii("References:")]
  }

  predicate SameIgnoringCase(a: Text, b: Text) {
    ToLower(a) == ToLower(b)
  }

  predicate IsAscii(s: Text) {
    forall i :: 0 <= i < |s| ==> s[i] < 128
  }

  predicate ValidDescriptor(field: Text) {
    field != [] && |field| <= MAX_DESCRIPTOR && IsAscii(field)
  }

  /** The five required headers, then the two metadata fields under either pair of names, then anything short and ASCII. */
  predicate ValidFormat(fields: seq<Text>) {
    && 7 <= |fields| <= MAX_FIELDS
    && (forall i :: 0 <= i < 5 ==> SameIgnoringCase(fields[i], RequiredFields()[i]))
    && ((SameIgnoringCase(fields[5], Ascii(":bytes")) && SameIgnoringCase(fields[6], Ascii(":lines")))
        || (SameIgnoringCase(fields[5], Ascii("Bytes:")) && SameIgnoringCase(fields[6], Ascii("Lines:"))))
    && (forall i :: 0 <= i < |fields| ==> ValidDescriptor(fields[i]))
  }

  function ParsedFormat(data: Text): Result<Format> {
    if ValidFormat(WireLines(data)) then Ok(Format(WireLines(data))) else Err(Protocol)
  }

  /** `parse_overview_format`: accepts exactly the valid formats, and keeps every descriptor as sent. */
  method ParseFormat(data: Text) returns (r: Result<Format>)
    ensures r == ParsedFormat(data)
  {
    hide SameIgnoringCase, Ascii, IsAscii, RequiredFields, WireLines;
    var fields := WireLines(data);
    var required := RequiredFields();
    if |fields| < |required| + 2 || |fields| > MAX_FIELDS {
      return Err(Protocol);
    }
    var metadata :=
      (SameIgnoringCase(fields[5], Ascii(":bytes")) && SameIgnoringCase(fields[6], Ascii(":lines")))
      || (SameIgnoringCase(fields[5], Ascii("Bytes:")) && SameIgnoringCase(fields[6], Ascii("Lines:")));
    if !metadata {
      return Err(Protocol);
    }
    for i := 0 to |fields|
      invariant forall j :: 0 <= j < i ==> ValidDescriptor(fields[j])
      invariant forall j :: 0 <= j < i && j < 5 ==> SameIgnoringCase(fields[j], required[j])
    {
      if fields[i] == [] || |fields[i]| > MAX_DESCRIPTOR || !IsAscii(fields[i]) {
        return Err(Protocol);
      }
      if i < |required| && !SameIgnoringCase(fields[i], required[i]) {
        return Err(Protocol);
      }
    }
    r := Ok(Format(fields));
  }

  /** Equal but for the case of ASCII letters. */
  predicate SameButCase(a: Byte, b: Byte) {
    a == b || (65 <= a <= 90 && b == a + 32) || (65 <= b <= 90 && a == b + 32)
  }

  lemma SameIgnoringCaseExactly(a: Text, b: Text)
    ensures SameIgnoringCase(a, b) <==> |a| == |b| && forall i :: 0 <= i < |a| ==> SameButCase(a[i], b[i])
  {
    if |a| == |b| {
      assert forall i :: 0 <= i < |a| ==> (Lower(a[i]) == Lower(b[i]) <==> SameButCase(a[i], b[i]));
      assert forall i :: 0 <= i < |a| ==> ToLower(a)[i] == Lower(a[i]) && ToLower(b)[i] == Lower(b[i]);
    }
  }

  /** The headers every overview has, as the standard names them. */
  predicate StandardHead(head: seq<Text>) {
    head == [Ascii("Subject:"), Ascii("From:"), Ascii("Date:"), Ascii("Message-ID:"), Ascii("References:")]
  }

  /** The standard formats, under either pair of metadata names and with any short extra descriptors, are accepted. */
  lemma StandardFormats(head: seq<Text>, extra: seq<Text>)
    requires StandardHead(head) && |extra| <= 57
    requires forall k :: 0 <= k < |extra| ==> 1 <= |extra[k]| <= 256 && forall i :: 0 <= i < |extra[k]| ==> extra[k][i] < 128
    ensures ValidFormat(head + [Ascii(":bytes"), Ascii(":lines")] + extra)
    ensures ValidFormat(head + [Ascii("Bytes:"), Ascii("Lines:")] + extra)
    ensures !ValidFormat(head + [Ascii(":bytes"), Ascii("Lines:")] + extra)
    ensures !ValidFormat(head + [Ascii(":lines"), Ascii(":bytes")] + extra)
  {
    Standard(head, Ascii(":bytes"), Ascii(":lines"), extra);
    Standard(head, Ascii("Bytes:"), Ascii("Lines:"), extra);
    var mixed := head + [Ascii(":bytes"), Ascii("Lines:")] + extra;
    var swapped := head + [Ascii(":lines"), Ascii(":bytes")] + extra;
    assert mixed[5] == Ascii(":bytes") && mixed[6] == Ascii("Lines:");
    assert swapped[5] == Ascii(":lines") && swapped[6] == Ascii(":bytes");
    NameDiffers();
  }

  lemma NameDiffers()
    ensures !SameIgnoringCase(Ascii("Lines:"), Ascii(":lines")) && !SameIgnoringCase(Ascii(":bytes"), Ascii("Bytes:"))
    ensures !SameIgnoringCase(Ascii(":lines"), Ascii(":bytes")) && !SameIgnoringCase(Ascii(":lines"), Ascii("Bytes:"))
  {
    var upperLines, lines, bytes, upperBytes := Ascii("Lines:"), Ascii(":lines"), Ascii(":bytes"), Ascii("Bytes:");
    assert upperLines[0] == 76 && lines[0] == 58 && bytes[0] == 58 && upperBytes[0] == 66;
    assert lines[1] == 108 && bytes[1] == 98;
    hide SameIgnoringCase, Ascii;
    SameIgnoringCaseExactly(upperLines, lines);
    SameIgnoringCaseExactly(bytes, upperBytes);
    SameIgnoringCaseExactly(lines, bytes);
    SameIgnoringCaseExactly(lines, upperBytes);
  }

  lemma Standard(head: seq<Text>, bytes: Text, lines: Text, extra: seq<Text>)
    requires StandardHead(head)
    requires (bytes == Ascii(":bytes") && lines == Ascii(":lines")) || (bytes == Ascii("Bytes:") && lines == Ascii("Lines:"))
    requires |extra| <= 57
    requires forall k :: 0 <= k < |extra| ==> 1 <= |extra[k]| <= 256 && forall i :: 0 <= i < |extra[k]| ==> extra[k][i] < 128
    ensures ValidFormat(head + [bytes, lines] + extra)
  {
    var fields := head + [bytes, lines] + extra;
    forall k | 0 <= k < |fields|
      ensures ValidDescriptor(fields[k])
    {
      if k < 5 {
        assert fields[k] == head[k];
      } else if k >= 7 {
        assert fields[k] == extra[k - 7];
      }
    }
    assert forall k :: 0 <= k < 5 ==> fields[k] == head[k] == RequiredFields()[k];
    assert fields[5] == bytes && fields[6] == lines;
  }

  /** Too few or too many descriptors, or one that is empty, long or not ASCII, and the format is refused. */
  lemma FormatRefused(fields: seq<Text>, k: nat, i: nat)
    requires |fields| < 7 || |fields| > 64
          || (k < |fields| && (fields[k] == [] || |fields[k]| > 256 || (i < |fields[k]| && fields[k][i] >= 128)))
    ensures !ValidFormat(fields)
  {
    if 7 <= |fields| <= 64 {
      assert !ValidDescriptor(fields[k]);
    }
  }

  /** A valid format, printed one descriptor a line, is read back. */
  lemma FormatRoundTrip(fields: seq<Text>)
    requires ValidFormat(fields) && FreeOf(fields, LF)
    ensures ParsedFormat(JoinLines(fields)) == Ok(Format(fields))
  {
    WireLinesJoin(fields);
  }
}
