/** What the parser makes of a generated response, and of every strict prefix of one. */
module Nrtm3RoundTrip {
  import opened Journal
  import opened Store
  import opened Text
  import opened Nrtm3Parser
  import opened Nrtm3Generator

  /** Source names are word characters, in upper case. */
  predicate SourceOk(source: string) {
    source != "" && (forall c | c in source :: IsWordChar(c)) && Upper(source) == source
  }

  predicate VersionOk(version: string) {
    version == "1" || version == "3"
  }

  /** Object texts are lines that each end in a newline, none empty, none a `#` comment. */
  ghost predicate IsObjectText(text: string) {
    exists lines :: TextOfLines(text, lines)
  }

  ghost predicate TextOfLines(text: string, lines: seq<string>) {
    lines != [] && (forall l | l in lines :: PlainLine(l)) && text == Unlines(lines)
  }

  ghost function LinesOf(text: string): (lines: seq<string>)
    requires IsObjectText(text)
    ensures TextOfLines(text, lines)
  {
    var lines :| TextOfLines(text, lines);
    lines
  }

  ghost predicate TextsOk(rows: seq<JournalRow>) {
    forall i | 0 <= i < |rows| :: IsObjectText(rows[i].text)
  }

  // ---- the response as lines ----

  ghost function Chunk(row: JournalRow, version: string): (lines: seq<string>)
    requires IsObjectText(row.text)
  {
    [OperationLine(row, version), ""] + LinesOf(row.text) + [""]
  }

  ghost function Body(rows: seq<JournalRow>, version: string, source: string): (lines: seq<string>)
    requires TextsOk(rows)
    ensures lines != []
  {
    if rows == [] then ["%END " + source] else Chunk(rows[0], version) + Body(rows[1..], version, source)
  }

  lemma PieceIsChunk(row: JournalRow, version: string)
    requires IsObjectText(row.text)
    ensures Piece(row, version) == Join(Chunk(row, version), '\n')
  {
    var head, lines := OperationLine(row, version), LinesOf(row.text);
    UnlinesIsJoin(lines);
    assert Chunk(row, version) == [head] + ([""] + (lines + [""]));
    assert ([""] + (lines + [""]))[1..] == lines + [""];
    assert Join([""] + (lines + [""]), '\n') == "" + ['\n'] + Unlines(lines);
    JoinAppend([head], [""] + (lines + [""]), '\n');
    assert head + ['\n'] + ("" + ['\n'] + Unlines(lines)) == head + "\n\n" + Unlines(lines);
  }

  lemma {:induction false} BodyIsPieces(rows: seq<JournalRow>, version: string, source: string)
    requires TextsOk(rows)
    ensures Join(Pieces(rows, version) + ["%END " + source], '\n') == Join(Body(rows, version, source), '\n')
  {
    var end := ["%END " + source];
    if rows == [] {
      assert Pieces(rows, version) + end == end;
    } else {
      var rest := Pieces(rows[1..], version) + end;
      assert Pieces(rows, version) + end == [Piece(rows[0], version)] + rest;
      JoinAppend([Piece(rows[0], version)], rest, '\n');
      BodyIsPieces(rows[1..], version, source);
      PieceIsChunk(rows[0], version);
      JoinAppend(Chunk(rows[0], version), Body(rows[1..], version, source), '\n');
    }
  }

  /** The START line without its newline. */
  function Head(start: Start): (line: string)
    ensures StartLine(start) == line + "\n"
  {
    var line := StartLine(start);
    assert line[|line| - 1] == '\n' by { StartLineEnds(start); }
    line[..|line| - 1]
  }

  lemma StartLineEnds(start: Start)
    ensures StartLine(start)[|StartLine(start)| - 1] == '\n'
  {
    var last := Decimal(start.lastSerial) + "\n";
    assert last[|last| - 1] == '\n';
    var fields := Fields(start);
    assert fields[|fields| - |last|..] == last;
  }

  ghost function Lines(start: Start, rows: seq<JournalRow>): seq<string>
    requires TextsOk(rows)
  {
    [Head(start), ""] + Body(rows, start.version, start.source)
  }

  lemma ResponseIsLines(start: Start, rows: seq<JournalRow>)
    requires TextsOk(rows)
    ensures ResponseText(start.source, start.version, start.firstSerial, start.lastSerial, rows)
         == Join(Lines(start, rows), '\n')
  {
    var head, body := StartLine(start), Body(rows, start.version, start.source);
    var rest := Pieces(rows, start.version) + ["%END " + start.source];
    assert [head] + Pieces(rows, start.version) + ["%END " + start.source] == [head] + rest;
    JoinAppend([head], rest, '\n');
    BodyIsPieces(rows, start.version, start.source);
    JoinAppend([Head(start), ""], body, '\n');
    assert [Head(start), ""][1..] == [""];
    assert Join([Head(start), ""], '\n') == Head(start) + ['\n'] + "";
  }

  // ---- every line of it is plain ----

  predicate Printable(s: string) {
    s != "" && (forall c | c in s :: c != '\n' && c != '\r') && s[0] != '#'
  }

  lemma PrintableIsPlain(s: string)
    requires Printable(s)
    ensures PlainLine(s)
  {
    assert s[0] in s && s[|s| - 1] in s;
  }

  lemma OperationLineIsPrintable(row: JournalRow, version: string)
    ensures Printable(OperationLine(row, version))
    ensures OperationLine(row, version)[0] in "AD" && IsOperation(OperationLine(row, version))
  {
    var number := Decimal(row.serial);
    assert forall c | c in number :: c != '\n' && c != '\r';
    var line := OperationLine(row, version);
    if version == "3" {
      assert line == OperationName(row.op) + (" " + number);
    } else {
      assert line == OperationName(row.op);
    }
  }

  lemma EndLineIsPrintable(source: string)
    requires SourceOk(source)
    ensures Printable("%END " + source)
  {
  }

  predicate NoBreaks(s: string) {
    forall c | c in s :: c != '\n' && c != '\r'
  }

  lemma ConcatNoBreaks(a: string, b: string)
    requires NoBreaks(a) && NoBreaks(b)
    ensures NoBreaks(a + b)
  {
  }

  lemma FieldsHaveNoBreaks(start: Start) returns (fields: string)
    requires SourceOk(start.source) && VersionOk(start.version)
    ensures Fields(start) == fields + "\n" && NoBreaks(fields)
  {
    var a, b := Decimal(start.firstSerial), Decimal(start.lastSerial);
    assert NoBreaks(a) && NoBreaks(b);
    ConcatNoBreaks("-", b);
    ConcatNoBreaks(a, "-" + b);
    ConcatNoBreaks(" ", a + ("-" + b));
    var tail := " " + (a + ("-" + b));
    ConcatNoBreaks(start.source, tail);
    ConcatNoBreaks(" ", start.source + tail);
    ConcatNoBreaks(start.version, " " + (start.source + tail));
    fields := start.version + (" " + (start.source + tail));
    FieldsEnd(start, a, b, tail);
  }

  lemma FieldsEnd(start: Start, a: string, b: string, tail: string)
    requires a == Decimal(start.firstSerial) && b == Decimal(start.lastSerial) && tail == " " + (a + ("-" + b))
    ensures Fields(start) == (start.version + (" " + (start.source + tail))) + "\n"
  {
    assert "-" + (b + "\n") == ("-" + b) + "\n";
    assert a + (("-" + b) + "\n") == (a + ("-" + b)) + "\n";
    assert " " + ((a + ("-" + b)) + "\n") == tail + "\n";
    assert start.source + (tail + "\n") == (start.source + tail) + "\n";
    assert " " + ((start.source + tail) + "\n") == (" " + (start.source + tail)) + "\n";
  }

  lemma HeadIsPrintable(start: Start)
    requires SourceOk(start.source) && VersionOk(start.version)
    ensures Printable(Head(start)) && Head(start)[0] == '%'
  {
    var fields := FieldsHaveNoBreaks(start);
    ConcatNoBreaks(" ", fields);
    ConcatNoBreaks("Version:", " " + fields);
    ConcatNoBreaks(" ", "Version:" + (" " + fields));
    var rest := " " + ("Version:" + (" " + fields));
    ConcatNoBreaks("START", rest);
    ConcatNoBreaks("%", "START" + rest);
    HeadIs(start, fields);
  }

  lemma HeadIs(start: Start, fields: string)
    requires Fields(start) == fields + "\n"
    ensures Head(start) == "%" + ("START" + (" " + ("Version:" + (" " + fields))))
  {
    assert " " + (fields + "\n") == (" " + fields) + "\n";
    assert "Version:" + ((" " + fields) + "\n") == ("Version:" + (" " + fields)) + "\n";
    var rest := "Version:" + (" " + fields);
    assert " " + (rest + "\n") == (" " + rest) + "\n";
    assert "START" + ((" " + rest) + "\n") == ("START" + (" " + rest)) + "\n";
    assert StartLine(start) == ("%" + ("START" + (" " + rest))) + "\n";
  }

  // ---- reading the lines back ----

  /** A line that ends in neither newline nor carriage return, or an empty one. */
  predicate LineOk(line: string) {
    line == "" || PlainLine(line)
  }

  lemma {:induction false} BodyLinesOk(rows: seq<JournalRow>, version: string, source: string)
    requires TextsOk(rows) && SourceOk(source)
    ensures forall l | l in Body(rows, version, source) :: LineOk(l)
  {
    if rows == [] {
      EndLineIsPrintable(source);
      PrintableIsPlain("%END " + source);
    } else {
      OperationLineIsPrintable(rows[0], version);
      PrintableIsPlain(OperationLine(rows[0], version));
      BodyLinesOk(rows[1..], version, source);
    }
  }

  lemma LinesOk(start: Start, rows: seq<JournalRow>)
    requires TextsOk(rows) && SourceOk(start.source) && VersionOk(start.version)
    ensures forall l | l in Lines(start, rows) :: LineOk(l)
  {
    HeadIsPrintable(start);
    PrintableIsPlain(Head(start));
    BodyLinesOk(rows, start.version, start.source);
  }

  lemma LinesFit(lines: seq<string>)
    requires forall l | l in lines :: LineOk(l)
    ensures forall l | l in lines :: FitLine(l)
  {
  }

  // ---- one operation ----

  /** The serials of the rows, as the parser checks them: not lower than expected, and exactly as expected in version 1. */
  predicate Follows(next: int, version: string, rows: seq<JournalRow>)
    decreases |rows|
  {
    rows != [] ==>
      && (if version == "3" then rows[0].serial >= next else rows[0].serial == next)
      && Follows(rows[0].serial + 1, version, rows[1..])
  }

  function Operations(rows: seq<JournalRow>): seq<NrtmOperation> {
    if rows == [] then [] else [NrtmOperation(rows[0].op, rows[0].serial, rows[0].text)] + Operations(rows[1..])
  }

  lemma StripNewline(s: string)
    requires s != "" && s[0] !in WHITESPACE && s[|s| - 1] !in WHITESPACE
    ensures Strip(s + "\n", WHITESPACE) == s
  {
    var t := s + "\n";
    assert t[0] == s[0] && StripStart(t, WHITESPACE) == t;
    assert t[..|t| - 1] == s;
    assert StripEnd(s, WHITESPACE) == s;
  }

  lemma DigitsHaveNoSign(s: string)
    requires s != "" && forall c | c in s :: IsDigit(c)
    ensures ParseSigned(s) == Some(ValueOf(s))
  {
    assert s[0] in s;
  }

  lemma DecimalWithNewline(n: nat)
    ensures ParseInt(Decimal(n) + "\n") == Some(n)
  {
    var s := Decimal(n);
    assert s[0] in s && s[|s| - 1] in s;
    StripNewline(s);
    ValueOfDecimal(n);
    DigitsHaveNoSign(s);
  }

  lemma NameIsPlain(op: Operation)
    ensures ' ' !in OperationName(op) && ParseOperation(OperationName(op)) == Some(op)
    ensures StripNewlineOk(OperationName(op))
  {
  }

  predicate StripNewlineOk(s: string) {
    s != "" && s[0] !in WHITESPACE && s[|s| - 1] !in WHITESPACE
  }

  lemma OperationReadsBack(st: Stream, row: JournalRow, version: string)
    requires VersionOk(version)
    requires if version == "3" then row.serial >= ExpectedSerial(st) else row.serial == ExpectedSerial(st)
    ensures ReadOperation(st, OperationLine(row, version) + "\n") == Some((row.op, row.serial))
  {
    var name := OperationName(row.op);
    NameIsPlain(row.op);
    var paragraph := OperationLine(row, version) + "\n";
    if version == "3" {
      var number := Decimal(row.serial) + "\n";
      assert paragraph == name + [' '] + number;
      assert ' ' in paragraph by {
        assert paragraph[|name|] == ' ';
      }
      SplitAtSeparator(name, number, ' ');
      SplitOfWhole(name, ' ');
      SplitOfWhole(number, ' ');
      DecimalWithNewline(row.serial);
    } else {
      assert paragraph == name + "\n";
      StripNewline(name);
    }
  }

  /** A paragraph whose second character says so is not a START line. */
  lemma NoStartLine(p: string)
    requires |p| >= 1 && (p[0] != '%' || (|p| >= 2 && p[1] !in [' ', 'S']))
    ensures ParseStart(p) == None
  {
    if p[0] == '%' {
      var rest := p[1..];
      assert rest[0] == p[1];
      assert SkipSpaces(rest) == rest;
    }
  }

  lemma ConsumeOperation(st: Stream, source: string, p: string, rest: seq<string>)
    requires |p| >= 1 && p[0] in "AD"
    ensures Consume(st, source, [p] + rest)
         == if !IsOperation(p) then Consume(st, source, rest)
            else if rest == [] then None
            else if AddOperation(st, p, rest[0]) == None then None
            else Consume(AddOperation(st, p, rest[0]).value, source, rest[1..])
  {
    NoStartLine(p);
    assert ([p] + rest)[1..] == rest;
    assert !IsComment(p);
  }

  // ---- the round trip ----

  lemma ChunkParagraphs(row: JournalRow, version: string, rest: seq<string>)
    requires IsObjectText(row.text)
    ensures Paragraphs(Chunk(row, version) + rest, "", false)
         == [OperationLine(row, version) + "\n", row.text] + Paragraphs(rest, "", false)
  {
    var line, lines := OperationLine(row, version), LinesOf(row.text);
    OperationLineIsPrintable(row, version);
    PrintableIsPlain(line);
    assert Chunk(row, version) + rest == [line] + ([""] + (lines + ([""] + rest)));
    ParagraphOfLines([line], lines + ([""] + rest));
    ParagraphOfLines(lines, rest);
    assert [line][1..] == [];
    assert Unlines([line]) == line + "\n";
  }

  function ConsumeFrom(st: Option<Stream>, source: string, lines: seq<string>): Option<Stream> {
    if st == None then None else Consume(st.value, source, Paragraphs(lines, "", false))
  }

  lemma ConsumeChunk(st: Stream, source: string, row: JournalRow, version: string, rest: seq<string>)
    requires IsObjectText(row.text)
    ensures Consume(st, source, Paragraphs(Chunk(row, version) + rest, "", false))
         == ConsumeFrom(AddOperation(st, OperationLine(row, version) + "\n", row.text), source, rest)
  {
    var p := OperationLine(row, version) + "\n";
    OperationLineIsPrintable(row, version);
    ChunkParagraphs(row, version, rest);
    var more := [row.text] + Paragraphs(rest, "", false);
    assert [p, row.text] + Paragraphs(rest, "", false) == [p] + more;
    assert more[1..] == Paragraphs(rest, "", false);
    assert p[0] == OperationLine(row, version)[0];
    ConsumeOperation(st, source, p, more);
  }

  /** The stream after all rows and the END line. */
  function AfterRows(st: Stream, source: string, rows: seq<JournalRow>): Stream {
    st.(operations := st.operations + Operations(rows), lastCommentSeen := "%END " + source + "\n",
        currentOpSerial := if rows == [] then st.currentOpSerial else rows[|rows| - 1].serial)
  }

  lemma EndParagraphs(source: string)
    requires SourceOk(source)
    ensures Paragraphs(["%END " + source], "", false) == ["%END " + source + "\n"]
  {
    var end := "%END " + source;
    EndLineIsPrintable(source);
    PrintableIsPlain(end);
    EndIsNotBlank(source);
    OneLine(end);
  }

  lemma OneLine(line: string)
    requires PlainLine(line)
    ensures Paragraphs([line], "", false) == if IsBlank(line + "\n") then [] else [line + "\n"]
  {
    FirstPlainLine([line], "");
    assert [line][1..] == [];
    assert Extended("", line) == line + "\n";
  }

  lemma ConsumeComment(st: Stream, source: string, p: string)
    requires |p| >= 2 && p[0] == '%' && p[1] !in [' ', 'S']
    ensures Consume(st, source, [p]) == Some(st.(lastCommentSeen := p))
  {
    NoStartLine(p);
    assert [p][1..] == [];
  }

  lemma ConsumeEnd(st: Stream, source: string)
    requires SourceOk(source)
    ensures Consume(st, source, Paragraphs(["%END " + source], "", false)) == Some(AfterRows(st, source, []))
  {
    EndParagraphs(source);
    ConsumeComment(st, source, "%END " + source + "\n");
    assert st.operations + [] == st.operations;
  }

  lemma EndIsNotBlank(source: string)
    requires SourceOk(source)
    ensures Strip("%END " + source + "\n", WHITESPACE) == "%END " + source
  {
    var end := "%END " + source;
    assert end[|end| - 1] == source[|source| - 1];
    assert source[|source| - 1] in source;
    StripNewline(end);
  }

  lemma {:induction false} ConsumeBody(st: Stream, source: string, version: string, rows: seq<JournalRow>)
    requires TextsOk(rows) && SourceOk(source) && VersionOk(version) && st.nrtmSource.Some?
    requires Follows(ExpectedSerial(st), version, rows)
    ensures Consume(st, source, Paragraphs(Body(rows, version, source), "", false)) == Some(AfterRows(st, source, rows))
    decreases |rows|
  {
    if rows == [] {
      ConsumeEnd(st, source);
    } else {
      var next := NextStream(st, rows[0], version);
      var rest := rows[1..];
      ConsumeChunk(st, source, rows[0], version, Body(rest, version, source));
      ConsumeBody(next, source, version, rest);
      AfterOneMore(st, next, source, rows);
    }
  }

  lemma NextStream(st: Stream, row: JournalRow, version: string) returns (next: Stream)
    requires VersionOk(version) && st.nrtmSource.Some?
    requires if version == "3" then row.serial >= ExpectedSerial(st) else row.serial == ExpectedSerial(st)
    ensures next == st.(currentOpSerial := row.serial, operations := st.operations + [NrtmOperation(row.op, row.serial, row.text)])
    ensures AddOperation(st, OperationLine(row, version) + "\n", row.text) == Some(next)
    ensures ExpectedSerial(next) == row.serial + 1
  {
    OperationReadsBack(st, row, version);
    next := st.(currentOpSerial := row.serial, operations := st.operations + [NrtmOperation(row.op, row.serial, row.text)]);
  }

  lemma AfterOneMore(st: Stream, next: Stream, source: string, rows: seq<JournalRow>)
    requires rows != []
    requires next == st.(currentOpSerial := rows[0].serial,
                         operations := st.operations + [NrtmOperation(rows[0].op, rows[0].serial, rows[0].text)])
    ensures AfterRows(next, source, rows[1..]) == AfterRows(st, source, rows)
  {
    var first := NrtmOperation(rows[0].op, rows[0].serial, rows[0].text);
    Associative(st.operations, [first], Operations(rows[1..]));
  }

  // ---- the whole response ----

  function Started(start: Start): Stream {
    EMPTY_STREAM.(version := start.version, nrtmSource := Some(start.source),
                  firstSerial := start.firstSerial, lastSerial := start.lastSerial)
  }

  lemma ConsumeStart(start: Start, body: seq<string>)
    requires SourceOk(start.source) && VersionOk(start.version)
    ensures Consume(EMPTY_STREAM, start.source, Paragraphs([Head(start), ""] + body, "", false))
         == Consume(Started(start), start.source, Paragraphs(body, "", false))
  {
    var head := Head(start);
    HeadIsPrintable(start);
    PrintableIsPlain(head);
    ParagraphOfLines([head], body);
    assert [head] + ([""] + body) == [head, ""] + body;
    UnlinesOfOne(head);
    StartLineParses(start);
    var rest := Paragraphs(body, "", false);
    assert ([StartLine(start)] + rest)[1..] == rest;
  }

  function Newlines(n: nat): string {
    if n == 0 then "" else Newlines(n - 1) + "\n"
  }

  lemma TrailingNewlines(text: string, n: nat)
    requires text != "" && Stripped(text, {'\n'})
    ensures SplitLines(text + Newlines(n)) == SplitLines(text)
  {
    StripOfStripped(text, {'\n'});
    var whole := text + Newlines(n);
    assert whole[0] == text[0] && StripStart(whole, {'\n'}) == whole;
    EndNewlines(text, n);
  }

  lemma {:induction false} EndNewlines(text: string, n: nat)
    requires text != "" && text[|text| - 1] != '\n'
    ensures StripEnd(text + Newlines(n), {'\n'}) == text
  {
    var whole := text + Newlines(n);
    if n == 0 {
      assert whole == text;
    } else {
      assert whole[..|whole| - 1] == text + Newlines(n - 1);
      EndNewlines(text, n - 1);
    }
  }

  /** A response, with any number of newlines behind it, reads back as its operations with their serials.
      In version 1 it is rejected if the journal has gone on past the serial in the START line. */
  lemma RoundTrip(start: Start, rows: seq<JournalRow>, n: nat)
    requires SourceOk(start.source) && VersionOk(start.version) && TextsOk(rows)
    requires Follows(start.firstSerial, start.version, rows)
    ensures ParseStream(start.source, ResponseText(start.source, start.version, start.firstSerial, start.lastSerial, rows) + Newlines(n))
         == if start.version == "1" && rows != [] && rows[|rows| - 1].serial > start.lastSerial then Rejected
            else Parsed(Operations(rows), if start.lastSerial > 0 then Some(start.lastSerial) else None)
  {
    ResponseSplits(start, rows, n);
    ConsumeStart(start, Body(rows, start.version, start.source));
    ConsumeBody(Started(start), start.source, start.version, rows);
    FinishAfterRows(start, rows);
  }

  lemma ResponseSplits(start: Start, rows: seq<JournalRow>, n: nat)
    requires SourceOk(start.source) && VersionOk(start.version) && TextsOk(rows)
    ensures SplitLines(ResponseText(start.source, start.version, start.firstSerial, start.lastSerial, rows) + Newlines(n))
         == Lines(start, rows)
  {
    var lines := Lines(start, rows);
    ResponseIsLines(start, rows);
    LinesOk(start, rows);
    HeadIsPrintable(start);
    LastLineIsEnd(rows, start.version, start.source);
    LinesFit(lines);
    SplitLinesOfJoin(lines);
    ResponseEnds(start, rows);
    TrailingNewlines(Join(lines, '\n'), n);
  }

  lemma ResponseEnds(start: Start, rows: seq<JournalRow>)
    requires SourceOk(start.source) && VersionOk(start.version) && TextsOk(rows)
    ensures var text := Join(Lines(start, rows), '\n'); text != "" && text[0] == '%' && text[|text| - 1] != '\n'
  {
    LinesOk(start, rows);
    HeadIsPrintable(start);
    LastLineIsEnd(rows, start.version, start.source);
    LinesFit(Lines(start, rows));
    JoinEnds(Lines(start, rows));
  }

  lemma {:induction false} LastLineIsEnd(rows: seq<JournalRow>, version: string, source: string)
    requires TextsOk(rows)
    ensures var body := Body(rows, version, source); body[|body| - 1] == "%END " + source
  {
    if rows != [] {
      LastLineIsEnd(rows[1..], version, source);
    }
  }

  lemma FinishAfterRows(start: Start, rows: seq<JournalRow>)
    requires SourceOk(start.source) && VersionOk(start.version)
    ensures Finish(AfterRows(Started(start), start.source, rows), start.source)
         == if start.version == "1" && rows != [] && rows[|rows| - 1].serial > start.lastSerial then Rejected
            else Parsed(Operations(rows), if start.lastSerial > 0 then Some(start.lastSerial) else None)
  {
    var st := AfterRows(Started(start), start.source, rows);
    UpperOfEnd(start.source);
    EndIsNotBlank(start.source);
    assert Ended(st, start.source);
    assert [] + Operations(rows) == Operations(rows);
  }

  lemma UpperOfEnd(source: string)
    requires SourceOk(source)
    ensures Upper("%END " + source + "\n") == "%END " + source + "\n"
  {
    var end := "%END " + source + "\n";
    forall i | 0 <= i < |end|
      ensures UpperChar(end[i]) == end[i]
    {
      if 5 <= i < |end| - 1 {
        assert end[i] == source[i - 5] && Upper(source)[i - 5] == source[i - 5];
      }
    }
  }

  /** A row list read from a journal with increasing serials is accepted in version 3, and in version 1
      when it also has no gaps and starts at the requested serial. */
  lemma {:induction false} IncreasingFollows(next: int, rows: seq<JournalRow>)
    requires forall i, j :: 0 <= i < j < |rows| ==> rows[i].serial < rows[j].serial
    requires rows != [] ==> rows[0].serial >= next
    ensures Follows(next, "3", rows)
    decreases |rows|
  {
    if rows != [] {
      IncreasingFollows(rows[0].serial + 1, rows[1..]);
    }
  }

  lemma {:induction false} GaplessFollows(next: int, rows: seq<JournalRow>)
    requires forall i | 0 <= i < |rows| :: rows[i].serial == next + i
    ensures Follows(next, "1", rows)
    decreases |rows|
  {
    if rows != [] {
      GaplessFollows(next + 1, rows[1..]);
    }
  }

  // ---- truncated responses ----

  /** Nothing has been taken from the stream: it was rejected, or nothing in it was applied. */
  predicate NothingTaken(outcome: Outcome) {
    outcome == Rejected || outcome == Parsed([], None)
  }

  /** The stream was rejected, or has begun and not ended. */
  predicate Unfinished(st: Option<Stream>, source: string) {
    st.Some? ==> st.value.nrtmSource.Some? && !Ended(st.value, source)
  }

  lemma OperationKeepsUnfinished(st: Stream, source: string, p: string, text: string)
    requires Unfinished(Some(st), source)
    ensures Unfinished(AddOperation(st, p, text), source)
  {
  }

  /** An operation line and at most one paragraph behind it leave the stream unfinished. */
  lemma CutOperation(st: Stream, source: string, p: string, texts: seq<string>)
    requires Unfinished(Some(st), source) && p != "" && p[0] in "AD"
    requires |texts| <= 1 && (texts != [] ==> IsOperation(p))
    ensures Unfinished(Consume(st, source, [p] + texts), source)
  {
    ConsumeOperation(st, source, p, texts);
    if texts != [] {
      OperationKeepsUnfinished(st, source, p, texts[0]);
      assert texts[1..] == [];
    }
  }

  /** Plain lines, the last of them perhaps cut down to nothing, are at most one paragraph. */
  lemma CutLines(lines: seq<string>, last: string)
    requires (forall l | l in lines :: PlainLine(l)) && LineOk(last)
    ensures |Paragraphs(lines + [last], "", false)| <= 1
  {
    if last == "" {
      if lines != [] {
        ParagraphOfLines(lines, []);
        assert lines + ([""] + []) == lines + [last];
      } else {
        assert lines + [last] == [""];
        FirstEmptyLine([""], "");
        assert [""][1..] == [];
      }
    } else {
      LastParagraph(lines + [last]);
    }
  }

  lemma PrefixIsOk(line: string, cut: string)
    requires LineOk(line) && cut <= line && Stripped(cut, {'\r'})
    ensures LineOk(cut)
  {
    if cut != "" {
      assert cut[0] == line[0];
      assert forall c | c in cut :: c in line;
    }
  }

  /** A response cut inside the lines of an operation. */
  lemma CutChunk(st: Stream, source: string, row: JournalRow, version: string, m: nat, cut: string)
    requires IsObjectText(row.text) && Unfinished(Some(st), source)
    requires m < |Chunk(row, version)| && cut <= Chunk(row, version)[m] && Stripped(cut, {'\r'})
    ensures Unfinished(Consume(st, source, Paragraphs(Chunk(row, version)[..m] + [cut], "", false)), source)
  {
    var line, lines := OperationLine(row, version), LinesOf(row.text);
    var chunk := Chunk(row, version);
    OperationLineIsPrintable(row, version);
    PrintableIsPlain(line);
    assert chunk == [line, ""] + (lines + [""]);
    if m == 0 {
      CutFirstLine(st, source, line, cut);
      assert chunk[..0] + [cut] == [cut];
    } else if m == 1 {
      assert chunk[..1] + [cut] == [line] + ([""] + []);
      CutText(st, source, line, []);
    } else {
      var texts := lines[..m - 2] + [cut];
      assert chunk[..m] + [cut] == [line] + ([""] + texts);
      PrefixIsOk((lines + [""])[m - 2], cut);
      CutLines(lines[..m - 2], cut);
      CutText(st, source, line, texts);
    }
  }

  lemma CutText(st: Stream, source: string, line: string, texts: seq<string>)
    requires Unfinished(Some(st), source) && PlainLine(line) && line[0] in "AD" && IsOperation(line)
    requires |Paragraphs(texts, "", false)| <= 1
    ensures Unfinished(Consume(st, source, Paragraphs([line] + ([""] + texts), "", false)), source)
  {
    ParagraphOfLines([line], texts);
    UnlinesOfOne(line);
    CutOperation(st, source, line + "\n", Paragraphs(texts, "", false));
  }

  lemma CutFirstLine(st: Stream, source: string, line: string, cut: string)
    requires Unfinished(Some(st), source) && PlainLine(line) && line[0] in "AD" && cut <= line && Stripped(cut, {'\r'})
    ensures Unfinished(Consume(st, source, Paragraphs([cut], "", false)), source)
  {
    PrefixIsOk(line, cut);
    if cut == "" {
      FirstEmptyLine([""], "");
      assert [""][1..] == [];
    } else {
      OneLine(cut);
      assert (cut + "\n")[0] == line[0];
      CutOperation(st, source, cut + "\n", []);
      assert [cut + "\n"] + [] == [cut + "\n"];
    }
  }

  lemma StripDropsLast<T>(s: seq<T>, c: T, chars: set<T>)
    requires c in chars
    ensures |Strip(s + [c], chars)| <= |s|
  {
    StripIsPart(s + [c], chars);
    assert (s + [c])[|s|] == c;
  }

  /** A response cut inside the END line. */
  lemma CutEnd(st: Stream, source: string, cut: string)
    requires Unfinished(Some(st), source) && SourceOk(source) && cut < "%END " + source && Stripped(cut, {'\r'})
    ensures Unfinished(Consume(st, source, Paragraphs([cut], "", false)), source)
  {
    EndLineIsPrintable(source);
    PrintableIsPlain("%END " + source);
    PrefixIsOk("%END " + source, cut);
    if cut == "" {
      FirstEmptyLine([""], "");
      assert [""][1..] == [];
    } else {
      OneLine(cut);
      if !IsBlank(cut + "\n") {
        CommentOfCutEnd(st, source, cut);
      }
    }
  }

  lemma CommentOfCutEnd(st: Stream, source: string, cut: string)
    requires Unfinished(Some(st), source) && cut != "" && cut < "%END " + source
    ensures Unfinished(Consume(st, source, [cut + "\n"]), source)
  {
    var p := cut + "\n";
    assert p[0] == '%' && p[1] == if |cut| == 1 then '\n' else 'E';
    ConsumeComment(st, source, p);
    UpperOfLine(cut);
    StripDropsLast(Upper(cut), '\n', WHITESPACE);
  }

  lemma UpperOfLine(s: string)
    ensures Upper(s + "\n") == Upper(s) + "\n"
  {
  }

  ghost predicate IsCut(lines: seq<string>, m: nat, cut: string) {
    m < |lines| && cut <= lines[m] && Stripped(cut, {'\r'}) && (m == |lines| - 1 ==> cut < lines[m])
  }

  ghost predicate UnfinishedAfter(st: Option<Stream>, source: string, lines: seq<string>) {
    Unfinished(ConsumeFrom(st, source, lines), source)
  }

  lemma CutBehindChunk(st: Stream, source: string, row: JournalRow, version: string, rest: seq<string>)
    requires IsObjectText(row.text) && Unfinished(Some(st), source)
    requires UnfinishedAfter(AddOperation(st, OperationLine(row, version) + "\n", row.text), source, rest)
    ensures UnfinishedAfter(Some(st), source, Chunk(row, version) + rest)
  {
    ConsumeChunk(st, source, row, version, rest);
  }

  lemma CutAcross(chunk: seq<string>, rest: seq<string>, m: nat, cut: string)
    requires IsCut(chunk + rest, m, cut) && rest != []
    ensures m < |chunk| ==> (chunk + rest)[..m] + [cut] == chunk[..m] + [cut]
    ensures m >= |chunk| ==> IsCut(rest, m - |chunk|, cut)
                             && (chunk + rest)[..m] + [cut] == chunk + (rest[..m - |chunk|] + [cut])
  {
  }

  lemma {:induction false} CutBody(st: Stream, source: string, version: string, rows: seq<JournalRow>, m: nat, cut: string)
    requires TextsOk(rows) && SourceOk(source) && Unfinished(Some(st), source)
    requires IsCut(Body(rows, version, source), m, cut)
    ensures UnfinishedAfter(Some(st), source, Body(rows, version, source)[..m] + [cut])
    decreases |rows|
  {
    var body := Body(rows, version, source);
    if rows == [] {
      assert body[..0] + [cut] == [cut];
      CutEnd(st, source, cut);
    } else {
      var chunk, rest := Chunk(rows[0], version), Body(rows[1..], version, source);
      CutAcross(chunk, rest, m, cut);
      if m < |chunk| {
        CutChunk(st, source, rows[0], version, m, cut);
      } else {
        var next := AddOperation(st, OperationLine(rows[0], version) + "\n", rows[0].text);
        OperationKeepsUnfinished(st, source, OperationLine(rows[0], version) + "\n", rows[0].text);
        if next.Some? {
          CutBody(next.value, source, version, rows[1..], m - |chunk|, cut);
        }
        CutBehindChunk(st, source, rows[0], version, rest[..m - |chunk|] + [cut]);
      }
    }
  }

  lemma StartedIsUnfinished(start: Start)
    ensures Unfinished(Some(Started(start)), start.source)
  {
    NeverEndedAtStart(start.source);
  }

  /** A response cut inside the START line. */
  lemma CutStart(start: Start, cut: string)
    requires SourceOk(start.source) && VersionOk(start.version) && cut <= Head(start) && Stripped(cut, {'\r'})
    ensures NothingTaken(FinishLines([cut], start.source))
  {
    HeadIsPrintable(start);
    PrintableIsPlain(Head(start));
    PrefixIsOk(Head(start), cut);
    if cut == "" {
      FirstEmptyLine([""], "");
      assert [""][1..] == [];
      NoParagraphs(start.source);
    } else {
      OneLine(cut);
      NoParagraphs(start.source);
      CommentOrStart(start.source, cut + "\n");
    }
  }

  lemma NoParagraphs(source: string)
    ensures NothingTaken(Finish(EMPTY_STREAM, source))
  {
  }

  /** A response cut right behind the START line. */
  lemma CutAfterStart(start: Start)
    requires SourceOk(start.source) && VersionOk(start.version)
    ensures NothingTaken(FinishLines([Head(start), ""], start.source))
  {
    HeadIsPrintable(start);
    PrintableIsPlain(Head(start));
    LineAndEmptyLine(Head(start));
    CommentOrStart(start.source, Head(start) + "\n");
  }

  lemma LineAndEmptyLine(line: string)
    requires PlainLine(line)
    ensures Paragraphs([line, ""], "", false) == [line + "\n"]
  {
    FirstPlainLine([line, ""], "");
    assert [line, ""][1..] == [""] && [""][1..] == [];
    assert Extended("", line) == line + "\n";
    FirstEmptyLine([""], line + "\n");
  }

  function FinishLines(lines: seq<string>, source: string): Outcome {
    var st := Consume(EMPTY_STREAM, source, Paragraphs(lines, "", false));
    if st == None then Rejected else Finish(st.value, source)
  }

  /** Alone, a line that starts with a percent sign begins a stream or is a comment. */
  lemma ConsumePercent(source: string, p: string)
    requires p != "" && p[0] == '%'
    ensures Consume(EMPTY_STREAM, source, [p])
         == if ParseStart(p).Some? then StartStream(EMPTY_STREAM, source, ParseStart(p).value)
            else Some(EMPTY_STREAM.(lastCommentSeen := p))
  {
    assert [p][1..] == [];
    assert IsComment(p);
  }

  lemma CommentOrStart(source: string, p: string)
    requires p != "" && p[0] == '%'
    ensures Consume(EMPTY_STREAM, source, [p]).Some?
            ==> NothingTaken(Finish(Consume(EMPTY_STREAM, source, [p]).value, source))
  {
    ConsumePercent(source, p);
    NeverEndedAtStart(source);
  }

  lemma NeverEndedAtStart(source: string)
    ensures !Ended(EMPTY_STREAM, source)
  {
    assert |Strip(Upper(""), WHITESPACE)| == 0;
  }

  /** Every strict prefix of a response is rejected, or nothing of it is applied and no serial recorded. */
  lemma Truncation(start: Start, rows: seq<JournalRow>, text: string)
    requires SourceOk(start.source) && VersionOk(start.version) && TextsOk(rows)
    requires text < ResponseText(start.source, start.version, start.firstSerial, start.lastSerial, rows)
    ensures NothingTaken(ParseStream(start.source, text))
  {
    if text != "" {
      var lines := Lines(start, rows);
      ResponseIsLines(start, rows);
      ResponseEnds(start, rows);
      var m, cut := LinesOfCut(start, rows, text);
      CutLinesTaken(start, rows, m, cut);
    }
  }

  lemma CutLinesTaken(start: Start, rows: seq<JournalRow>, m: nat, cut: string)
    requires SourceOk(start.source) && VersionOk(start.version) && TextsOk(rows)
    requires IsCut(Lines(start, rows), m, cut)
    ensures NothingTaken(FinishLines(Lines(start, rows)[..m] + [cut], start.source))
  {
    var lines, body := Lines(start, rows), Body(rows, start.version, start.source);
    if m == 0 {
      assert lines[..0] + [cut] == [cut];
      CutStart(start, cut);
    } else if m == 1 {
      assert lines[..1] + [cut] == [Head(start), ""];
      CutAfterStart(start);
    } else {
      var k: nat := m - 2;
      assert lines[..m] + [cut] == [Head(start), ""] + (body[..k] + [cut]);
      ConsumeStart(start, body[..k] + [cut]);
      StartedIsUnfinished(start);
      assert IsCut(body, k, cut);
      CutBody(Started(start), start.source, start.version, rows, k, cut);
    }
  }

  /** The lines of a prefix are lines of the response, the last one perhaps cut. */
  lemma LinesOfCut(start: Start, rows: seq<JournalRow>, text: string) returns (m: nat, cut: string)
    requires SourceOk(start.source) && VersionOk(start.version) && TextsOk(rows)
    requires text != "" && text < Join(Lines(start, rows), '\n')
    ensures IsCut(Lines(start, rows), m, cut)
    ensures SplitLines(text) == Lines(start, rows)[..m] + [cut]
  {
    var lines := Lines(start, rows);
    ResponseEnds(start, rows);
    StrippedPrefix(text, Join(lines, '\n'));
    var u: string;
    m, u := PrefixOfJoin(lines, '\n', Strip(text, {'\n'}));
    LinesOk(start, rows);
    cut := Strip(u, {'\r'});
    CutOfLine(lines[m], u);
    SplitOfCut(lines, m, u);
    StripEachOfCut(lines, m, u);
  }

  lemma StrippedPrefix(text: string, whole: string)
    requires text != "" && text < whole && whole[0] != '\n'
    ensures Strip(text, {'\n'}) < whole
  {
    assert text[0] == whole[0] && StripStart(text, {'\n'}) == text;
    StripEndIs(text, {'\n'});
    assert Strip(text, {'\n'}) <= text;
  }

  lemma SplitOfCut(lines: seq<string>, m: nat, u: string)
    requires (forall l | l in lines :: LineOk(l)) && m < |lines| && u <= lines[m]
    ensures Split(Join(lines[..m] + [u], '\n'), '\n') == lines[..m] + [u]
  {
    LinesFit(lines);
    FitParts(lines);
    forall c | c in u
      ensures c in lines[m]
    {
    }
    SplitJoin(lines[..m] + [u], '\n');
  }

  lemma CutOfLine(line: string, u: string)
    requires LineOk(line) && u <= line
    ensures Strip(u, {'\r'}) <= u && Stripped(Strip(u, {'\r'}), {'\r'})
  {
    StripIsPart(u, {'\r'});
    if u != "" {
      assert u[0] == line[0] && StripStart(u, {'\r'}) == u;
      StripEndIs(u, {'\r'});
    }
  }

  lemma StripEachOfCut(lines: seq<string>, m: nat, u: string)
    requires m < |lines| && forall l | l in lines :: LineOk(l)
    ensures StripEach(lines[..m] + [u]) == lines[..m] + [Strip(u, {'\r'})]
  {
    LinesFit(lines);
    FitParts(lines);
    NothingToStrip(lines[..m]);
    assert forall i | 0 <= i < m :: StripEach(lines[..m])[i] == Strip(lines[i], {'\r'});
  }

  /** A warning or an error, one line behind a percent sign that is no START line, takes nothing. */
  lemma CommentTakesNothing(source: string, line: string)
    requires Printable(line) && line[0] == '%' && ParseStart(line + "\n") == None
    ensures NothingTaken(ParseStream(source, line))
  {
    PrintableIsPlain(line);
    SplitLinesOfJoin([line]);
    assert Join([line], '\n') == line;
    OneLine(line);
    if IsBlank(line + "\n") {
      NoParagraphs(source);
    } else {
      CommentOrStart(source, line + "\n");
    }
  }

  /** In version 1, a response is rejected when a row was committed after the status was read. */
  lemma GrownJournalIsRejected(source: string, known: JournalRow, added: JournalRow)
    requires SourceOk(source) && TextsOk([known, added]) && added.serial == known.serial + 1
    ensures ParseStream(source, ResponseText(source, "1", known.serial, known.serial, [known, added])) == Rejected
  {
    var rows := [known, added];
    var text := ResponseText(source, "1", known.serial, known.serial, rows);
    assert rows[|rows| - 1].serial > known.serial;
    GaplessFollows(known.serial, rows);
    RoundTrip(Start("1", source, known.serial, known.serial), rows, 0);
    assert text + Newlines(0) == text;
  }
}
