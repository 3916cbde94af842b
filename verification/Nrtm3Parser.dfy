/** The NRTM version 1 and 3 stream parser. */
module Nrtm3Parser {
  import opened Journal
  import opened Store
  import opened Text

  datatype NrtmOperation = NrtmOperation(op: Operation, serial: int, text: string)

  // ---- the START line ----

  datatype Start = Start(version: string, source: string, firstSerial: nat, lastSerial: nat)

  predicate IsWordChar(c: char) {
    'a' <= c <= 'z' || 'A' <= c <= 'Z' || IsDigit(c) || c == '_' || c == '-'
  }

  function CountWhile(s: string, p: char -> bool): (n: nat)
    ensures n <= |s|
  {
    if s != "" && p(s[0]) then 1 + CountWhile(s[1..], p) else 0
  }

  /** The rest behind a literal, if the text starts with it. */
  function After(s: string, start: string): Option<string> {
    if StartsWith(s, start) then Some(s[|start|..]) else None
  }

  function SkipSpaces(s: string): string {
    s[CountWhile(s, c => c == ' ')..]
  }

  /** At least one character of the kind, and the rest. */
  function Take(s: string, p: char -> bool): Option<(string, string)> {
    var n := CountWhile(s, p);
    if n > 0 then Some((s[..n], s[n..])) else None
  }

  /** At least one space. */
  function Spaces(s: string): Option<string> {
    if StartsWith(s, " ") then Some(SkipSpaces(s)) else None
  }

  /** `% START Version: 3 TEST 1-2 FILTERED` with a newline, the spaces after `%` and `START`, and the last word optional. */
  function ParseStart(line: string): Option<Start> {
    var rest := After(line, "%");
    if rest == None then None else ParseWord(SkipSpaces(rest.value))
  }

  function ParseWord(s: string): Option<Start> {
    var rest := After(s, "START");
    if rest == None then None else ParseVersion(SkipSpaces(rest.value))
  }

  function ParseVersion(s: string): Option<Start> {
    var rest := After(s, "Version:");
    if rest == None then None else ParseFields(SkipSpaces(rest.value))
  }

  function ParseFields(s: string): Option<Start> {
    var version := Take(s, IsDigit);
    if version == None then None
    else
      var afterVersion := Spaces(version.value.1);
      if afterVersion == None then None
      else
        var source := Take(afterVersion.value, IsWordChar);
        if source == None then None
        else
          var afterSource := Spaces(source.value.1);
          if afterSource == None then None else ParseSerials(version.value.0, source.value.0, afterSource.value)
  }

  function ParseSerials(version: string, source: string, s: string): Option<Start> {
    var first := Take(s, IsDigit);
    if first == None then None
    else
      var dash := After(first.value.1, "-");
      if dash == None then None
      else
        var last := Take(dash.value, IsDigit);
        if last == None || (last.value.1 != "\n" && last.value.1 != " FILTERED\n") then None
        else Some(Start(version, source, ValueOf(first.value.0), ValueOf(last.value.0)))
  }

  function StartLine(start: Start): string {
    "%" + ("START" + (" " + ("Version:" + (" " + Fields(start)))))
  }

  function Fields(start: Start): string {
    start.version + (" " + (start.source + (" "
    + (Decimal(start.firstSerial) + ("-" + (Decimal(start.lastSerial) + "\n"))))))
  }

  lemma {:induction false} CountOfConcat(a: string, b: string, p: char -> bool)
    requires (forall c | c in a :: p(c)) && (b == "" || !p(b[0]))
    ensures CountWhile(a + b, p) == |a|
  {
    if a == "" {
      assert a + b == b;
    } else {
      assert (a + b)[1..] == a[1..] + b;
      CountOfConcat(a[1..], b, p);
    }
  }

  lemma TakeOfConcat(a: string, b: string, p: char -> bool)
    requires a != "" && (forall c | c in a :: p(c)) && (b == "" || !p(b[0]))
    ensures Take(a + b, p) == Some((a, b))
  {
    CountOfConcat(a, b, p);
    assert (a + b)[..|a|] == a && (a + b)[|a|..] == b;
  }

  lemma AfterOfConcat(a: string, b: string)
    ensures After(a + b, a) == Some(b)
  {
    assert (a + b)[|a|..] == b;
  }

  lemma SpaceBefore(b: string)
    requires b != "" && b[0] != ' '
    ensures SkipSpaces(b) == b && Spaces(" " + b) == Some(b) && SkipSpaces(" " + b) == b
  {
    CountOfConcat("", b, c => c == ' ');
    CountOfConcat(" ", b, c => c == ' ');
    assert "" + b == b;
    assert (" " + b)[1..] == b;
  }

  lemma StartLineParses(start: Start)
    requires start.version != "" && forall c | c in start.version :: IsDigit(c)
    requires start.source != "" && forall c | c in start.source :: IsWordChar(c)
    ensures ParseStart(StartLine(start)) == Some(start)
  {
    var last := Decimal(start.lastSerial) + "\n";
    var serials := Decimal(start.firstSerial) + ("-" + last);
    SerialsParse(start, last, serials);
    FieldsParse(start, serials, Fields(start));
    VersionParses(Fields(start));
    WordParses("Version:" + (" " + Fields(start)));
    PercentParses("START" + (" " + ("Version:" + (" " + Fields(start)))));
  }

  lemma VersionParses(fields: string)
    requires fields != "" && fields[0] != ' '
    ensures ParseVersion("Version:" + (" " + fields)) == ParseFields(fields)
  {
    AfterOfConcat("Version:", " " + fields);
    SpaceBefore(fields);
  }

  lemma WordParses(rest: string)
    requires rest != "" && rest[0] != ' '
    ensures ParseWord("START" + (" " + rest)) == ParseVersion(rest)
  {
    AfterOfConcat("START", " " + rest);
    SpaceBefore(rest);
  }

  lemma PercentParses(rest: string)
    requires rest != "" && rest[0] != ' '
    ensures ParseStart("%" + rest) == ParseWord(rest)
  {
    AfterOfConcat("%", rest);
    SpaceBefore(rest);
  }

  lemma SerialsParse(start: Start, last: string, serials: string)
    requires last == Decimal(start.lastSerial) + "\n" && serials == Decimal(start.firstSerial) + ("-" + last)
    ensures ParseSerials(start.version, start.source, serials) == Some(start)
  {
    TakeOfConcat(Decimal(start.firstSerial), "-" + last, IsDigit);
    AfterOfConcat("-", last);
    TakeOfConcat(Decimal(start.lastSerial), "\n", IsDigit);
    ValueOfDecimal(start.firstSerial);
    ValueOfDecimal(start.lastSerial);
  }

  lemma FieldsParse(start: Start, serials: string, fields: string)
    requires start.version != "" && forall c | c in start.version :: IsDigit(c)
    requires start.source != "" && forall c | c in start.source :: IsWordChar(c)
    requires fields == start.version + (" " + (start.source + (" " + serials)))
    requires serials != "" && IsDigit(serials[0])
    ensures ParseFields(fields) == ParseSerials(start.version, start.source, serials)
  {
    TakeOfConcat(start.version, " " + (start.source + (" " + serials)), IsDigit);
    assert start.source[0] in start.source;
    SpaceBefore(start.source + (" " + serials));
    TakeOfConcat(start.source, " " + serials, IsWordChar);
    SpaceBefore(serials);
  }

  // ---- operations ----

  /** The number in a text with optional whitespace and sign around it. */
  function ParseInt(s: string): Option<int> {
    ParseSigned(Strip(s, WHITESPACE))
  }

  function ParseSigned(s: string): Option<int> {
    if StartsWith(s, "-") then Negated(ParseDigits(s[1..]))
    else if StartsWith(s, "+") then ParseDigits(s[1..])
    else ParseDigits(s)
  }

  function ParseDigits(s: string): Option<int> {
    if s != "" && forall c | c in s :: IsDigit(c) then Some(ValueOf(s)) else None
  }

  function Negated(n: Option<int>): Option<int> {
    if n.Some? then Some(-n.value) else None
  }

  function ParseOperation(s: string): Option<Operation> {
    if s == "ADD" then Some(AddOrUpdate) else if s == "DEL" then Some(Delete) else None
  }

  function OperationName(op: Operation): string {
    if op == AddOrUpdate then "ADD" else "DEL"
  }

  /** What has been read of a stream so far. */
  datatype Stream = Stream(version: string, nrtmSource: Option<string>, firstSerial: int, lastSerial: int,
                           currentOpSerial: int, operations: seq<NrtmOperation>, lastCommentSeen: string)

  const EMPTY_STREAM := Stream("", None, -1, -1, -1, [], "")

  datatype Outcome = Rejected | Parsed(operations: seq<NrtmOperation>, recordedSerial: Option<nat>)

  /** A second START line, another source or another version is an error. */
  function StartStream(st: Stream, source: string, start: Start): Option<Stream> {
    if st.nrtmSource.Some? || Upper(start.source) != source || start.version !in ["1", "3"] then None
    else Some(st.(version := start.version, nrtmSource := Some(Upper(start.source)),
                  firstSerial := start.firstSerial, lastSerial := start.lastSerial))
  }

  /** The serial that an operation would get without one of its own. */
  function ExpectedSerial(st: Stream): int {
    if st.currentOpSerial == -1 then st.firstSerial else st.currentOpSerial + 1
  }

  /** The operation and its serial: with a serial on the line, gaps are allowed but it can not be lower. */
  function ReadOperation(st: Stream, paragraph: string): Option<(Operation, int)> {
    if ' ' in paragraph then
      var words := Split(paragraph, ' ');
      if |words| != 2 then None
      else
        var (op, serial) := (ParseOperation(words[0]), ParseInt(words[1]));
        if op == None || serial == None || serial.value < ExpectedSerial(st) then None else Some((op.value, serial.value))
    else
      var op := ParseOperation(Strip(paragraph, WHITESPACE));
      if op == None then None else Some((op.value, ExpectedSerial(st)))
  }

  function AddOperation(st: Stream, paragraph: string, text: string): Option<Stream> {
    var read := ReadOperation(st, paragraph);
    if st.nrtmSource == None || read == None then None
    else
      var (op, serial) := read.value;
      Some(st.(currentOpSerial := serial, operations := st.operations + [NrtmOperation(op, serial, text)]))
  }

  predicate IsComment(paragraph: string) {
    StartsWith(paragraph, "%") || StartsWith(paragraph, "#")
  }

  predicate IsOperation(paragraph: string) {
    StartsWith(paragraph, "ADD") || StartsWith(paragraph, "DEL")
  }

  /** The stream after some paragraphs; the one behind an operation is its object. */
  function Consume(st: Stream, source: string, paragraphs: seq<string>): Option<Stream>
    decreases |paragraphs|
  {
    if paragraphs == [] then Some(st)
    else
      var p, rest := paragraphs[0], paragraphs[1..];
      var start := ParseStart(p);
      if start.Some? then
        var next := StartStream(st, source, start.value);
        if next == None then None else Consume(next.value, source, rest)
      else if IsComment(p) then Consume(st.(lastCommentSeen := p), source, rest)
      else if IsOperation(p) then
        if rest == [] then None
        else
          var next := AddOperation(st, p, rest[0]);
          if next == None then None else Consume(next.value, source, rest[1..])
      else Consume(st, source, rest)
  }

  predicate Ended(st: Stream, source: string) {
    Strip(Upper(st.lastCommentSeen), WHITESPACE) == "%END " + source
  }

  function Finish(st: Stream, source: string): Outcome {
    if st.nrtmSource.Some? && !Ended(st, source) then Rejected
    else if st.currentOpSerial > st.lastSerial && st.version != "3" then Rejected
    else Parsed(st.operations, if st.lastSerial > 0 then Some(st.lastSerial) else None)
  }

  function ParseStream(source: string, text: string): Outcome {
    var st := Consume(EMPTY_STREAM, source, Paragraphs(SplitLines(text), "", false));
    if st == None then Rejected else Finish(st.value, source)
  }

  class NRTMStreamParser {
    const source: string
    var version: string
    var nrtmSource: Option<string>
    var firstSerial: int
    var lastSerial: int
    var currentOpSerial: int
    var operations: seq<NrtmOperation>
    var lastCommentSeen: string
    /** What the database handler has been told: the newest serial of the mirror. */
    var recordedSerial: Option<nat>

    constructor (source: string)
      ensures this.source == source && View() == EMPTY_STREAM && recordedSerial == None
    {
      this.source := source;
      version, nrtmSource, firstSerial, lastSerial, currentOpSerial := "", None, -1, -1, -1;
      operations, lastCommentSeen, recordedSerial := [], "", None;
    }

    ghost function View(): Stream
      reads this
    {
      Stream(version, nrtmSource, firstSerial, lastSerial, currentOpSerial, operations, lastCommentSeen)
    }

    method SplitStream(data: string) returns (ok: bool)
      requires View() == EMPTY_STREAM && recordedSerial == None
      modifies this
      ensures ok <==> ParseStream(source, data).Parsed?
      ensures ok ==> ParseStream(source, data) == Parsed(operations, recordedSerial)
      ensures !ok ==> recordedSerial == None
    {
      var paragraphs := SplitParagraphs(data, false);
      ok := ReadParagraphs(paragraphs);
      if !ok { return; }
      if nrtmSource.Some? && Strip(Upper(lastCommentSeen), WHITESPACE) != "%END " + source { return false; }
      if currentOpSerial > lastSerial && version != "3" { return false; }
      if lastSerial > 0 { recordedSerial := Some(lastSerial); }
    }

    method ReadParagraphs(paragraphs: seq<string>) returns (ok: bool)
      modifies this
      ensures ok <==> Consume(old(View()), source, paragraphs).Some?
      ensures ok ==> View() == Consume(old(View()), source, paragraphs).value
      ensures recordedSerial == old(recordedSerial)
    {
      ghost var outcome := Consume(View(), source, paragraphs);
      var i := 0;
      while i < |paragraphs|
        invariant i <= |paragraphs| && Consume(View(), source, paragraphs[i..]) == outcome
        invariant recordedSerial == old(recordedSerial)
      {
        var p := paragraphs[i];
        var start := ParseStart(p);
        if start.Some? {
          var started := HandleStartLine(start.value);
          if !started { return false; }
        } else if IsComment(p) {
          lastCommentSeen := p;
        } else if IsOperation(p) {
          if i + 1 == |paragraphs| { return false; }
          i := i + 1;
          var added := HandleOperation(p, paragraphs[i]);
          if !added { return false; }
        }
        i := i + 1;
      }
      ok := true;
    }

    method HandleStartLine(start: Start) returns (ok: bool)
      modifies this
      ensures ok <==> StartStream(old(View()), source, start).Some?
      ensures ok ==> View() == StartStream(old(View()), source, start).value
      ensures recordedSerial == old(recordedSerial)
    {
      if nrtmSource.Some? { return false; }
      version := start.version;
      nrtmSource := Some(Upper(start.source));
      firstSerial := start.firstSerial;
      lastSerial := start.lastSerial;
      ok := source == nrtmSource.value && version in ["1", "3"];
    }

    method HandleOperation(paragraph: string, objectText: string) returns (ok: bool)
      modifies this
      ensures ok <==> AddOperation(old(View()), paragraph, objectText).Some?
      ensures ok ==> View() == AddOperation(old(View()), paragraph, objectText).value
      ensures recordedSerial == old(recordedSerial)
    {
      if nrtmSource == None { return false; }
      if currentOpSerial == -1 {
        currentOpSerial := firstSerial;
      } else {
        currentOpSerial := currentOpSerial + 1;
      }
      var operation: Option<Operation>;
      if ' ' in paragraph {
        var words := Split(paragraph, ' ');
        if |words| != 2 { return false; }
        var lineSerial := ParseInt(words[1]);
        if lineSerial == None || lineSerial.value < currentOpSerial { return false; }
        currentOpSerial := lineSerial.value;
        operation := ParseOperation(words[0]);
      } else {
        operation := ParseOperation(Strip(paragraph, WHITESPACE));
      }
      if operation == None { return false; }
      operations := operations + [NrtmOperation(operation.value, currentOpSerial, objectText)];
      ok := true;
    }
  }
}
