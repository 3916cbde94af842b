/** The START line and the numbers that the NRTM stream parser accepts, as a grammar. */
module Nrtm3Grammar {
  import opened Journal
  import opened Store
  import opened Text
  import opened Nrtm3Parser

  /** The pieces of a START line; `a` to `e` are the spaces between its words. */
  datatype Line = Line(a: string, b: string, c: string, version: string, d: string, source: string, e: string,
                       first: string, last: string, filtered: bool)

  predicate All(s: string, p: char -> bool) {
    forall c | c in s :: p(c)
  }

  predicate Spacing(s: string) {
    forall c | c in s :: c == ' '
  }

  predicate Number(s: string) {
    s != "" && All(s, IsDigit)
  }

  predicate LineOk(l: Line) {
    && Spacing(l.a) && Spacing(l.b) && Spacing(l.c)
    && Spacing(l.d) && l.d != "" && Spacing(l.e) && l.e != ""
    && Number(l.version) && l.source != "" && All(l.source, IsWordChar) && Number(l.first) && Number(l.last)
  }

  function Serials(l: Line): string {
    l.first + ("-" + (l.last + (if l.filtered then " FILTERED\n" else "\n")))
  }

  function FieldsOf(l: Line): string {
    l.version + (l.d + (l.source + (l.e + Serials(l))))
  }

  function TextOf(l: Line): string {
    "%" + (l.a + ("START" + (l.b + ("Version:" + (l.c + FieldsOf(l))))))
  }

  function StartOf(l: Line): Start {
    Start(l.version, l.source, ValueOf(l.first), ValueOf(l.last))
  }

  // ---- what is written parses ----

  lemma SkipsSpacing(a: string, b: string)
    requires Spacing(a) && b != "" && b[0] != ' '
    ensures SkipSpaces(a + b) == b
    ensures a != "" ==> Spaces(a + b) == Some(b)
  {
    CountOfConcat(a, b, c => c == ' ');
    assert (a + b)[|a|..] == b;
    if a != "" { assert a[0] in a && (a + b)[..1] == " "; }
  }

  lemma SerialsAreRead(l: Line)
    requires LineOk(l)
    ensures ParseSerials(l.version, l.source, Serials(l)) == Some(StartOf(l))
  {
    var end := if l.filtered then " FILTERED\n" else "\n";
    TakeOfConcat(l.first, "-" + (l.last + end), IsDigit);
    AfterOfConcat("-", l.last + end);
    TakeOfConcat(l.last, end, IsDigit);
  }

  lemma FieldsAreRead(l: Line)
    requires LineOk(l)
    ensures ParseFields(FieldsOf(l)) == Some(StartOf(l))
  {
    var serials := Serials(l);
    var rest := l.source + (l.e + serials);
    assert l.d[0] in l.d && l.e[0] in l.e && l.source[0] in l.source && l.first[0] in l.first && serials[0] == l.first[0];
    TakeOfConcat(l.version, l.d + rest, IsDigit);
    SkipsSpacing(l.d, rest);
    TakeOfConcat(l.source, l.e + serials, IsWordChar);
    SkipsSpacing(l.e, serials);
    SerialsAreRead(l);
  }

  lemma LineIsRead(l: Line)
    requires LineOk(l)
    ensures ParseStart(TextOf(l)) == Some(StartOf(l))
  {
    var fields := FieldsOf(l);
    var word := "Version:" + (l.c + fields);
    var start := "START" + (l.b + word);
    assert l.version[0] in l.version && fields[0] == l.version[0];
    AfterOfConcat("%", l.a + start);
    SkipsSpacing(l.a, start);
    AfterOfConcat("START", l.b + word);
    SkipsSpacing(l.b, word);
    AfterOfConcat("Version:", l.c + fields);
    SkipsSpacing(l.c, fields);
    FieldsAreRead(l);
  }

  // ---- what parses is written so ----

  lemma {:induction false} CountedAll(s: string, p: char -> bool)
    ensures All(s[..CountWhile(s, p)], p)
  {
    if s != "" && p(s[0]) {
      CountedAll(s[1..], p);
      assert s[..CountWhile(s, p)] == [s[0]] + s[1..][..CountWhile(s[1..], p)];
    }
  }

  lemma TakenParts(s: string, p: char -> bool)
    requires Take(s, p).Some?
    ensures var (taken, rest) := Take(s, p).value; taken != "" && All(taken, p) && s == taken + rest
  {
    CountedAll(s, p);
  }

  lemma AfterParts(s: string, start: string)
    requires After(s, start).Some?
    ensures s == start + After(s, start).value
  {
  }

  lemma SkippedParts(s: string) returns (a: string)
    ensures Spacing(a) && s == a + SkipSpaces(s)
    ensures Spaces(s).Some? ==> a != "" && Spaces(s).value == SkipSpaces(s)
  {
    CountedAll(s, c => c == ' ');
    a := s[..CountWhile(s, c => c == ' ')];
    if Spaces(s).Some? { assert s[..1] == " " && s[0] == ' '; }
  }

  lemma SerialsForm(version: string, source: string, s: string) returns (l: Line)
    requires ParseSerials(version, source, s).Some?
    ensures l.version == version && l.source == source && Number(l.first) && Number(l.last)
    ensures s == Serials(l) && ParseSerials(version, source, s).value == StartOf(l)
  {
    var first := Take(s, IsDigit).value;
    var dash := After(first.1, "-").value;
    var last := Take(dash, IsDigit).value;
    TakenParts(s, IsDigit);
    TakenParts(dash, IsDigit);
    AfterParts(first.1, "-");
    l := Line("", "", "", version, "", source, "", first.0, last.0, last.1 != "\n");
  }

  lemma FieldsForm(s: string) returns (l: Line)
    requires ParseFields(s).Some?
    ensures l.a == l.b == l.c == "" && LineOk(l) && s == FieldsOf(l) && ParseFields(s).value == StartOf(l)
  {
    var version := Take(s, IsDigit).value;
    var source := Take(SkipSpaces(version.1), IsWordChar).value;
    TakenParts(s, IsDigit);
    var d := SkippedParts(version.1);
    TakenParts(SkipSpaces(version.1), IsWordChar);
    var e := SkippedParts(source.1);
    var serials := SerialsForm(version.0, source.0, SkipSpaces(source.1));
    l := serials.(a := "", b := "", c := "", d := d, e := e);
  }

  lemma LineForm(line: string) returns (l: Line)
    requires ParseStart(line).Some?
    ensures LineOk(l) && line == TextOf(l) && ParseStart(line).value == StartOf(l)
  {
    var start := After(line, "%").value;
    AfterParts(line, "%");
    var a := SkippedParts(start);
    var version := After(SkipSpaces(start), "START").value;
    AfterParts(SkipSpaces(start), "START");
    var b := SkippedParts(version);
    var fields := After(SkipSpaces(version), "Version:").value;
    AfterParts(SkipSpaces(version), "Version:");
    var c := SkippedParts(fields);
    l := FieldsForm(SkipSpaces(fields));
    l := l.(a := a, b := b, c := c);
  }

  /** A START line is accepted exactly when it is written like this: a percent sign, START, Version: and its number, the
      source, and two serials with a hyphen between them, with spaces where they may or must be, FILTERED or not. */
  lemma StartLineExactly(line: string, start: Start)
    ensures ParseStart(line) == Some(start) <==> exists l :: LineOk(l) && line == TextOf(l) && start == StartOf(l)
  {
    if ParseStart(line) == Some(start) {
      var l := LineForm(line);
    }
    if exists l :: LineOk(l) && line == TextOf(l) && start == StartOf(l) {
      var l :| LineOk(l) && line == TextOf(l) && start == StartOf(l);
      LineIsRead(l);
    }
  }

  // ---- numbers and operation lines ----

  predicate Reads(t: string, digits: string, n: int) {
    && Number(digits)
    && if t == "-" + digits then n + ValueOf(digits) == 0
       else (t == digits || t == "+" + digits) && n == ValueOf(digits)
  }

  lemma ReadsSigned(t: string, digits: string, n: int)
    requires Reads(t, digits, n)
    ensures ParseSigned(t) == Some(n)
  {
    assert digits[0] in digits;
    assert ("+" + digits)[1..] == digits && ("-" + digits)[1..] == digits;
  }

  /** A number is accepted exactly when, apart from white space around it, it is made of digits and at most one sign. */
  lemma NumberExactly(s: string, n: int)
    ensures ParseInt(s) == Some(n) <==> exists digits :: Reads(Strip(s, WHITESPACE), digits, n)
  {
    var t := Strip(s, WHITESPACE);
    if ParseInt(s) == Some(n) {
      var digits := if StartsWith(t, "-") || StartsWith(t, "+") then t[1..] else t;
      assert Number(digits) && (t == digits || t == "+" + digits || t == "-" + digits);
      assert Reads(t, digits, n);
    }
    if digits :| Reads(t, digits, n) {
      ReadsSigned(t, digits, n);
    }
  }

  lemma TwoWordsJoined(words: seq<string>)
    requires |words| == 2
    ensures Join(words, ' ') == words[0] + " " + words[1]
  {
    assert words[1..] == [words[1]];
  }

  lemma TwoWordsSplit(name: string, number: string)
    requires ' ' !in name && ' ' !in number
    ensures Split(name + " " + number, ' ') == [name, number]
  {
    TwoWordsJoined([name, number]);
    SplitJoin([name, number], ' ');
  }

  /** ADD or DEL, one space, and a serial. */
  predicate NamesSerial(paragraph: string, name: string, number: string, serial: int) {
    ' ' !in number && paragraph == name + " " + number && ParseInt(number) == Some(serial)
  }

  /** An operation is read exactly when its paragraph is ADD or DEL alone, which gets the next serial, or ADD or DEL, one
      space, and a serial that is not below the next one. */
  lemma OperationExactly(st: Stream, paragraph: string, op: Operation, serial: int)
    ensures var name := if op == AddOrUpdate then "ADD" else "DEL";
            ReadOperation(st, paragraph) == Some((op, serial))
            <==> if ' ' !in paragraph then Strip(paragraph, WHITESPACE) == name && serial == ExpectedSerial(st)
                 else ExpectedSerial(st) <= serial && exists number :: NamesSerial(paragraph, name, number, serial)
  {
    var name := if op == AddOrUpdate then "ADD" else "DEL";
    if ' ' in paragraph {
      var words := Split(paragraph, ' ');
      if ReadOperation(st, paragraph) == Some((op, serial)) {
        JoinSplit(paragraph, ' ');
        TwoWordsJoined(words);
        PiecesHaveNoSeparator(paragraph, ' ');
        assert words[1] in words;
        assert NamesSerial(paragraph, name, words[1], serial);
      }
      if number :| NamesSerial(paragraph, name, number, serial) {
        TwoWordsSplit(name, number);
      }
    }
  }
}
