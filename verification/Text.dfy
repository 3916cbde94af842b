/** Splitting, joining and stripping of texts and byte strings. */
module Text {

  /** The pieces between the separators; always at least one. */
  function Split<T(==)>(s: seq<T>, sep: T): (parts: seq<seq<T>>)
    ensures |parts| > 0
  {
    if s == [] then [[]] else Prepend(s[0], Split(s[1..], sep), sep)
  }

  function Prepend<T(==)>(c: T, parts: seq<seq<T>>, sep: T): seq<seq<T>>
    requires |parts| > 0
  {
    if c == sep then [[]] + parts else [[c] + parts[0]] + parts[1..]
  }

  /** The last piece of one text continues as the first of the next. */
  function Glue<T>(x: seq<seq<T>>, y: seq<seq<T>>): seq<seq<T>>
    requires |x| > 0 && |y| > 0
  {
    x[..|x| - 1] + [x[|x| - 1] + y[0]] + y[1..]
  }

  lemma {:induction false} PiecesHaveNoSeparator<T>(s: seq<T>, sep: T)
    ensures forall p | p in Split(s, sep) :: sep !in p
  {
    if s != [] {
      PiecesHaveNoSeparator(s[1..], sep);
    }
  }

  function Join<T>(parts: seq<seq<T>>, sep: T): seq<T> {
    if parts == [] then []
    else if |parts| == 1 then parts[0]
    else parts[0] + [sep] + Join(parts[1..], sep)
  }

  lemma PrependGlue<T>(c: T, x: seq<seq<T>>, y: seq<seq<T>>, sep: T)
    requires |x| > 0 && |y| > 0
    ensures Prepend(c, Glue(x, y), sep) == Glue(Prepend(c, x, sep), y)
  {
    var px := Prepend(c, x, sep);
    if c == sep {
      assert px[..|px| - 1] == [[]] + x[..|x| - 1];
    } else if |x| == 1 {
      assert [c] + (x[0] + y[0]) == ([c] + x[0]) + y[0];
    } else {
      assert px[..|px| - 1] == [[c] + x[0]] + x[1..|x| - 1];
      assert x[..|x| - 1] == [x[0]] + x[1..|x| - 1];
    }
  }

  lemma GlueEmpty<T>(y: seq<seq<T>>)
    requires |y| > 0
    ensures Glue([[]], y) == y
  {
    assert [] + y[0] == y[0];
    assert [y[0]] + y[1..] == y;
  }

  lemma {:induction false} SplitAppend<T>(a: seq<T>, b: seq<T>, sep: T)
    ensures Split(a + b, sep) == Glue(Split(a, sep), Split(b, sep))
  {
    if a == [] {
      assert a + b == b;
      GlueEmpty(Split(b, sep));
    } else {
      assert (a + b)[1..] == a[1..] + b;
      SplitAppend(a[1..], b, sep);
      PrependGlue(a[0], Split(a[1..], sep), Split(b, sep), sep);
    }
  }

  lemma {:induction false} SplitOfWhole<T>(s: seq<T>, sep: T)
    requires sep !in s
    ensures Split(s, sep) == [s]
  {
    if s != [] {
      SplitOfWhole(s[1..], sep);
      assert [s[0]] + s[1..] == s;
    }
  }

  lemma SplitAtSeparator<T>(a: seq<T>, b: seq<T>, sep: T)
    ensures Split(a + [sep] + b, sep) == Split(a, sep) + Split(b, sep)
  {
    assert a + [sep] + b == a + ([sep] + b);
    assert ([sep] + b)[1..] == b;
    SplitAppend(a, [sep] + b, sep);
    var x := Split(a, sep);
    assert x[|x| - 1] + [] == x[|x| - 1];
    assert x == x[..|x| - 1] + [x[|x| - 1]];
  }

  lemma {:induction false} SplitJoin<T>(parts: seq<seq<T>>, sep: T)
    requires parts != [] && forall p | p in parts :: sep !in p
    ensures Split(Join(parts, sep), sep) == parts
  {
    SplitOfWhole(parts[0], sep);
    if |parts| == 1 {
      assert parts == [parts[0]];
    } else {
      SplitJoin(parts[1..], sep);
      SplitAtSeparator(parts[0], Join(parts[1..], sep), sep);
      assert parts == [parts[0]] + parts[1..];
    }
  }

  lemma {:induction false} JoinSplit<T>(s: seq<T>, sep: T)
    ensures Join(Split(s, sep), sep) == s
  {
    if s != [] {
      JoinSplit(s[1..], sep);
      JoinPrepend(s[0], Split(s[1..], sep), sep);
      assert [s[0]] + s[1..] == s;
    }
  }

  lemma JoinPrepend<T>(c: T, parts: seq<seq<T>>, sep: T)
    requires |parts| > 0
    ensures Join(Prepend(c, parts, sep), sep) == [c] + Join(parts, sep)
  {
    var p := Prepend(c, parts, sep);
    if c == sep {
      assert p[1..] == parts;
    } else if |parts| == 1 {
      assert p == [[c] + parts[0]];
    } else {
      assert p[1..] == parts[1..];
      Associative([c], parts[0], [sep] + Join(parts[1..], sep));
      Associative([c] + parts[0], [sep], Join(parts[1..], sep));
      Associative(parts[0], [sep], Join(parts[1..], sep));
    }
  }

  lemma Associative<T>(a: seq<T>, b: seq<T>, c: seq<T>)
    ensures (a + b) + c == a + (b + c)
  {
  }

  function StripStart<T(==)>(s: seq<T>, chars: set<T>): seq<T> {
    if s != [] && s[0] in chars then StripStart(s[1..], chars) else s
  }

  function StripEnd<T(==)>(s: seq<T>, chars: set<T>): seq<T> {
    if s != [] && s[|s| - 1] in chars then StripEnd(s[..|s| - 1], chars) else s
  }

  function Strip<T(==)>(s: seq<T>, chars: set<T>): seq<T> {
    StripEnd(StripStart(s, chars), chars)
  }

  lemma {:induction false} StripStartIs<T>(s: seq<T>, chars: set<T>)
    ensures var r := StripStart(s, chars); |r| <= |s| && r == s[|s| - |r|..] && (r == [] || r[0] !in chars)
  {
    if s != [] && s[0] in chars {
      StripStartIs(s[1..], chars);
    }
  }

  lemma {:induction false} StripEndIs<T>(s: seq<T>, chars: set<T>)
    ensures var r := StripEnd(s, chars); |r| <= |s| && r == s[..|r|] && (r == [] || r[|r| - 1] !in chars)
  {
    if s != [] && s[|s| - 1] in chars {
      StripEndIs(s[..|s| - 1], chars);
    }
  }

  /** A text with neither end in the set is left alone. */
  predicate Stripped<T(==)>(s: seq<T>, chars: set<T>) {
    s == [] || (s[0] !in chars && s[|s| - 1] !in chars)
  }

  lemma StripIsPart<T>(s: seq<T>, chars: set<T>)
    ensures forall c | c in Strip(s, chars) :: c in s
    ensures Stripped(Strip(s, chars), chars)
    ensures |Strip(s, chars)| <= |s| && (|Strip(s, chars)| == |s| ==> Strip(s, chars) == s)
  {
    var t, r := StripStart(s, chars), Strip(s, chars);
    StripStartIs(s, chars);
    StripEndIs(t, chars);
    assert forall i | 0 <= i < |r| :: r[i] == t[i] && t[i] == s[|s| - |t| + i];
  }

  lemma StripOfStripped<T>(s: seq<T>, chars: set<T>)
    ensures Strip(s, chars) == s <==> Stripped(s, chars)
  {
    StripIsPart(s, chars);
  }

  function UpperChar(c: char): char {
    if 'a' <= c <= 'z' then c - 'a' + 'A' else c
  }

  function Upper(s: string): string {
    seq(|s|, i requires 0 <= i < |s| => UpperChar(s[i]))
  }

  const WHITESPACE: set<char> := {' ', '\t', '\n', '\r'}

  predicate StartsWith(s: string, start: string) {
    start <= s
  }

  // ---- lines ----

  /** The lines of a text, without newlines around it and without carriage returns around each line. */
  function SplitLines(s: string): seq<string> {
    if s == "" then [] else StripEach(Split(Strip(s, {'\n'}), '\n'))
  }

  function StripEach(lines: seq<string>): (r: seq<string>)
    ensures |r| == |lines| && forall i | 0 <= i < |r| :: r[i] == Strip(lines[i], {'\r'})
  {
    seq(|lines|, i requires 0 <= i < |lines| => Strip(lines[i], {'\r'}))
  }

  /** Each line with a newline behind it. */
  function Unlines(lines: seq<string>): string {
    if lines == [] then "" else lines[0] + "\n" + Unlines(lines[1..])
  }

  lemma UnlinesOfOne(line: string)
    ensures Unlines([line]) == line + "\n"
  {
    assert [line][1..] == [];
    assert line + "\n" + "" == line + "\n";
  }

  lemma {:induction false} UnlinesIsJoin(lines: seq<string>)
    ensures Unlines(lines) == Join(lines + [""], '\n')
  {
    if lines != [] {
      assert (lines + [""])[1..] == lines[1..] + [""];
      UnlinesIsJoin(lines[1..]);
    }
  }

  lemma {:induction false} UnlinesAppend(a: seq<string>, b: seq<string>)
    ensures Unlines(a + b) == Unlines(a) + Unlines(b)
  {
    if a == [] {
      assert a + b == b;
    } else {
      assert (a + b)[1..] == a[1..] + b;
      UnlinesAppend(a[1..], b);
    }
  }

  lemma {:induction false} JoinAppend<T>(a: seq<seq<T>>, b: seq<seq<T>>, sep: T)
    requires a != [] && b != []
    ensures Join(a + b, sep) == Join(a, sep) + [sep] + Join(b, sep)
  {
    if |a| == 1 {
      assert (a + b)[1..] == b;
    } else {
      assert (a + b)[1..] == a[1..] + b;
      JoinAppend(a[1..], b, sep);
    }
  }

  /** A line of a text, as it comes out of `SplitLines`. */
  predicate FitLine(line: string) {
    '\n' !in line && Stripped(line, {'\r'})
  }

  /** Text whose first and last lines are not empty is split into the lines it was joined from. */
  lemma SplitLinesOfJoin(lines: seq<string>)
    requires lines != [] && forall l | l in lines :: FitLine(l)
    requires lines[0] != "" && lines[|lines| - 1] != ""
    ensures SplitLines(Join(lines, '\n')) == lines
  {
    FitParts(lines);
    JoinIsStripped(lines);
    SplitJoin(lines, '\n');
    NothingToStrip(lines);
    SplitLinesIs(Join(lines, '\n'), lines);
  }

  lemma JoinIsStripped(lines: seq<string>)
    requires lines != [] && forall l | l in lines :: '\n' !in l
    requires lines[0] != "" && lines[|lines| - 1] != ""
    ensures Join(lines, '\n') != "" && Strip(Join(lines, '\n'), {'\n'}) == Join(lines, '\n')
  {
    JoinEnds(lines);
    StripOfStripped(Join(lines, '\n'), {'\n'});
  }

  lemma FitParts(lines: seq<string>)
    requires forall l | l in lines :: FitLine(l)
    ensures forall l | l in lines :: '\n' !in l
    ensures forall l | l in lines :: Stripped(l, {'\r'})
  {
  }

  lemma SplitLinesIs(text: string, lines: seq<string>)
    requires text != "" && Strip(text, {'\n'}) == text && Split(text, '\n') == lines && StripEach(lines) == lines
    ensures SplitLines(text) == lines
  {
  }

  lemma NothingToStrip(lines: seq<string>)
    requires forall l | l in lines :: Stripped(l, {'\r'})
    ensures StripEach(lines) == lines
  {
    forall i | 0 <= i < |lines|
      ensures Strip(lines[i], {'\r'}) == lines[i]
    {
      assert lines[i] in lines;
      StripOfStripped(lines[i], {'\r'});
    }
  }

  lemma {:induction false} JoinEnds(lines: seq<string>)
    requires lines != [] && (forall l | l in lines :: '\n' !in l) && lines[|lines| - 1] != ""
    ensures var text := Join(lines, '\n');
            && text != "" && text[|text| - 1] != '\n'
            && (lines[0] != "" ==> text[0] == lines[0][0] && text[0] != '\n')
  {
    if |lines| > 1 {
      JoinEnds(lines[1..]);
    }
    if lines[0] != "" {
      assert lines[0][0] in lines[0];
    }
    if |lines| == 1 {
      assert lines[0][|lines[0]| - 1] in lines[0];
    }
  }

  /** A prefix of joined parts is some of the parts and a prefix of the next. */
  lemma {:induction false} PrefixOfJoin<T>(parts: seq<seq<T>>, sep: T, t: seq<T>) returns (m: nat, u: seq<T>)
    requires parts != [] && t <= Join(parts, sep)
    ensures m < |parts| && u <= parts[m] && t == Join(parts[..m] + [u], sep)
    ensures t < Join(parts, sep) ==> m < |parts| - 1 || u < parts[m]
  {
    if |t| <= |parts[0]| {
      m, u := 0, t;
      assert t == Join(parts, sep)[..|t|];
    } else {
      assert |parts| > 1;
      var rest := Join(parts[1..], sep);
      var t' := t[|parts[0]| + 1..];
      assert t == Join(parts, sep)[..|t|];
      assert t == parts[0] + [sep] + t';
      var m', u' := PrefixOfJoin(parts[1..], sep, t');
      m, u := m' + 1, u';
      assert parts[..m] + [u] == [parts[0]] + (parts[1..][..m'] + [u']);
      assert (parts[..m] + [u])[1..] == parts[1..][..m'] + [u'];
    }
  }

  // ---- paragraphs ----

  predicate IsBlank(s: string) {
    Strip(s, WHITESPACE) == ""
  }

  function CleanLine(line: string): string {
    Strip(line, {'\r', '\n'})
  }

  predicate IsLeftOut(line: string, stripComments: bool) {
    (stripComments && StartsWith(line, "%")) || StartsWith(line, "#")
  }

  function Extended(current: string, line: string): string {
    current + line + "\n"
  }

  lemma ExtendedUnlines(current: string, lines: seq<string>)
    requires lines != []
    ensures Extended(current, lines[0]) + Unlines(lines[1..]) == current + Unlines(lines)
    ensures Extended(current, lines[0]) != ""
  {
    var line, rest := lines[0], Unlines(lines[1..]);
    Associative(current, line, "\n");
    Associative(current, line + "\n", rest);
    assert Unlines(lines) == (line + "\n") + rest by {
      Associative(line, "\n", rest);
    }
    assert |Extended(current, line)| > 0;
  }

  /** What one line does: the paragraph it ends, if any, and what the next one starts with. */
  function LineStep(line: string, current: string, stripComments: bool): (seq<string>, string) {
    if IsLeftOut(line, stripComments) then ([], current)
    else if line != "" then ([], Extended(current, line))
    else (if current != "" then [current] else [], "")
  }

  /** Blocks of lines between empty lines. Lines that start with `#` are always left out,
      lines that start with `%` only on request. */
  function Paragraphs(lines: seq<string>, current: string, stripComments: bool): seq<string> {
    if lines == [] then
      if IsBlank(current) then [] else [current]
    else
      var (ended, next) := LineStep(lines[0], current, stripComments);
      ended + Paragraphs(lines[1..], next, stripComments)
  }

  /** The lines that belong to paragraphs. */
  function KeptLines(lines: seq<string>, stripComments: bool): seq<string> {
    if lines == [] then []
    else
      (if lines[0] == "" || lines[0][0] == '#' || (stripComments && lines[0][0] == '%') then [] else [lines[0]])
      + KeptLines(lines[1..], stripComments)
  }

  function Flat(parts: seq<string>): string {
    if parts == [] then "" else parts[0] + Flat(parts[1..])
  }

  lemma {:induction false} FlatAppend(a: seq<string>, b: seq<string>)
    ensures Flat(a + b) == Flat(a) + Flat(b)
  {
    if a == [] {
      assert a + b == b;
    } else {
      assert (a + b)[1..] == a[1..] + b;
      FlatAppend(a[1..], b);
      Associative(a[0], Flat(a[1..]), Flat(b));
    }
  }

  lemma FlatOne(part: string)
    ensures Flat([part]) == part
  {
    assert [part][1..] == [] && part + "" == part;
  }

  lemma StepKeeps(line: string, current: string, stripComments: bool)
    ensures var (ended, next) := LineStep(line, current, stripComments);
            Flat(ended) + next == current + Unlines(KeptLines([line], stripComments))
  {
    FlatOne(current);
    UnlinesOfOne(line);
    assert [line][1..] == [];
    assert current + "" == current && "" + current == current;
    assert KeptLines([line], stripComments)
        == if line == "" || line[0] == '#' || (stripComments && line[0] == '%') then [] else [line];
    Associative(current, line, "\n");
    assert StartsWith(line, "#") <==> line != "" && line[0] == '#';
    assert StartsWith(line, "%") <==> line != "" && line[0] == '%';
  }

  lemma KeptNext(lines: seq<string>, stripComments: bool)
    requires lines != []
    ensures KeptLines(lines, stripComments) == KeptLines([lines[0]], stripComments) + KeptLines(lines[1..], stripComments)
  {
    assert [lines[0]][1..] == [] && KeptLines([], stripComments) == [];
  }

  /** The paragraphs have exactly the lines that are not empty and not left out, in order; a blank end is dropped. */
  lemma {:induction false} ParagraphsKeep(lines: seq<string>, current: string, stripComments: bool) returns (dropped: string)
    ensures IsBlank(dropped)
    ensures Flat(Paragraphs(lines, current, stripComments)) + dropped
         == current + Unlines(KeptLines(lines, stripComments))
  {
    if lines == [] {
      FlatOne(current);
      assert current + "" == current && "" + current == current;
      assert IsBlank("");
      dropped := if IsBlank(current) then current else "";
    } else {
      var (ended, next) := LineStep(lines[0], current, stripComments);
      dropped := ParagraphsKeep(lines[1..], next, stripComments);
      var rest, kept := Paragraphs(lines[1..], next, stripComments), KeptLines(lines[1..], stripComments);
      FlatAppend(ended, rest);
      StepKeeps(lines[0], current, stripComments);
      KeptNext(lines, stripComments);
      UnlinesAppend(KeptLines([lines[0]], stripComments), kept);
      Associative(Flat(ended), Flat(rest), dropped);
      Associative(Flat(ended), next, Unlines(kept));
      Associative(current, Unlines(KeptLines([lines[0]], stripComments)), Unlines(kept));
    }
  }

  /** Cleaning a line of `SplitLines` once more changes nothing. */
  lemma CleanAgain(text: string, i: nat)
    requires i < |SplitLines(text)|
    ensures CleanLine(SplitLines(text)[i]) == SplitLines(text)[i]
  {
    var piece := Split(Strip(text, {'\n'}), '\n')[i];
    PiecesHaveNoSeparator(Strip(text, {'\n'}), '\n');
    assert piece in Split(Strip(text, {'\n'}), '\n');
    var line := SplitLines(text)[i];
    assert line == Strip(piece, {'\r'});
    StripIsPart(piece, {'\r'});
    StripOfStripped(line, {'\r', '\n'});
  }

  /** The loop that collects the paragraphs. */
  method SplitParagraphs(text: string, stripComments: bool) returns (paragraphs: seq<string>)
    ensures paragraphs == Paragraphs(SplitLines(text), "", stripComments)
  {
    var lines := SplitLines(text);
    ghost var all := Paragraphs(lines, "", stripComments);
    var currentParagraph := "";
    paragraphs := [];
    var i := 0;
    while i < |lines|
      invariant i <= |lines|
      invariant paragraphs + Paragraphs(lines[i..], currentParagraph, stripComments) == all
    {
      CleanAgain(text, i);
      NextParagraphs(lines[i..], currentParagraph, stripComments, paragraphs);
      assert lines[i..][0] == lines[i] && lines[i..][1..] == lines[i + 1..];
      paragraphs, currentParagraph := AddLine(CleanLine(lines[i]), stripComments, paragraphs, currentParagraph);
      i := i + 1;
    }
    if !IsBlank(currentParagraph) { paragraphs := paragraphs + [currentParagraph]; }
  }

  method AddLine(line: string, stripComments: bool, before: seq<string>, current: string)
    returns (paragraphs: seq<string>, currentParagraph: string)
    ensures var (ended, next) := LineStep(line, current, stripComments);
            paragraphs == before + ended && currentParagraph == next
  {
    paragraphs, currentParagraph := before, current;
    if IsLeftOut(line, stripComments) { return; }
    if line != "" {
      currentParagraph := Extended(currentParagraph, line);
    }
    if line == "" {
      if currentParagraph != "" { paragraphs := paragraphs + [currentParagraph]; }
      currentParagraph := "";
    }
  }

  /** One line of the loop. */
  lemma NextParagraphs(lines: seq<string>, current: string, stripComments: bool, before: seq<string>)
    requires lines != []
    ensures var step := LineStep(lines[0], current, stripComments);
            before + Paragraphs(lines, current, stripComments)
            == (before + step.0) + Paragraphs(lines[1..], step.1, stripComments)
  {
  }

  /** A line that a paragraph keeps as it is. */
  predicate PlainLine(line: string) {
    line != "" && '\n' !in line && Stripped(line, {'\r'}) && line[0] != '#'
  }

  lemma FirstPlainLine(lines: seq<string>, current: string)
    requires lines != [] && PlainLine(lines[0])
    ensures Paragraphs(lines, current, false) == Paragraphs(lines[1..], Extended(current, lines[0]), false)
  {
    assert LineStep(lines[0], current, false) == ([], Extended(current, lines[0]));
  }

  lemma FirstEmptyLine(lines: seq<string>, current: string)
    requires lines != [] && lines[0] == ""
    ensures Paragraphs(lines, current, false)
         == (if current != "" then [current] else []) + Paragraphs(lines[1..], "", false)
  {
    assert LineStep(lines[0], current, false) == (if current != "" then [current] else [], "");
  }

  /** Plain lines are collected in the current paragraph. */
  lemma {:induction false} PlainLinesAreCollected(lines: seq<string>, tail: seq<string>, current: string)
    requires forall l | l in lines :: PlainLine(l)
    ensures Paragraphs(lines + tail, current, false) == Paragraphs(tail, current + Unlines(lines), false)
  {
    if lines == [] {
      assert lines + tail == tail && current + "" == current;
    } else {
      FirstPlainLine(lines + tail, current);
      assert (lines + tail)[1..] == lines[1..] + tail;
      ExtendedUnlines(current, lines);
      PlainLinesAreCollected(lines[1..], tail, Extended(current, lines[0]));
    }
  }

  /** Plain lines up to an empty one are one paragraph. */
  lemma ParagraphOfLines(lines: seq<string>, rest: seq<string>)
    requires lines != [] && forall l | l in lines :: PlainLine(l)
    ensures Paragraphs(lines + ([""] + rest), "", false) == [Unlines(lines)] + Paragraphs(rest, "", false)
  {
    PlainLinesAreCollected(lines, [""] + rest, "");
    assert "" + Unlines(lines) == Unlines(lines);
    FirstEmptyLine([""] + rest, Unlines(lines));
    assert ([""] + rest)[1..] == rest;
  }

  /** Plain lines without an empty one behind are at most one paragraph. */
  lemma LastParagraph(lines: seq<string>)
    requires forall l | l in lines :: PlainLine(l)
    ensures Paragraphs(lines, "", false) == if IsBlank(Unlines(lines)) then [] else [Unlines(lines)]
  {
    PlainLinesAreCollected(lines, [], "");
    assert lines + [] == lines && "" + Unlines(lines) == Unlines(lines);
  }

  // ---- decimal numbers ----

  const DIGITS: string := "0123456789"

  predicate IsDigit(c: char) { '0' <= c <= '9' }

  function DigitValue(c: char): nat {
    if IsDigit(c) then (c - '0') as nat else 0
  }

  function Decimal(n: nat): (s: string)
    ensures s != "" && forall c | c in s :: IsDigit(c)
  {
    (if n < 10 then "" else Decimal(n / 10)) + [DIGITS[n % 10]]
  }

  function ValueOf(s: string): nat {
    if s == "" then 0 else 10 * ValueOf(s[..|s| - 1]) + DigitValue(s[|s| - 1])
  }

  lemma {:induction false} ValueOfDecimal(n: nat)
    ensures ValueOf(Decimal(n)) == n
  {
    var s := Decimal(n);
    if n >= 10 {
      assert s[..|s| - 1] == Decimal(n / 10);
      ValueOfDecimal(n / 10);
    } else {
      assert s[..|s| - 1] == "";
    }
    assert DigitValue(DIGITS[n % 10]) == n % 10;
  }
}
