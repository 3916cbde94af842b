/** What reading an object text stops at and keeps, and how the text of an object is laid out. */
module RpslLayout {
  import opened Store
  import opened Text
  import opened RpslText

  // ---- errors ----

  /** An empty line, or one that is neither a continuation nor an attribute with an acceptable name. */
  predicate Bad(c: ObjectClass, line: string) {
    line == "" || (line[0] !in {' ', '+', '\t'} && (':' !in line || !Accepts(c, NameIn(line))))
  }

  predicate FirstBad(c: ObjectClass, lines: seq<string>, i: nat) {
    i < |lines| && Bad(c, lines[i]) && forall j | 0 <= j < i :: !Bad(c, lines[j])
  }

  /** The last line before position i that starts an attribute. */
  function LastStart(lines: seq<string>, i: nat): (j: int)
    requires i <= |lines|
    ensures -1 <= j < i
  {
    if i == 0 then -1
    else if !IsContinuation(lines[i - 1]) then i - 1
    else LastStart(lines, i - 1)
  }

  lemma {:induction false} LastStartNext(lines: seq<string>, i: nat)
    requires 0 < i <= |lines|
    ensures LastStart(lines, i)
         == if LastStart(lines[1..], i - 1) >= 0 then LastStart(lines[1..], i - 1) + 1
            else if IsContinuation(lines[0]) then -1 else 0
  {
    if i > 1 {
      assert lines[1..][i - 2] == lines[i - 1];
      if IsContinuation(lines[i - 1]) {
        LastStartNext(lines, i - 1);
      }
    }
  }

  lemma {:induction false} NothingBad(c: ObjectClass, lines: seq<string>, current: Option<Attr>)
    requires forall line | line in lines :: !Bad(c, line)
    ensures !Scan(c, lines, current).failed
  {
    if lines != [] {
      assert lines[0] in lines;
      match ReadLine(c, lines[0], current)
      case Stop(_) => assert false;
      case Go(_, next) => NothingBad(c, lines[1..], next);
    }
  }

  lemma BadBehind(c: ObjectClass, lines: seq<string>, i: nat)
    requires FirstBad(c, lines, i) && i > 0
    ensures FirstBad(c, lines[1..], i - 1) && lines[1..][i - 1] == lines[i] && !Bad(c, lines[0])
  {
    assert forall j | 0 <= j < i - 1 :: lines[1..][j] == lines[j + 1];
  }

  lemma ScanOneLine(c: ObjectClass, lines: seq<string>, current: Option<Attr>)
    requires lines != [] && !Bad(c, lines[0])
    ensures var effect := ReadLine(c, lines[0], current);
            effect.Go? && Scan(c, lines, current) == Behind(effect.saved, Scan(c, lines[1..], effect.current))
  {
  }

  lemma {:induction false} StopsAtBadLine(c: ObjectClass, lines: seq<string>, i: nat, current: Option<Attr>)
    requires FirstBad(c, lines, i) && lines[i] != ""
    ensures Scan(c, lines, current) == Extraction(Scan(c, lines[..i], current).data, true)
  {
    if i > 0 {
      BadBehind(c, lines, i);
      ScanOneLine(c, lines, current);
      ScanOneLine(c, lines[..i], current);
      StopsAtBadLine(c, lines[1..], i - 1, ReadLine(c, lines[0], current).current);
      assert lines[..i][1..] == lines[1..][..i - 1];
    }
  }

  lemma {:induction false} StopsAtEmptyLine(c: ObjectClass, lines: seq<string>, i: nat, current: Option<Attr>)
    requires FirstBad(c, lines, i) && lines[i] == ""
    ensures var start := LastStart(lines, i);
            Scan(c, lines, current)
            == Extraction(if start >= 0 then Scan(c, lines[..start], current).data else [], true)
  {
    if i > 0 {
      var next := ReadLine(c, lines[0], current);
      BadBehind(c, lines, i);
      ScanOneLine(c, lines, current);
      StopsAtEmptyLine(c, lines[1..], i - 1, next.current);
      LastStartNext(lines, i);
      EmptyLineNext(c, lines, LastStart(lines, i), current);
    }
  }

  lemma EmptyLineNext(c: ObjectClass, lines: seq<string>, start: int, current: Option<Attr>)
    requires lines != [] && !Bad(c, lines[0]) && start < |lines|
    ensures var next := ReadLine(c, lines[0], current);
            && next.Go?
            && (start > 0 ==> Scan(c, lines[..start], current).data == next.saved + Scan(c, lines[1..][..start - 1], next.current).data)
            && (start == 0 && !IsContinuation(lines[0]) ==> Scan(c, lines[..start], current).data == next.saved)
            && (IsContinuation(lines[0]) ==> next.saved == [])
  {
    if start > 0 {
      ScanOneLine(c, lines[..start], current);
      assert lines[..start][1..] == lines[1..][..start - 1];
    }
  }

  lemma FindFirstBad(c: ObjectClass, lines: seq<string>) returns (i: nat)
    requires exists line :: line in lines && Bad(c, line)
    ensures FirstBad(c, lines, i)
  {
    i := 0;
    while !Bad(c, lines[i])
      invariant i < |lines| && forall j | 0 <= j < i :: !Bad(c, lines[j])
      invariant exists line :: line in lines[i..] && Bad(c, line)
      decreases |lines| - i
    {
      assert lines[i..] == [lines[i]] + lines[i + 1..];
      i := i + 1;
    }
  }

  /** Extraction fails if and only if the text has a bad line. It keeps what the lines before the first bad one give,
      except that an empty line also loses the attribute it interrupts. */
  lemma FailsExactly(c: ObjectClass, text: string)
    ensures var lines := SplitLines(Strip(text, WHITESPACE));
            && (Extract(c, text).failed <==> exists line :: line in lines && Bad(c, line))
            && forall i: nat | FirstBad(c, lines, i) ::
                 Extract(c, text).data
                 == if lines[i] != "" then Scan(c, lines[..i], None).data
                    else if LastStart(lines, i) >= 0 then Scan(c, lines[..LastStart(lines, i)], None).data
                    else []
  {
    var lines := SplitLines(Strip(text, WHITESPACE));
    forall i: nat | FirstBad(c, lines, i)
      ensures Scan(c, lines, None)
           == Extraction(if lines[i] != "" then Scan(c, lines[..i], None).data
                         else if LastStart(lines, i) >= 0 then Scan(c, lines[..LastStart(lines, i)], None).data
                         else [], true)
    {
      if lines[i] != "" { StopsAtBadLine(c, lines, i, None); } else { StopsAtEmptyLine(c, lines, i, None); }
    }
    if exists line :: line in lines && Bad(c, line) {
      var i := FindFirstBad(c, lines);
      assert FirstBad(c, lines, i);
    } else {
      NothingBad(c, lines, None);
    }
  }

  // ---- columns ----

  predicate Blank(s: string) {
    forall c | c in s :: c == ' '
  }

  /** Every line of a rendered attribute ends with a line of its value. What is before that fills 16 columns, or more for
      a long name: on the first line the name, a colon and spaces, on the others the continuation character, or a plus
      sign when there is nothing else on the line, and spaces. */
  lemma RenderedInColumns(a: Attr, idx: nat)
    requires CharsFit(a) && idx < |SplitLines(a.value)|
    ensures |AttrLines(a)| == |SplitLines(a.value)|
    ensures var value, line := SplitLines(a.value)[idx], AttrLines(a)[idx];
            && |line| >= |value| && line[|line| - |value|..] == value
            && var columns := line[..|line| - |value|];
               if idx == 0 then
                 && a.name + ":" <= columns && Blank(columns[|a.name| + 1..])
                 && (|columns| == 16 || (|columns| == |a.name| + 1 && |columns| > 16))
               else
                 && |columns| == 16 && Blank(columns[1..])
                 && columns[0] == if value == "" then '+' else a.chars[idx - 1]
  {
    AttrLineAt(a, idx);
  }

  /** An attribute without a value is rendered as its name and a colon. */
  lemma RenderedEmpty(a: Attr)
    requires CharsFit(a) && SplitLines(a.value) == []
    ensures AttrLines(a) == [a.name + ":"]
  {
  }
}
