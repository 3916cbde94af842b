/** Extracting rendered attributes gives them back, up to what rendering normalises. */
module RpslRoundTrip {
  import opened Store
  import opened Text
  import opened RpslText

  const NEWLINE: set<char> := {'\n'}

  predicate LinesStripped(lines: seq<string>) {
    forall l | l in lines :: Stripped(l, WHITESPACE)
  }

  /** An attribute as extraction produces it. */
  predicate AttrOk(c: ObjectClass, a: Attr) {
    && IsName(a.name) && a.name !in c.discardedFields
    && LinesStripped(Split(a.value, '\n')) && |a.chars| + 1 == |Split(a.value, '\n')|
    && forall ch | ch in a.chars :: ch in [' ', '+', '\t']
  }

  predicate DataOk(c: ObjectClass, data: seq<Attr>) {
    forall a | a in data :: AttrOk(c, a)
  }

  function NormalChars(lines: seq<string>, chars: seq<char>): seq<char>
    requires |lines| <= |chars|
  {
    if lines == [] then [] else [CharFor(lines[0], chars[0])] + NormalChars(lines[1..], chars[1..])
  }

  /** Without the empty lines around the value, and with `+` on empty lines within it. */
  function Normal(a: Attr): Attr
    requires CharsFit(a)
  {
    var lines := SplitLines(a.value);
    Attr(a.name, Join(lines, '\n'), if lines == [] then [] else NormalChars(lines[1..], a.chars))
  }

  function NormalAll(data: seq<Attr>): seq<Attr>
    requires forall a | a in data :: CharsFit(a)
  {
    if data == [] then [] else [Normal(data[0])] + NormalAll(data[1..])
  }

  // ---- newlines around a value ----

  function DropFront(lines: seq<string>): (r: seq<string>)
    ensures |r| <= |lines| && (lines != [] ==> r != []) && forall l | l in r :: l in lines
  {
    if |lines| > 1 && lines[0] == "" then DropFront(lines[1..]) else lines
  }

  function DropBack(lines: seq<string>): (r: seq<string>)
    ensures |r| <= |lines| && (lines != [] ==> r != []) && forall l | l in r :: l in lines
  {
    if |lines| > 1 && lines[|lines| - 1] == "" then DropBack(lines[..|lines| - 1]) else lines
  }

  lemma {:induction false} SplitOfStripStart(v: string)
    ensures Split(StripStart(v, NEWLINE), '\n') == DropFront(Split(v, '\n'))
  {
    if v != "" {
      if v[0] == '\n' {
        SplitOfStripStart(v[1..]);
        assert ([""] + Split(v[1..], '\n'))[1..] == Split(v[1..], '\n');
      } else {
        assert Split(v, '\n')[0] != "";
      }
    }
  }

  lemma {:induction false} SplitOfStripEnd(v: string)
    ensures Split(StripEnd(v, NEWLINE), '\n') == DropBack(Split(v, '\n'))
  {
    if v != "" {
      var init := v[..|v| - 1];
      if v[|v| - 1] == '\n' {
        SplitOfStripEnd(init);
        assert v == init + ['\n'] + "";
        SplitAtSeparator(init, "", '\n');
        assert Split(v, '\n') == Split(init, '\n') + [""];
        assert (Split(init, '\n') + [""])[..|Split(init, '\n')|] == Split(init, '\n');
      } else {
        assert v == init + [v[|v| - 1]];
        LastPieceOf(init, v[|v| - 1]);
      }
    }
  }

  lemma LastPieceOf(init: string, last: char)
    requires last != '\n'
    ensures var parts := Split(init + [last], '\n'); parts[|parts| - 1] != ""
  {
    SplitAppend(init, [last], '\n');
    SplitOfWhole([last], '\n');
  }

  /** The lines of a value without the empty ones around it. */
  lemma ValueLines(v: string)
    requires LinesStripped(Split(v, '\n'))
    ensures v != "" ==> SplitLines(v) == DropBack(DropFront(Split(v, '\n')))
    ensures |SplitLines(v)| <= |Split(v, '\n')|
    ensures LinesStripped(SplitLines(v)) && forall l | l in SplitLines(v) :: '\n' !in l
  {
    if v != "" {
      var pieces := Split(Strip(v, NEWLINE), '\n');
      PiecesHaveNoSeparator(Strip(v, NEWLINE), '\n');
      SplitOfStripStart(v);
      SplitOfStripEnd(StripStart(v, NEWLINE));
      assert pieces == DropBack(DropFront(Split(v, '\n')));
      assert forall l | l in pieces :: Stripped(l, WHITESPACE);
      NothingToStrip(pieces);
    }
  }

  lemma AttrOkFits(c: ObjectClass, a: Attr)
    requires AttrOk(c, a)
    ensures CharsFit(a)
  {
    ValueLines(a.value);
  }

  lemma DataOkFits(c: ObjectClass, data: seq<Attr>)
    requires DataOk(c, data)
    ensures forall a | a in data :: CharsFit(a)
  {
    forall a | a in data
      ensures CharsFit(a)
    {
      AttrOkFits(c, a);
    }
  }

  // ---- extraction produces such attributes ----

  predicate AllowedAreNames(c: ObjectClass) {
    forall n | n in c.attrsAllowed :: IsName(n)
  }

  /** The same, but possibly a discarded attribute: the one that is being read. */
  predicate CurrentOk(current: Option<Attr>) {
    current.Some? ==> AttrOk(ObjectClass({}, {}), current.value)
  }

  lemma StripIsStripped(s: string)
    ensures Stripped(Strip(s, WHITESPACE), WHITESPACE) && forall ch | ch in Strip(s, WHITESPACE) :: ch in s
  {
    StripIsPart(s, WHITESPACE);
  }

  lemma ContinuedIsOk(a: Attr, line: string)
    requires CurrentOk(Some(a)) && IsContinuation(line) && '\n' !in line
    ensures CurrentOk(Some(Continued(a, line)))
  {
    var more := Strip(line[1..], WHITESPACE);
    StripIsStripped(line[1..]);
    assert '\n' !in more;
    assert a.value + "\n" + more == a.value + ['\n'] + more;
    SplitAtSeparator(a.value, more, '\n');
    SplitOfWhole(more, '\n');
  }

  lemma NewAttrIsOk(c: ObjectClass, line: string)
    requires AllowedAreNames(c) && ':' in line && '\n' !in line && Accepts(c, NameIn(line))
    ensures CurrentOk(Some(Attr(NameIn(line), ValueIn(line), [])))
  {
    var value := ValueIn(line);
    StripIsStripped(line[FirstColon(line) + 1..]);
    assert '\n' !in value;
    SplitOfWhole(value, '\n');
  }

  /** Whatever is extracted, from any text, with or without an error, is made of such attributes. */
  lemma {:induction false} ScanIsOk(c: ObjectClass, lines: seq<string>, current: Option<Attr>)
    requires AllowedAreNames(c) && CurrentOk(current) && forall l | l in lines :: '\n' !in l
    ensures DataOk(c, Scan(c, lines, current).data)
  {
    if lines != [] {
      var line := lines[0];
      if line != "" && IsContinuation(line) && current.Some? {
        ContinuedIsOk(current.value, line);
      } else if line != "" && !IsContinuation(line) && ':' in line && Accepts(c, NameIn(line)) {
        NewAttrIsOk(c, line);
      }
      var effect := ReadLine(c, line, current);
      if effect.Go? {
        ScanIsOk(c, lines[1..], effect.current);
      }
    }
  }

  lemma ExtractIsOk(c: ObjectClass, text: string)
    requires AllowedAreNames(c)
    ensures DataOk(c, Extract(c, text).data)
  {
    var t := Strip(text, WHITESPACE);
    forall i | 0 <= i < |SplitLines(t)|
      ensures '\n' !in SplitLines(t)[i]
    {
      var piece := Split(Strip(t, NEWLINE), '\n')[i];
      PiecesHaveNoSeparator(Strip(t, NEWLINE), '\n');
      StripIsPart(piece, {'\r'});
    }
    ScanIsOk(c, SplitLines(t), None);
  }

  // ---- reading one rendered attribute ----

  lemma {:induction false} FirstColonBehind(name: string, rest: string)
    requires ':' !in name
    ensures FirstColon(name + ":" + rest) == |name|
  {
    var line := name + ":" + rest;
    if name != "" {
      assert line[1..] == name[1..] + ":" + rest;
      FirstColonBehind(name[1..], rest);
    }
  }

  lemma LowerOfName(name: string)
    requires IsName(name)
    ensures Lower(name) == name && ':' !in name && !IsContinuation(name) && name[0] !in WHITESPACE
  {
    assert name[0] in name;
    forall i | 0 <= i < |name|
      ensures LowerChar(name[i]) == name[i]
    {
      assert name[i] in name;
    }
  }

  lemma {:induction false} StripLeading(n: nat, v: string)
    requires Stripped(v, WHITESPACE)
    ensures Strip(Spaces(n) + v, WHITESPACE) == v
  {
    LeadingSpaces(n, v);
    if v == "" {
    } else {
      StripOfStripped(v, WHITESPACE);
    }
  }

  lemma {:induction false} LeadingSpaces(n: nat, v: string)
    requires Stripped(v, WHITESPACE)
    ensures StripStart(Spaces(n) + v, WHITESPACE) == v
  {
    if n == 0 {
      assert Spaces(0) + v == v;
    } else {
      assert (Spaces(n) + v)[1..] == Spaces(n - 1) + v;
      LeadingSpaces(n - 1, v);
    }
  }

  /** A name, a colon and any number of spaces in front of the first line of the value. */
  lemma ReadNameLine(c: ObjectClass, name: string, n: nat, v: string, current: Option<Attr>)
    requires IsName(name) && Stripped(v, WHITESPACE)
    ensures ReadLine(c, name + ":" + (Spaces(n) + v), current) == Go(Flush(c, current), Some(Attr(name, v, [])))
  {
    var line := name + ":" + (Spaces(n) + v);
    LowerOfName(name);
    FirstColonBehind(name, Spaces(n) + v);
    assert line[..|name|] == name && line[|name| + 1..] == Spaces(n) + v;
    StripLeading(n, v);
    assert line[0] == name[0] && line[|name|] == ':';
  }

  lemma ReadContinuation(c: ObjectClass, line: string, ch: char, current: Attr)
    requires Stripped(line, WHITESPACE) && ch in [' ', '+', '\t']
    ensures ReadLine(c, [CharFor(line, ch)] + Spaces(RPSL_ATTRIBUTE_TEXT_WIDTH - 1) + line, Some(current))
         == Go([], Some(Attr(current.name, current.value + "\n" + line, current.chars + [CharFor(line, ch)])))
  {
    var text := [CharFor(line, ch)] + Spaces(RPSL_ATTRIBUTE_TEXT_WIDTH - 1) + line;
    assert text[1..] == Spaces(RPSL_ATTRIBUTE_TEXT_WIDTH - 1) + line;
    StripLeading(RPSL_ATTRIBUTE_TEXT_WIDTH - 1, line);
  }

  function WithLines(a: Attr, lines: seq<string>, chars: seq<char>): Attr
    requires |lines| <= |chars|
  {
    a.(value := Join([a.value] + lines, '\n'), chars := a.chars + NormalChars(lines, chars))
  }

  lemma Regroup(x: string, y: string, z: string)
    ensures (x + "\n" + y) + ['\n'] + z == x + ['\n'] + (y + ['\n'] + z)
  {
  }

  lemma JoinNext(x: string, lines: seq<string>)
    requires lines != []
    ensures Join([x + "\n" + lines[0]] + lines[1..], '\n') == Join([x] + lines, '\n')
  {
    var first, rest := x + "\n" + lines[0], lines[1..];
    JoinAppend([x], lines, '\n');
    if rest == [] {
      assert [first] + rest == [first] && lines == [lines[0]];
    } else {
      JoinAppend([first], rest, '\n');
      JoinHead(lines);
      Regroup(x, lines[0], Join(rest, '\n'));
    }
  }

  lemma JoinHead(lines: seq<string>)
    requires |lines| > 1
    ensures Join(lines, '\n') == lines[0] + ['\n'] + Join(lines[1..], '\n')
  {
  }

  lemma WithLinesNext(a: Attr, lines: seq<string>, chars: seq<char>)
    requires 0 < |lines| <= |chars|
    ensures WithLines(Attr(a.name, a.value + "\n" + lines[0], a.chars + [CharFor(lines[0], chars[0])]), lines[1..], chars[1..])
         == WithLines(a, lines, chars)
  {
    JoinNext(a.value, lines);
    assert (a.chars + [CharFor(lines[0], chars[0])]) + NormalChars(lines[1..], chars[1..])
        == a.chars + NormalChars(lines, chars);
  }

  lemma {:induction false} ReadContinuations(c: ObjectClass, lines: seq<string>, chars: seq<char>, rest: seq<string>, current: Attr)
    requires |lines| <= |chars| && LinesStripped(lines) && forall ch | ch in chars :: ch in [' ', '+', '\t']
    ensures Scan(c, Continuations(lines, chars) + rest, Some(current)) == Scan(c, rest, Some(WithLines(current, lines, chars)))
    decreases |lines|
  {
    var all := Continuations(lines, chars) + rest;
    if lines == [] {
      assert all == rest && [current.value] + lines == [current.value] && current.chars + [] == current.chars;
    } else {
      assert Stripped(lines[0], WHITESPACE) && chars[0] in chars;
      ReadContinuation(c, lines[0], chars[0], current);
      assert all[1..] == Continuations(lines[1..], chars[1..]) + rest;
      var next := Attr(current.name, current.value + "\n" + lines[0], current.chars + [CharFor(lines[0], chars[0])]);
      ScanGo(c, all, Some(current), Some(next));
      assert forall l | l in lines[1..] :: l in lines;
      assert forall ch | ch in chars[1..] :: ch in chars;
      ReadContinuations(c, lines[1..], chars[1..], rest, next);
      WithLinesNext(current, lines, chars);
    }
  }

  lemma ScanGo(c: ObjectClass, lines: seq<string>, current: Option<Attr>, next: Option<Attr>)
    requires lines != [] && ReadLine(c, lines[0], current).Go? && ReadLine(c, lines[0], current).current == next
    ensures ReadLine(c, lines[0], current).saved == [] ==> Scan(c, lines, current) == Scan(c, lines[1..], next)
    ensures Scan(c, lines, current) == Behind(ReadLine(c, lines[0], current).saved, Scan(c, lines[1..], next))
  {
    var rest := Scan(c, lines[1..], next);
    assert [] + rest.data == rest.data;
  }

  lemma ReadEmptyAttr(c: ObjectClass, name: string, rest: seq<string>, current: Option<Attr>)
    requires IsName(name)
    ensures Scan(c, [name + ":"] + rest, current) == Behind(Flush(c, current), Scan(c, rest, Some(Attr(name, "", []))))
  {
    NoPadding(name);
    ReadNameLine(c, name, 0, "", current);
    ScanGo(c, [name + ":"] + rest, current, Some(Attr(name, "", [])));
    assert ([name + ":"] + rest)[1..] == rest;
  }

  lemma ReadFilledAttr(c: ObjectClass, name: string, lines: seq<string>, chars: seq<char>, rest: seq<string>, current: Option<Attr>)
    requires IsName(name) && lines != [] && LinesStripped(lines) && |lines| <= |chars| + 1
    requires forall ch | ch in chars :: ch in [' ', '+', '\t']
    ensures Scan(c, [Display(name) + lines[0]] + Continuations(lines[1..], chars) + rest, current)
         == Behind(Flush(c, current), Scan(c, rest, Some(Attr(name, Join(lines, '\n'), NormalChars(lines[1..], chars)))))
  {
    var more, next := Continuations(lines[1..], chars) + rest, Attr(name, lines[0], []);
    assert Stripped(lines[0], WHITESPACE);
    assert [Display(name) + lines[0]] + Continuations(lines[1..], chars) + rest == [Display(name) + lines[0]] + more;
    ReadFirstLine(c, name, lines[0], more, current);
    assert forall l | l in lines[1..] :: l in lines;
    ReadContinuations(c, lines[1..], chars, rest, next);
    WithAllLines(name, lines, chars);
  }

  lemma WithAllLines(name: string, lines: seq<string>, chars: seq<char>)
    requires lines != [] && |lines| <= |chars| + 1
    ensures WithLines(Attr(name, lines[0], []), lines[1..], chars)
         == Attr(name, Join(lines, '\n'), NormalChars(lines[1..], chars))
  {
    assert [lines[0]] + lines[1..] == lines && [] + NormalChars(lines[1..], chars) == NormalChars(lines[1..], chars);
  }

  lemma ReadFirstLine(c: ObjectClass, name: string, line: string, more: seq<string>, current: Option<Attr>)
    requires IsName(name) && Stripped(line, WHITESPACE)
    ensures Scan(c, [Display(name) + line] + more, current)
         == Behind(Flush(c, current), Scan(c, more, Some(Attr(name, line, []))))
  {
    ReadNameLine(c, name, Padding(name), line, current);
    DisplayIs(name, line);
    var all := [Display(name) + line] + more;
    assert all[1..] == more;
    ScanGo(c, all, current, Some(Attr(name, line, [])));
  }

  lemma ReadAttr(c: ObjectClass, a: Attr, rest: seq<string>, current: Option<Attr>)
    requires AttrOk(c, a) && CharsFit(a)
    ensures Scan(c, AttrLines(a) + rest, current) == Behind(Flush(c, current), Scan(c, rest, Some(Normal(a))))
  {
    ValueLines(a.value);
    if SplitLines(a.value) == [] {
      ReadEmptyAttr(c, a.name, rest, current);
    } else {
      ReadFilledAttr(c, a.name, SplitLines(a.value), a.chars, rest, current);
    }
  }

  function Padding(name: string): nat {
    if |name| + 1 < RPSL_ATTRIBUTE_TEXT_WIDTH then RPSL_ATTRIBUTE_TEXT_WIDTH - |name| - 1 else 0
  }

  lemma DisplayIs(name: string, v: string)
    ensures Display(name) + v == name + ":" + (Spaces(Padding(name)) + v)
  {
  }

  lemma NoPadding(name: string)
    ensures name + ":" == name + ":" + (Spaces(0) + "")
  {
  }

  // ---- the whole object ----

  function DataLines(data: seq<Attr>): seq<string>
    requires forall a | a in data :: CharsFit(a)
  {
    if data == [] then [] else AttrLines(data[0]) + DataLines(data[1..])
  }

  lemma {:induction false} RenderIsLines(data: seq<Attr>)
    requires forall a | a in data :: CharsFit(a)
    ensures Render(data) == Unlines(DataLines(data))
  {
    if data != [] {
      RenderIsLines(data[1..]);
      UnlinesAppend(AttrLines(data[0]), DataLines(data[1..]));
    }
  }

  /** The last line without the white space at its end. */
  function TrimLast(lines: seq<string>): seq<string>
    requires lines != []
  {
    lines[..|lines| - 1] + [StripEnd(lines[|lines| - 1], WHITESPACE)]
  }

  lemma NothingToTrim(line: string)
    requires line != "" && line[|line| - 1] !in WHITESPACE
    ensures StripEnd(line, WHITESPACE) == line
  {
  }

  lemma {:induction false} TrimSpaces(s: string, n: nat)
    requires s != "" && s[|s| - 1] !in WHITESPACE
    ensures StripEnd(s + Spaces(n), WHITESPACE) == s
  {
    if n == 0 {
      assert s + Spaces(0) == s;
    } else {
      assert (s + Spaces(n))[..|s| + n - 1] == s + Spaces(n - 1);
      TrimSpaces(s, n - 1);
    }
  }

  /** The line ends in something else than white space. */
  predicate IsTight(line: string) {
    line != "" && line[|line| - 1] !in WHITESPACE
  }

  lemma TrimNothing(lines: seq<string>)
    requires lines != [] && IsTight(lines[|lines| - 1])
    ensures TrimLast(lines) == lines
  {
    NothingToTrim(lines[|lines| - 1]);
  }

  lemma TightConcat(x: string, v: string)
    requires IsTight(v)
    ensures IsTight(x + v)
  {
    assert (x + v)[|x + v| - 1] == v[|v| - 1];
  }

  /** Only a name without a value loses its padding. */
  lemma TrimOfAttr(c: ObjectClass, a: Attr)
    requires AttrOk(c, a) && CharsFit(a)
    ensures if SplitLines(a.value) == [""] then TrimLast(AttrLines(a)) == [a.name + ":"]
            else TrimLast(AttrLines(a)) == AttrLines(a)
  {
    var lines := SplitLines(a.value);
    if lines == [] {
      TrimNothing([a.name + ":"]);
    } else if lines == [""] {
      TrimOfDisplay(a, lines);
    } else {
      LastLineIsTight(c, a, lines);
      LastIsTight(a, lines);
      TrimNothing(AttrLines(a));
    }
  }

  lemma LastLineIsTight(c: ObjectClass, a: Attr, lines: seq<string>)
    requires AttrOk(c, a) && lines == SplitLines(a.value) && lines != [] && lines != [""]
    ensures IsTight(lines[|lines| - 1])
  {
    ValueLines(a.value);
    LastValueLine(a.value);
    assert Stripped(lines[|lines| - 1], WHITESPACE);
  }

  lemma TrimOfDisplay(a: Attr, lines: seq<string>)
    requires CharsFit(a) && lines == SplitLines(a.value) == [""]
    ensures TrimLast(AttrLines(a)) == [a.name + ":"]
  {
    assert lines[1..] == [];
    assert AttrLines(a) == [Display(a.name) + ""];
    assert Display(a.name) + "" == (a.name + ":") + Spaces(Padding(a.name));
    TrimSpaces(a.name + ":", Padding(a.name));
  }

  lemma LastIsTight(a: Attr, lines: seq<string>)
    requires CharsFit(a) && lines == SplitLines(a.value) && lines != [] && IsTight(lines[|lines| - 1])
    ensures |AttrLines(a)| == |lines| && IsTight(AttrLines(a)[|lines| - 1])
  {
    var k := |lines| - 1;
    AttrLineAt(a, k);
    if k == 0 {
      TightConcat(Display(a.name), lines[k]);
    } else {
      TightConcat([CharFor(lines[k], a.chars[k - 1])] + Spaces(RPSL_ATTRIBUTE_TEXT_WIDTH - 1), lines[k]);
    }
  }

  /** Of several lines of a value, the last one is not empty. */
  lemma LastValueLine(v: string)
    requires LinesStripped(Split(v, '\n'))
    ensures var lines := SplitLines(v); |lines| > 1 ==> lines[|lines| - 1] != "" && lines[0] != ""
    ensures var lines := SplitLines(v); lines != [] && lines != [""] ==> lines[|lines| - 1] != ""
  {
    ValueLines(v);
    DropBackEnds(DropFront(Split(v, '\n')));
    DropFrontEnds(Split(v, '\n'));
  }

  lemma {:induction false} DropBackEnds(lines: seq<string>)
    ensures var r := DropBack(lines); |r| > 1 ==> r[|r| - 1] != "" && r[0] == lines[0]
    ensures lines != [] ==> DropBack(lines)[0] == lines[0]
  {
    if |lines| > 1 && lines[|lines| - 1] == "" {
      DropBackEnds(lines[..|lines| - 1]);
    }
  }

  lemma {:induction false} DropFrontEnds(lines: seq<string>)
    ensures var r := DropFront(lines); |r| > 1 ==> r[0] != ""
  {
    if |lines| > 1 && lines[0] == "" {
      DropFrontEnds(lines[1..]);
    }
  }

  lemma ReadLastAttr(c: ObjectClass, a: Attr, current: Option<Attr>)
    requires AttrOk(c, a) && CharsFit(a)
    ensures Scan(c, TrimLast(AttrLines(a)), current) == Extraction(Flush(c, current) + [Normal(a)], false)
  {
    TrimOfAttr(c, a);
    assert AttrLines(a) + [] == AttrLines(a) && [a.name + ":"] + [] == [a.name + ":"];
    if SplitLines(a.value) == [""] {
      ReadEmptyAttr(c, a.name, [], current);
    } else {
      ReadAttr(c, a, [], current);
    }
  }

  lemma TrimOfConcat(a: seq<string>, b: seq<string>)
    requires b != []
    ensures TrimLast(a + b) == a + TrimLast(b)
  {
  }

  lemma {:induction false} ReadAll(c: ObjectClass, data: seq<Attr>, current: Option<Attr>)
    requires data != [] && DataOk(c, data) && forall a | a in data :: CharsFit(a)
    ensures DataLines(data) != []
    ensures Scan(c, TrimLast(DataLines(data)), current) == Extraction(Flush(c, current) + NormalAll(data), false)
    decreases |data|
  {
    var a, rest := data[0], data[1..];
    if rest == [] {
      assert DataLines(data) == AttrLines(a) + [] == AttrLines(a);
      ReadLastAttr(c, a, current);
    } else {
      assert forall x | x in rest :: x in data;
      ReadAll(c, rest, Some(Normal(a)));
      TrimOfConcat(AttrLines(a), DataLines(rest));
      ReadAttr(c, a, TrimLast(DataLines(rest)), current);
      assert Flush(c, current) + ([Normal(a)] + NormalAll(rest)) == Flush(c, current) + NormalAll(data);
    }
  }

  // ---- the rendered text as lines ----

  predicate RenderedLine(line: string) {
    line != "" && FitLine(line) && StripEnd(line, WHITESPACE) != ""
  }

  predicate StartsTight(line: string) {
    line != "" && line[0] !in WHITESPACE
  }

  lemma NameLineIsRendered(name: string, n: nat, v: string)
    requires IsName(name) && Stripped(v, WHITESPACE) && '\n' !in v
    ensures RenderedLine(name + ":" + (Spaces(n) + v)) && StartsTight(name + ":" + (Spaces(n) + v))
  {
    var line := name + ":" + (Spaces(n) + v);
    LowerOfName(name);
    assert forall ch | ch in name :: IsNameChar(ch);
    KeepsColon(name, Spaces(n) + v);
    EndsWell(name + ":" + Spaces(n), v);
    assert line == name + ":" + Spaces(n) + v;
  }

  /** A line with a colon in it is not all white space. */
  lemma {:induction false} KeepsColon(name: string, rest: string)
    ensures StripEnd(name + ":" + rest, WHITESPACE) != ""
  {
    var line := name + ":" + rest;
    if rest == "" {
      assert line[|line| - 1] == ':';
    } else if line[|line| - 1] in WHITESPACE {
      assert line[..|line| - 1] == name + ":" + rest[..|rest| - 1];
      KeepsColon(name, rest[..|rest| - 1]);
    }
  }

  lemma EndsWell(x: string, v: string)
    requires x != "" && x[0] != '\r' && x[|x| - 1] != '\r' && Stripped(v, WHITESPACE)
    ensures Stripped(x + v, {'\r'})
  {
    var line := x + v;
    assert line[0] == x[0];
    if v == "" {
      assert line == x;
    } else {
      assert line[|line| - 1] == v[|v| - 1];
    }
  }

  lemma ContinuationIsRendered(line: string, ch: char)
    requires Stripped(line, WHITESPACE) && '\n' !in line && ch in [' ', '+', '\t']
    ensures RenderedLine([CharFor(line, ch)] + Spaces(RPSL_ATTRIBUTE_TEXT_WIDTH - 1) + line)
  {
    var head := [CharFor(line, ch)] + Spaces(RPSL_ATTRIBUTE_TEXT_WIDTH - 1);
    EndsWell(head, line);
    if line == "" {
      TrimSpaces("+", RPSL_ATTRIBUTE_TEXT_WIDTH - 1);
      assert head + line == "+" + Spaces(RPSL_ATTRIBUTE_TEXT_WIDTH - 1);
    } else {
      TightConcat(head, line);
      NothingToTrim(head + line);
    }
  }

  lemma AttrLineIsRendered(c: ObjectClass, a: Attr, i: nat)
    requires AttrOk(c, a) && CharsFit(a) && i < |SplitLines(a.value)|
    ensures |AttrLines(a)| == |SplitLines(a.value)| && RenderedLine(AttrLines(a)[i])
    ensures i == 0 ==> StartsTight(AttrLines(a)[0])
  {
    var lines := SplitLines(a.value);
    ValueLines(a.value);
    AttrLineAt(a, i);
    assert lines[i] in lines;
    if i > 0 {
      assert a.chars[i - 1] in a.chars;
      ContinuationIsRendered(lines[i], a.chars[i - 1]);
    } else {
      FirstIsRendered(a.name, lines[0]);
    }
  }

  lemma AttrLinesAreRendered(c: ObjectClass, a: Attr)
    requires AttrOk(c, a) && CharsFit(a)
    ensures forall l | l in AttrLines(a) :: RenderedLine(l)
    ensures StartsTight(AttrLines(a)[0])
  {
    var n := |SplitLines(a.value)|;
    if n == 0 {
      NoPadding(a.name);
      NameLineIsRendered(a.name, 0, "");
    } else {
      AttrLineIsRendered(c, a, 0);
      forall i | 0 <= i < n
        ensures RenderedLine(AttrLines(a)[i])
      {
        AttrLineIsRendered(c, a, i);
      }
    }
  }

  lemma FirstIsRendered(name: string, v: string)
    requires IsName(name) && Stripped(v, WHITESPACE) && '\n' !in v
    ensures RenderedLine(Display(name) + v) && StartsTight(Display(name) + v)
  {
    DisplayIs(name, v);
    NameLineIsRendered(name, Padding(name), v);
  }

  lemma {:induction false} DataLinesAreRendered(c: ObjectClass, data: seq<Attr>)
    requires data != [] && DataOk(c, data) && forall a | a in data :: CharsFit(a)
    ensures DataLines(data) != [] && StartsTight(DataLines(data)[0])
    ensures forall l | l in DataLines(data) :: RenderedLine(l)
    decreases |data|
  {
    AttrLinesAreRendered(c, data[0]);
    if |data| > 1 {
      assert forall a | a in data[1..] :: a in data;
      DataLinesAreRendered(c, data[1..]);
    }
  }

  lemma {:induction false} StripEndOfConcat(x: string, y: string)
    requires StripEnd(y, WHITESPACE) != ""
    ensures StripEnd(x + y, WHITESPACE) == x + StripEnd(y, WHITESPACE)
  {
    var line := x + y;
    assert line[|line| - 1] == y[|y| - 1];
    if y[|y| - 1] in WHITESPACE {
      assert line[..|line| - 1] == x + y[..|y| - 1];
      StripEndOfConcat(x, y[..|y| - 1]);
    }
  }

  /** Stripping the lines with their newlines strips the last line. */
  lemma StripOfUnlines(lines: seq<string>)
    requires lines != [] && (forall l | l in lines :: RenderedLine(l)) && StartsTight(lines[0])
    ensures Strip(Unlines(lines), WHITESPACE) == Join(TrimLast(lines), '\n')
  {
    var init, last := lines[..|lines| - 1], lines[|lines| - 1];
    assert lines == init + [last];
    assert last in lines && lines[0] in lines;
    UnlinesEnds(lines);
    FirstOfJoin(lines);
    StripNewlineEnd(Join(lines, '\n'));
    StripOfJoin(init, last);
  }

  lemma UnlinesEnds(lines: seq<string>)
    requires lines != []
    ensures Unlines(lines) == Join(lines, '\n') + "\n"
  {
    UnlinesIsJoin(lines);
    JoinAppend(lines, [""], '\n');
    assert Join(lines, '\n') + ['\n'] + "" == Join(lines, '\n') + "\n";
  }

  lemma StripNewlineEnd(text: string)
    requires StartsTight(text)
    ensures Strip(text + "\n", WHITESPACE) == StripEnd(text, WHITESPACE)
  {
    var whole := text + "\n";
    assert whole[0] == text[0] && StripStart(whole, WHITESPACE) == whole;
    assert whole[..|whole| - 1] == text && whole[|whole| - 1] in WHITESPACE;
  }

  lemma FirstOfJoin(lines: seq<string>)
    requires lines != [] && lines[0] != ""
    ensures Join(lines, '\n') != "" && Join(lines, '\n')[0] == lines[0][0]
  {
  }

  lemma StripOfJoin(init: seq<string>, last: string)
    requires StripEnd(last, WHITESPACE) != ""
    ensures StripEnd(Join(init + [last], '\n'), WHITESPACE) == Join(init + [StripEnd(last, WHITESPACE)], '\n')
  {
    var trimmed := StripEnd(last, WHITESPACE);
    if init == [] {
      assert init + [last] == [last] && init + [trimmed] == [trimmed];
    } else {
      JoinAppend(init, [last], '\n');
      JoinAppend(init, [trimmed], '\n');
      StripEndOfConcat(Join(init, '\n') + ['\n'], last);
    }
  }

  lemma TrimmedFits(line: string)
    requires RenderedLine(line)
    ensures FitLine(StripEnd(line, WHITESPACE))
  {
    var r := StripEnd(line, WHITESPACE);
    StripEndIs(line, WHITESPACE);
    assert forall ch | ch in r :: ch in line;
    assert r[0] == line[0];
  }

  lemma LinesOfRendered(lines: seq<string>)
    requires lines != [] && (forall l | l in lines :: RenderedLine(l)) && StartsTight(lines[0])
    ensures SplitLines(Strip(Unlines(lines), WHITESPACE)) == TrimLast(lines)
  {
    StripOfUnlines(lines);
    TrimFits(lines);
    SplitLinesOfJoin(TrimLast(lines));
  }

  lemma TrimFits(lines: seq<string>)
    requires lines != [] && forall l | l in lines :: RenderedLine(l)
    ensures var trimmed := TrimLast(lines);
            && (forall l | l in trimmed :: FitLine(l)) && trimmed[0] != "" && trimmed[|trimmed| - 1] != ""
  {
    assert lines[|lines| - 1] in lines && lines[0] in lines;
    TrimmedFits(lines[|lines| - 1]);
    forall l | l in TrimLast(lines)
      ensures FitLine(l)
    {
      assert l in lines || l == StripEnd(lines[|lines| - 1], WHITESPACE);
    }
  }

  // ---- the round trip ----

  /** Extracting what was rendered gives the attributes in order, in their normal form. */
  lemma RoundTrip(c: ObjectClass, data: seq<Attr>)
    requires DataOk(c, data)
    ensures forall a | a in data :: CharsFit(a)
    ensures Extract(c, Render(data)) == Extraction(NormalAll(data), false)
  {
    DataOkFits(c, data);
    if data != [] {
      RenderIsLines(data);
      DataLinesAreRendered(c, data);
      LinesOfRendered(DataLines(data));
      ReadAll(c, data, None);
      assert [] + NormalAll(data) == NormalAll(data);
    }
  }

  // ---- when nothing is lost ----

  /** No empty line at either end of the value, and only `+` on empty lines. */
  predicate IsNormal(a: Attr) {
    var lines := Split(a.value, '\n');
    && (a.value != "" ==> lines[0] != "" && lines[|lines| - 1] != "")
    && PlusOnEmpty(lines[1..], a.chars)
  }

  predicate PlusOnEmpty(lines: seq<string>, chars: seq<char>) {
    forall i | 0 <= i < |lines| && i < |chars| && lines[i] == "" :: chars[i] == '+'
  }

  lemma {:induction false} SameChars(lines: seq<string>, chars: seq<char>)
    requires |lines| == |chars|
    ensures NormalChars(lines, chars) == chars <==> PlusOnEmpty(lines, chars)
  {
    if lines != [] {
      SameChars(lines[1..], chars[1..]);
      assert chars == [chars[0]] + chars[1..];
      assert forall i | 1 <= i < |lines| :: lines[i] == lines[1..][i - 1] && chars[i] == chars[1..][i - 1];
      if NormalChars(lines, chars) == chars {
        assert NormalChars(lines, chars)[1..] == NormalChars(lines[1..], chars[1..]);
      }
      if PlusOnEmpty(lines, chars) {
        assert forall i | 0 <= i < |lines[1..]| && lines[1..][i] == "" :: lines[i + 1] == "" && chars[1..][i] == chars[i + 1];
      }
    }
  }

  lemma TrimmedAlready(lines: seq<string>)
    requires lines != [] && lines[0] != "" && lines[|lines| - 1] != ""
    ensures DropBack(DropFront(lines)) == lines
  {
  }

  /** With a value that has no empty line at either end, only the continuation characters matter. */
  lemma NormalOfTrimmed(c: ObjectClass, a: Attr)
    requires AttrOk(c, a) && CharsFit(a) && a.value != ""
    requires SplitLines(a.value) == Split(a.value, '\n')
    ensures Normal(a) == a <==> PlusOnEmpty(Split(a.value, '\n')[1..], a.chars)
  {
    SameChars(Split(a.value, '\n')[1..], a.chars);
    NormalIs(a);
  }

  lemma NormalIs(a: Attr)
    requires CharsFit(a) && a.value != "" && SplitLines(a.value) == Split(a.value, '\n')
    ensures Normal(a) == Attr(a.name, a.value, NormalChars(Split(a.value, '\n')[1..], a.chars))
  {
    JoinSplit(a.value, '\n');
  }

  lemma LinesOfNormal(c: ObjectClass, a: Attr)
    requires AttrOk(c, a) && CharsFit(a) && a.value != "" && Normal(a) == a
    ensures SplitLines(a.value) == Split(a.value, '\n')
  {
    ValueLines(a.value);
    SplitJoin(SplitLines(a.value), '\n');
  }

  lemma IsNormalSuffices(c: ObjectClass, a: Attr)
    requires AttrOk(c, a) && CharsFit(a) && a.value != "" && IsNormal(a)
    ensures Normal(a) == a
  {
    ValueLines(a.value);
    TrimmedAlready(Split(a.value, '\n'));
    NormalOfTrimmed(c, a);
  }

  lemma IsNormalIsNeeded(c: ObjectClass, a: Attr)
    requires AttrOk(c, a) && CharsFit(a) && a.value != "" && Normal(a) == a
    ensures IsNormal(a)
  {
    LinesOfNormal(c, a);
    NormalOfTrimmed(c, a);
    LastValueLine(a.value);
    JoinSplit(a.value, '\n');
  }

  /** An attribute survives exactly when its value has no empty line at either end and its empty lines have a `+`. */
  lemma NormalIff(c: ObjectClass, a: Attr)
    requires AttrOk(c, a)
    ensures CharsFit(a) && (Normal(a) == a <==> IsNormal(a))
  {
    AttrOkFits(c, a);
    if a.value == "" {
      assert Normal(a) == a;
    } else if IsNormal(a) {
      IsNormalSuffices(c, a);
    } else if Normal(a) == a {
      IsNormalIsNeeded(c, a);
    }
  }

  predicate AllNormal(data: seq<Attr>) {
    forall a | a in data :: IsNormal(a)
  }

  lemma AllNormalNext(data: seq<Attr>)
    requires data != []
    ensures AllNormal(data) <==> IsNormal(data[0]) && AllNormal(data[1..])
  {
    assert data == [data[0]] + data[1..];
  }

  lemma {:induction false} NormalAllIff(c: ObjectClass, data: seq<Attr>)
    requires DataOk(c, data) && forall a | a in data :: CharsFit(a)
    ensures NormalAll(data) == data <==> AllNormal(data)
  {
    if data != [] {
      NormalIff(c, data[0]);
      assert forall a | a in data[1..] :: a in data;
      NormalAllIff(c, data[1..]);
      AllNormalNext(data);
      NormalAllNext(data);
    }
  }

  lemma NormalAllNext(data: seq<Attr>)
    requires data != [] && forall a | a in data :: CharsFit(a)
    ensures NormalAll(data) == data <==> Normal(data[0]) == data[0] && NormalAll(data[1..]) == data[1..]
  {
    assert data == [data[0]] + data[1..];
    assert NormalAll(data)[0] == Normal(data[0]) && NormalAll(data)[1..] == NormalAll(data[1..]);
  }

  /** Extraction undoes rendering exactly when every attribute is in normal form. */
  lemma NothingIsLost(c: ObjectClass, data: seq<Attr>)
    requires DataOk(c, data)
    ensures forall a | a in data :: CharsFit(a)
    ensures Extract(c, Render(data)) == Extraction(data, false) <==> AllNormal(data)
  {
    RoundTrip(c, data);
    NormalAllIff(c, data);
  }

  /** Whatever text was extracted, rendering it and extracting again gives the same attributes in normal form. */
  lemma AnyTextAgain(c: ObjectClass, text: string)
    requires AllowedAreNames(c)
    ensures var data := Extract(c, text).data;
            && (forall a | a in data :: CharsFit(a))
            && Extract(c, Render(data)) == Extraction(NormalAll(data), false)
  {
    ExtractIsOk(c, text);
    RoundTrip(c, Extract(c, text).data);
  }

  /** A value that ends in an empty line does not come back. */
  lemma EmptyLastLineIsLost(c: ObjectClass)
    requires "descr" !in c.discardedFields
    ensures var data := [Attr("descr", "text\n", ['+'])];
            && DataOk(c, data) && CharsFit(data[0])
            && Extract(c, Render(data)) != Extraction(data, false)
  {
    var a := Attr("descr", "text\n", ['+']);
    LinesOfExample();
    assert AttrOk(c, a) && !IsNormal(a);
    NothingIsLost(c, [a]);
    assert a in [a];
  }

  lemma LinesOfExample()
    ensures Split("text\n", '\n') == ["text", ""] && LinesStripped(["text", ""]) && IsName("descr")
  {
    assert "text\n" == "text" + ['\n'] + "";
    SplitAtSeparator("text", "", '\n');
    SplitOfWhole("text", '\n');
  }
}
