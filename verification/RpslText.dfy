/** RPSL object text: extracting attributes with line continuation, and rendering them. */
module RpslText {
  import opened Store
  import opened Text

  const RPSL_ATTRIBUTE_TEXT_WIDTH := 16

  /** An attribute: its name, its value with newlines between continued lines, and the continuation characters. */
  datatype Attr = Attr(name: string, value: string, chars: seq<char>)

  /** What extraction leaves: the attributes, and whether it stopped at an error. */
  datatype Extraction = Extraction(data: seq<Attr>, failed: bool)

  datatype ObjectClass = ObjectClass(attrsAllowed: set<string>, discardedFields: set<string>)

  function LowerChar(c: char): char {
    if 'A' <= c <= 'Z' then c - 'A' + 'a' else c
  }

  function Lower(s: string): string {
    seq(|s|, i requires 0 <= i < |s| => LowerChar(s[i]))
  }

  predicate IsNameChar(c: char) {
    'a' <= c <= 'z' || '0' <= c <= '9' || c == '_' || c == '-'
  }

  predicate IsName(s: string) {
    s != "" && forall c | c in s :: IsNameChar(c)
  }

  predicate IsContinuation(line: string) {
    line != "" && line[0] in [' ', '+', '\t']
  }

  /** The position of the first colon; the length of the line if there is none. */
  function FirstColon(line: string): (n: nat)
    ensures n <= |line| && (n < |line| ==> line[n] == ':') && (n == |line| ==> ':' !in line)
  {
    if line == "" || line[0] == ':' then 0 else 1 + FirstColon(line[1..])
  }

  function NameIn(line: string): string {
    Lower(line[..FirstColon(line)])
  }

  function ValueIn(line: string): string
    requires ':' in line
  {
    Strip(line[FirstColon(line) + 1..], WHITESPACE)
  }

  predicate Accepts(c: ObjectClass, name: string) {
    name in c.attrsAllowed || IsName(name)
  }

  function Continued(a: Attr, line: string): Attr
    requires line != ""
  {
    a.(value := a.value + "\n" + Strip(line[1..], WHITESPACE), chars := a.chars + [line[0]])
  }

  /** The attribute is kept unless it is one of the discarded. */
  function Flush(c: ObjectClass, current: Option<Attr>): seq<Attr> {
    if current.Some? && current.value.name !in c.discardedFields then [current.value] else []
  }

  /** What one line does: it ends the extraction with an error, or it goes on with another or a longer
      attribute; either way attributes may be complete. */
  datatype LineEffect = Stop(saved: seq<Attr>) | Go(saved: seq<Attr>, current: Option<Attr>)

  function ReadLine(c: ObjectClass, line: string, current: Option<Attr>): LineEffect {
    if line == "" then Stop([])
    else if IsContinuation(line) then Go([], if current.Some? then Some(Continued(current.value, line)) else None)
    else if ':' !in line || !Accepts(c, NameIn(line)) then Stop(Flush(c, current))
    else Go(Flush(c, current), Some(Attr(NameIn(line), ValueIn(line), [])))
  }

  /** Behind what has been saved already. */
  function Behind(before: seq<Attr>, rest: Extraction): Extraction {
    Extraction(before + rest.data, rest.failed)
  }

  /** Reads the lines of an object behind the attribute that is being read. */
  function Scan(c: ObjectClass, lines: seq<string>, current: Option<Attr>): Extraction {
    if lines == [] then Extraction(Flush(c, current), false)
    else
      match ReadLine(c, lines[0], current)
      case Stop(saved) => Extraction(saved, true)
      case Go(saved, next) => Behind(saved, Scan(c, lines[1..], next))
  }

  function Extract(c: ObjectClass, text: string): Extraction {
    Scan(c, SplitLines(Strip(text, WHITESPACE)), None)
  }

  // ---- rendering ----

  function Spaces(n: nat): string {
    seq(n, _ => ' ')
  }

  /** The name and a colon, filled up to the width. */
  function Display(name: string): string {
    name + ":" + Spaces(if |name| + 1 < RPSL_ATTRIBUTE_TEXT_WIDTH then RPSL_ATTRIBUTE_TEXT_WIDTH - |name| - 1 else 0)
  }

  /** The continuation character of a line: `+` if there is nothing on it. */
  function CharFor(line: string, c: char): char {
    if line == "" then '+' else c
  }

  function Continuations(lines: seq<string>, chars: seq<char>): seq<string>
    requires |lines| <= |chars|
  {
    if lines == [] then []
    else [[CharFor(lines[0], chars[0])] + Spaces(RPSL_ATTRIBUTE_TEXT_WIDTH - 1) + lines[0]] + Continuations(lines[1..], chars[1..])
  }

  /** There is a continuation character for every line but the first. */
  predicate CharsFit(a: Attr) {
    |SplitLines(a.value)| <= |a.chars| + 1
  }

  function AttrLines(a: Attr): seq<string>
    requires CharsFit(a)
  {
    var lines := SplitLines(a.value);
    if lines == [] then [a.name + ":"] else [Display(a.name) + lines[0]] + Continuations(lines[1..], a.chars)
  }

  function Render(data: seq<Attr>): string
    requires forall a | a in data :: CharsFit(a)
  {
    if data == [] then "" else Unlines(AttrLines(data[0])) + Render(data[1..])
  }

  class RPSLObject {
    const objectClass: ObjectClass
    var objectData: seq<Attr>
    var failed: bool

    constructor (objectClass: ObjectClass)
      ensures this.objectClass == objectClass && objectData == [] && !failed
    {
      this.objectClass, objectData, failed := objectClass, [], false;
    }

    method ExtractAttributesValues(text: string)
      requires objectData == [] && !failed
      modifies this
      ensures Extraction(objectData, failed) == Extract(objectClass, text)
    {
      ExtractLines(SplitLines(Strip(text, WHITESPACE)));
    }

    method ExtractLines(lines: seq<string>)
      requires objectData == [] && !failed
      modifies this
      ensures Extraction(objectData, failed) == Scan(objectClass, lines, None)
    {
      var currentAttr: Option<string> := None;
      var currentValue := "";
      var currentContinuationChars: seq<char> := [];
      ghost var all := Scan(objectClass, lines, None);
      var i := 0;
      while i < |lines|
        invariant i <= |lines| && !failed
        invariant all == Behind(objectData, Scan(objectClass, lines[i..], Current(currentAttr, currentValue, currentContinuationChars)))
      {
        ScanNext(objectClass, lines[i..], Current(currentAttr, currentValue, currentContinuationChars), objectData);
        assert lines[i..][0] == lines[i] && lines[i..][1..] == lines[i + 1..];
        currentAttr, currentValue, currentContinuationChars :=
          ExtractLine(lines[i], currentAttr, currentValue, currentContinuationChars);
        if failed { return; }
        i := i + 1;
      }
      Save(currentAttr, currentValue, currentContinuationChars);
    }

    method ExtractLine(line: string, attr: Option<string>, value: string, chars: seq<char>)
      returns (currentAttr: Option<string>, currentValue: string, currentContinuationChars: seq<char>)
      requires !failed
      modifies this
      ensures var effect := ReadLine(objectClass, line, Current(attr, value, chars));
              && failed == effect.Stop? && objectData == old(objectData) + effect.saved
              && (effect.Go? ==> effect.current == Current(currentAttr, currentValue, currentContinuationChars))
    {
      currentAttr, currentValue, currentContinuationChars := attr, value, chars;
      if line == "" {
        failed := true;
        return;
      }
      if IsContinuation(line) {
        currentValue := currentValue + "\n" + Strip(line[1..], WHITESPACE);
        currentContinuationChars := currentContinuationChars + [line[0]];
      } else {
        Save(currentAttr, currentValue, currentContinuationChars);
        if ':' !in line {
          failed := true;
          return;
        }
        currentAttr, currentValue, currentContinuationChars := Some(NameIn(line)), ValueIn(line), [];
        if !Accepts(objectClass, NameIn(line)) {
          failed := true;
        }
      }
    }

    method Save(name: Option<string>, value: string, chars: seq<char>)
      modifies this
      ensures objectData == old(objectData) + Flush(objectClass, Current(name, value, chars)) && failed == old(failed)
    {
      if name.Some? && name.value !in objectClass.discardedFields {
        objectData := objectData + [Attr(name.value, value, chars)];
      }
    }

    /** The text of the object; with a time stamp, that replaces the last-modified attributes there are. */
    method RenderRpslText(lastModified: Option<string>) returns (output: string)
      requires forall a | a in objectData :: CharsFit(a)
      ensures lastModified.None? ==> output == Render(objectData)
      ensures lastModified.Some? ==>
        output == Render(Without(objectData)) + Display(LAST_MODIFIED) + lastModified.value + "\n"
    {
      output := RenderAttributes(lastModified);
      ShownIsRender(objectData, lastModified);
      if lastModified.Some? {
        output := output + Display(LAST_MODIFIED);
        output := output + lastModified.value;
        output := output + "\n";
      }
    }

    method RenderAttributes(lastModified: Option<string>) returns (output: string)
      requires forall a | a in objectData :: CharsFit(a)
      ensures output == RenderShown(objectData, lastModified)
    {
      output := "";
      ghost var all := RenderShown(objectData, lastModified);
      for i := 0 to |objectData|
        invariant output + RenderShown(objectData[i..], lastModified) == all
      {
        ghost var rest := objectData[i..];
        RenderNext(rest, lastModified, output);
        assert rest[0] == objectData[i] && rest[1..] == objectData[i + 1..];
        if !(lastModified.Some? && objectData[i].name == LAST_MODIFIED) {
          var text := RenderAttr(objectData[i]);
          output := output + text;
        }
      }
    }
  }

  lemma RenderNext(data: seq<Attr>, lastModified: Option<string>, before: string)
    requires data != [] && forall a | a in data :: CharsFit(a)
    ensures before + RenderShown(data, lastModified)
         == (if lastModified.Some? && data[0].name == LAST_MODIFIED then before else before + Unlines(AttrLines(data[0])))
            + RenderShown(data[1..], lastModified)
  {
  }

  lemma ScanNext(c: ObjectClass, lines: seq<string>, current: Option<Attr>, before: seq<Attr>)
    requires lines != []
    ensures var effect := ReadLine(c, lines[0], current);
            Behind(before, Scan(c, lines, current))
            == if effect.Stop? then Extraction(before + effect.saved, true)
               else Behind(before + effect.saved, Scan(c, lines[1..], effect.current))
  {
  }

  function RenderShown(data: seq<Attr>, lastModified: Option<string>): string
    requires forall a | a in data :: CharsFit(a)
  {
    if data == [] then ""
    else if lastModified.Some? && data[0].name == LAST_MODIFIED then RenderShown(data[1..], lastModified)
    else Unlines(AttrLines(data[0])) + RenderShown(data[1..], lastModified)
  }

  lemma {:induction false} ShownIsRender(data: seq<Attr>, lastModified: Option<string>)
    requires forall a | a in data :: CharsFit(a)
    ensures RenderShown(data, lastModified) == Render(if lastModified.Some? then Without(data) else data)
  {
    if data != [] {
      ShownIsRender(data[1..], lastModified);
      if lastModified.Some? {
        var rest := Without(data[1..]);
        assert [] + rest == rest && ([data[0]] + rest)[1..] == rest;
      }
    }
  }

  function Current(name: Option<string>, value: string, chars: seq<char>): Option<Attr> {
    if name.Some? then Some(Attr(name.value, value, chars)) else None
  }

  method RenderAttr(a: Attr) returns (output: string)
    requires CharsFit(a)
    ensures output == Unlines(AttrLines(a))
  {
    var valueLines := SplitLines(a.value);
    output := "";
    ghost var all := AttrLines(a);
    if valueLines == [] {
      output := output + a.name + ":\n";
      UnlinesOfOne(a.name + ":");
      return;
    }
    AttrLineAt(a, 0);
    for idx := 0 to |valueLines|
      invariant |all| == |valueLines| && output == Unlines(all[..idx])
    {
      AttrLineAt(a, idx);
      var line := valueLines[idx];
      if idx == 0 {
        output := output + (Display(a.name) + line);
      } else {
        var continuationChar := a.chars[idx - 1];
        if line == "" { continuationChar := '+'; }
        output := output + ([continuationChar] + Spaces(RPSL_ATTRIBUTE_TEXT_WIDTH - 1) + line);
      }
      output := output + "\n";
      OneMoreLine(all, idx, output);
    }
    assert all[..|all|] == all;
  }

  lemma OneMoreLine(all: seq<string>, idx: nat, output: string)
    requires idx < |all| && output == Unlines(all[..idx]) + all[idx] + "\n"
    ensures output == Unlines(all[..idx + 1])
  {
    UnlinesAppend(all[..idx], [all[idx]]);
    UnlinesOfOne(all[idx]);
    assert all[..idx + 1] == all[..idx] + [all[idx]];
  }

  lemma AttrLineAt(a: Attr, idx: nat)
    requires CharsFit(a) && idx < |SplitLines(a.value)|
    ensures var lines := SplitLines(a.value);
            && |AttrLines(a)| == |lines|
            && AttrLines(a)[idx] == if idx == 0 then Display(a.name) + lines[0]
                                    else [CharFor(lines[idx], a.chars[idx - 1])] + Spaces(RPSL_ATTRIBUTE_TEXT_WIDTH - 1) + lines[idx]
  {
    var lines := SplitLines(a.value);
    ContinuationsAre(lines[1..], a.chars);
  }

  lemma {:induction false} ContinuationsAre(lines: seq<string>, chars: seq<char>)
    requires |lines| <= |chars|
    ensures |Continuations(lines, chars)| == |lines|
    ensures forall i | 0 <= i < |lines| ::
      Continuations(lines, chars)[i] == [CharFor(lines[i], chars[i])] + Spaces(RPSL_ATTRIBUTE_TEXT_WIDTH - 1) + lines[i]
  {
    if lines != [] {
      ContinuationsAre(lines[1..], chars[1..]);
    }
  }

  const LAST_MODIFIED := "last-modified"

  function Without(data: seq<Attr>): (r: seq<Attr>)
    ensures forall a | a in r :: a in data
  {
    if data == [] then []
    else (if data[0].name == LAST_MODIFIED then [] else [data[0]]) + Without(data[1..])
  }
}
