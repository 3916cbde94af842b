/** Which NRTM streams the parser accepts, and with which operations, told by the kinds of their paragraphs. */
module Nrtm3Streams {
  import opened Journal
  import opened Store
  import opened Text
  import opened Nrtm3Parser
  import Nrtm3Grammar

  /** A paragraph of a stream; an operation comes with the one behind it, or is cut off without it. */
  datatype Token = StartToken(start: Start) | CommentToken(text: string) | OperationToken(line: string, text: string)
                 | CutToken | OtherToken

  function Tokens(paragraphs: seq<string>): seq<Token>
    decreases |paragraphs|
  {
    if paragraphs == [] then []
    else
      var p, rest := paragraphs[0], paragraphs[1..];
      if ParseStart(p).Some? then [StartToken(ParseStart(p).value)] + Tokens(rest)
      else if p != "" && p[0] in {'%', '#'} then [CommentToken(p)] + Tokens(rest)
      else if |p| < 3 || p[..3] !in {"ADD", "DEL"} then [OtherToken] + Tokens(rest)
      else if rest == [] then [CutToken]
      else [OperationToken(p, rest[0])] + Tokens(rest[1..])
  }

  function OperationsIn(tokens: seq<Token>): seq<Token> {
    if tokens == [] then []
    else (if tokens[0].OperationToken? then [tokens[0]] else []) + OperationsIn(tokens[1..])
  }

  function LastComment(tokens: seq<Token>, before: string): string {
    if tokens == [] then before
    else LastComment(tokens[1..], if tokens[0].CommentToken? then tokens[0].text else before)
  }

  /** The paragraph names the operation, alone or with its serial; alone it gets the next serial,
      and a serial of its own is not below that. */
  ghost predicate Means(t: Token, op: NrtmOperation, next: int) {
    && t.OperationToken? && op.text == t.text
    && var name := if op.op == AddOrUpdate then "ADD" else "DEL";
       if ' ' !in t.line then Strip(t.line, WHITESPACE) == name && op.serial == next
       else next <= op.serial && exists number :: Nrtm3Grammar.NamesSerial(t.line, name, number, op.serial)
  }

  /** The operations are those of the paragraphs in order: without a serial of its own, the first gets the first serial,
      and each other one more than the operation before it. */
  ghost predicate AllMean(ts: seq<Token>, ops: seq<NrtmOperation>, first: int) {
    if ts == [] || ops == [] then ts == [] && ops == []
    else Means(ts[0], ops[0], first) && AllMean(ts[1..], ops[1..], ops[0].serial + 1)
  }

  predicate Has(tokens: seq<Token>, i: nat) {
    i < |tokens| && tokens[i].StartToken?
  }

  /** A stream without a START line has no operations and takes nothing. Otherwise it has one, for the source, of version
      1 or 3, and before any operation; the last comment is the END line of the source; no operation is cut off; all
      can be read; and in version 1 none is beyond the last serial of the START line. */
  ghost predicate Accepted(source: string, tokens: seq<Token>, ops: seq<NrtmOperation>, recorded: Option<nat>) {
    && CutToken !in tokens
    && if forall i: nat :: !Has(tokens, i) then
         OperationsIn(tokens) == [] && ops == [] && recorded == None
       else
         && Strip(Upper(LastComment(tokens, "")), WHITESPACE) == "%END " + source
         && exists i: nat :: Has(tokens, i) && AcceptedAt(source, tokens, i, ops, recorded)
  }

  ghost predicate AcceptedAt(source: string, tokens: seq<Token>, i: nat, ops: seq<NrtmOperation>, recorded: Option<nat>)
    requires Has(tokens, i)
  {
    var start := tokens[i].start;
    && (forall j: nat | Has(tokens, j) :: j == i) && OperationsIn(tokens[..i]) == []
    && Upper(start.source) == source && start.version in {"1", "3"}
    && AllMean(OperationsIn(tokens[i + 1..]), ops, start.firstSerial)
    && (start.version == "3" || ops == [] || ops[|ops| - 1].serial <= start.lastSerial)
    && recorded == if start.lastSerial > 0 then Some(start.lastSerial) else None
  }

  // ---- the parser takes the paragraphs one by one ----

  function TokenStep(st: Stream, source: string, t: Token): Option<Stream> {
    match t
    case StartToken(start) => StartStream(st, source, start)
    case CommentToken(text) => Some(st.(lastCommentSeen := text))
    case OperationToken(line, text) => AddOperation(st, line, text)
    case CutToken => None
    case OtherToken => Some(st)
  }

  function Folded(st: Stream, source: string, tokens: seq<Token>): Option<Stream>
    decreases |tokens|
  {
    if tokens == [] then Some(st)
    else
      var next := TokenStep(st, source, tokens[0]);
      if next == None then None else Folded(next.value, source, tokens[1..])
  }

  lemma FoldedFirst(st: Stream, source: string, t: Token, rest: seq<Token>)
    ensures Folded(st, source, [t] + rest)
         == var next := TokenStep(st, source, t); if next == None then None else Folded(next.value, source, rest)
  {
    assert ([t] + rest)[1..] == rest;
  }

  lemma KindOf(p: string)
    ensures IsComment(p) <==> p != "" && p[0] in {'%', '#'}
    ensures IsOperation(p) <==> |p| >= 3 && p[..3] in {"ADD", "DEL"}
  {
    assert StartsWith(p, "%") <==> p != "" && p[0] == '%';
    assert StartsWith(p, "#") <==> p != "" && p[0] == '#';
    assert StartsWith(p, "ADD") <==> |p| >= 3 && p[..3] == "ADD";
    assert StartsWith(p, "DEL") <==> |p| >= 3 && p[..3] == "DEL";
  }

  lemma {:induction false} ConsumeIsFolded(st: Stream, source: string, paragraphs: seq<string>)
    ensures Consume(st, source, paragraphs) == Folded(st, source, Tokens(paragraphs))
    decreases |paragraphs|
  {
    if paragraphs != [] {
      var p, rest := paragraphs[0], paragraphs[1..];
      KindOf(p);
      var behind := if !ParseStart(p).Some? && !IsComment(p) && IsOperation(p) && rest != [] then rest[1..] else rest;
      FoldedFirst(st, source, Tokens(paragraphs)[0], Tokens(behind));
      var next := TokenStep(st, source, Tokens(paragraphs)[0]);
      if next.Some? { ConsumeIsFolded(next.value, source, behind); }
    }
  }

  // ---- behind the START line ----

  lemma ReadsAsMeant(st: Stream, t: Token, op: NrtmOperation)
    requires t.OperationToken? && st.nrtmSource.Some?
    ensures AddOperation(st, t.line, t.text) == Some(st.(currentOpSerial := op.serial, operations := st.operations + [op]))
        <==> Means(t, op, ExpectedSerial(st))
  {
    Nrtm3Grammar.OperationExactly(st, t.line, op.op, op.serial);
    if AddOperation(st, t.line, t.text) == Some(st.(currentOpSerial := op.serial, operations := st.operations + [op])) {
      var read := ReadOperation(st, t.line).value;
      var made := NrtmOperation(read.0, read.1, t.text);
      assert (st.operations + [made])[|st.operations|] == made && (st.operations + [op])[|st.operations|] == op;
    }
  }

  /** The state of a parser that can count on from its last serial. */
  predicate Counting(st: Stream) {
    st.nrtmSource.Some? && st.currentOpSerial >= -1 && st.firstSerial >= 0
  }

  function AfterOps(st: Stream, tokens: seq<Token>, ops: seq<NrtmOperation>): Stream {
    st.(lastCommentSeen := LastComment(tokens, st.lastCommentSeen), operations := st.operations + ops,
        currentOpSerial := if ops == [] then st.currentOpSerial else ops[|ops| - 1].serial)
  }

  predicate Quiet(tokens: seq<Token>) {
    forall t | t in tokens :: !t.StartToken? && !t.CutToken?
  }

  lemma AllMeanNext(t: Token, ts: seq<Token>, op: NrtmOperation, ops: seq<NrtmOperation>, first: int)
    ensures AllMean([t] + ts, [op] + ops, first) <==> Means(t, op, first) && AllMean(ts, ops, op.serial + 1)
  {
    assert ([t] + ts)[1..] == ts && ([op] + ops)[1..] == ops;
  }

  function AfterOp(st: Stream, op: NrtmOperation): Stream {
    st.(currentOpSerial := op.serial, operations := st.operations + [op])
  }

  lemma AfterOpsNext(st: Stream, t: Token, rest: seq<Token>, op: NrtmOperation, ops: seq<NrtmOperation>)
    requires t.OperationToken?
    ensures AfterOps(AfterOp(st, op), rest, ops)
         == AfterOps(st, [t] + rest, [op] + ops)
  {
    assert ([t] + rest)[1..] == rest;
    Associative(st.operations, [op], ops);
  }

  lemma OtherTokenNext(st: Stream, source: string, t: Token, rest: seq<Token>, ops: seq<NrtmOperation>)
    requires t.CommentToken? || t.OtherToken?
    ensures var next := TokenStep(st, source, t);
            && next.Some? && next.value == st.(lastCommentSeen := next.value.lastCommentSeen)
            && AfterOps(next.value, rest, ops) == AfterOps(st, [t] + rest, ops)
            && OperationsIn([t] + rest) == OperationsIn(rest)
  {
    assert ([t] + rest)[1..] == rest;
  }

  lemma OperationStep(st: Stream, source: string, t: Token, rest: seq<Token>, op: NrtmOperation)
    requires Counting(st) && t.OperationToken? && Means(t, op, ExpectedSerial(st))
    ensures TokenStep(st, source, t) == Some(AfterOp(st, op))
    ensures Counting(AfterOp(st, op)) && ExpectedSerial(AfterOp(st, op)) == op.serial + 1
    ensures Folded(st, source, [t] + rest) == Folded(AfterOp(st, op), source, rest)
    ensures OperationsIn([t] + rest) == [t] + OperationsIn(rest)
  {
    ReadsAsMeant(st, t, op);
    FoldedFirst(st, source, t, rest);
    assert ([t] + rest)[1..] == rest;
  }

  lemma ReadOperationMeans(st: Stream, source: string, t: Token) returns (op: NrtmOperation)
    requires Counting(st) && t.OperationToken? && TokenStep(st, source, t).Some?
    ensures Means(t, op, ExpectedSerial(st))
  {
    var read := ReadOperation(st, t.line).value;
    op := NrtmOperation(read.0, read.1, t.text);
    ReadsAsMeant(st, t, op);
  }

  lemma QuietNext(t: Token, rest: seq<Token>)
    ensures Quiet([t] + rest) <==> !t.StartToken? && !t.CutToken? && Quiet(rest)
  {
    assert t in [t] + rest;
    assert forall x :: x in [t] + rest <==> x == t || x in rest;
  }

  /** What has been read behind a START line can be told by operations that the paragraphs mean. */
  lemma {:induction false} FoldedMeans(st: Stream, source: string, tokens: seq<Token>) returns (ops: seq<NrtmOperation>)
    requires Counting(st) && Folded(st, source, tokens).Some?
    ensures Quiet(tokens) && AllMean(OperationsIn(tokens), ops, ExpectedSerial(st))
    ensures Folded(st, source, tokens) == Some(AfterOps(st, tokens, ops))
    decreases |tokens|
  {
    if tokens == [] {
      ops := [];
      assert st.operations + [] == st.operations;
    } else {
      var t, rest := tokens[0], tokens[1..];
      assert tokens == [t] + rest;
      QuietNext(t, rest);
      if t.OperationToken? {
        var op := ReadOperationMeans(st, source, t);
        OperationStep(st, source, t, rest, op);
        var more := FoldedMeans(AfterOp(st, op), source, rest);
        ops := [op] + more;
        AllMeanNext(t, OperationsIn(rest), op, more, ExpectedSerial(st));
        AfterOpsNext(st, t, rest, op, more);
      } else {
        ops := FoldedMeans(TokenStep(st, source, t).value, source, rest);
        OtherTokenNext(st, source, t, rest, ops);
      }
    }
  }

  lemma {:induction false} MeaningIsFolded(st: Stream, source: string, tokens: seq<Token>, ops: seq<NrtmOperation>)
    requires Counting(st) && Quiet(tokens) && AllMean(OperationsIn(tokens), ops, ExpectedSerial(st))
    ensures Folded(st, source, tokens) == Some(AfterOps(st, tokens, ops))
    decreases |tokens|
  {
    if tokens == [] {
      assert st.operations + [] == st.operations;
    } else {
      var t, rest := tokens[0], tokens[1..];
      assert tokens == [t] + rest;
      QuietNext(t, rest);
      if t.OperationToken? {
        var op, more := ops[0], ops[1..];
        assert ops == [op] + more;
        assert OperationsIn(tokens) == [t] + OperationsIn(rest);
        AllMeanNext(t, OperationsIn(rest), op, more, ExpectedSerial(st));
        OperationStep(st, source, t, rest, op);
        MeaningIsFolded(AfterOp(st, op), source, rest, more);
        AfterOpsNext(st, t, rest, op, more);
      } else {
        OtherTokenNext(st, source, t, rest, ops);
        MeaningIsFolded(TokenStep(st, source, t).value, source, rest, ops);
      }
    }
  }

  // ---- the whole stream ----

  /** Before the START line there are only comments, and paragraphs that mean nothing. */
  predicate Silent(tokens: seq<Token>) {
    forall t | t in tokens :: t.CommentToken? || t.OtherToken?
  }

  lemma {:induction false} FoldedSilent(st: Stream, source: string, before: seq<Token>, behind: seq<Token>)
    requires Silent(before)
    ensures Folded(st, source, before + behind)
         == Folded(st.(lastCommentSeen := LastComment(before, st.lastCommentSeen)), source, behind)
    decreases |before|
  {
    if before == [] {
      assert before + behind == behind;
    } else {
      var t, rest := before[0], before[1..];
      assert t in before && before + behind == [t] + (rest + behind);
      FoldedFirst(st, source, t, rest + behind);
      FoldedSilent(TokenStep(st, source, t).value, source, rest, behind);
    }
  }

  /** The tokens up to the first that is neither a comment nor meaningless. */
  lemma {:induction false} SilentPart(tokens: seq<Token>) returns (i: nat)
    ensures i <= |tokens| && Silent(tokens[..i])
    ensures i < |tokens| ==> !tokens[i].CommentToken? && !tokens[i].OtherToken?
  {
    i := 0;
    if tokens != [] && (tokens[0].CommentToken? || tokens[0].OtherToken?) {
      var n := SilentPart(tokens[1..]);
      i := n + 1;
      assert tokens[..i] == [tokens[0]] + tokens[1..][..n];
    }
  }

  lemma {:induction false} LastCommentConcat(a: seq<Token>, b: seq<Token>, before: string)
    ensures LastComment(a + b, before) == LastComment(b, LastComment(a, before))
    decreases |a|
  {
    if a == [] {
      assert a + b == b;
    } else {
      assert (a + b)[1..] == a[1..] + b;
      LastCommentConcat(a[1..], b, if a[0].CommentToken? then a[0].text else before);
    }
  }

  lemma {:induction false} NoOperationsIn(tokens: seq<Token>)
    ensures OperationsIn(tokens) == [] <==> forall t | t in tokens :: !t.OperationToken?
  {
    if tokens != [] {
      NoOperationsIn(tokens[1..]);
      assert forall t :: t in tokens <==> t == tokens[0] || t in tokens[1..];
    }
  }

  lemma StartsExactly(c: string, source: string, start: Start)
    ensures var next := StartStream(EMPTY_STREAM.(lastCommentSeen := c), source, start);
            (next.Some? <==> Upper(start.source) == source && start.version in {"1", "3"})
            && (next.Some? ==> next.value == Stream(start.version, Some(source), start.firstSerial, start.lastSerial, -1, [], c))
  {
  }

  /** The stream as read, if it was, ends with these operations and this newest serial. */
  predicate EndsWith(end: Option<Stream>, source: string, ops: seq<NrtmOperation>, recorded: Option<nat>) {
    end.Some? && Finish(end.value, source) == Parsed(ops, recorded)
  }

  /** What is asked of the part behind the START line. */
  ghost predicate AcceptedBehind(source: string, start: Start, rest: seq<Token>, comment: string,
                                 ops: seq<NrtmOperation>, recorded: Option<nat>)
  {
    && Quiet(rest) && AllMean(OperationsIn(rest), ops, start.firstSerial)
    && Strip(Upper(LastComment(rest, comment)), WHITESPACE) == "%END " + source
    && (start.version == "3" || ops == [] || ops[|ops| - 1].serial <= start.lastSerial)
    && recorded == if start.lastSerial > 0 then Some(start.lastSerial) else None
  }

  lemma FinishAfterOps(st: Stream, source: string, start: Start, rest: seq<Token>, ops: seq<NrtmOperation>, recorded: Option<nat>)
    requires st == Stream(start.version, Some(source), start.firstSerial, start.lastSerial, -1, [], st.lastCommentSeen)
    ensures Finish(AfterOps(st, rest, ops), source) == Parsed(ops, recorded)
        <==> && Strip(Upper(LastComment(rest, st.lastCommentSeen)), WHITESPACE) == "%END " + source
             && (start.version == "3" || ops == [] || ops[|ops| - 1].serial <= start.lastSerial)
             && recorded == if start.lastSerial > 0 then Some(start.lastSerial) else None
  {
    assert [] + ops == ops;
  }

  lemma BehindStart(st: Stream, source: string, start: Start, rest: seq<Token>, ops: seq<NrtmOperation>, recorded: Option<nat>)
    requires st == Stream(start.version, Some(source), start.firstSerial, start.lastSerial, -1, [], st.lastCommentSeen)
    ensures EndsWith(Folded(st, source, rest), source, ops, recorded)
        <==> AcceptedBehind(source, start, rest, st.lastCommentSeen, ops, recorded)
  {
    if Folded(st, source, rest).Some? {
      var read := FoldedMeans(st, source, rest);
      FinishAfterOps(st, source, start, rest, read, recorded);
      assert AfterOps(st, rest, read).operations == read;
    }
    if AcceptedBehind(source, start, rest, st.lastCommentSeen, ops, recorded) {
      MeaningIsFolded(st, source, rest, ops);
      FinishAfterOps(st, source, start, rest, ops, recorded);
    }
  }

  lemma LastCommentAround(tokens: seq<Token>, i: nat)
    requires Has(tokens, i)
    ensures LastComment(tokens, "") == LastComment(tokens[i + 1..], LastComment(tokens[..i], ""))
  {
    var start, before, rest := tokens[i], tokens[..i], tokens[i + 1..];
    assert tokens == before + ([start] + rest);
    LastCommentConcat(before, [start] + rest, "");
    assert ([start] + rest)[1..] == rest;
  }

  lemma SilentHasNoOperations(tokens: seq<Token>)
    requires Silent(tokens)
    ensures OperationsIn(tokens) == []
  {
    NoOperationsIn(tokens);
  }

  /** With the START line first but for comments. */
  lemma AcceptedFrom(source: string, tokens: seq<Token>, i: nat, ops: seq<NrtmOperation>, recorded: Option<nat>)
    requires Has(tokens, i) && Silent(tokens[..i])
    ensures Accepted(source, tokens, ops, recorded)
        <==> var start := tokens[i].start;
             && Upper(start.source) == source && start.version in {"1", "3"}
             && AcceptedBehind(source, start, tokens[i + 1..], LastComment(tokens[..i], ""), ops, recorded)
  {
    LastCommentAround(tokens, i);
    SilentHasNoOperations(tokens[..i]);
    OneStart(tokens, i);
    if CutToken !in tokens && forall j: nat | Has(tokens, j) :: j == i {
      OnlyStart(source, tokens, i, ops, recorded);
    }
  }

  lemma OnlyStart(source: string, tokens: seq<Token>, i: nat, ops: seq<NrtmOperation>, recorded: Option<nat>)
    requires Has(tokens, i) && CutToken !in tokens && forall j: nat | Has(tokens, j) :: j == i
    ensures Accepted(source, tokens, ops, recorded)
        <==> Strip(Upper(LastComment(tokens, "")), WHITESPACE) == "%END " + source && AcceptedAt(source, tokens, i, ops, recorded)
  {
    if Accepted(source, tokens, ops, recorded) {
      var k: nat :| Has(tokens, k) && AcceptedAt(source, tokens, k, ops, recorded);
    }
  }

  lemma OneStart(tokens: seq<Token>, i: nat)
    requires Has(tokens, i) && Silent(tokens[..i])
    ensures Quiet(tokens[i + 1..]) <==> CutToken !in tokens && forall j: nat | Has(tokens, j) :: j == i
  {
    assert forall j: nat | j < i :: tokens[j] in tokens[..i];
    if Quiet(tokens[i + 1..]) {
      forall j: nat | j < |tokens|
        ensures tokens[j] != CutToken && (Has(tokens, j) ==> j == i)
      {
        if j > i { assert tokens[j] == tokens[i + 1..][j - i - 1]; }
      }
    } else {
      var k: nat :| k < |tokens[i + 1..]| && (tokens[i + 1..][k].StartToken? || tokens[i + 1..][k].CutToken?);
      assert tokens[i + 1 + k] == tokens[i + 1..][k];
      assert tokens[i + 1 + k].StartToken? ==> Has(tokens, i + 1 + k);
    }
  }

  /** An operation, or a cut one, before any START line. */
  lemma NotAccepted(source: string, tokens: seq<Token>, i: nat, ops: seq<NrtmOperation>, recorded: Option<nat>)
    requires i < |tokens| && Silent(tokens[..i]) && (tokens[i].OperationToken? || tokens[i].CutToken?)
    ensures !Accepted(source, tokens, ops, recorded)
  {
    if tokens[i].OperationToken? && Accepted(source, tokens, ops, recorded) {
      if k: nat :| Has(tokens, k) && AcceptedAt(source, tokens, k, ops, recorded) {
        assert forall j: nat | j < i :: tokens[j] in tokens[..i];
        assert tokens[i] in tokens[..k];
        NoOperationsIn(tokens[..k]);
      } else {
        assert tokens[i] in tokens;
        NoOperationsIn(tokens);
      }
    }
  }

  lemma AllSilent(source: string, tokens: seq<Token>, ops: seq<NrtmOperation>, recorded: Option<nat>)
    requires Silent(tokens)
    ensures Accepted(source, tokens, ops, recorded) <==> ops == [] && recorded == None
  {
    NoOperationsIn(tokens);
    assert forall i: nat | i < |tokens| :: tokens[i] in tokens;
  }

  lemma TokensExactly(source: string, tokens: seq<Token>, ops: seq<NrtmOperation>, recorded: Option<nat>)
    ensures EndsWith(Folded(EMPTY_STREAM, source, tokens), source, ops, recorded) <==> Accepted(source, tokens, ops, recorded)
  {
    var i := SilentPart(tokens);
    var before, behind := tokens[..i], tokens[i..];
    assert tokens == before + behind;
    FoldedSilent(EMPTY_STREAM, source, before, behind);
    var c := LastComment(before, "");
    if i == |tokens| {
      assert behind == [] && before == tokens;
      AllSilent(source, tokens, ops, recorded);
    } else if tokens[i].StartToken? {
      var start, rest := tokens[i].start, tokens[i + 1..];
      assert behind == [tokens[i]] + rest;
      FoldedFirst(EMPTY_STREAM.(lastCommentSeen := c), source, tokens[i], rest);
      StartsExactly(c, source, start);
      AcceptedFrom(source, tokens, i, ops, recorded);
      var next := StartStream(EMPTY_STREAM.(lastCommentSeen := c), source, start);
      if next.Some? { BehindStart(next.value, source, start, rest, ops, recorded); }
    } else {
      NotAccepted(source, tokens, i, ops, recorded);
    }
  }

  /** A stream is taken, with these operations and this newest serial, if and only if it is acceptable. */
  lemma StreamExactly(source: string, text: string, ops: seq<NrtmOperation>, recorded: Option<nat>)
    ensures ParseStream(source, text) == Parsed(ops, recorded)
        <==> Accepted(source, Tokens(Paragraphs(SplitLines(text), "", false)), ops, recorded)
  {
    var paragraphs := Paragraphs(SplitLines(text), "", false);
    ConsumeIsFolded(EMPTY_STREAM, source, paragraphs);
    TokensExactly(source, Tokens(paragraphs), ops, recorded);
  }
}
