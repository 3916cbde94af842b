/** NRTM version 3 polling: a mirror asks for everything after its newest serial. The server reads the
    status of the source and its journal at different moments, and the answer may be cut off. */
module Nrtm3Polling {
  import opened Journal
  import opened Store
  import opened Text
  import opened Nrtm3Parser
  import opened Nrtm3Generator
  import opened Nrtm3RoundTrip
  import Nrtm4Convergence

  /** The objects of the mirror and its newest serial. */
  datatype Copy = Copy(objects: Mirror, newest: nat)

  type KeyOf = string -> Key

  function ToEntry(o: NrtmOperation, keyOf: KeyOf): Entry {
    Entry(keyOf(o.text), o.op, o.text, Origin.Mirror, o.serial)
  }

  function ToEntries(operations: seq<NrtmOperation>, keyOf: KeyOf): (entries: seq<Entry>)
    ensures |entries| == |operations|
    ensures forall i | 0 <= i < |entries| :: entries[i] == ToEntry(operations[i], keyOf)
  {
    seq(|operations|, i requires 0 <= i < |operations| => ToEntry(operations[i], keyOf))
  }

  /** What an answer does to the mirror. A rejected stream is an exception, and nothing is committed. */
  function AfterAnswer(copy: Copy, source: string, keyOf: KeyOf, text: string): Copy {
    var outcome := ParseStream(source, text);
    if outcome == Rejected then copy
    else Copy(Apply(copy.objects, ToEntries(outcome.operations, keyOf)),
              if outcome.recordedSerial.Some? then outcome.recordedSerial.value else copy.newest)
  }

  class NRTMImportUpdateStreamRunner {
    const source: string
    const keyOf: KeyOf
    var objects: Mirror
    var newest: nat

    constructor (source: string, keyOf: KeyOf, objects: Mirror, newest: nat)
      ensures this.source == source && this.keyOf == keyOf && this.objects == objects && this.newest == newest
    {
      this.source, this.keyOf, this.objects, this.newest := source, keyOf, objects, newest;
    }

    /** Parses the response, saves its operations one by one, and commits. */
    method Run(response: string) returns (ok: bool)
      modifies this
      ensures Copy(objects, newest) == AfterAnswer(old(Copy(objects, newest)), source, keyOf, response)
      ensures ok <==> ParseStream(source, response).Parsed?
    {
      var parser := new NRTMStreamParser(source);
      ok := parser.SplitStream(response);
      if !ok { return; }
      SaveAll(parser.operations);
      if parser.recordedSerial.Some? { newest := parser.recordedSerial.value; }
    }

    method SaveAll(operations: seq<NrtmOperation>)
      modifies this
      ensures objects == Apply(old(objects), ToEntries(operations, keyOf)) && newest == old(newest)
    {
      ghost var entries := ToEntries(operations, keyOf);
      for i := 0 to |operations|
        invariant objects == Apply(old(objects), entries[..i]) && newest == old(newest)
      {
        assert entries[..i + 1][..i] == entries[..i];
        Save(operations[i]);
      }
      assert entries[..|entries|] == entries;
    }

    method Save(operation: NrtmOperation)
      modifies this
      ensures objects == ApplyEntry(old(objects), ToEntry(operation, keyOf)) && newest == old(newest)
    {
      if operation.op == AddOrUpdate {
        objects := objects[keyOf(operation.text) := operation.text];
      } else {
        objects := objects - {keyOf(operation.text)};
      }
    }
  }

  // ---- server and mirror ----

  /** The whole journal of the source, of which the oldest rows have expired; the status with the journal bounds;
      the mirror; and the status that was read for a poll under way. */
  datatype World = World(firstSerial: nat, log: seq<JournalRow>, expired: nat, bounds: Bounds,
                         copy: Copy, poll: Option<Bounds>)

  datatype Feed = Feed(source: string, keyOf: KeyOf, settings: Settings)

  datatype Step =
    | Commit(rows: seq<JournalRow>)
    | Expire(upTo: nat)
    | ReadStatus
    | ReadJournal(now: int, received: string)

  ghost predicate LogOk(w: World) {
    w.firstSerial > 0 && w.expired <= |w.log| && TextsOk(w.log)
    && forall i | 0 <= i < |w.log| :: w.log[i].serial == w.firstSerial + i
  }

  /** The position in the log behind the newest serial of the mirror. */
  function Position(w: World): int {
    w.copy.newest + 1 - w.firstSerial
  }

  function Available(w: World): seq<JournalRow>
    requires w.expired <= |w.log|
  {
    w.log[w.expired..]
  }

  predicate Refused(w: World, feed: Feed, now: int)
    requires w.poll.Some? && w.expired <= |w.log|
  {
    Refuses(feed.settings, w.poll, Available(w), w.copy.newest + 1, None, now)
  }

  /** The answer to a poll, if it is neither an error nor a warning. */
  function AnswerText(w: World, feed: Feed): string
    requires w.poll.Some? && w.poll.value.newest.Some? && w.expired <= |w.log|
  {
    ResponseText(feed.source, "3", w.copy.newest + 1, w.poll.value.newest.value,
                 Selected(Available(w), w.copy.newest + 1, None))
  }

  predicate GetsResponse(w: World, feed: Feed, now: int)
    requires w.poll.Some? && w.expired <= |w.log|
  {
    !Refused(w, feed, now) && !NothingNew(w.poll.value, w.copy.newest + 1, None)
  }

  /** The response with newlines behind it, or a strict prefix of it. */
  ghost predicate Delivered(received: string, text: string) {
    received < text || exists n :: received == text + Newlines(n)
  }

  ghost predicate Enabled(w: World, feed: Feed, s: Step) {
    match s
    case Commit(rows) =>
      rows != [] && TextsOk(rows)
      && forall i | 0 <= i < |rows| :: rows[i].serial == w.firstSerial + |w.log| + i
    case Expire(upTo) => w.expired <= upTo <= |w.log|
    // without a newest serial the source is imported in full instead
    case ReadStatus => w.poll.None? && w.copy.newest > 0
    case ReadJournal(now, received) =>
      w.poll.Some? && w.expired <= |w.log|
      && (GetsResponse(w, feed, now) ==> Delivered(received, AnswerText(w, feed)))
  }

  ghost function Next(w: World, feed: Feed, s: Step): World
    requires Enabled(w, feed, s)
  {
    match s
    case Commit(rows) =>
      w.(log := w.log + rows,
         bounds := Bounds(Some(w.firstSerial + w.expired), Some(w.firstSerial + |w.log| + |rows| - 1)))
    case Expire(upTo) => w.(expired := upTo)
    case ReadStatus => w.(poll := Some(w.bounds))
    case ReadJournal(now, received) =>
      if GetsResponse(w, feed, now) then
        w.(poll := None, copy := AfterAnswer(w.copy, feed.source, feed.keyOf, received))
      else w.(poll := None)
  }

  /** The mirror after the first rows of the log. */
  function ObjectsAfter(rows: seq<JournalRow>, keyOf: KeyOf): Mirror {
    Replay(ToEntries(Operations(rows), keyOf))
  }

  predicate BoundsFit(w: World, b: Bounds) {
    b.newest.Some? ==> b.newest.value < w.firstSerial + |w.log|
  }

  /** The mirror holds every row up to its newest serial, and perhaps some after it. */
  ghost predicate HoldsUpTo(w: World, keyOf: KeyOf, reach: nat) {
    0 <= Position(w) <= reach <= |w.log| && w.copy.objects == ObjectsAfter(w.log[..reach], keyOf)
  }

  ghost predicate Inv(w: World, keyOf: KeyOf) {
    && LogOk(w) && BoundsFit(w, w.bounds) && (w.poll.Some? ==> BoundsFit(w, w.poll.value))
    && exists reach: nat :: HoldsUpTo(w, keyOf, reach)
  }

  lemma AvailableRows(log: seq<JournalRow>, expired: nat, position: int)
    requires expired <= |log|
    ensures expired <= position < |log| ==> log[expired..][position - expired] == log[position]
    ensures expired <= position <= |log| ==> log[expired..][position - expired..] == log[position..]
  {
  }

  lemma AvailableFits(w: World)
    requires LogOk(w) && w.expired < |w.log|
    ensures Nrtm3Generator.BoundsFit(Available(w), w.firstSerial + w.expired, w.firstSerial + |w.log| - 1)
  {
    var rows := Available(w);
    forall i | 0 <= i < |rows|
      ensures rows[i].serial == w.firstSerial + w.expired + i
    {
      assert rows[i] == w.log[w.expired + i];
    }
  }

  /** While the bounds that were read fit the journal, a poll gets a response exactly when the journal has rows newer than
      the mirror and still has the first of them, and these are not too many and not too old. */
  lemma PollExactly(w: World, feed: Feed, now: int)
    requires LogOk(w) && w.expired < |w.log|
    requires w.poll == Some(Bounds(Some(w.firstSerial + w.expired), Some(w.firstSerial + |w.log| - 1)))
    ensures GetsResponse(w, feed, now)
        <==> && feed.settings.keepJournal && w.expired <= Position(w) < |w.log|
             && (feed.settings.rangeLimit == 0 || |w.log| - 1 - Position(w) <= feed.settings.rangeLimit)
             && (feed.settings.daysLimit == 0
                 || now - w.log[Position(w)].timestamp <= feed.settings.daysLimit * SECONDS_PER_DAY)
    ensures w.expired <= Position(w) < |w.log| ==> Selected(Available(w), w.copy.newest + 1, None) == w.log[Position(w)..]
  {
    var rows, oldest, newest := Available(w), w.firstSerial + w.expired, w.firstSerial + |w.log| - 1;
    AvailableFits(w);
    AvailableRows(w.log, w.expired, Position(w));
    PollAsQuery(feed.settings, rows, oldest, newest, w.copy.newest + 1, now);
  }

  lemma PollAsQuery(settings: Settings, rows: seq<JournalRow>, oldest: nat, newest: nat, first: nat, now: int)
    requires Nrtm3Generator.BoundsFit(rows, oldest, newest)
    ensures var bounds := Bounds(Some(oldest), Some(newest));
            !Refuses(settings, Some(bounds), rows, first, None, now) && !NothingNew(bounds, first, None)
            <==> && settings.keepJournal && oldest <= first <= newest
                 && (settings.rangeLimit == 0 || newest - first <= settings.rangeLimit)
                 && (settings.daysLimit == 0
                     || now - rows[first - oldest].timestamp <= settings.daysLimit * SECONDS_PER_DAY)
    ensures oldest <= first <= newest ==> Selected(rows, first, None) == rows[first - oldest..]
  {
    ServesExactly(settings, rows, oldest, newest, first, None, now);
  }

  // ---- what a response holds ----

  lemma {:induction false} OperationsAre(rows: seq<JournalRow>)
    ensures |Operations(rows)| == |rows|
    ensures forall i | 0 <= i < |rows| :: Operations(rows)[i] == NrtmOperation(rows[i].op, rows[i].serial, rows[i].text)
  {
    if rows != [] {
      OperationsAre(rows[1..]);
    }
  }

  lemma EntriesOfSlice(rows: seq<JournalRow>, i: nat, j: nat, keyOf: KeyOf)
    requires i <= j <= |rows|
    ensures |ToEntries(Operations(rows), keyOf)| == |rows|
    ensures ToEntries(Operations(rows[i..j]), keyOf) == ToEntries(Operations(rows), keyOf)[i..j]
  {
    OperationsAre(rows);
    OperationsAre(rows[i..j]);
  }

  /** The rows from a serial on, in a journal without gaps. */
  lemma {:induction false} SelectedIsSuffix(rows: seq<JournalRow>, firstSerial: nat, from: nat)
    requires forall i | 0 <= i < |rows| :: rows[i].serial == firstSerial + i
    ensures Selected(rows, from, None)
         == if from <= firstSerial then rows else if from - firstSerial <= |rows| then rows[from - firstSerial..] else []
    decreases |rows|
  {
    if rows != [] {
      SelectedIsSuffix(rows[1..], firstSerial + 1, from);
    }
  }

  /** The rows in the response: everything after the newest serial that has not expired. */
  lemma ServedRows(w: World)
    requires LogOk(w) && 0 <= Position(w) <= |w.log|
    ensures var from := if w.expired <= Position(w) then Position(w) else w.expired;
            Selected(Available(w), w.copy.newest + 1, None) == w.log[from..]
  {
    SelectedIsSuffix(Available(w), w.firstSerial + w.expired, w.copy.newest + 1);
  }

  /** Nothing after the newest serial is missing from the response exactly when no such row has expired. */
  lemma NothingMissing(w: World)
    requires LogOk(w) && 0 <= Position(w) < |w.log|
    ensures (forall i | Position(w) <= i < |w.log| :: w.log[i] in Selected(Available(w), w.copy.newest + 1, None))
        <==> w.expired <= Position(w)
  {
    ServedRows(w);
    var p: nat := Position(w);
    var from: nat := if w.expired <= p then p else w.expired;
    forall i: nat | i < |w.log|
      ensures w.log[i] in w.log[from..] <==> from <= i
    {
      RowsBehind(w, i, from);
    }
    assert w.expired > p ==> w.log[p] !in w.log[from..];
  }

  lemma RowsBehind(w: World, i: nat, from: nat)
    requires LogOk(w) && i < |w.log| && from <= |w.log|
    ensures w.log[i] in w.log[from..] <==> from <= i
  {
    if from <= i {
      assert w.log[from..][i - from] == w.log[i];
    } else {
      forall k | 0 <= k < |w.log| - from
        ensures w.log[from..][k].serial != w.log[i].serial
      {
        assert w.log[from..][k] == w.log[from + k];
      }
    }
  }

  // ---- every step keeps the invariant ----

  /** Applying a repeated tail of the journal again, and what follows, leads to the whole journal. */
  lemma RepeatedTail(entries: seq<Entry>, from: nat, reach: nat)
    requires from <= reach <= |entries|
    ensures Apply(Replay(entries[..reach]), entries[from..]) == Replay(entries)
  {
    var objects := Replay(entries[..reach]);
    forall k
      ensures Nrtm4Convergence.Get(Apply(objects, entries[from..]), k) == Nrtm4Convergence.Get(Replay(entries), k)
    {
      Nrtm4Convergence.OverlapIsHarmless(objects, entries, from, reach, |entries|, 0, k);
      assert entries[from..|entries|] == entries[from..] && entries[..|entries|] == entries;
    }
    Nrtm4Convergence.SameMirror(Apply(objects, entries[from..]), Replay(entries));
  }

  lemma IncreasingRows(w: World, from: nat)
    requires LogOk(w) && from <= |w.log|
    ensures from < |w.log| ==> w.log[from..][0].serial == w.firstSerial + from
    ensures forall i, j :: 0 <= i < j < |w.log| - from ==> w.log[from..][i].serial < w.log[from..][j].serial
  {
  }

  predicate IsAhead(w: World) {
    w.poll.Some? && w.poll.value.newest.Some? && w.poll.value.newest.value > w.copy.newest
  }

  /** Increasing serials, not below the requested one. */
  ghost predicate RowsOk(rows: seq<JournalRow>, from: nat) {
    && TextsOk(rows) && (rows != [] ==> rows[0].serial >= from)
    && forall i, j :: 0 <= i < j < |rows| ==> rows[i].serial < rows[j].serial
  }

  function Served(w: World): seq<JournalRow>
    requires w.expired <= |w.log|
  {
    Selected(Available(w), w.copy.newest + 1, None)
  }

  function AfterRows(w: World, feed: Feed): Copy
    requires w.expired <= |w.log| && IsAhead(w)
  {
    Copy(Apply(w.copy.objects, ToEntries(Operations(Served(w)), feed.keyOf)), w.poll.value.newest.value)
  }

  /** A response that arrives whole gives the mirror the available rows after its newest serial,
      and the newest serial of the status. */
  lemma WholeResponse(w: World, feed: Feed, received: string, n: nat)
    requires IsAhead(w) && SourceOk(feed.source) && w.expired <= |w.log| && RowsOk(Served(w), w.copy.newest + 1)
    requires received == AnswerText(w, feed) + Newlines(n)
    ensures ParseStream(feed.source, received) == Parsed(Operations(Served(w)), Some(w.poll.value.newest.value))
  {
    ReadsBack(feed.source, w.copy.newest + 1, w.poll.value.newest.value, Served(w), AnswerText(w, feed), received, n);
  }

  lemma ServedRowsOk(w: World)
    requires LogOk(w) && 0 <= Position(w) <= |w.log|
    ensures RowsOk(Served(w), w.copy.newest + 1)
  {
    ServedRows(w);
    var from: nat := if w.expired <= Position(w) then Position(w) else w.expired;
    IncreasingRows(w, from);
    TextsOfTail(w.log, from);
  }

  lemma ResponseIsAhead(w: World, feed: Feed, now: int)
    requires w.poll.Some? && w.expired <= |w.log| && GetsResponse(w, feed, now)
    ensures IsAhead(w)
  {
  }

  lemma TextsOfTail(log: seq<JournalRow>, from: nat)
    requires TextsOk(log) && from <= |log|
    ensures TextsOk(log[from..])
  {
  }

  lemma ReadsBack(source: string, first: nat, newest: nat, rows: seq<JournalRow>, text: string, received: string, n: nat)
    requires SourceOk(source) && newest > 0 && RowsOk(rows, first)
    requires text == ResponseText(source, "3", first, newest, rows) && received == text + Newlines(n)
    ensures ParseStream(source, received) == Parsed(Operations(rows), Some(newest))
  {
    IncreasingFollows(first, rows);
    RoundTrip(Start("3", source, first, newest), rows, n);
  }

  lemma CutResponse(w: World, feed: Feed, now: int, received: string)
    requires LogOk(w) && w.poll.Some? && GetsResponse(w, feed, now) && SourceOk(feed.source)
    requires 0 <= Position(w) <= |w.log| && received < AnswerText(w, feed)
    ensures AfterAnswer(w.copy, feed.source, feed.keyOf, received) == w.copy
  {
    ServedRowsOk(w);
    ResponseIsAhead(w, feed, now);
    CutAnswer(w.copy, feed, w.poll.value.newest.value, Served(w), AnswerText(w, feed), received);
  }

  lemma CutAnswer(copy: Copy, feed: Feed, newest: nat, rows: seq<JournalRow>, text: string, received: string)
    requires SourceOk(feed.source) && RowsOk(rows, copy.newest + 1)
    requires text == ResponseText(feed.source, "3", copy.newest + 1, newest, rows) && received < text
    ensures AfterAnswer(copy, feed.source, feed.keyOf, received) == copy
  {
    Truncation(Start("3", feed.source, copy.newest + 1, newest), rows, received);
    NothingApplied(copy, feed.source, feed.keyOf, received);
  }

  lemma NothingApplied(copy: Copy, source: string, keyOf: KeyOf, received: string)
    requires NothingTaken(ParseStream(source, received))
    ensures AfterAnswer(copy, source, keyOf, received) == copy
  {
    assert ToEntries([], keyOf) == [];
  }

  lemma AnswerIsApplied(copy: Copy, source: string, keyOf: KeyOf, received: string, outcome: Outcome)
    requires outcome.Parsed? && outcome.recordedSerial.Some? && ParseStream(source, received) == outcome
    ensures AfterAnswer(copy, source, keyOf, received)
         == Copy(Apply(copy.objects, ToEntries(outcome.operations, keyOf)), outcome.recordedSerial.value)
  {
  }

  lemma ServedIsRest(w: World, p: nat)
    requires LogOk(w) && w.expired <= p == Position(w) <= |w.log|
    ensures Served(w) == w.log[p..]
  {
    ServedRows(w);
  }

  lemma RowsAreTheRest(w: World, keyOf: KeyOf, p: nat, reach: nat)
    requires w.expired <= |w.log| && p <= reach <= |w.log| && Served(w) == w.log[p..]
    requires w.copy.objects == ObjectsAfter(w.log[..reach], keyOf)
    ensures Apply(w.copy.objects, ToEntries(Operations(Served(w)), keyOf)) == ObjectsAfter(w.log, keyOf)
  {
    RowsTail(w.log, p, reach, keyOf);
  }

  lemma WholeIsApplied(w: World, feed: Feed, now: int, received: string, n: nat)
    requires LogOk(w) && w.poll.Some? && GetsResponse(w, feed, now) && SourceOk(feed.source)
    requires 0 <= Position(w) <= |w.log| && received == AnswerText(w, feed) + Newlines(n)
    ensures IsAhead(w) && AfterAnswer(w.copy, feed.source, feed.keyOf, received) == AfterRows(w, feed)
  {
    ResponseIsAhead(w, feed, now);
    ServedRowsOk(w);
    WholeResponse(w, feed, received, n);
    AnswerIsApplied(w.copy, feed.source, feed.keyOf, received, Parsed(Operations(Served(w)), Some(w.poll.value.newest.value)));
  }

  /** With all rows after its newest serial still there, a mirror that gets the whole response holds the whole journal. */
  lemma CatchesUp(w: World, feed: Feed, now: int, received: string, n: nat)
    requires Inv(w, feed.keyOf) && w.poll.Some? && GetsResponse(w, feed, now) && SourceOk(feed.source)
    requires w.expired <= Position(w) && received == AnswerText(w, feed) + Newlines(n)
    ensures IsAhead(w) && AfterAnswer(w.copy, feed.source, feed.keyOf, received)
                          == Copy(ObjectsAfter(w.log, feed.keyOf), w.poll.value.newest.value)
  {
    WholeIsApplied(w, feed, now, received, n);
    var reach: nat :| HoldsUpTo(w, feed.keyOf, reach);
    ServedIsRest(w, Position(w));
    RowsAreTheRest(w, feed.keyOf, Position(w), reach);
  }

  lemma RowsTail(log: seq<JournalRow>, p: nat, reach: nat, keyOf: KeyOf)
    requires p <= reach <= |log|
    ensures Apply(ObjectsAfter(log[..reach], keyOf), ToEntries(Operations(log[p..]), keyOf)) == ObjectsAfter(log, keyOf)
  {
    var entries := ToEntries(Operations(log), keyOf);
    EntriesOfSlice(log, 0, reach, keyOf);
    EntriesOfSlice(log, p, |log|, keyOf);
    assert log[..reach] == log[0..reach] && entries[..reach] == entries[0..reach];
    assert log[p..] == log[p..|log|] && entries[p..] == entries[p..|entries|];
    RepeatedTail(entries, p, reach);
  }

  /** No row that a response would need has expired since the status was read, or before its last update. */
  ghost predicate Timely(w: World, feed: Feed, s: Step) {
    s.ReadJournal? && Enabled(w, feed, s) && GetsResponse(w, feed, s.now) ==> w.expired <= Position(w)
  }

  lemma ReadJournalKeepsInv(w: World, feed: Feed, s: Step)
    requires Inv(w, feed.keyOf) && Enabled(w, feed, s) && s.ReadJournal? && Timely(w, feed, s) && SourceOk(feed.source)
    ensures Inv(Next(w, feed, s), feed.keyOf) && Next(w, feed, s).copy.newest >= w.copy.newest
  {
    var w' := Next(w, feed, s);
    var reach: nat :| HoldsUpTo(w, feed.keyOf, reach);
    if GetsResponse(w, feed, s.now) && !(s.received < AnswerText(w, feed)) {
      var n :| s.received == AnswerText(w, feed) + Newlines(n);
      CatchesUp(w, feed, s.now, s.received, n);
      assert w.log[..|w.log|] == w.log;
      assert HoldsUpTo(w', feed.keyOf, |w.log|);
    } else {
      if GetsResponse(w, feed, s.now) {
        CutResponse(w, feed, s.now, s.received);
      }
      assert HoldsUpTo(w', feed.keyOf, reach);
    }
  }

  lemma StepKeepsInv(w: World, feed: Feed, s: Step)
    requires Inv(w, feed.keyOf) && Enabled(w, feed, s) && Timely(w, feed, s) && SourceOk(feed.source)
    ensures Inv(Next(w, feed, s), feed.keyOf) && Next(w, feed, s).copy.newest >= w.copy.newest
  {
    if s.ReadJournal? {
      ReadJournalKeepsInv(w, feed, s);
    } else {
      var w' := Next(w, feed, s);
      var reach: nat :| HoldsUpTo(w, feed.keyOf, reach);
      assert w'.log[..reach] == w.log[..reach];
      assert HoldsUpTo(w', feed.keyOf, reach);
    }
  }

  ghost predicate IsRun(worlds: seq<World>, steps: seq<Step>, feed: Feed) {
    && |worlds| == |steps| + 1
    && forall k: nat | k < |steps| ::
         Enabled(worlds[k], feed, steps[k]) && worlds[k + 1] == Next(worlds[k], feed, steps[k])
  }

  /** No response needs a row that has expired. */
  ghost predicate AllTimely(worlds: seq<World>, steps: seq<Step>, feed: Feed)
    requires IsRun(worlds, steps, feed)
  {
    forall k: nat | k < |steps| :: Timely(worlds[k], feed, steps[k])
  }

  /** Over every such run the mirror has applied every row from its start up to its newest serial, and
      that serial never goes back. */
  lemma {:induction false} NothingSkipped(worlds: seq<World>, steps: seq<Step>, feed: Feed)
    requires IsRun(worlds, steps, feed) && AllTimely(worlds, steps, feed) && Inv(worlds[0], feed.keyOf) && SourceOk(feed.source)
    ensures Inv(worlds[|steps|], feed.keyOf) && worlds[|steps|].copy.newest >= worlds[0].copy.newest
  {
    if steps != [] {
      var k: nat := |steps| - 1;
      NothingSkipped(worlds[..k + 1], steps[..k], feed);
      StepKeepsInv(worlds[k], feed, steps[k]);
    }
  }

  /** When needed rows have expired and the status bounds are stale, the mirror takes over the newest serial
      without the rows that are gone. */
  lemma StaleBoundsSkip(w: World, feed: Feed, now: int, received: string, n: nat)
    requires LogOk(w) && w.poll.Some? && GetsResponse(w, feed, now) && SourceOk(feed.source)
    requires 0 <= Position(w) < w.expired && received == AnswerText(w, feed) + Newlines(n)
    ensures IsAhead(w) && AfterAnswer(w.copy, feed.source, feed.keyOf, received)
                          == Copy(Apply(w.copy.objects, ToEntries(Operations(w.log[w.expired..]), feed.keyOf)),
                                  w.poll.value.newest.value)
  {
    WholeIsApplied(w, feed, now, received, n);
    ServedIsUnexpired(w);
  }

  lemma ServedIsUnexpired(w: World)
    requires LogOk(w) && 0 <= Position(w) < w.expired
    ensures Served(w) == w.log[w.expired..]
  {
    ServedRows(w);
  }

  /** For each object that the entries touch and the later ones do not, the mirror holds what the entries end with. */
  ghost predicate HoldsAlready(m: Mirror, entries: seq<Entry>, later: seq<Entry>) {
    forall k | Nrtm4Convergence.Touched(entries, k) && !Nrtm4Convergence.Touched(later, k) ::
      Nrtm4Convergence.Get(Apply(map[], entries), k) == Nrtm4Convergence.Get(m, k)
  }

  lemma SkippedAt(objects: Mirror, skipped: seq<Entry>, later: seq<Entry>, k: Key)
    ensures Nrtm4Convergence.Get(Apply(objects, later), k) == Nrtm4Convergence.Get(Apply(objects, skipped + later), k)
        <==> (Nrtm4Convergence.Touched(skipped, k) && !Nrtm4Convergence.Touched(later, k) ==>
                Nrtm4Convergence.Get(Apply(map[], skipped), k) == Nrtm4Convergence.Get(objects, k))
  {
    ApplyConcat(objects, skipped, later);
    if Nrtm4Convergence.Touched(later, k) {
      Nrtm4Convergence.ApplyTouched(objects, Apply(objects, skipped), later, k);
    } else {
      Nrtm4Convergence.ApplyUntouched(objects, later, k);
      Nrtm4Convergence.ApplyUntouched(Apply(objects, skipped), later, k);
      if Nrtm4Convergence.Touched(skipped, k) {
        Nrtm4Convergence.ApplyTouched(objects, map[], skipped, k);
      } else {
        Nrtm4Convergence.ApplyUntouched(objects, skipped, k);
      }
    }
  }

  lemma SkippingExactly(objects: Mirror, skipped: seq<Entry>, later: seq<Entry>)
    ensures Apply(objects, later) == Apply(objects, skipped + later) <==> HoldsAlready(objects, skipped, later)
  {
    forall k {
      SkippedAt(objects, skipped, later, k);
    }
    if HoldsAlready(objects, skipped, later) {
      Nrtm4Convergence.SameMirror(Apply(objects, later), Apply(objects, skipped + later));
    }
  }

  /** A mirror that has applied everything up to `reach` and gets a whole response ends with the whole journal
      if and only if none of the rows in between has expired, or it holds what they end with already. */
  lemma CatchesUpExactly(w: World, feed: Feed, now: int, received: string, n: nat, reach: nat)
    requires LogOk(w) && HoldsUpTo(w, feed.keyOf, reach) && w.poll.Some? && GetsResponse(w, feed, now) && SourceOk(feed.source)
    requires received == AnswerText(w, feed) + Newlines(n)
    ensures AfterAnswer(w.copy, feed.source, feed.keyOf, received).objects == ObjectsAfter(w.log, feed.keyOf)
        <==> w.expired <= reach || SkipsNothing(w.copy.objects, w.log, feed.keyOf, reach, w.expired)
  {
    WholeIsApplied(w, feed, now, received, n);
    ServedDecides(w, feed.keyOf, reach);
  }

  lemma ServedDecides(w: World, keyOf: KeyOf, reach: nat)
    requires LogOk(w) && HoldsUpTo(w, keyOf, reach)
    ensures Apply(w.copy.objects, ToEntries(Operations(Served(w)), keyOf)) == ObjectsAfter(w.log, keyOf)
        <==> w.expired <= reach || SkipsNothing(w.copy.objects, w.log, keyOf, reach, w.expired)
  {
    var p: nat := Position(w);
    var from: nat := if w.expired <= p then p else w.expired;
    ServedRows(w);
    assert Served(w) == w.log[from..];
    RowsApplied(w.log, keyOf, w.copy.objects, from, reach);
  }

  /** The mirror holds already what the rows from `reach` up to `from` end with, later rows aside. */
  ghost predicate SkipsNothing(m: Mirror, log: seq<JournalRow>, keyOf: KeyOf, reach: nat, from: nat)
    requires reach <= from <= |log|
  {
    HoldsAlready(m, ToEntries(Operations(log[reach..from]), keyOf), ToEntries(Operations(log[from..]), keyOf))
  }

  lemma RowsApplied(log: seq<JournalRow>, keyOf: KeyOf, objects: Mirror, from: nat, reach: nat)
    requires from <= |log| && reach <= |log| && objects == ObjectsAfter(log[..reach], keyOf)
    ensures Apply(objects, ToEntries(Operations(log[from..]), keyOf)) == ObjectsAfter(log, keyOf)
        <==> from <= reach || SkipsNothing(objects, log, keyOf, reach, from)
  {
    var entries := ToEntries(Operations(log), keyOf);
    SlicesOfEntries(log, keyOf, from);
    SlicesOfEntries(log, keyOf, reach);
    if reach < from { EntriesOfSlice(log, reach, from, keyOf); }
    AfterTail(entries, objects, from, reach);
  }

  lemma SlicesOfEntries(log: seq<JournalRow>, keyOf: KeyOf, i: nat)
    requires i <= |log|
    ensures var entries := ToEntries(Operations(log), keyOf);
            && |entries| == |log|
            && ToEntries(Operations(log[i..]), keyOf) == entries[i..] && ToEntries(Operations(log[..i]), keyOf) == entries[..i]
  {
    var entries := ToEntries(Operations(log), keyOf);
    EntriesOfSlice(log, i, |log|, keyOf);
    EntriesOfSlice(log, 0, i, keyOf);
    assert log[i..] == log[i..|log|] && log[..i] == log[0..i];
    assert entries[i..] == entries[i..|entries|] && entries[..i] == entries[0..i];
  }

  lemma AfterTail(entries: seq<Entry>, objects: Mirror, from: nat, reach: nat)
    requires from <= |entries| && reach <= |entries| && objects == Replay(entries[..reach])
    ensures Apply(objects, entries[from..]) == Replay(entries)
        <==> from <= reach || HoldsAlready(objects, entries[reach..from], entries[from..])
  {
    if from <= reach {
      RepeatedTail(entries, from, reach);
    } else {
      assert entries == entries[..reach] + (entries[reach..from] + entries[from..]);
      ApplyConcat(map[], entries[..reach], entries[reach..from] + entries[from..]);
      SkippingExactly(objects, entries[reach..from], entries[from..]);
    }
  }

  // ---- a run with stale bounds ----

  /** A mirror holds the first row. Two more are committed, the first two expire, and the mirror polls. */
  function StaleWorld(i: nat, held: JournalRow, gone: JournalRow, kept: JournalRow, keyOf: KeyOf): World {
    var bounds, copy := Bounds(Some(1), Some(3)), Copy(map[keyOf(held.text) := held.text], 1);
    match i
    case 0 => World(1, [held], 0, Bounds(Some(1), Some(1)), copy, None)
    case 1 => World(1, [held, gone, kept], 0, bounds, copy, None)
    case 2 => World(1, [held, gone, kept], 2, bounds, copy, None)
    case 3 => World(1, [held, gone, kept], 2, bounds, copy, Some(bounds))
    case _ => World(1, [held, gone, kept], 2, bounds, Copy(copy.objects[keyOf(kept.text) := kept.text], 3), None)
  }

  ghost predicate ThreeRows(held: JournalRow, gone: JournalRow, kept: JournalRow, feed: Feed) {
    && TextsOk([held, gone, kept]) && held.serial == 1 && gone.serial == 2 && kept.serial == 3
    && held.op == AddOrUpdate == gone.op == kept.op
    && feed.keyOf(gone.text) != feed.keyOf(held.text) && feed.keyOf(gone.text) != feed.keyOf(kept.text)
    && SourceOk(feed.source) && feed.settings == Settings(true, 0, 0)
  }

  lemma OneIsServed(held: JournalRow, gone: JournalRow, kept: JournalRow, feed: Feed)
    requires ThreeRows(held, gone, kept, feed)
    ensures var w := StaleWorld(3, held, gone, kept, feed.keyOf);
            && LogOk(w) && Position(w) == 1 && GetsResponse(w, feed, 0) && Served(w) == [kept]
            && ToEntries(Operations([kept]), feed.keyOf) == [Entry(feed.keyOf(kept.text), AddOrUpdate, kept.text, Origin.Mirror, 3)]
  {
    var w := StaleWorld(3, held, gone, kept, feed.keyOf);
    assert [held, gone, kept][2..] == [kept];
    assert LogOk(w) by {
      assert forall i | 0 <= i < 3 :: [held, gone, kept][i].serial == 1 + i;
    }
    ServedRows(w);
    OperationsAre([kept]);
  }

  lemma KeptIsApplied(held: JournalRow, gone: JournalRow, kept: JournalRow, feed: Feed, received: string)
    requires ThreeRows(held, gone, kept, feed)
    requires received == AnswerText(StaleWorld(3, held, gone, kept, feed.keyOf), feed)
    ensures AfterAnswer(StaleWorld(3, held, gone, kept, feed.keyOf).copy, feed.source, feed.keyOf, received)
         == StaleWorld(4, held, gone, kept, feed.keyOf).copy
  {
    var w := StaleWorld(3, held, gone, kept, feed.keyOf);
    OneIsServed(held, gone, kept, feed);
    assert received == AnswerText(w, feed) + Newlines(0);
    WholeIsApplied(w, feed, 0, received, 0);
    var e := Entry(feed.keyOf(kept.text), AddOrUpdate, kept.text, Origin.Mirror, 3);
    assert [e][..0] == [];
    assert Apply(w.copy.objects, [e]) == w.copy.objects[e.key := e.text];
  }

  lemma StaleRun(held: JournalRow, gone: JournalRow, kept: JournalRow, feed: Feed, received: string)
    requires ThreeRows(held, gone, kept, feed)
    requires received == AnswerText(StaleWorld(3, held, gone, kept, feed.keyOf), feed)
    ensures IsRun(seq(5, (i: nat) => StaleWorld(i, held, gone, kept, feed.keyOf)),
                  [Commit([gone, kept]), Expire(2), ReadStatus, ReadJournal(0, received)], feed)
  {
    OneIsServed(held, gone, kept, feed);
    KeptIsApplied(held, gone, kept, feed, received);
    var w := StaleWorld(3, held, gone, kept, feed.keyOf);
    assert received == AnswerText(w, feed) + Newlines(0);
    assert [held] + [gone, kept] == [held, gone, kept];
    assert TextsOk([gone, kept]) by {
      assert forall i | 0 <= i < 2 :: [gone, kept][i] == [held, gone, kept][i + 1];
    }
    assert Delivered(received, AnswerText(w, feed));
  }

  /** A row expires before the mirror has it, and the bounds still include it: the mirror, which held all there was,
      ends at the newest serial without the object of that row. */
  lemma ExpiredRowIsLost(held: JournalRow, gone: JournalRow, kept: JournalRow, feed: Feed)
    requires ThreeRows(held, gone, kept, feed)
    ensures exists received: string ::
              IsRun(seq(5, (i: nat) => StaleWorld(i, held, gone, kept, feed.keyOf)),
                    [Commit([gone, kept]), Expire(2), ReadStatus, ReadJournal(0, received)], feed)
    ensures Inv(StaleWorld(0, held, gone, kept, feed.keyOf), feed.keyOf)
    ensures var w := StaleWorld(4, held, gone, kept, feed.keyOf);
            && w.copy.newest == kept.serial && feed.keyOf(gone.text) !in w.copy.objects
            && feed.keyOf(gone.text) in ObjectsAfter(w.log, feed.keyOf)
  {
    OneIsServed(held, gone, kept, feed);
    StaleRun(held, gone, kept, feed, AnswerText(StaleWorld(3, held, gone, kept, feed.keyOf), feed));
    HeldFromTheStart(held, gone, kept, feed);
    GoneIsInTheJournal(held, gone, kept, feed.keyOf);
  }

  lemma HeldFromTheStart(held: JournalRow, gone: JournalRow, kept: JournalRow, feed: Feed)
    requires ThreeRows(held, gone, kept, feed)
    ensures Inv(StaleWorld(0, held, gone, kept, feed.keyOf), feed.keyOf)
  {
    var w := StaleWorld(0, held, gone, kept, feed.keyOf);
    assert [held, gone, kept][0] == held;
    OperationsAre([held]);
    var entries := ToEntries(Operations([held]), feed.keyOf);
    assert entries[..0] == [] && [held][..1] == [held];
    assert Apply(map[], entries) == map[feed.keyOf(held.text) := held.text];
    assert HoldsUpTo(w, feed.keyOf, 1);
  }

  lemma GoneIsInTheJournal(held: JournalRow, gone: JournalRow, kept: JournalRow, keyOf: KeyOf)
    requires gone.op == AddOrUpdate == kept.op
    ensures keyOf(gone.text) in ObjectsAfter([held, gone, kept], keyOf)
  {
    var rows := [held, gone, kept];
    OperationsAre(rows);
    var entries := ToEntries(Operations(rows), keyOf);
    assert entries[..2][..1] == entries[..1];
    assert keyOf(gone.text) in Apply(map[], entries[..2]);
  }

  function Person(name: char): string {
    "person: " + [name] + "\n"
  }

  lemma PersonIsText(name: char)
    requires 'A' <= name <= 'Z'
    ensures IsObjectText(Person(name))
  {
    var line := "person: " + [name];
    assert line[|line| - 1] == name && line[0] == 'p';
    assert PlainLine(line);
    UnlinesOfOne(line);
    assert TextOfLines(Person(name), [line]);
  }

  lemma PersonsDiffer(a: char, b: char)
    requires a != b
    ensures Person(a) != Person(b)
  {
    assert Person(a)[8] == a && Person(b)[8] == b;
  }

  lemma SuchRowsExist()
    ensures exists held, gone, kept, feed :: ThreeRows(held, gone, kept, feed)
  {
    var held, gone, kept := JournalRow(AddOrUpdate, 1, Person('A'), 0), JournalRow(AddOrUpdate, 2, Person('B'), 0),
                            JournalRow(AddOrUpdate, 3, Person('C'), 0);
    var feed := Feed("TEST", text => Key(text, "TEST", "person"), Settings(true, 0, 0));
    PersonIsText('A');
    PersonIsText('B');
    PersonIsText('C');
    PersonsDiffer('B', 'A');
    PersonsDiffer('B', 'C');
    assert ThreeRows(held, gone, kept, feed);
  }
}
