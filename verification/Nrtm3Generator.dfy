/** The answer to an NRTM version 1 or 3 query: range checks, then the journal entries as text. */
module Nrtm3Generator {
  import opened Journal
  import opened Store
  import opened Text
  import opened Nrtm3Parser

  datatype JournalRow = JournalRow(op: Operation, serial: nat, text: string, timestamp: int)

  /** The bounds of the journal as the status of the source has them. */
  datatype Bounds = Bounds(oldest: Option<nat>, newest: Option<nat>)

  datatype Settings = Settings(keepJournal: bool, rangeLimit: nat, daysLimit: nat)

  const SECONDS_PER_DAY := 86400

  const NO_UPDATES := "% Warning: there are no updates available"
  const NO_NEWER_UPDATES := "% Warning: there are no newer updates available"

  datatype Answer = Refused | Warning(text: string) | Response(text: string)

  predicate InRange(row: JournalRow, first: nat, end: Option<nat>) {
    first <= row.serial && (end.Some? ==> row.serial <= end.value)
  }

  /** The rows of the journal in a range of serials, in journal order. */
  function Selected(journal: seq<JournalRow>, first: nat, end: Option<nat>): seq<JournalRow> {
    if journal == [] then []
    else (if InRange(journal[0], first, end) then [journal[0]] else []) + Selected(journal[1..], first, end)
  }

  function OperationLine(row: JournalRow, version: string): string {
    OperationName(row.op) + (if version == "3" then " " + Decimal(row.serial) else "")
  }

  function Piece(row: JournalRow, version: string): string {
    OperationLine(row, version) + "\n\n" + row.text
  }

  function Pieces(rows: seq<JournalRow>, version: string): seq<string> {
    if rows == [] then [] else [Piece(rows[0], version)] + Pieces(rows[1..], version)
  }

  function ResponseText(source: string, version: string, first: nat, display: nat, rows: seq<JournalRow>): string {
    Join([StartLine(Start(version, source, first, display))] + Pieces(rows, version) + ["%END " + source], '\n')
  }

  /** The first row from a serial on is too old. */
  predicate TooOld(settings: Settings, journal: seq<JournalRow>, first: nat, now: int) {
    settings.daysLimit > 0
    && var rows := Selected(journal, first, None);
       rows == [] || now - rows[0].timestamp > settings.daysLimit * SECONDS_PER_DAY
  }

  /** The requested range is not all there, or more than is allowed. */
  predicate BadRange(settings: Settings, oldest: nat, newest: nat, journal: seq<JournalRow>,
                     first: nat, end: Option<nat>, now: int) {
    || first < oldest
    || (end.Some? && end.value > newest)
    || (end.None? && first > newest + 1)
    || (!(end.None? && first == newest + 1)
        && (|| (settings.rangeLimit > 0 && settings.rangeLimit < (if end.None? then newest else end.value) - first)
            || TooOld(settings, journal, first, now)))
  }

  predicate Refuses(settings: Settings, status: Option<Bounds>, journal: seq<JournalRow>, first: nat, end: Option<nat>, now: int) {
    || !settings.keepJournal || status.None?
    || (end.Some? && end.value != 0 && end.value < first)
    || (status.value.oldest.Some? && status.value.newest.Some?
        && BadRange(settings, status.value.oldest.value, status.value.newest.value, journal, first, end, now))
  }

  predicate NothingNew(bounds: Bounds, first: nat, end: Option<nat>) {
    bounds.oldest.None? || bounds.newest.None? || (end.None? && first == bounds.newest.value + 1)
  }

  /** Answers a query for the serials from `first` to `end`, or to the last one without `end`.
      The status and the journal are read one after the other. */
  method Generate(settings: Settings, source: string, version: string, first: nat, end: Option<nat>,
                  status: Option<Bounds>, journal: seq<JournalRow>, now: int)
    returns (answer: Answer)
    ensures answer.Refused? <==> Refuses(settings, status, journal, first, end, now)
    ensures answer.Warning? <==> !answer.Refused? && NothingNew(status.value, first, end)
    ensures answer.Warning? && (status.value.oldest.None? || status.value.newest.None?) ==> answer.text == NO_UPDATES
    ensures answer.Warning? && status.value.oldest.Some? && status.value.newest.Some? ==> answer.text == NO_NEWER_UPDATES
    ensures answer.Response? ==>
      answer.text == ResponseText(source, version, first, if end.None? then status.value.newest.value else end.value,
                                  Selected(journal, first, end))
  {
    if !settings.keepJournal { return Refused; }
    if status.None? { return Refused; }
    if end.Some? && end.value != 0 && end.value < first { return Refused; }
    if status.value.oldest.None? || status.value.newest.None? {
      return Warning(NO_UPDATES);
    }
    var oldest, newest := status.value.oldest.value, status.value.newest.value;
    if first < oldest { return Refused; }
    if end.Some? && end.value > newest { return Refused; }
    if end.None? {
      if first == newest + 1 {
        return Warning(NO_NEWER_UPDATES);
      } else if first > newest {
        return Refused;
      }
    }
    var display := if end.None? then newest else end.value;
    if settings.rangeLimit > 0 && settings.rangeLimit < display - first { return Refused; }
    if settings.daysLimit > 0 {
      var rows := Selected(journal, first, None);
      if rows == [] || now - rows[0].timestamp > settings.daysLimit * SECONDS_PER_DAY { return Refused; }
    }
    var text := WriteResponse(source, version, first, display, Selected(journal, first, end));
    answer := Response(text);
  }

  method WriteResponse(source: string, version: string, first: nat, display: nat, rows: seq<JournalRow>) returns (text: string)
    ensures text == ResponseText(source, version, first, display, rows)
  {
    var output := [StartLine(Start(version, source, first, display))];
    ghost var head := output;
    var i := 0;
    while i < |rows|
      invariant i <= |rows| && output + Pieces(rows[i..], version) == head + Pieces(rows, version)
    {
      var operation := OperationName(rows[i].op);
      if version == "3" {
        operation := operation + " " + Decimal(rows[i].serial);
      }
      assert operation == OperationLine(rows[i], version);
      ghost var before := output;
      output := output + [operation + "\n\n" + rows[i].text];
      PiecesNext(before, rows[i..], version);
      assert rows[i..][1..] == rows[i + 1..];
      i := i + 1;
    }
    assert output == head + Pieces(rows, version);
    output := output + ["%END " + source];
    text := Join(output, '\n');
  }

  lemma PiecesNext(before: seq<string>, rows: seq<JournalRow>, version: string)
    requires rows != []
    ensures before + Pieces(rows, version) == (before + [Piece(rows[0], version)]) + Pieces(rows[1..], version)
  {
  }

  /** The rows of a range are all the journal's rows in it. */
  lemma {:induction false} SelectedAreInRange(journal: seq<JournalRow>, first: nat, end: Option<nat>)
    ensures forall row :: row in Selected(journal, first, end) <==> row in journal && InRange(row, first, end)
  {
    if journal != [] {
      SelectedAreInRange(journal[1..], first, end);
      assert forall row :: row in journal <==> row == journal[0] || row in journal[1..];
    }
  }

  // ---- what is served when the bounds fit the journal ----

  /** The journal has exactly the serials between the bounds, without gaps. */
  predicate BoundsFit(journal: seq<JournalRow>, oldest: nat, newest: nat) {
    journal != [] && newest == oldest + |journal| - 1 && forall i | 0 <= i < |journal| :: journal[i].serial == oldest + i
  }

  function LastServed(newest: nat, end: Option<nat>): nat {
    if end.None? then newest else end.value
  }

  lemma {:induction false} SelectedSlice(journal: seq<JournalRow>, first: nat, end: Option<nat>, from: nat, to: nat)
    requires from <= to <= |journal|
    requires forall i | 0 <= i < |journal| :: InRange(journal[i], first, end) <==> from <= i < to
    ensures Selected(journal, first, end) == journal[from..to]
  {
    if journal != [] {
      var from', to' := if from == 0 then 0 else from - 1, if to == 0 then 0 else to - 1;
      assert forall i | 0 <= i < |journal| - 1 :: journal[1..][i] == journal[i + 1];
      SelectedSlice(journal[1..], first, end, from', to');
      assert from > 0 ==> journal[1..][from'..to'] == journal[from..to];
      assert from == 0 < to ==> [journal[0]] + journal[1..][..to'] == journal[..to];
    }
  }

  /** While the bounds fit the journal, a query gets a response exactly when a journal is kept, the first serial and any
      last serial other than 0 are there in this order, no more is asked for than the limit allows, and the first row
      is not too old. The response then has exactly the rows of the range. */
  lemma ServesExactly(settings: Settings, journal: seq<JournalRow>, oldest: nat, newest: nat,
                      first: nat, end: Option<nat>, now: int)
    requires BoundsFit(journal, oldest, newest)
    ensures var bounds, last := Bounds(Some(oldest), Some(newest)), LastServed(newest, end);
            !Refuses(settings, Some(bounds), journal, first, end, now) && !NothingNew(bounds, first, end)
            <==> && settings.keepJournal && oldest <= first && last <= newest
                 && (first <= last || end == Some(0))
                 && (settings.rangeLimit == 0 || last - first <= settings.rangeLimit)
                 && (settings.daysLimit == 0
                     || (first <= newest && now - journal[first - oldest].timestamp <= settings.daysLimit * SECONDS_PER_DAY))
    ensures oldest <= first <= LastServed(newest, end) <= newest
            ==> Selected(journal, first, end) == journal[first - oldest..LastServed(newest, end) + 1 - oldest]
  {
    var n := |journal|;
    if oldest <= first <= newest {
      SelectedSlice(journal, first, None, first - oldest, n);
      var last := LastServed(newest, end);
      if first <= last <= newest {
        SelectedSlice(journal, first, end, first - oldest, last + 1 - oldest);
      }
    } else if newest < first {
      SelectedSlice(journal, first, None, n, n);
    }
  }
}
