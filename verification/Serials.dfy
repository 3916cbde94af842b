/** NRTM serials over interleaved transactions. Only the transaction holding the journal lock adds
    entries; others may commit status rows meanwhile, and expiry removes oldest entries. */
module Serials {
  import opened Journal
  import opened Store

  /** The transaction holding LOCK TABLE .. IN EXCLUSIVE MODE, with its uncommitted entries. */
  datatype Holder = Holder(tx: nat, pending: seq<Entry>, tracker: Tracker)
  datatype Machine = Machine(journal: seq<Entry>, status: map<string, SourceStatus>, holder: Option<Holder>)

  datatype Step =
    | Record(tx: nat, key: Key, op: Operation, text: string, origin: Origin)
    | CommitTx(tx: nat)
    | RollbackTx(tx: nat)
    | ExpireOldest(source: string, count: nat)
    | OtherTxSeesSource(source: string)
    | ForceReload(source: string)

  /** The journal as the transaction holding the lock sees it. */
  function View(m: Machine): seq<Entry> {
    if m.holder.Some? then m.journal + m.holder.value.pending else m.journal
  }

  predicate Enabled(m: Machine, s: Step) {
    match s
    case Record(tx, _, _, _, _) => m.holder.Some? ==> m.holder.value.tx == tx
    case CommitTx(tx) => m.holder.Some? && m.holder.value.tx == tx
    case RollbackTx(tx) => m.holder.Some? && m.holder.value.tx == tx
    case ExpireOldest(source, count) => m.holder.None? && count <= |OfSource(m.journal, source)|
    case OtherTxSeesSource(_) => true
    case ForceReload(_) => true
  }

  function Without(journal: seq<Entry>, source: string, count: nat): seq<Entry>
    requires count <= |OfSource(journal, source)|
  {
    if count == 0 then journal
    else if journal[0].key.source == source then
      OfSourceHead(journal, source);
      Without(journal[1..], source, count - 1)
    else
      OfSourceHead(journal, source);
      [journal[0]] + Without(journal[1..], source, count)
  }

  lemma OfSourceHead(journal: seq<Entry>, source: string)
    ensures journal == [] ==> OfSource(journal, source) == []
    ensures journal != [] ==>
      OfSource(journal, source)
      == (if journal[0].key.source == source then [journal[0]] else []) + OfSource(journal[1..], source)
  {
    if journal != [] {
      assert journal == [journal[0]] + journal[1..];
      OfSourceAppend([journal[0]], journal[1..], source);
      assert [journal[0]][..0] == [];
    }
  }

  lemma OfSourceCons(e: Entry, rest: seq<Entry>, source: string)
    ensures OfSource([e] + rest, source) == (if e.key.source == source then [e] else []) + OfSource(rest, source)
  {
    OfSourceHead([e] + rest, source);
    assert ([e] + rest)[1..] == rest;
  }

  lemma {:induction false} WithoutIsSuffix(journal: seq<Entry>, source: string, count: nat, other: string)
    requires count <= |OfSource(journal, source)|
    ensures OfSource(Without(journal, source, count), other)
         == if other == source then OfSource(journal, source)[count..] else OfSource(journal, other)
    decreases |journal|
  {
    if count > 0 {
      OfSourceHead(journal, source);
      OfSourceHead(journal, other);
      if journal[0].key.source == source {
        WithoutIsSuffix(journal[1..], source, count - 1, other);
      } else {
        WithoutIsSuffix(journal[1..], source, count, other);
        OfSourceCons(journal[0], Without(journal[1..], source, count), other);
      }
    }
  }

  function AsDb(m: Machine): Db {
    Db(map[], [], {}, View(m), m.status)
  }

  function Next(m: Machine, s: Step): Machine
    requires Enabled(m, s)
  {
    match s
    case Record(tx, key, op, text, origin) =>
      var h := HolderFor(m, tx);
      var serial := NextSerial(View(m), m.status, h.tracker.newSerials, key.source);
      m.(holder := Some(Holder(tx, h.pending + [Entry(key, op, text, origin, serial)],
           Tracker(AddSerial(h.tracker.newSerials, key.source, serial), h.tracker.sourcesSeen + {key.source}))))
    case CommitTx(_) => Machine(View(m), Finalise(AsDb(m), m.holder.value.tracker).status, None)
    case RollbackTx(_) => m.(holder := None)
    case ExpireOldest(source, count) => m.(journal := Without(m.journal, source, count))
    case OtherTxSeesSource(source) => if source in m.status then m else m.(status := m.status[source := NEW_STATUS])
    case ForceReload(source) =>
      if source !in m.status then m
      else m.(status := m.status[source := m.status[source].(oldestSeen := None, newestSeen := None)])
  }

  // ---- the invariant ----

  /** Each serial is one more than the serial before it: unique, gapless, increasing. */
  ghost predicate Contiguous(entries: seq<Entry>) {
    forall i | 0 <= i < |entries| :: entries[i].serial == entries[0].serial + i
  }

  ghost predicate Inv(m: Machine) {
    forall source :: SourceInv(m, source)
  }

  ghost predicate SourceInv(m: Machine, source: string) {
    && Contiguous(OfSource(View(m), source))
    && (OfSource(m.journal, source) != [] ==> source in m.status)
    && (m.holder.Some? ==> TrackerInv(m.holder.value, source))
  }

  /** The tracker knows exactly the serials of the uncommitted entries. */
  ghost predicate TrackerInv(h: Holder, source: string) {
    var made := OfSource(h.pending, source);
    if made == [] then source !in h.tracker.newSerials
    else && source in h.tracker.newSerials && source in h.tracker.sourcesSeen
         && h.tracker.newSerials[source] == Store.Serials(made)
  }

  lemma Ends(entries: seq<Entry>)
    requires entries != [] && Contiguous(entries)
    ensures Store.Serials(entries) != {}
    ensures MinOf(Store.Serials(entries)) == entries[0].serial
    ensures MaxOf(Store.Serials(entries)) == entries[|entries| - 1].serial
  {
    var s := Store.Serials(entries);
    assert entries[0] in entries && entries[|entries| - 1] in entries;
    assert entries[0].serial in s && entries[|entries| - 1].serial in s;
    forall x | x in s
      ensures entries[0].serial <= x <= entries[|entries| - 1].serial
    {
      var e :| e in entries && e.serial == x;
      var i :| 0 <= i < |entries| && entries[i] == e;
    }
  }

  lemma ContiguousTail(a: seq<Entry>, b: seq<Entry>)
    requires Contiguous(a + b)
    ensures Contiguous(a) && Contiguous(b)
  {
    forall i | 0 <= i < |a| ensures a[i].serial == a[0].serial + i { assert (a + b)[i] == a[i] && (a + b)[0] == a[0]; }
    forall i | 0 <= i < |b| ensures b[i].serial == b[0].serial + i { assert (a + b)[|a| + i] == b[i] && (a + b)[|a|] == b[0]; }
  }

  /** The next serial continues the interval. */
  lemma NextContinues(m: Machine, h: Holder, source: string)
    requires m.holder.Some? ==> h == m.holder.value
    requires m.holder.None? ==> h.pending == [] && h.tracker == FRESH_TRACKER
    requires SourceInv(m, source)
    ensures var all := OfSource(View(m), source);
            all != [] ==> NextSerial(View(m), m.status, h.tracker.newSerials, source) == all[|all| - 1].serial + 1
  {
    var was, made := OfSource(m.journal, source), OfSource(h.pending, source);
    assert View(m) == m.journal + h.pending;
    OfSourceAppend(m.journal, h.pending, source);
    ContiguousTail(was, made);
    if made != [] {
      Ends(made);
    } else if was != [] {
      assert was + made == was;
      Ends(was);
    }
  }

  lemma OfSourceOne(e: Entry, source: string)
    ensures OfSource([e], source) == if e.key.source == source then [e] else []
  {
    OfSourceHead([e], source);
  }

  lemma ContiguousAppend(entries: seq<Entry>, e: Entry)
    requires Contiguous(entries)
    requires entries != [] ==> e.serial == entries[|entries| - 1].serial + 1
    ensures Contiguous(entries + [e])
  {
    if entries != [] {
      assert entries[|entries| - 1].serial == entries[0].serial + |entries| - 1;
    }
  }

  function HolderFor(m: Machine, tx: nat): Holder {
    if m.holder.Some? then m.holder.value else Holder(tx, [], FRESH_TRACKER)
  }

  lemma RecordView(m: Machine, s: Step, source: string) returns (e: Entry)
    requires Enabled(m, s) && s.Record?
    ensures e.serial == NextSerial(View(m), m.status, HolderFor(m, s.tx).tracker.newSerials, s.key.source)
    ensures e.key == s.key
    ensures Next(m, s).holder.value.pending == HolderFor(m, s.tx).pending + [e]
    ensures OfSource(View(Next(m, s)), source) == OfSource(View(m), source) + (if s.key.source == source then [e] else [])
    ensures OfSource(Next(m, s).holder.value.pending, source)
         == OfSource(HolderFor(m, s.tx).pending, source) + (if s.key.source == source then [e] else [])
  {
    var h, h' := HolderFor(m, s.tx), Next(m, s).holder.value;
    e := h'.pending[|h.pending|];
    assert View(Next(m, s)) == View(m) + [e];
    OfSourceAppend(View(m), [e], source);
    OfSourceAppend(h.pending, [e], source);
    OfSourceOne(e, source);
  }

  lemma RecordKeepsInv(m: Machine, s: Step, source: string)
    requires SourceInv(m, source) && Enabled(m, s) && s.Record?
    ensures SourceInv(Next(m, s), source)
  {
    var h := HolderFor(m, s.tx);
    var e := RecordView(m, s, source);
    if source == s.key.source {
      NextContinues(m, h, source);
      ContiguousAppend(OfSource(View(m), source), e);
      SerialsAppend(OfSource(h.pending, source), e);
      RecordKeepsTracker(h, Next(m, s).holder.value, source, e);
    } else {
      assert OfSource(View(m), source) + [] == OfSource(View(m), source);
      assert OfSource(h.pending, source) + [] == OfSource(h.pending, source);
      assert TrackerInv(h, source);
    }
  }

  lemma RecordKeepsTracker(h: Holder, h': Holder, source: string, e: Entry)
    requires TrackerInv(h, source)
    requires OfSource(h'.pending, source) == OfSource(h.pending, source) + [e]
    requires h'.tracker == Tracker(AddSerial(h.tracker.newSerials, source, e.serial), h.tracker.sourcesSeen + {source})
    ensures TrackerInv(h', source)
  {
    SerialsAppend(OfSource(h.pending, source), e);
    assert Store.Serials([]) == {};
  }

  lemma SerialsAppend(entries: seq<Entry>, e: Entry)
    ensures Store.Serials(entries + [e]) == Store.Serials(entries) + {e.serial}
  {
    assert forall x :: x in entries + [e] <==> x in entries || x == e;
  }

  lemma StepKeepsSource(m: Machine, s: Step, source: string)
    requires SourceInv(m, source) && Enabled(m, s)
    ensures SourceInv(Next(m, s), source)
  {
    match s
    case Record(_, _, _, _, _) => RecordKeepsInv(m, s, source);
    case CommitTx(_) => OfSourceAppend(m.journal, m.holder.value.pending, source);
    case RollbackTx(_) =>
      OfSourceAppend(m.journal, m.holder.value.pending, source);
      ContiguousTail(OfSource(m.journal, source), OfSource(m.holder.value.pending, source));
    case ExpireOldest(expired, count) =>
      WithoutIsSuffix(m.journal, expired, count, source);
      if source == expired {
        var all := OfSource(m.journal, source);
        assert all == all[..count] + all[count..];
        ContiguousTail(all[..count], all[count..]);
      }
    case OtherTxSeesSource(_) =>
    case ForceReload(_) =>
  }

  lemma StepKeepsInv(m: Machine, s: Step)
    requires Inv(m) && Enabled(m, s)
    ensures Inv(Next(m, s))
  {
    forall source
      ensures SourceInv(Next(m, s), source)
    {
      assert SourceInv(m, source);
      StepKeepsSource(m, s, source);
    }
  }

  ghost predicate IsRun(ms: seq<Machine>, steps: seq<Step>) {
    && |ms| == |steps| + 1 && ms[0] == Machine([], map[], None)
    && forall i | 0 <= i < |steps| :: Enabled(ms[i], steps[i]) && ms[i + 1] == Next(ms[i], steps[i])
  }

  /** In every interleaving, at every moment, the serials of each source form one gapless interval. */
  lemma {:induction false} SerialsStayContiguous(ms: seq<Machine>, steps: seq<Step>, i: nat)
    requires IsRun(ms, steps) && i < |ms|
    ensures Inv(ms[i])
  {
    if i > 0 {
      SerialsStayContiguous(ms, steps, i - 1);
      StepKeepsInv(ms[i - 1], steps[i - 1]);
    }
  }

  /** A commit that journaled the source leaves the recorded bounds at the two ends of its interval. */
  lemma BoundsAreTheEnds(ms: seq<Machine>, steps: seq<Step>, i: nat, source: string)
    requires IsRun(ms, steps) && i < |steps| && steps[i].CommitTx?
    requires OfSource(ms[i].holder.value.pending, source) != []
    ensures var entries := OfSource(ms[i + 1].journal, source);
            && entries != [] && source in ms[i + 1].status
            && ms[i + 1].status[source].oldestJournal == Some(entries[0].serial)
            && ms[i + 1].status[source].newestJournal == Some(entries[|entries| - 1].serial)
  {
    SerialsStayContiguous(ms, steps, i);
    assert SourceInv(ms[i], source);
    var h := ms[i].holder.value;
    OfSourceAppend(ms[i].journal, h.pending, source);
    Ends(OfSource(View(ms[i]), source));
    ContiguousTail(OfSource(ms[i].journal, source), OfSource(h.pending, source));
    Ends(OfSource(h.pending, source));
  }

  /** No two entries of a source ever share a serial. */
  lemma SerialsAreUnique(ms: seq<Machine>, steps: seq<Step>, i: nat, source: string, a: nat, b: nat)
    requires IsRun(ms, steps) && i < |ms|
    requires a < b < |OfSource(View(ms[i]), source)|
    ensures OfSource(View(ms[i]), source)[a].serial < OfSource(View(ms[i]), source)[b].serial
  {
    SerialsStayContiguous(ms, steps, i);
    assert SourceInv(ms[i], source);
  }

  // ---- serials are never used again ----

  /** The newest serial that the status of the source remembers. */
  function Seen(m: Machine, source: string): Option<int> {
    if source in m.status then m.status[source].newestSeen else None
  }

  /** The status remembers the newest committed serial, and uncommitted serials are beyond it. */
  ghost predicate SeenInv(m: Machine, source: string) {
    var committed := OfSource(m.journal, source);
    && (committed != [] ==> Seen(m, source) == Some(committed[|committed| - 1].serial))
    && (m.holder.Some? && Seen(m, source).Some? ==>
          var made := OfSource(m.holder.value.pending, source);
          made != [] ==> Seen(m, source).value < made[0].serial)
  }

  lemma RecordKeepsSeen(m: Machine, s: Step, source: string)
    requires SourceInv(m, source) && SeenInv(m, source) && Enabled(m, s) && s.Record?
    ensures SeenInv(Next(m, s), source)
  {
    var h := HolderFor(m, s.tx);
    var e := RecordView(m, s, source);
    var made := OfSource(h.pending, source);
    if source == s.key.source && made == [] {
      assert View(m) == m.journal + h.pending;
      OfSourceAppend(m.journal, h.pending, source);
      assert OfSource(View(m), source) == OfSource(m.journal, source);
      NextContinues(m, h, source);
      assert Store.Serials([]) == {};
    }
  }

  lemma CommitKeepsSeen(m: Machine, s: Step, source: string)
    requires SourceInv(m, source) && SeenInv(m, source) && Enabled(m, s) && s.CommitTx?
    ensures SeenInv(Next(m, s), source)
    ensures Seen(m, source).Some? ==> Seen(Next(m, s), source).Some? && Seen(m, source).value <= Seen(Next(m, s), source).value
  {
    var h := m.holder.value;
    var committed, made := OfSource(m.journal, source), OfSource(h.pending, source);
    OfSourceAppend(m.journal, h.pending, source);
    ContiguousTail(committed, made);
    if made != [] {
      Ends(made);
      Ends(OfSource(View(m), source));
    } else {
      assert committed + made == committed;
    }
  }

  lemma StepKeepsSeen(m: Machine, s: Step, source: string)
    requires SourceInv(m, source) && SeenInv(m, source) && Enabled(m, s) && s != ForceReload(source)
    ensures SeenInv(Next(m, s), source)
    ensures Seen(m, source).Some? ==> Seen(Next(m, s), source).Some? && Seen(m, source).value <= Seen(Next(m, s), source).value
  {
    match s
    case Record(_, _, _, _, _) => RecordKeepsSeen(m, s, source);
    case CommitTx(_) => CommitKeepsSeen(m, s, source);
    case RollbackTx(_) =>
    case ExpireOldest(expired, count) => WithoutIsSuffix(m.journal, expired, count, source);
    case OtherTxSeesSource(_) =>
    case ForceReload(_) =>
  }

  /** An entry that a step commits has a serial beyond all that the status remembered. */
  lemma NewEntriesAreBeyond(m: Machine, s: Step, source: string, e: Entry)
    requires SourceInv(m, source) && SeenInv(m, source) && Enabled(m, s)
    requires e in OfSource(Next(m, s).journal, source) && e !in OfSource(m.journal, source)
    ensures Seen(m, source).Some? ==> Seen(m, source).value < e.serial
  {
    match s
    case CommitTx(_) =>
      var h := m.holder.value;
      OfSourceAppend(m.journal, h.pending, source);
      ContiguousTail(OfSource(m.journal, source), OfSource(h.pending, source));
      var made := OfSource(h.pending, source);
      assert e in made;
      var i :| 0 <= i < |made| && made[i] == e;
      assert made[i].serial == made[0].serial + i;
    case ExpireOldest(expired, count) => WithoutIsSuffix(m.journal, expired, count, source);
    case _ =>
  }

  /** The status of the source is not reset. */
  predicate NeverReset(steps: seq<Step>, source: string) {
    forall s | s in steps :: s != ForceReload(source)
  }

  lemma {:induction false} RunsKeepSeen(ms: seq<Machine>, steps: seq<Step>, i: nat, source: string)
    requires IsRun(ms, steps) && i < |ms| && NeverReset(steps, source)
    ensures SourceInv(ms[i], source) && SeenInv(ms[i], source)
  {
    SerialsStayContiguous(ms, steps, i);
    assert SourceInv(ms[i], source);
    if i > 0 {
      RunsKeepSeen(ms, steps, i - 1, source);
      assert steps[i - 1] in steps;
      StepKeepsSeen(ms[i - 1], steps[i - 1], source);
    }
  }

  lemma {:induction false} SeenNeverGoesBack(ms: seq<Machine>, steps: seq<Step>, i: nat, j: nat, source: string)
    requires IsRun(ms, steps) && i <= j < |ms| && NeverReset(steps, source) && Seen(ms[i], source).Some?
    ensures Seen(ms[j], source).Some? && Seen(ms[i], source).value <= Seen(ms[j], source).value
    decreases j
  {
    if i < j {
      SeenNeverGoesBack(ms, steps, i, j - 1, source);
      RunsKeepSeen(ms, steps, j - 1, source);
      assert steps[j - 1] in steps;
      StepKeepsSeen(ms[j - 1], steps[j - 1], source);
    }
  }

  /** A committed serial is never given to another entry, not even after its entry has expired. */
  lemma {:induction false} SerialsAreNeverReused(ms: seq<Machine>, steps: seq<Step>, i: nat, j: nat, source: string, e: Entry, later: Entry)
    requires IsRun(ms, steps) && i <= j < |ms| && NeverReset(steps, source)
    requires e in OfSource(ms[i].journal, source) && later in OfSource(ms[j].journal, source)
    ensures e.serial == later.serial ==> e == later
    decreases j
  {
    RunsKeepSeen(ms, steps, i, source);
    CommittedIsSeen(ms[i], source, e);
    if i == j {
      SameSerial(OfSource(ms[i].journal, source), e, later);
    } else if later in OfSource(ms[j - 1].journal, source) {
      SerialsAreNeverReused(ms, steps, i, j - 1, source, e, later);
    } else {
      SeenNeverGoesBack(ms, steps, i, j - 1, source);
      CommittedIsBeyond(ms, steps, j - 1, source, later);
    }
  }

  lemma CommittedIsBeyond(ms: seq<Machine>, steps: seq<Step>, i: nat, source: string, e: Entry)
    requires IsRun(ms, steps) && i < |steps| && NeverReset(steps, source)
    requires e in OfSource(ms[i + 1].journal, source) && e !in OfSource(ms[i].journal, source)
    ensures Seen(ms[i], source).Some? ==> Seen(ms[i], source).value < e.serial
  {
    RunsKeepSeen(ms, steps, i, source);
    NewEntriesAreBeyond(ms[i], steps[i], source, e);
  }

  lemma CommittedIsContiguous(m: Machine, source: string)
    requires SourceInv(m, source)
    ensures Contiguous(OfSource(m.journal, source))
  {
    if m.holder.Some? {
      OfSourceAppend(m.journal, m.holder.value.pending, source);
      ContiguousTail(OfSource(m.journal, source), OfSource(m.holder.value.pending, source));
    }
  }

  lemma CommittedIsSeen(m: Machine, source: string, e: Entry)
    requires SourceInv(m, source) && SeenInv(m, source) && e in OfSource(m.journal, source)
    ensures Contiguous(OfSource(m.journal, source))
    ensures Seen(m, source).Some? && e.serial <= Seen(m, source).value
  {
    CommittedIsContiguous(m, source);
    var entries := OfSource(m.journal, source);
    var i :| 0 <= i < |entries| && entries[i] == e;
    assert entries[|entries| - 1].serial == entries[0].serial + |entries| - 1;
  }

  lemma SameSerial(entries: seq<Entry>, a: Entry, b: Entry)
    requires Contiguous(entries) && a in entries && b in entries
    ensures a.serial == b.serial ==> a == b
  {
    var i :| 0 <= i < |entries| && entries[i] == a;
    var j :| 0 <= j < |entries| && entries[j] == b;
  }

  // ---- the bounds that a commit records ----

  ghost predicate IsLargest(x: Option<int>, s: set<int>) {
    if s == {} then x.None? else x.Some? && x.value in s && forall y | y in s :: y <= x.value
  }

  ghost predicate IsSmallest(x: Option<int>, s: set<int>) {
    if s == {} then x.None? else x.Some? && x.value in s && forall y | y in s :: x.value <= y
  }

  function AsSet(x: Option<int>): set<int> {
    if x.Some? then {x.value} else {}
  }

  lemma LargerOf(a: Option<int>, b: Option<int>, s: set<int>, t: set<int>)
    requires IsLargest(a, s) && IsLargest(b, t)
    ensures IsLargest(Max(a, b), s + t)
  {
  }

  lemma SmallerOf(a: Option<int>, b: Option<int>, s: set<int>, t: set<int>)
    requires IsSmallest(a, s) && IsSmallest(b, t)
    ensures IsSmallest(Min(a, b), s + t)
  {
  }

  /** After a commit that made serials for a source, the journal bounds are the smallest and the largest serial in its
      journal, and the bounds of what was seen take in those, the serials just made and what was seen before.
      Without new serials nothing changes, except that a new source gets an empty row. */
  lemma RecordedBounds(db: Db, t: Tracker, source: string)
    ensures var was, after := if source in db.status then db.status[source] else NEW_STATUS, StatusAfter(db, t, source);
            var journaled := Store.Serials(OfSource(db.journal, source));
            if source in t.newSerials && t.newSerials[source] != {} then
              && IsSmallest(after.oldestJournal, journaled) && IsLargest(after.newestJournal, journaled)
              && IsSmallest(after.oldestSeen, AsSet(was.oldestSeen) + journaled + t.newSerials[source])
              && IsLargest(after.newestSeen, AsSet(was.newestSeen) + journaled + t.newSerials[source])
            else after == was
  {
    var was := if source in db.status then db.status[source] else NEW_STATUS;
    if source in t.newSerials && t.newSerials[source] != {} {
      var made, journaled := t.newSerials[source], Store.Serials(OfSource(db.journal, source));
      LargerOf(was.newestSeen, MaxSerial(db.journal, source), AsSet(was.newestSeen), journaled);
      LargerOf(Max(was.newestSeen, MaxSerial(db.journal, source)), Some(MaxOf(made)), AsSet(was.newestSeen) + journaled, made);
      SmallerOf(was.oldestSeen, MinSerial(db.journal, source), AsSet(was.oldestSeen), journaled);
      SmallerOf(Min(was.oldestSeen, MinSerial(db.journal, source)), Some(MinOf(made)), AsSet(was.oldestSeen) + journaled, made);
    }
  }
}
