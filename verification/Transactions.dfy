/** What a run of handler calls leaves behind, told by the calls alone: a commit keeps what was visible, a rollback
    undoes everything since the last commit, and what is there otherwise is the last write to each key. */
module Transactions {
  import opened Journal
  import opened Store
  import opened DatabaseHandlers
  import opened StatusUpdates
  import Visibility
  import Text

  /** Nothing is pending: the transaction has just been committed, rolled back or opened. */
  predicate Settled(s: Session) {
    s.db == s.committed && s.tracker == FRESH_TRACKER
  }

  predicate NoCommit(cs: seq<Call>) {
    forall c | c in cs :: !c.CommitCall?
  }

  lemma {:induction false} RunConcat(cfg: Config, s: Session, a: seq<Call>, b: seq<Call>)
    ensures ImmediateRun(cfg, s, a + b) == ImmediateRun(cfg, ImmediateRun(cfg, s, a), b)
    ensures ImmediateAnswers(cfg, s, a + b)
         == ImmediateAnswers(cfg, s, a) + ImmediateAnswers(cfg, ImmediateRun(cfg, s, a), b)
  {
    if b == [] {
      assert a + b == a;
    } else {
      var n := |b| - 1;
      assert (a + b)[..|a + b| - 1] == a + b[..n];
      RunConcat(cfg, s, a, b[..n]);
    }
  }

  lemma RunOne(cfg: Config, s: Session, cs: seq<Call>, c: Call)
    ensures ImmediateRun(cfg, s, cs + [c]) == ImmediateStep(cfg, ImmediateRun(cfg, s, cs), c)
  {
    assert (cs + [c])[..|cs|] == cs;
  }

  lemma {:induction false} OnlyCommitsCommit(cfg: Config, s: Session, cs: seq<Call>)
    requires NoCommit(cs)
    ensures ImmediateRun(cfg, s, cs).committed == s.committed
    ensures ImmediateRun(cfg, s, cs).journaling == s.journaling
  {
    if cs != [] {
      OnlyCommitsCommit(cfg, s, cs[..|cs| - 1]);
    }
  }

  /** A rollback leaves nothing but what was committed when the calls began. */
  lemma RollbackRestores(cfg: Config, s: Session, cs: seq<Call>)
    requires NoCommit(cs)
    ensures ImmediateRun(cfg, s, cs + [RollbackCall]) == Session(s.committed, s.committed, FRESH_TRACKER, s.journaling)
  {
    OnlyCommitsCommit(cfg, s, cs);
    RunOne(cfg, s, cs, RollbackCall);
  }

  /** Calls that are rolled back are as if they had never been made: for all later calls,
      what they answer and what they leave is the same. */
  lemma RollbackUndoes(cfg: Config, s: Session, cs: seq<Call>, later: seq<Call>)
    requires Settled(s) && NoCommit(cs)
    ensures ImmediateRun(cfg, s, cs + [RollbackCall] + later) == ImmediateRun(cfg, s, later)
    ensures ImmediateAnswers(cfg, s, cs + [RollbackCall] + later)
         == ImmediateAnswers(cfg, s, cs + [RollbackCall]) + ImmediateAnswers(cfg, s, later)
  {
    RollbackRestores(cfg, s, cs);
    RunConcat(cfg, s, cs + [RollbackCall], later);
  }

  /** A commit makes durable exactly what was visible just before it; only the status rows are brought up to date. */
  lemma CommitKeeps(cfg: Config, s: Session, cs: seq<Call>)
    ensures var before, after := ImmediateRun(cfg, s, cs), ImmediateRun(cfg, s, cs + [CommitCall]);
            && Settled(after) && after.journaling == before.journaling
            && after.committed.table == before.db.table && after.committed.journal == before.db.journal
            && after.committed.suspended == before.db.suspended
            && after.committed.protectedNames == before.db.protectedNames
  {
    RunOne(cfg, s, cs, CommitCall);
  }

  /** A rollback goes back to the last commit: afterwards everything is as it was right after that commit. */
  lemma RollbackToLastCommit(cfg: Config, s: Session, before: seq<Call>, cs: seq<Call>, later: seq<Call>)
    requires NoCommit(cs)
    ensures var start := before + [CommitCall];
            && ImmediateRun(cfg, s, start + (cs + [RollbackCall] + later)) == ImmediateRun(cfg, s, start + later)
            && ImmediateAnswers(cfg, s, start + (cs + [RollbackCall] + later))
            == ImmediateAnswers(cfg, s, start + (cs + [RollbackCall]))
               + ImmediateAnswers(cfg, s, start + later)[|start|..]
  {
    var start := before + [CommitCall];
    var committed := ImmediateRun(cfg, s, start);
    CommitKeeps(cfg, s, before);
    RunConcat(cfg, s, start, cs + [RollbackCall] + later);
    RunConcat(cfg, s, start, cs + [RollbackCall]);
    RunConcat(cfg, s, start, later);
    RollbackUndoes(cfg, committed, cs, later);
    Text.Associative(ImmediateAnswers(cfg, s, start), ImmediateAnswers(cfg, committed, cs + [RollbackCall]),
                     ImmediateAnswers(cfg, committed, later));
  }

  // ---- what is there, told by the calls that last ----

  /** The calls whose effects are committed, and those since then, which a rollback would undo. */
  function Lasting(cs: seq<Call>): (r: (seq<Call>, seq<Call>)) {
    if cs == [] then ([], [])
    else
      var (kept, pending) := Lasting(cs[..|cs| - 1]);
      match cs[|cs| - 1]
      case CommitCall => (kept + pending, [])
      case RollbackCall => (kept, [])
      case c => (kept, pending + [c])
  }

  function Lookup(table: Table, k: Key): Option<Row> {
    if k in table then Some(table[k]) else None
  }

  /** What the last of the calls that is about the key leaves there. */
  function LastWrite(table: Table, cs: seq<Call>, k: Key): Option<Row> {
    if cs == [] then Lookup(table, k)
    else
      var c := cs[|cs| - 1];
      if c.UpsertCall? && c.upsert.key == k then Some(c.upsert.row)
      else if (c.DeleteCall? || c.SuspendCall?) && c.key == k then None
      else LastWrite(table, cs[..|cs| - 1], k)
  }

  datatype Logged = Logged(key: Key, op: Operation, text: string, origin: Origin)

  function LoggedFor(cfg: Config, table: Table, before: seq<Call>, c: Call): seq<Logged> {
    match c
    case UpsertCall(u, _) =>
      if ObjectIsVisible(u.row.statuses) && u.key.source in cfg.keepJournal
      then [Logged(u.key, AddOrUpdate, u.row.text, u.origin)] else []
    case DeleteCall(k, origin, _) =>
      var was := LastWrite(table, before, k);
      if was.Some? && k.source in cfg.keepJournal then [Logged(k, Delete, was.value.text, origin)] else []
    case SuspendCall(k) =>
      var was := LastWrite(table, before, k);
      if was.Some? && k.source in cfg.keepJournal then [Logged(k, Delete, was.value.text, Suspension)] else []
    case _ => []
  }

  /** One entry for each visible upsert, deletion and suspension of an object that is there. */
  function Log(cfg: Config, table: Table, cs: seq<Call>): seq<Logged> {
    if cs == [] then []
    else
      var init := cs[..|cs| - 1];
      Log(cfg, table, init) + LoggedFor(cfg, table, init, cs[|cs| - 1])
  }

  /** The journal without its serials. */
  function Unnumbered(journal: seq<Entry>): seq<Logged> {
    seq(|journal|, i requires 0 <= i < |journal| =>
      Logged(journal[i].key, journal[i].op, journal[i].text, journal[i].origin))
  }

  /** What suspensions moved out of the table. */
  function Moved(table: Table, cs: seq<Call>): seq<Suspended> {
    if cs == [] then []
    else
      var init, c := cs[..|cs| - 1], cs[|cs| - 1];
      var rest := Moved(table, init);
      if c.SuspendCall? && LastWrite(table, init, c.key).Some?
      then rest + [Suspended(c.key, LastWrite(table, init, c.key).value.text)] else rest
  }

  /** The name was given up by a deletion that protects it. */
  ghost predicate GivenUp(cfg: Config, table: Table, cs: seq<Call>, k: Key) {
    exists i | 0 <= i < |cs| :: GivesUp(cfg, table, cs, i, k)
  }

  predicate GivesUp(cfg: Config, table: Table, cs: seq<Call>, i: nat, k: Key)
    requires i < |cs|
  {
    && cs[i].DeleteCall? && cs[i].key == k && cs[i].protectName && k.objectClass in cfg.protectedClasses
    && LastWrite(table, cs[..i], k).Some?
  }

  /** The database is what the calls make of another one. */
  ghost predicate Follows(cfg: Config, start: Db, cs: seq<Call>, db: Db) {
    && (forall k :: Lookup(db.table, k) == LastWrite(start.table, cs, k))
    && Unnumbered(db.journal) == Unnumbered(start.journal) + Log(cfg, start.table, cs)
    && db.suspended == start.suspended + Moved(start.table, cs)
    && (forall k :: k in db.protectedNames <==> k in start.protectedNames || GivenUp(cfg, start.table, cs, k))
  }

  lemma GivenUpNext(cfg: Config, table: Table, cs: seq<Call>, c: Call, k: Key)
    ensures GivenUp(cfg, table, cs + [c], k)
        <==> GivenUp(cfg, table, cs, k) || GivesUp(cfg, table, cs + [c], |cs|, k)
  {
    var next := cs + [c];
    forall i | 0 <= i < |cs|
      ensures GivesUp(cfg, table, next, i, k) <==> GivesUp(cfg, table, cs, i, k)
    {
      assert next[..i] == cs[..i];
    }
  }

  lemma UnnumberedAppend(journal: seq<Entry>, e: Entry)
    ensures Unnumbered(journal + [e]) == Unnumbered(journal) + [Logged(e.key, e.op, e.text, e.origin)]
  {
  }

  lemma RowNext(cfg: Config, start: Db, cs: seq<Call>, s: Session, c: Call, k: Key)
    requires Lookup(s.db.table, k) == LastWrite(start.table, cs, k) && !c.CommitCall? && !c.RollbackCall?
    ensures Lookup(ImmediateStep(cfg, s, c).db.table, k) == LastWrite(start.table, cs + [c], k)
  {
    assert (cs + [c])[..|cs|] == cs;
  }

  lemma NameNext(cfg: Config, start: Db, cs: seq<Call>, s: Session, c: Call, k: Key)
    requires Lookup(s.db.table, k) == LastWrite(start.table, cs, k) && !c.CommitCall? && !c.RollbackCall?
    requires k in s.db.protectedNames <==> k in start.protectedNames || GivenUp(cfg, start.table, cs, k)
    ensures k in ImmediateStep(cfg, s, c).db.protectedNames
        <==> k in start.protectedNames || GivenUp(cfg, start.table, cs + [c], k)
  {
    GivenUpNext(cfg, start.table, cs, c, k);
    assert (cs + [c])[..|cs|] == cs;
  }

  lemma MovedNext(cfg: Config, start: Db, cs: seq<Call>, s: Session, c: Call)
    requires Follows(cfg, start, cs, s.db) && !c.CommitCall? && !c.RollbackCall?
    ensures ImmediateStep(cfg, s, c).db.suspended == start.suspended + Moved(start.table, cs + [c])
  {
    assert (cs + [c])[..|cs|] == cs;
    if c.SuspendCall? {
      assert Lookup(s.db.table, c.key) == LastWrite(start.table, cs, c.key);
    }
  }

  /** One more write. */
  lemma FollowsNext(cfg: Config, start: Db, cs: seq<Call>, s: Session, c: Call)
    requires Follows(cfg, start, cs, s.db) && s.journaling && !c.CommitCall? && !c.RollbackCall?
    ensures Follows(cfg, start, cs + [c], ImmediateStep(cfg, s, c).db)
  {
    var next, after := cs + [c], ImmediateStep(cfg, s, c).db;
    forall k
      ensures Lookup(after.table, k) == LastWrite(start.table, next, k)
      ensures k in after.protectedNames <==> k in start.protectedNames || GivenUp(cfg, start.table, next, k)
    {
      assert Lookup(s.db.table, k) == LastWrite(start.table, cs, k);
      RowNext(cfg, start, cs, s, c, k);
      NameNext(cfg, start, cs, s, c, k);
    }
    JournalNext(cfg, start, cs, s, c);
    MovedNext(cfg, start, cs, s, c);
  }

  lemma JournalNext(cfg: Config, start: Db, cs: seq<Call>, s: Session, c: Call)
    requires Follows(cfg, start, cs, s.db) && s.journaling && !c.CommitCall? && !c.RollbackCall?
    ensures Unnumbered(ImmediateStep(cfg, s, c).db.journal)
         == Unnumbered(start.journal) + Log(cfg, start.table, cs + [c])
  {
    var after := ImmediateStep(cfg, s, c);
    var added := LoggedFor(cfg, start.table, cs, c);
    assert (cs + [c])[..|cs|] == cs;
    if c.DeleteCall? || c.SuspendCall? {
      assert Lookup(s.db.table, c.key) == LastWrite(start.table, cs, c.key);
    }
    if added == [] {
      assert after.db.journal == s.db.journal;
    } else {
      var e := after.db.journal[|s.db.journal|];
      assert after.db.journal == s.db.journal + [e];
      UnnumberedAppend(s.db.journal, e);
    }
  }

  lemma FollowsNothing(cfg: Config, start: Db)
    ensures Follows(cfg, start, [], start)
  {
    assert forall k :: !GivenUp(cfg, start.table, [], k);
  }

  lemma StepKeepsJournaling(cfg: Config, s: Session, c: Call)
    ensures ImmediateStep(cfg, s, c).journaling == s.journaling
    ensures !c.CommitCall? ==> ImmediateStep(cfg, s, c).committed == s.committed
  {
  }

  /** After any calls the committed database is what the committed calls make of the first one, and the visible
      one is what they make of it together with the pending calls: rows, journal, suspended objects, protected names. */
  lemma {:induction false} CallsTell(cfg: Config, s: Session, cs: seq<Call>)
    requires s.db == s.committed && s.journaling
    ensures var after := ImmediateRun(cfg, s, cs);
            var (kept, pending) := Lasting(cs);
            && after.journaling
            && Follows(cfg, s.db, kept, after.committed) && Follows(cfg, s.db, kept + pending, after.db)
  {
    if cs == [] {
      FollowsNothing(cfg, s.db);
    } else {
      var init, c := cs[..|cs| - 1], cs[|cs| - 1];
      var before := ImmediateRun(cfg, s, init);
      var (kept, pending) := Lasting(init);
      CallsTell(cfg, s, init);
      StepKeepsJournaling(cfg, before, c);
      if c.CommitCall? || c.RollbackCall? {
        assert kept + pending + [] == kept + pending && kept + [] == kept;
      } else {
        FollowsNext(cfg, s.db, kept + pending, before, c);
        Text.Associative(kept, pending, [c]);
      }
    }
  }

  /** A query answers the last lasting write to each key. */
  lemma QueriesAnswerLastWrites(cfg: Config, s: Session, cs: seq<Call>, k: Key)
    requires s.db == s.committed && s.journaling
    ensures var answers := ImmediateAnswers(cfg, s, cs + [QueryCall]);
            var (kept, pending) := Lasting(cs);
            && |answers| == |cs| + 1 && answers[|cs|].Rows?
            && Lookup(answers[|cs|].table, k) == LastWrite(s.db.table, kept + pending, k)
  {
    CallsTell(cfg, s, cs);
    assert (cs + [QueryCall])[..|cs|] == cs;
    assert Lookup(ImmediateRun(cfg, s, cs).db.table, k) == LastWrite(s.db.table, Lasting(cs).0 + Lasting(cs).1, k);
  }

  /** Every other call answers whether it found its row: a deletion or suspension does when the last lasting
      write to its key left one. */
  lemma CallsAnswerWhatTheyFind(cfg: Config, s: Session, cs: seq<Call>, c: Call)
    requires s.db == s.committed && s.journaling && !c.QueryCall?
    ensures var (kept, pending) := Lasting(cs);
            ImmediateAnswers(cfg, s, cs + [c])
            == ImmediateAnswers(cfg, s, cs)
               + [Done(c.DeleteCall? || c.SuspendCall? ==> LastWrite(s.db.table, kept + pending, c.key).Some?)]
  {
    CallsTell(cfg, s, cs);
    assert (cs + [c])[..|cs|] == cs;
    if c.DeleteCall? || c.SuspendCall? {
      assert Lookup(ImmediateRun(cfg, s, cs).db.table, c.key) == LastWrite(s.db.table, Lasting(cs).0 + Lasting(cs).1, c.key);
    }
  }

  // ---- which sources get a status row ----

  /** The source of a visible upsert, or of a deletion or suspension of an object that is there. */
  function SourceOf(table: Table, before: seq<Call>, c: Call): set<string> {
    match c
    case UpsertCall(u, _) => if ObjectIsVisible(u.row.statuses) then {u.key.source} else {}
    case DeleteCall(k, _, _) => if LastWrite(table, before, k).Some? then {k.source} else {}
    case SuspendCall(k) => if LastWrite(table, before, k).Some? then {k.source} else {}
    case _ => {}
  }

  /** The sources of the calls from a position on. */
  function SourcesFrom(table: Table, cs: seq<Call>, from: nat): set<string> {
    if |cs| <= from then {}
    else
      var init := cs[..|cs| - 1];
      SourcesFrom(table, init, from) + SourceOf(table, init, cs[|cs| - 1])
  }

  lemma {:induction false} SourcesSplit(table: Table, cs: seq<Call>, from: nat)
    requires from <= |cs|
    ensures SourcesFrom(table, cs, 0) == SourcesFrom(table, cs[..from], 0) + SourcesFrom(table, cs, from)
  {
    if from < |cs| {
      var init := cs[..|cs| - 1];
      SourcesSplit(table, init, from);
      assert init[..from] == cs[..from];
    } else {
      assert cs[..from] == cs;
    }
  }

  lemma SourcesNext(cfg: Config, start: Db, cs: seq<Call>, s: Session, c: Call)
    requires Follows(cfg, start, cs, s.db) && !c.CommitCall? && !c.RollbackCall?
    ensures ImmediateStep(cfg, s, c).tracker.sourcesSeen == s.tracker.sourcesSeen + SourceOf(start.table, cs, c)
    ensures ImmediateStep(cfg, s, c).db.status == s.db.status
  {
    if c.DeleteCall? || c.SuspendCall? {
      assert Lookup(s.db.table, c.key) == LastWrite(start.table, cs, c.key);
    }
  }

  /** A commit gives a status row to every source with a visible upsert, a deletion or a suspension, journaled or not;
      after any calls, the committed status has the rows it had and those of the committed calls. */
  lemma {:induction false} StatusRowsTell(cfg: Config, s: Session, cs: seq<Call>)
    requires Settled(s) && s.journaling
    ensures var after := ImmediateRun(cfg, s, cs);
            var (kept, pending) := Lasting(cs);
            && after.committed.status.Keys == s.db.status.Keys + SourcesFrom(s.db.table, kept, 0)
            && after.db.status == after.committed.status
            && after.tracker.sourcesSeen == SourcesFrom(s.db.table, kept + pending, |kept|)
  {
    if cs != [] {
      var init, c := cs[..|cs| - 1], cs[|cs| - 1];
      var before := ImmediateRun(cfg, s, init);
      var (kept, pending) := Lasting(init);
      StatusRowsTell(cfg, s, init);
      CallsTell(cfg, s, init);
      assert kept + pending + [] == kept + pending && kept + [] == kept;
      if c.CommitCall? {
        SourcesSplit(s.db.table, kept + pending, |kept|);
        assert (kept + pending)[..|kept|] == kept;
      } else if !c.RollbackCall? {
        SourcesNext(cfg, s.db, kept + pending, before, c);
        StepKeepsJournaling(cfg, before, c);
        Text.Associative(kept, pending, [c]);
        assert (kept + pending + [c])[..|kept + pending|] == kept + pending;
      }
    }
  }

  // ---- status updates within a transaction ----

  lemma EventKeepsCommitted(cfg: Config, s: Session, e: Visibility.Event)
    requires e != Visibility.Do(CommitCall)
    ensures Visibility.Step(cfg, s, e).committed == s.committed
    ensures Visibility.Step(cfg, s, e).journaling == s.journaling
  {
    match e {
      case Do(_) =>
      case Rpki(a, b, c) => SelectedTwiceKeepsRest(cfg, WithTable(s, RpkiTable(s.db.table, a, b, c)),
                                                   a + c, Appeared, b, Disappeared, RpkiOrigin);
      case Scope(a, b, c) => SelectedTwiceKeepsRest(cfg, WithTable(s, ScopeTable(s.db.table, a, b, c)),
                                                    a, Appeared, b + c, Disappeared, ScopeOrigin);
      case Pref(a, b) => SelectedTwiceKeepsRest(cfg, s, a, OtherwiseVisible, b, OtherwiseVisible, PrefOrigin);
    }
  }

  lemma SelectedTwiceKeepsRest(cfg: Config, s: Session, adds: seq<StatusChange>, addPick: StatusChange -> bool,
                               dels: seq<StatusChange>, delPick: StatusChange -> bool, origin: Origin)
    ensures var after := RecordSelected(cfg, RecordSelected(cfg, s, adds, addPick, AddOrUpdate, origin),
                                        dels, delPick, Delete, origin);
            after.committed == s.committed && after.journaling == s.journaling
  {
    var middle := RecordSelected(cfg, s, adds, addPick, AddOrUpdate, origin);
    Visibility.SelectedKeepsRest(cfg, s, adds, addPick, AddOrUpdate, origin);
    Visibility.SelectedKeepsRest(cfg, middle, dels, delPick, Delete, origin);
  }

  predicate NoCommitEvent(es: seq<Visibility.Event>) {
    forall i | 0 <= i < |es| :: es[i] != Visibility.Do(CommitCall)
  }

  lemma {:induction false} EventsKeepCommitted(cfg: Config, s: Session, es: seq<Visibility.Event>)
    requires NoCommitEvent(es)
    ensures Visibility.Run(cfg, s, es).committed == s.committed
    ensures Visibility.Run(cfg, s, es).journaling == s.journaling
  {
    if es != [] {
      var n := |es| - 1;
      EventsKeepCommitted(cfg, s, es[..n]);
      EventKeepsCommitted(cfg, Visibility.Run(cfg, s, es[..n]), es[n]);
    }
  }

  /** A rollback also undoes the status updates made since the last commit. */
  lemma RollbackUndoesUpdates(cfg: Config, s: Session, es: seq<Visibility.Event>)
    requires NoCommitEvent(es)
    ensures Visibility.Run(cfg, s, es + [Visibility.Do(RollbackCall)])
         == Session(s.committed, s.committed, FRESH_TRACKER, s.journaling)
  {
    EventsKeepCommitted(cfg, s, es);
    assert (es + [Visibility.Do(RollbackCall)])[..|es|] == es;
  }
}
