/** The database handler with its upsert buffer. `Abs` is the session the buffer stands for;
    every method moves it exactly as the unbuffered operation in Store.dfy does. */
module DatabaseHandlers {
  import opened Journal
  import opened Store
  import opened StatusUpdates

  const MAX_RECORDS_BUFFER_BEFORE_INSERT := 15000

  datatype Call =
    | UpsertCall(upsert: Upsert, guaranteedNoExisting: bool)
    | DeleteCall(key: Key, origin: Origin, protectName: bool)
    | SuspendCall(key: Key)
    | QueryCall
    | CommitCall
    | RollbackCall

  /** What the caller sees: the rows a query reads, or whether the call found its row. */
  datatype Answer = Rows(table: Table) | Done(ok: bool)

  function ImmediateStep(cfg: Config, s: Session, c: Call): Session {
    match c
    case UpsertCall(u, _) => ImmediateUpsert(cfg, s, u)
    case DeleteCall(k, origin, protect) => ImmediateDelete(cfg, s, k, origin, protect)
    case SuspendCall(k) => ImmediateSuspend(cfg, s, k)
    case QueryCall => s
    case CommitCall => ImmediateCommit(s)
    case RollbackCall => ImmediateRollback(s)
  }

  function ImmediateAnswer(s: Session, c: Call): Answer {
    match c
    case DeleteCall(k, _, _) => Done(k in s.db.table)
    case SuspendCall(k) => Done(k in s.db.table)
    case QueryCall => Rows(s.db.table)
    case _ => Done(true)
  }

  function ImmediateRun(cfg: Config, s: Session, cs: seq<Call>): Session {
    if cs == [] then s else ImmediateStep(cfg, ImmediateRun(cfg, s, cs[..|cs| - 1]), cs[|cs| - 1])
  }

  function ImmediateAnswers(cfg: Config, s: Session, cs: seq<Call>): (answers: seq<Answer>)
    ensures |answers| == |cs|
  {
    if cs == [] then []
    else
      var init := cs[..|cs| - 1];
      ImmediateAnswers(cfg, s, init) + [ImmediateAnswer(ImmediateRun(cfg, s, init), cs[|cs| - 1])]
  }

  /** The promise a caller makes with rpsl_guaranteed_no_existing: the row is not there yet. */
  predicate GuaranteeHolds(s: Session, c: Call) {
    c.UpsertCall? && c.guaranteedNoExisting ==> c.upsert.key !in s.db.table
  }

  predicate GuaranteesHold(cfg: Config, s: Session, cs: seq<Call>) {
    cs != [] ==>
      && GuaranteesHold(cfg, s, cs[..|cs| - 1])
      && GuaranteeHolds(ImmediateRun(cfg, s, cs[..|cs| - 1]), cs[|cs| - 1])
  }

  lemma {:induction false} UpsertsGrowTable(cfg: Config, s: Session, us: seq<Upsert>)
    ensures ImmediateUpserts(cfg, s, us).db.table.Keys == s.db.table.Keys + set u | u in us :: u.key
  {
    if us != [] {
      var init, last := us[..|us| - 1], us[|us| - 1];
      UpsertsGrowTable(cfg, s, init);
      assert us == init + [last];
      assert (set u | u in us :: u.key) == (set u | u in init :: u.key) + {last.key};
    }
  }

  lemma RecordAllNext(cfg: Config, s: Session, us: seq<Upsert>, i: nat)
    requires i < |us|
    ensures RecordAll(cfg, s, us[..i + 1]) == RecordIfVisible(cfg, RecordAll(cfg, s, us[..i]), us[i])
  {
    assert us[..i + 1][..i] == us[..i];
  }

  ghost function Seen(us: seq<Upsert>): set<string> {
    set u | u in us :: PkSource(u.key)
  }

  lemma SeenAppend(us: seq<Upsert>, u: Upsert)
    ensures Seen(us + [u]) == Seen(us) + {PkSource(u.key)}
    ensures DistinctKeys(us) && PkSource(u.key) !in Seen(us) ==> DistinctKeys(us + [u])
  {
    assert forall v :: v in us + [u] <==> v in us || v == u;
    if DistinctKeys(us) && PkSource(u.key) !in Seen(us) {
      forall i | 0 <= i < |us|
        ensures us[i].key != u.key
      {
        assert us[i] in us;
      }
    }
  }

  class DatabaseHandler {
    const config: Config
    var journalingEnabled: bool
    var committed: Db
    var db: Db
    var newSerialsPerSource: map<string, set<int>>
    var sourcesSeen: set<string>
    var rpslPkSourceSeen: set<string>
    var rpslUpsertBuffer: seq<Upsert>
    var rpslGuaranteedNoExisting: bool

    function Current(): Session
      reads this
    {
      Session(committed, db, Tracker(newSerialsPerSource, sourcesSeen), journalingEnabled)
    }

    ghost function Abs(): Session
      reads this
    {
      ImmediateUpserts(config, Current(), rpslUpsertBuffer)
    }

    ghost predicate Valid()
      reads this
    {
      ValidBuffer() && |rpslUpsertBuffer| <= MAX_RECORDS_BUFFER_BEFORE_INSERT
    }

    ghost predicate ValidBuffer()
      reads this
    {
      && rpslPkSourceSeen == Seen(rpslUpsertBuffer)
      && DistinctKeys(rpslUpsertBuffer)
      && (rpslGuaranteedNoExisting ==> forall u | u in rpslUpsertBuffer :: u.key !in db.table)
    }

    constructor (config: Config, committed: Db)
      ensures Valid() && this.config == config
      ensures Abs() == Session(committed, committed, FRESH_TRACKER, true)
      ensures rpslUpsertBuffer == []
    {
      this.config := config;
      this.journalingEnabled := true;
      this.committed, this.db := committed, committed;
      newSerialsPerSource, sourcesSeen := map[], {};
      rpslPkSourceSeen, rpslUpsertBuffer, rpslGuaranteedNoExisting := {}, [], true;
    }

    method StartTransaction()
      requires rpslUpsertBuffer == []
      modifies `rpslPkSourceSeen, `rpslUpsertBuffer, `rpslGuaranteedNoExisting, `newSerialsPerSource, `sourcesSeen
      ensures Valid() && rpslUpsertBuffer == []
      ensures Current() == old(Current()).(tracker := FRESH_TRACKER)
    {
      rpslPkSourceSeen, rpslUpsertBuffer, rpslGuaranteedNoExisting := {}, [], true;
      newSerialsPerSource, sourcesSeen := map[], {};
    }

    method RecordOperation(op: Operation, key: Key, text: string, origin: Origin)
      modifies `db, `newSerialsPerSource, `sourcesSeen
      ensures Current() == Store.RecordOperation(config, old(Current()), op, key, text, origin)
    {
      sourcesSeen := sourcesSeen + {key.source};
      if journalingEnabled && key.source in config.keepJournal {
        var serial := NextSerial(db.journal, db.status, newSerialsPerSource, key.source);
        db := db.(journal := db.journal + [Entry(key, op, text, origin, serial)]);
        newSerialsPerSource := AddSerial(newSerialsPerSource, key.source, serial);
      }
    }

    method Flush()
      requires ValidBuffer()
      modifies `db, `newSerialsPerSource, `sourcesSeen, `rpslPkSourceSeen, `rpslUpsertBuffer
      ensures Valid() && rpslUpsertBuffer == []
      ensures Current() == old(Abs())
    {
      if rpslUpsertBuffer == [] { return; }
      BatchIsOneByOne(config, Current(), rpslUpsertBuffer);
      InsertRowsIsBatch(db.table, rpslUpsertBuffer);
      db := db.(table := InsertRows(db.table, rpslUpsertBuffer));
      ghost var inserted := Current();
      var i := 0;
      while i < |rpslUpsertBuffer|
        invariant 0 <= i <= |rpslUpsertBuffer|
        invariant rpslUpsertBuffer == old(rpslUpsertBuffer)
        invariant Current() == RecordAll(config, inserted, rpslUpsertBuffer[..i])
      {
        var u := rpslUpsertBuffer[i];
        RecordAllNext(config, inserted, rpslUpsertBuffer, i);
        if ObjectIsVisible(u.row.statuses) {
          RecordOperation(AddOrUpdate, u.key, u.row.text, u.origin);
        }
        i := i + 1;
      }
      assert rpslUpsertBuffer[..|rpslUpsertBuffer|] == rpslUpsertBuffer;
      rpslPkSourceSeen := {};
      rpslUpsertBuffer := [];
    }

    method UpsertRpslObject(u: Upsert, guaranteedNoExisting: bool)
      requires Valid()
      requires guaranteedNoExisting ==> u.key !in Abs().db.table
      modifies this
      ensures Valid() && Abs() == ImmediateUpsert(config, old(Abs()), u)
    {
      UpsertsGrowTable(config, Current(), rpslUpsertBuffer);
      if !guaranteedNoExisting {
        rpslGuaranteedNoExisting := false;
      }
      if PkSource(u.key) in rpslPkSourceSeen {
        Flush();
      }
      Append(u);
      if |rpslUpsertBuffer| > MAX_RECORDS_BUFFER_BEFORE_INSERT {
        Flush();
      }
    }

    method Append(u: Upsert)
      requires Valid() && PkSource(u.key) !in rpslPkSourceSeen
      requires rpslGuaranteedNoExisting ==> u.key !in db.table
      modifies `rpslUpsertBuffer, `rpslPkSourceSeen
      ensures ValidBuffer() && rpslUpsertBuffer == old(rpslUpsertBuffer) + [u]
      ensures Abs() == ImmediateUpsert(config, old(Abs()), u)
    {
      ghost var before := rpslUpsertBuffer;
      rpslUpsertBuffer := rpslUpsertBuffer + [u];
      rpslPkSourceSeen := rpslPkSourceSeen + {PkSource(u.key)};
      SeenAppend(before, u);
      assert rpslUpsertBuffer[..|before|] == before;
    }

    /** A query sees every earlier upsert, because it flushes first. */
    method ExecuteQuery() returns (rows: Table)
      requires Valid()
      modifies this
      ensures Valid() && rpslUpsertBuffer == []
      ensures Abs() == old(Abs()) && rows == old(Abs()).db.table
    {
      Flush();
      rows := db.table;
    }

    method DeleteRpslObject(key: Key, origin: Origin, protectName: bool) returns (matched: bool)
      requires Valid()
      modifies this
      ensures Valid() && rpslUpsertBuffer == []
      ensures Abs() == ImmediateDelete(config, old(Abs()), key, origin, protectName)
      ensures matched == (key in old(Abs()).db.table)
    {
      Flush();
      if key !in db.table { return false; }
      var row := db.table[key];
      db := db.(table := db.table - {key});
      RecordOperation(Delete, key, row.text, origin);
      if protectName && key.objectClass in config.protectedClasses {
        db := db.(protectedNames := db.protectedNames + {key});
      }
      matched := true;
    }

    /** Without a matching row the source raises a ValueError: matched is false. */
    method SuspendRpslObject(key: Key) returns (matched: bool)
      requires Valid()
      modifies this
      ensures Valid() && rpslUpsertBuffer == []
      ensures Abs() == ImmediateSuspend(config, old(Abs()), key)
      ensures matched == (key in old(Abs()).db.table)
    {
      Flush();
      if key !in db.table { return false; }
      var row := db.table[key];
      db := db.(table := db.table - {key});
      db := db.(suspended := db.suspended + [Suspended(key, row.text)]);
      RecordOperation(Delete, key, row.text, Suspension);
      matched := true;
    }

    method UpdateRpkiStatus(valid: seq<StatusChange>, invalid: seq<StatusChange>, notFound: seq<StatusChange>)
      modifies `db, `newSerialsPerSource, `sourcesSeen
      ensures Current() == UpdateRpki(config, old(Current()), valid, invalid, notFound)
    {
      db := db.(table := SetRpki(db.table, KeysOf(valid), RpkiStatus.Valid));
      db := db.(table := SetRpki(db.table, KeysOf(invalid), Invalid));
      db := db.(table := SetRpki(db.table, KeysOf(notFound), NotFound));
      RecordEach(valid + notFound, Appeared, AddOrUpdate, RpkiOrigin);
      RecordEach(invalid, Disappeared, Delete, RpkiOrigin);
    }

    method UpdateScopefilterStatus(inScope: seq<StatusChange>, outAs: seq<StatusChange>, outPrefix: seq<StatusChange>)
      modifies `db, `newSerialsPerSource, `sourcesSeen
      ensures Current() == UpdateScope(config, old(Current()), inScope, outAs, outPrefix)
    {
      db := db.(table := SetScope(db.table, PksOf(inScope), InScope));
      db := db.(table := SetScope(db.table, PksOf(outAs), OutScopeAs));
      db := db.(table := SetScope(db.table, PksOf(outPrefix), OutScopePrefix));
      RecordEach(inScope, Appeared, AddOrUpdate, ScopeOrigin);
      RecordEach(outAs + outPrefix, Disappeared, Delete, ScopeOrigin);
    }

    method UpdateRoutePreferenceStatus(visible: seq<StatusChange>, suppressed: seq<StatusChange>)
      modifies `db, `newSerialsPerSource, `sourcesSeen
      ensures Current() == UpdatePref(config, old(Current()), visible, suppressed)
    {
      ghost var table := db.table;
      RecordEach(visible, OtherwiseVisible, AddOrUpdate, PrefOrigin);
      RecordEach(suppressed, OtherwiseVisible, Delete, PrefOrigin);
      db := db.(table := SetPref(db.table, KeysOf(visible), Visible));
      db := db.(table := SetPref(db.table, KeysOf(suppressed), Suppressed));
    }

    method RecordEach(cs: seq<StatusChange>, pick: StatusChange -> bool, op: Operation, origin: Origin)
      modifies `db, `newSerialsPerSource, `sourcesSeen
      ensures Current() == RecordSelected(config, old(Current()), cs, pick, op, origin)
      ensures db.table == old(db.table)
    {
      ghost var start := Current();
      for i := 0 to |cs|
        invariant Current() == RecordSelected(config, start, cs[..i], pick, op, origin)
        invariant db.table == start.db.table
      {
        RecordSelectedNext(config, start, cs, pick, op, origin, i);
        if pick(cs[i]) {
          RecordOperation(op, cs[i].key, cs[i].text, origin);
        }
      }
      assert cs[..|cs|] == cs;
    }

    method FinaliseTransaction()
      requires rpslUpsertBuffer == []
      modifies `db
      ensures db == Finalise(old(db), Tracker(newSerialsPerSource, sourcesSeen))
    {
      ghost var before := db;
      ghost var t := Tracker(newSerialsPerSource, sourcesSeen);
      var todo := sourcesSeen;
      while todo != {}
        invariant todo <= sourcesSeen
        invariant db == before.(status := db.status)
        invariant db.status.Keys == before.status.Keys + (sourcesSeen - todo)
        invariant forall s | s in db.status ::
          db.status[s] == if s in before.status then before.status[s] else NEW_STATUS
        decreases todo
      {
        var s :| s in todo;
        if s !in db.status {
          db := db.(status := db.status[s := NEW_STATUS]);
        }
        todo := todo - {s};
      }
      var pending := newSerialsPerSource.Keys * db.status.Keys;
      while pending != {}
        invariant pending <= newSerialsPerSource.Keys * db.status.Keys
        invariant db == before.(status := db.status)
        invariant db.status.Keys == before.status.Keys + sourcesSeen
        invariant forall s | s in db.status ::
          db.status[s] == if s in pending then (if s in before.status then before.status[s] else NEW_STATUS)
                          else StatusAfter(before, t, s)
        decreases pending
      {
        var s :| s in pending;
        var serials := newSerialsPerSource[s];
        if serials != {} {
          var oldest, newest := MinSerial(db.journal, s), MaxSerial(db.journal, s);
          var was := db.status[s];
          db := db.(status := db.status[s := SourceStatus(
            Min(Min(was.oldestSeen, oldest), Some(MinOf(serials))),
            Max(Max(was.newestSeen, newest), Some(MaxOf(serials))), oldest, newest)]);
        }
        pending := pending - {s};
      }
      assert db.status == Finalise(before, t).status;
    }

    method Commit()
      requires Valid()
      modifies this
      ensures Valid() && rpslUpsertBuffer == []
      ensures Abs() == ImmediateCommit(old(Abs()))
      ensures committed == db && newSerialsPerSource == map[] && sourcesSeen == {}
      ensures committed.table == old(Abs()).db.table && committed.journal == old(Abs()).db.journal
      ensures committed.suspended == old(Abs()).db.suspended && committed.protectedNames == old(Abs()).db.protectedNames
    {
      Flush();
      FinaliseTransaction();
      committed := db;
      StartTransaction();
    }

    method Rollback()
      requires Valid()
      modifies this
      ensures Valid() && rpslUpsertBuffer == []
      ensures Abs() == ImmediateRollback(old(Abs()))
      ensures db == committed == old(committed) && newSerialsPerSource == map[] && sourcesSeen == {}
    {
      UpsertsKeepCommitted(config, Current(), rpslUpsertBuffer);
      rpslUpsertBuffer, rpslPkSourceSeen := [], {};
      db := committed;
      StartTransaction();
    }

    /** Any sequence of calls through the buffer gives the state and the answers of unbuffered writing. */
    method Execute(calls: seq<Call>) returns (answers: seq<Answer>)
      requires Valid()
      requires GuaranteesHold(config, Abs(), calls)
      modifies this
      ensures Valid()
      ensures Abs() == ImmediateRun(config, old(Abs()), calls)
      ensures answers == ImmediateAnswers(config, old(Abs()), calls)
    {
      answers := [];
      ghost var start := Abs();
      for i := 0 to |calls|
        invariant Valid()
        invariant Abs() == ImmediateRun(config, start, calls[..i])
        invariant answers == ImmediateAnswers(config, start, calls[..i])
      {
        RunNext(config, start, calls, i);
        GuaranteesPrefix(config, start, calls, i + 1);
        ghost var before := Abs();
        var answer := Done(true);
        match calls[i] {
          case UpsertCall(u, guaranteed) => UpsertRpslObject(u, guaranteed);
          case DeleteCall(k, origin, protect) =>
            var ok := DeleteRpslObject(k, origin, protect);
            answer := Done(ok);
          case SuspendCall(k) =>
            var ok := SuspendRpslObject(k);
            answer := Done(ok);
          case QueryCall =>
            var rows := ExecuteQuery();
            answer := Rows(rows);
          case CommitCall => Commit();
          case RollbackCall => Rollback();
        }
        assert answer == ImmediateAnswer(before, calls[i]);
        answers := answers + [answer];
      }
      assert calls[..|calls|] == calls;
    }
  }

  lemma {:induction false} UpsertsKeepCommitted(cfg: Config, s: Session, us: seq<Upsert>)
    ensures ImmediateUpserts(cfg, s, us).committed == s.committed
    ensures ImmediateUpserts(cfg, s, us).journaling == s.journaling
  {
    if us != [] {
      UpsertsKeepCommitted(cfg, s, us[..|us| - 1]);
    }
  }

  lemma RunNext(cfg: Config, s: Session, cs: seq<Call>, i: nat)
    requires i < |cs|
    ensures cs[..i + 1][..i] == cs[..i]
    ensures ImmediateRun(cfg, s, cs[..i + 1]) == ImmediateStep(cfg, ImmediateRun(cfg, s, cs[..i]), cs[i])
    ensures ImmediateAnswers(cfg, s, cs[..i + 1])
         == ImmediateAnswers(cfg, s, cs[..i]) + [ImmediateAnswer(ImmediateRun(cfg, s, cs[..i]), cs[i])]
  {
    assert cs[..i + 1][..i] == cs[..i];
  }

  lemma {:induction false} GuaranteesPrefix(cfg: Config, s: Session, cs: seq<Call>, n: nat)
    requires n <= |cs| && GuaranteesHold(cfg, s, cs)
    ensures GuaranteesHold(cfg, s, cs[..n])
    decreases |cs|
  {
    if n < |cs| {
      assert cs[..|cs| - 1][..n] == cs[..n];
      GuaranteesPrefix(cfg, s, cs[..|cs| - 1], n);
    } else {
      assert cs[..n] == cs;
    }
  }
}
