/** The database handler as it is specified: every operation is written at once.
    DatabaseHandler.dfy refines this with the upsert buffer. */
module Store {
  import opened Journal

  datatype Option<+T> = None | Some(value: T)

  datatype Config = Config(keepJournal: set<string>, protectedClasses: set<string>)

  /** One row of the database status table; serials only. */
  datatype SourceStatus = SourceStatus(oldestSeen: Option<int>, newestSeen: Option<int>,
                                       oldestJournal: Option<int>, newestJournal: Option<int>)
  const NEW_STATUS := SourceStatus(None, None, None, None)

  datatype Suspended = Suspended(key: Key, text: string)
  datatype Db = Db(table: Table, suspended: seq<Suspended>, protectedNames: set<Key>,
                   journal: seq<Entry>, status: map<string, SourceStatus>)
  datatype Tracker = Tracker(newSerials: map<string, set<int>>, sourcesSeen: set<string>)
  const FRESH_TRACKER := Tracker(map[], {})

  /** One connection: what is committed, what its open transaction sees, and the status tracker. */
  datatype Session = Session(committed: Db, db: Db, tracker: Tracker, journaling: bool)

  datatype Upsert = Upsert(key: Key, row: Row, origin: Origin)

  // ---- serials ----

  predicate IsMax(m: int, s: set<int>) {
    m in s && forall x | x in s :: x <= m
  }

  lemma AnElement<T>(s: set<T>) returns (x: T)
    requires s != {}
    ensures x in s
  {
    x :| x in s;
  }

  lemma {:induction false} MaxExists(s: set<int>)
    requires s != {}
    ensures exists m :: IsMax(m, s)
  {
    var x := AnElement(s);
    if s == {x} {
      assert IsMax(x, s);
    } else {
      MaxExists(s - {x});
      var rest :| IsMax(rest, s - {x});
      var m := if x > rest then x else rest;
      assert forall y | y in s :: y == x || y in s - {x};
      assert IsMax(m, s);
    }
  }

  function MaxOf(s: set<int>): (m: int)
    requires s != {}
    ensures IsMax(m, s)
  {
    MaxExists(s);
    var m :| IsMax(m, s);
    m
  }

  function MinOf(s: set<int>): (m: int)
    requires s != {}
    ensures m in s && forall x | x in s :: m <= x
  {
    var negated := set x | x in s :: -x;
    assert -MaxOf(s) in negated;
    assert forall x | x in s :: -x in negated;
    -MaxOf(negated)
  }

  function Serials(journal: seq<Entry>): set<int> {
    set e | e in journal :: e.serial
  }

  function Max(a: Option<int>, b: Option<int>): Option<int> {
    if a.None? then b else if b.None? then a else if a.value >= b.value then a else b
  }

  function Min(a: Option<int>, b: Option<int>): Option<int> {
    if a.None? then b else if b.None? then a else if a.value <= b.value then a else b
  }

  function MaxSerial(journal: seq<Entry>, source: string): Option<int> {
    var s := Serials(OfSource(journal, source));
    if s == {} then None else Some(MaxOf(s))
  }

  function MinSerial(journal: seq<Entry>, source: string): Option<int> {
    var s := Serials(OfSource(journal, source));
    if s == {} then None else Some(MinOf(s))
  }

  /** max(newly made serials) + 1, or else COALESCE(MAX(serial_nrtm), MAX(serial_newest_seen), 0) + 1
      over the status row of the source joined with its journal: 1 when there is no status row. */
  function NextSerial(journal: seq<Entry>, status: map<string, SourceStatus>,
                            newSerials: map<string, set<int>>, source: string): int
  {
    if source in newSerials && newSerials[source] != {} then MaxOf(newSerials[source]) + 1
    else if source !in status then 1
    else if MaxSerial(journal, source).Some? then MaxSerial(journal, source).value + 1
    else if status[source].newestSeen.Some? then status[source].newestSeen.value + 1
    else 1
  }

  function AddSerial(newSerials: map<string, set<int>>, source: string, serial: int): map<string, set<int>> {
    newSerials[source := (if source in newSerials then newSerials[source] else {}) + {serial}]
  }

  // ---- the operations ----

  function RecordOperation(cfg: Config, s: Session, op: Operation, key: Key, text: string, origin: Origin): Session {
    var seen := s.tracker.sourcesSeen + {key.source};
    if s.journaling && key.source in cfg.keepJournal then
      var serial := NextSerial(s.db.journal, s.db.status, s.tracker.newSerials, key.source);
      s.(db := s.db.(journal := s.db.journal + [Entry(key, op, text, origin, serial)]),
         tracker := Tracker(AddSerial(s.tracker.newSerials, key.source, serial), seen))
    else
      s.(tracker := s.tracker.(sourcesSeen := seen))
  }

  function RecordIfVisible(cfg: Config, s: Session, u: Upsert): Session {
    if ObjectIsVisible(u.row.statuses) then RecordOperation(cfg, s, AddOrUpdate, u.key, u.row.text, u.origin) else s
  }

  function WithTable(s: Session, table: Table): Session {
    s.(db := s.db.(table := table))
  }

  function ImmediateUpsert(cfg: Config, s: Session, u: Upsert): Session {
    RecordIfVisible(cfg, WithTable(s, s.db.table[u.key := u.row]), u)
  }

  function ImmediateUpserts(cfg: Config, s: Session, us: seq<Upsert>): Session {
    if us == [] then s
    else ImmediateUpsert(cfg, ImmediateUpserts(cfg, s, us[..|us| - 1]), us[|us| - 1])
  }

  function ImmediateDelete(cfg: Config, s: Session, key: Key, origin: Origin, protectName: bool): Session {
    if key !in s.db.table then s
    else
      var gone := RecordOperation(cfg, WithTable(s, s.db.table - {key}), Delete, key, s.db.table[key].text, origin);
      if protectName && key.objectClass in cfg.protectedClasses
      then gone.(db := gone.db.(protectedNames := gone.db.protectedNames + {key}))
      else gone
  }

  function ImmediateSuspend(cfg: Config, s: Session, key: Key): Session {
    if key !in s.db.table then s
    else
      var text := s.db.table[key].text;
      var moved := s.(db := s.db.(table := s.db.table - {key}, suspended := s.db.suspended + [Suspended(key, text)]));
      RecordOperation(cfg, moved, Delete, key, text, Suspension)
  }

  function StatusAfter(db: Db, t: Tracker, source: string): SourceStatus {
    var was := if source in db.status then db.status[source] else NEW_STATUS;
    if source in t.newSerials && t.newSerials[source] != {} then
      var oldest := MinSerial(db.journal, source);
      var newest := MaxSerial(db.journal, source);
      SourceStatus(Min(Min(was.oldestSeen, oldest), Some(MinOf(t.newSerials[source]))),
                   Max(Max(was.newestSeen, newest), Some(MaxOf(t.newSerials[source]))),
                   oldest, newest)
    else was
  }

  function Finalise(db: Db, t: Tracker): Db {
    db.(status := map source | source in db.status.Keys + t.sourcesSeen :: StatusAfter(db, t, source))
  }

  function ImmediateCommit(s: Session): Session {
    var db := Finalise(s.db, s.tracker);
    Session(db, db, FRESH_TRACKER, s.journaling)
  }

  function ImmediateRollback(s: Session): Session {
    Session(s.committed, s.committed, FRESH_TRACKER, s.journaling)
  }

  // ---- flushing a batch is writing its rows one by one ----

  function PkSource(k: Key): string {
    k.rpslPk + "-" + k.source
  }

  ghost predicate DistinctKeys(us: seq<Upsert>) {
    forall i, j | 0 <= i < j < |us| :: us[i].key != us[j].key
  }

  /** INSERT .. VALUES (rows) ON CONFLICT DO UPDATE, which PostgreSQL only accepts without repeated keys. */
  ghost function InsertBatch(table: Table, us: seq<Upsert>): Table
    requires DistinctKeys(us)
  {
    table + map k | k in (set u | u in us :: u.key) :: RowFor(us, k)
  }

  /** The same statement as an executable function. */
  function InsertRows(table: Table, us: seq<Upsert>): Table {
    if us == [] then table else InsertRows(table, us[..|us| - 1])[us[|us| - 1].key := us[|us| - 1].row]
  }

  ghost function RowFor(us: seq<Upsert>, k: Key): (r: Row)
    requires exists u :: u in us && u.key == k
  {
    var u :| u in us && u.key == k;
    u.row
  }

  function RecordAll(cfg: Config, s: Session, us: seq<Upsert>): Session {
    if us == [] then s
    else RecordIfVisible(cfg, RecordAll(cfg, s, us[..|us| - 1]), us[|us| - 1])
  }

  lemma {:induction false} RecordAllKeepsTable(cfg: Config, s: Session, us: seq<Upsert>, table: Table)
    ensures RecordAll(cfg, WithTable(s, table), us) == WithTable(RecordAll(cfg, s, us), table)
  {
    if us != [] {
      RecordAllKeepsTable(cfg, s, us[..|us| - 1], table);
    }
  }

  lemma RowForIs(us: seq<Upsert>, u: Upsert)
    requires DistinctKeys(us) && u in us
    ensures RowFor(us, u.key) == u.row
  {
    var i :| 0 <= i < |us| && us[i] == u;
    forall v | v in us && v.key == u.key
      ensures v == u
    {
      var j :| 0 <= j < |us| && us[j] == v;
    }
  }

  lemma InsertLast(table: Table, us: seq<Upsert>)
    requires us != [] && DistinctKeys(us)
    ensures InsertBatch(table, us) == InsertBatch(table, us[..|us| - 1])[us[|us| - 1].key := us[|us| - 1].row]
  {
    var init, last := us[..|us| - 1], us[|us| - 1];
    var a, b := InsertBatch(table, us), InsertBatch(table, init)[last.key := last.row];
    forall k
      ensures k in a <==> k in b
      ensures k in a ==> a[k] == b[k]
    {
      InsertLastAt(table, us, init, last, k);
    }
  }

  lemma BatchHas(table: Table, us: seq<Upsert>, u: Upsert)
    requires DistinctKeys(us) && u in us
    ensures u.key in InsertBatch(table, us) && InsertBatch(table, us)[u.key] == u.row
  {
    RowForIs(us, u);
  }

  lemma BatchMisses(table: Table, us: seq<Upsert>, k: Key)
    requires DistinctKeys(us) && forall u | u in us :: u.key != k
    ensures k in InsertBatch(table, us) <==> k in table
    ensures k in table ==> InsertBatch(table, us)[k] == table[k]
  {
  }

  lemma InsertLastAt(table: Table, us: seq<Upsert>, init: seq<Upsert>, last: Upsert, k: Key)
    requires us == init + [last] && DistinctKeys(us) && DistinctKeys(init)
    ensures k == last.key ==> k in InsertBatch(table, us) && InsertBatch(table, us)[k] == last.row
    ensures k != last.key ==> (k in InsertBatch(table, us) <==> k in InsertBatch(table, init))
    ensures k != last.key && k in InsertBatch(table, us) ==> InsertBatch(table, us)[k] == InsertBatch(table, init)[k]
  {
    if k == last.key {
      BatchHas(table, us, last);
    } else if u :| u in init && u.key == k {
      BatchHas(table, us, u);
      BatchHas(table, init, u);
    } else {
      BatchMisses(table, us, k);
      BatchMisses(table, init, k);
    }
  }

  lemma {:induction false} InsertRowsIsBatch(table: Table, us: seq<Upsert>)
    requires DistinctKeys(us)
    ensures InsertRows(table, us) == InsertBatch(table, us)
  {
    if us == [] {
      assert InsertBatch(table, us) == table;
    } else {
      InsertRowsIsBatch(table, us[..|us| - 1]);
      InsertLast(table, us);
    }
  }

  /** The table rows written first and the journal afterwards, as the flush does,
      ends where writing each upsert and its journal entry in turn ends. */
  lemma {:induction false} BatchIsOneByOne(cfg: Config, s: Session, us: seq<Upsert>)
    requires DistinctKeys(us)
    ensures ImmediateUpserts(cfg, s, us) == RecordAll(cfg, WithTable(s, InsertBatch(s.db.table, us)), us)
  {
    if us == [] {
      assert InsertBatch(s.db.table, us) == s.db.table;
    } else {
      var init, last := us[..|us| - 1], us[|us| - 1];
      BatchIsOneByOne(cfg, s, init);
      var t0, t1 := InsertBatch(s.db.table, init), InsertBatch(s.db.table, us);
      RecordAllKeepsTable(cfg, s, init, t0);
      RecordAllKeepsTable(cfg, s, init, t1);
      InsertLast(s.db.table, us);
    }
  }
}
