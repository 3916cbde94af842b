/** A run of the server with one clock that is behind: the newest delta expires before the one it follows,
    the notification file still validates, and a client takes over the newest version without its data. */
module Nrtm4StaleClock {
  import opened Journal
  import opened Store
  import opened Nrtm4Server
  import opened Nrtm4Client
  import opened Nrtm4Convergence
  import opened Nrtm4Gap

  const ROLE := Key("ROLE-TEST", "TEST", "role")
  const FIRST := Entry(PERSON, AddOrUpdate, "person text", AuthChange, 1)
  const SECOND := Entry(ROLE, AddOrUpdate, "role text", AuthChange, 2)
  const THIRD := Entry(ROLE, AddOrUpdate, "new role text", AuthChange, 3)
  const BOTH: seq<Entry> := [FIRST, SECOND]
  const ITEMS: seq<Item> := [Item(PERSON, "person text"), Item(ROLE, "role text")]

  const OLDER := Delta(2, 1, 1, 100, [FIRST], 0, 1)
  const NEWEST := Delta(3, 2, 2, 0, [SECOND], 1, 2)
  const GAPPED := Delta(4, 2, 3, LATER, [SECOND, THIRD], 1, 3)
  const SNAPSHOT_3 := Snapshot(3, 2, 15000, ITEMS, 2)
  const LATER := DELTA_EXPIRY_SECONDS + 50

  const STATUS_1 := Status(0, 1, SNAPSHOT_1, [])
  const STATUS_2 := Status(0, 2, SNAPSHOT_1, [OLDER])
  const STATUS_3 := Status(0, 3, SNAPSHOT_1, [OLDER, NEWEST])
  const STATUS_4 := Status(0, 3, SNAPSHOT_3, [OLDER, NEWEST])
  const STATUS_5 := Status(0, 3, SNAPSHOT_3, [OLDER])

  const FILE_2 := Unf(0, 2, SNAPSHOT_1, [OLDER])
  const FILE_3 := Unf(0, 3, SNAPSHOT_1, [OLDER, NEWEST])
  const FILE_4 := Unf(0, 3, SNAPSHOT_3, [OLDER, NEWEST])
  const FILE_5 := Unf(0, 3, SNAPSHOT_3, [OLDER])

  const NO_CLIENT := Client(None, 0, map[])
  const HAS_PERSON: Mirror := map[PERSON := "person text"]

  /** The worlds after the first journal entry, and after the second. */
  function One(status: Status, history: seq<Delta>, runs: map<nat, Run>, published: set<Unf>, client: Client): World {
    World([FIRST], [1], 1, Some(status), [SessionLog(0, history)], runs, published, client, 0)
  }

  function Two(status: Status, history: seq<Delta>, runs: map<nat, Run>, published: set<Unf>, version: nat): World {
    World(BOTH, [1, 2], 2, Some(status), [SessionLog(0, history)], runs, published, Client(Some(0), version, HAS_PERSON), 0)
  }

  /** And after a third. */
  function Three(runs: map<nat, Run>): World {
    World(BOTH + [THIRD], [1, 2, 3], 3, Some(STATUS_5), [SessionLog(0, [OLDER, NEWEST])], runs,
          {UNF_1, FILE_2, FILE_3, FILE_4, FILE_5}, Client(Some(0), 3, HAS_PERSON), 0)
  }

  function WorldAt(i: nat): World {
    match i
    case 0 => EMPTY_WORLD
    case 1 => World([], [], 0, None, [], map[0 := Started(0, 0)], {}, NO_CLIENT, 0)
    case 2 => World([], [], 0, Some(STATUS_1), [SessionLog(0, [])], map[], {UNF_1}, NO_CLIENT, 0)
    case 3 => One(STATUS_1, [], map[], {UNF_1}, NO_CLIENT)
    case 4 => One(STATUS_1, [], map[1 := Started(1, 100)], {UNF_1}, NO_CLIENT)
    case 5 => One(STATUS_2, [OLDER], map[], {UNF_1, FILE_2}, NO_CLIENT)
    case 6 => One(STATUS_2, [OLDER], map[], {UNF_1, FILE_2}, Client(Some(0), 2, HAS_PERSON))
    case 7 => Two(STATUS_2, [OLDER], map[], {UNF_1, FILE_2}, 2)
    case 8 => Two(STATUS_2, [OLDER], map[2 := Started(2, 0)], {UNF_1, FILE_2}, 2)
    case 9 => Two(STATUS_3, [OLDER, NEWEST], map[], {UNF_1, FILE_2, FILE_3}, 2)
    case 10 => Two(STATUS_3, [OLDER, NEWEST], map[3 := Started(2, 15000)], {UNF_1, FILE_2, FILE_3}, 2)
    case 11 => Two(STATUS_3, [OLDER, NEWEST], map[3 := Snapshotting(2, 15000, 3)], {UNF_1, FILE_2, FILE_3}, 2)
    case 12 => Two(STATUS_3, [OLDER, NEWEST], map[3 := Written(2, 15000, 3, ITEMS, 2)], {UNF_1, FILE_2, FILE_3}, 2)
    case 13 => Two(STATUS_4, [OLDER, NEWEST], map[], {UNF_1, FILE_2, FILE_3, FILE_4}, 2)
    case 14 => Two(STATUS_4, [OLDER, NEWEST], map[4 := Started(2, LATER)], {UNF_1, FILE_2, FILE_3, FILE_4}, 2)
    case 15 => Two(STATUS_5, [OLDER, NEWEST], map[], {UNF_1, FILE_2, FILE_3, FILE_4, FILE_5}, 2)
    case 16 => Two(STATUS_5, [OLDER, NEWEST], map[], {UNF_1, FILE_2, FILE_3, FILE_4, FILE_5}, 3)
    case 17 => Three(map[])
    case 18 => Three(map[5 := Started(3, LATER)])
    case _ => Three(map[])
  }

  function StepAt(i: nat): Step {
    match i
    case 0 => StartRun(0, 0, 0)
    case 1 => Initialise(0, [])
    case 2 => CommitJournal([FIRST], [1], 1)
    case 3 => StartRun(1, 1, 100)
    case 4 => Update(1, FREQUENCY)
    case 5 => RunTheClient(FILE_2, false, true)
    case 6 => CommitJournal([SECOND], [2], 2)
    case 7 => StartRun(2, 2, 0)
    case 8 => Update(2, FREQUENCY)
    case 9 => StartRun(3, 2, 15000)
    case 10 => Update(3, FREQUENCY)
    case 11 => WriteSnapshot(3, ITEMS)
    case 12 => PublishSnapshot(3)
    case 13 => StartRun(4, 2, LATER)
    case 14 => Update(4, FREQUENCY)
    case 15 => RunTheClient(FILE_5, false, false)
    case 16 => CommitJournal([THIRD], [3], 3)
    case 17 => StartRun(5, 3, LATER)
    case _ => Update(5, FREQUENCY)
  }

  const WORLDS := seq(20, (i: nat) => WorldAt(i))
  const STEPS := seq(19, (i: nat) => StepAt(i))

  predicate Follows(i: nat) {
    var w, s := WorldAt(i), StepAt(i);
    |w.journal| == |w.serials| && Enabled(w, s) && WorldAt(i + 1) == Next(w, s)
  }

  lemma FreshTwo(a: Delta, b: Delta, now: int)
    ensures Fresh([a], now) == if Stale(a, now) then [] else [a]
    ensures Fresh([a, b], now) == Fresh([a], now) + (if Stale(b, now) then [] else [b])
  {
    assert [a, b][..1] == [a] && [a][..0] == [];
  }

  lemma ReplayBoth()
    ensures Replay([]) == map[] == Loaded([])
    ensures Replay([FIRST]) == HAS_PERSON && Replay(BOTH) == HAS_PERSON[ROLE := "role text"] == Loaded(ITEMS)
  {
    assert [FIRST][..0] == [] && BOTH[..1] == [FIRST];
    assert ITEMS[..1] == [Item(PERSON, "person text")] && ITEMS[..1][..0] == [];
  }

  lemma SessionStarts()
    ensures Follows(0) && Follows(1)
  {
    ReplayBoth();
    var w := WorldAt(1);
    assert w.runs - {0} == map[];
    assert !SnapshotLocked(w);
  }

  lemma FirstIsCommitted()
    ensures Follows(2) && Follows(3)
  {
  }

  lemma FirstPosition()
    ensures FirstAtLeast([1], 1) == 0 && Query([FIRST], [1], 1) == [FIRST]
  {
    var one: seq<nat> := [1];
    assert one[..0] == [];
    QueryIsSuffix([FIRST], one, 1);
  }

  lemma Positions()
    ensures FirstAtLeast([1, 2], 2) == 1 && FirstAtLeast([1, 2], 3) == 2
    ensures Query(BOTH, [1, 2], 2) == [SECOND] && Query(BOTH, [1, 2], 3) == []
  {
    var one: seq<nat>, two: seq<nat> := [1], [1, 2];
    assert two[..1] == one && FirstAtLeast(one, 2) == 1;
    QueryIsSuffix(BOTH, two, 2);
    QueryIsSuffix(BOTH, two, 3);
  }

  lemma FirstDelta()
    ensures Follows(4)
  {
    var w := WorldAt(4);
    FirstPosition();
    assert WithDelta(STATUS_1, 1, 100, w.journal, w.serials) == STATUS_2;
    FreshTwo(OLDER, OLDER, 100);
    GrownByOne(w.sessions[0], STATUS_1, STATUS_2, OLDER);
    assert w.runs - {1} == map[];
  }

  lemma SecondDelta()
    ensures Follows(8)
  {
    var w := WorldAt(8);
    Positions();
    assert WithDelta(STATUS_2, 2, 0, w.journal, w.serials) == STATUS_3;
    FreshTwo(OLDER, NEWEST, 0);
    GrownByOne(w.sessions[0], STATUS_2, STATUS_3, NEWEST);
    assert w.runs - {2} == map[];
  }

  lemma FirstIsLoaded()
    ensures LoadDeltas(Client(None, 0, map[]), FILE_2, 2) == Ok(Client(Some(0), 2, HAS_PERSON))
  {
    ReplayBoth();
    assert [OLDER][..0] == [] && EntriesFrom([OLDER], 2) == [FIRST];
    assert DeltasLoadable([OLDER], 2);
  }

  lemma ClientLoadsFirst()
    ensures Follows(5)
  {
    FirstIsLoaded();
    assert Loaded([]) == map[];
    assert RunClient(NO_CLIENT, FILE_2, false, true) == Ok(Client(Some(0), 2, HAS_PERSON));
  }

  lemma SecondIsCommitted()
    ensures Follows(6) && Follows(7)
  {
  }

  lemma NothingNew()
    ensures WithDelta(STATUS_3, 2, 15000, BOTH, [1, 2]) == STATUS_3
    ensures Updated(STATUS_3, 2, 15000, BOTH, [1, 2]) == STATUS_3 && UnfOf(STATUS_3) == Some(FILE_3)
  {
    Positions();
    FreshTwo(OLDER, NEWEST, 15000);
  }

  lemma SnapshotIsMade()
    ensures Follows(10)
  {
    var w := WorldAt(10);
    NothingNew();
    assert Grown(w.sessions[0], STATUS_3, STATUS_3) == w.sessions[0];
    assert w.sessions[0 := w.sessions[0]] == w.sessions;
    assert !SnapshotLocked(w);
    assert w.published + {FILE_3} == w.published;
    assert w.runs[3 := Snapshotting(2, 15000, 3)] == map[3 := Snapshotting(2, 15000, 3)];
  }

  lemma SnapshotIsWritten()
    ensures Follows(11)
  {
    ReplayBoth();
  }

  lemma BothAreLeft()
    ensures Expire(STATUS_4, 15000) == STATUS_4 && UnfOf(STATUS_4) == Some(FILE_4)
  {
    FreshTwo(OLDER, NEWEST, 15000);
  }

  lemma SnapshotIsPublished()
    ensures Follows(12)
  {
    var w := WorldAt(12);
    BothAreLeft();
    assert w.published + {FILE_4} == {UNF_1, FILE_2, FILE_3, FILE_4};
    assert w.runs - {3} == map[];
  }

  lemma RunsStart()
    ensures Follows(9) && Follows(13)
  {
  }

  lemma OlderIsLeft()
    ensures WithDelta(STATUS_4, 2, LATER, BOTH, [1, 2]) == STATUS_4
    ensures Updated(STATUS_4, 2, LATER, BOTH, [1, 2]) == STATUS_5 && UnfOf(STATUS_5) == Some(FILE_5)
  {
    Positions();
    FreshTwo(OLDER, NEWEST, LATER);
  }

  /** The newest delta expires, the older one stays, and the file still validates. */
  lemma NewestExpires()
    ensures Follows(14)
  {
    var w := WorldAt(14);
    OlderIsLeft();
    assert Grown(w.sessions[0], STATUS_4, STATUS_4) == w.sessions[0];
    assert w.sessions[0 := w.sessions[0]] == w.sessions;
    assert w.runs - {4} == map[];
    assert w.published + {FILE_5} == {UNF_1, FILE_2, FILE_3, FILE_4, FILE_5};
  }

  lemma ClientSkips()
    ensures Follows(15)
    ensures Skips(Client(Some(0), 2, HAS_PERSON), FILE_5, false)
  {
  }

  /** The next delta would be listed behind one of two versions before. */
  lemma ThirdIsFound()
    ensures FirstAtLeast([1, 2, 3], 2) == 1 && Query(BOTH + [THIRD], [1, 2, 3], 2) == [SECOND, THIRD]
    ensures WithDelta(STATUS_5, 3, LATER, BOTH + [THIRD], [1, 2, 3])
         == Status(0, 4, SNAPSHOT_3, [OLDER, GAPPED])
  {
    var serials: seq<nat> := [1, 2, 3];
    Positions();
    assert serials[..2] == [1, 2];
    QueryIsSuffix(BOTH + [THIRD], serials, 2);
  }

  lemma ThirdIsRefused()
    ensures UnfOf(Updated(STATUS_5, 3, LATER, BOTH + [THIRD], [1, 2, 3])).None?
  {
    ThirdIsFound();
    FreshTwo(OLDER, GAPPED, LATER);
    var left := Updated(STATUS_5, 3, LATER, BOTH + [THIRD], [1, 2, 3]).deltas;
    assert left == [OLDER, GAPPED] && left[1].version != left[0].version + 1;
  }

  lemma ThirdIsCommitted()
    ensures Follows(16) && Follows(17)
  {
  }

  lemma ThirdFails()
    ensures Follows(18)
  {
    ThirdIsRefused();
    assert WorldAt(18).runs - {5} == map[];
  }

  lemma EachFollows(i: nat)
    requires i < 19
    ensures Follows(i)
  {
    if i <= 1 {
      SessionStarts();
      assert i == 0 || i == 1;
    } else if i <= 3 {
      FirstIsCommitted();
      assert i == 2 || i == 3;
    } else if i == 4 {
      FirstDelta();
    } else if i == 5 {
      ClientLoadsFirst();
    } else if i <= 7 {
      SecondIsCommitted();
      assert i == 6 || i == 7;
    } else if i == 8 {
      SecondDelta();
    } else if i == 9 || i == 13 {
      RunsStart();
    } else if i == 10 {
      SnapshotIsMade();
    } else if i == 11 {
      SnapshotIsWritten();
    } else if i == 12 {
      SnapshotIsPublished();
    } else if i == 14 {
      NewestExpires();
    } else if i == 15 {
      ClientSkips();
    } else if i <= 17 {
      ThirdIsCommitted();
      assert i == 16 || i == 17;
    } else {
      ThirdFails();
    }
  }

  lemma ItIsARun()
    ensures IsRun(WORLDS, STEPS)
  {
    var ws, steps := WORLDS, STEPS;
    forall i | 0 <= i < |steps|
      ensures |ws[i].journal| == |ws[i].serials| && Enabled(ws[i], steps[i]) && ws[i + 1] == Next(ws[i], steps[i])
    {
      EachFollows(i);
      assert Follows(i);
    }
  }

  /** The delta list is not empty; the client was exact before, and ends at the newest version without the role. */
  lemma SkippedNewestIsLost()
    ensures IsRun(WORLDS, STEPS) && Exact(WorldAt(15))
    ensures var w := WorldAt(16);
            && w.status.value.deltas == [OLDER] && w.client.version == w.status.value.version == 3
            && Reach(w.sessions[0], 3) == |w.journal|
            && ROLE in Replay(w.journal) && ROLE !in w.client.objects
  {
    ItIsARun();
    ReplayBoth();
    assert BOTH[..1] == [FIRST];
  }

  /** Then the server is stuck as well: of the deltas it would list none is stale, but their versions are 2 and 4,
      so an update with a new entry fails, until the delta of version 2 has expired. */
  lemma NextUpdateFails()
    ensures IsRun(WORLDS, STEPS) && !Succeeds(WorldAt(18), StepAt(18))
    ensures var with := WithDelta(STATUS_5, 3, LATER, BOTH + [THIRD], [1, 2, 3]);
            NoHole(with.deltas, LATER) && !Stale(with.deltas[|with.deltas| - 1], LATER)
  {
    ItIsARun();
    ThirdIsFound();
    ThirdIsRefused();
    assert !Stale(OLDER, LATER) && !Stale(GAPPED, LATER);
  }
}
