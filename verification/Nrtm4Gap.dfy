/** The client runs that do not converge: a client that is behind meets a notification file whose deltas
    do not lead up to its version, and takes over that version without the data. */
module Nrtm4Gap {
  import opened Journal
  import opened Store
  import opened Nrtm4Server
  import opened Nrtm4Client
  import opened Nrtm4Convergence

  /** The client holds exactly the replay of the journal up to the last entry its version contains. */
  predicate Exact(w: World) {
    && w.client.session.Some? && w.client.session.value < |w.sessions|
    && var reach := Reach(w.sessions[w.client.session.value], w.client.version);
    reach <= |w.journal| && w.client.objects == Replay(w.journal[..reach])
  }

  /** For each object they touch, the entries end with what the mirror holds already. */
  ghost predicate ChangeNothing(m: Mirror, entries: seq<Entry>) {
    forall k | Touched(entries, k) :: Get(Apply(map[], entries), k) == Get(m, k)
  }

  /** A stretch of the journal changes nothing if and only if replaying it leaves what was there. */
  lemma ChangesNothingExactly(journal: seq<Entry>, from: nat, reach: nat)
    requires from <= reach <= |journal|
    ensures ChangeNothing(Replay(journal[..from]), journal[from..reach])
        <==> Replay(journal[..reach]) == Replay(journal[..from])
  {
    var before, entries := Replay(journal[..from]), journal[from..reach];
    assert journal[..reach] == journal[..from] + entries;
    ApplyConcat(map[], journal[..from], entries);
    forall k
      ensures Get(Replay(journal[..reach]), k) == if Touched(entries, k) then Get(Apply(map[], entries), k) else Get(before, k)
    {
      if Touched(entries, k) {
        ApplyTouched(before, map[], entries, k);
      } else {
        ApplyUntouched(before, entries, k);
      }
    }
    if ChangeNothing(before, entries) {
      SameMirror(Replay(journal[..reach]), before);
    }
  }

  lemma ListedAreLoadable(journal: seq<Entry>, s: SessionLog, unf: Unf, next: nat)
    requires SessionOk(journal, s) && FilesOk(journal, s, unf.version, unf.snapshot, unf.deltas)
    ensures DeltasLoadable(unf.deltas, next)
  {
    forall d | d in unf.deltas
      ensures d.entries != []
    {
      assert Listed(s, d) && DeltaOk(journal, s, d.version - 2);
    }
  }

  lemma LoadAgreesAt(journal: seq<Entry>, session: SessionLog, c: Client, unf: Unf, k: Key)
    requires SessionOk(journal, session) && FilesOk(journal, session, unf.version, unf.snapshot, unf.deltas)
    requires 1 <= c.version <= unf.version && Reach(session, c.version) <= |journal|
    requires unf.deltas != [] ==> unf.deltas[0].version <= c.version + 1
    requires c.objects == Replay(journal[..Reach(session, c.version)])
    ensures LoadDeltas(c, unf, c.version + 1).Ok?
    ensures var loaded := LoadedVersion(unf, c.version);
            && c.version <= loaded <= unf.version && Reach(session, loaded) <= |journal|
            && Agrees(LoadDeltas(c, unf, c.version + 1).value.objects, journal, Reach(session, loaded), 0, k)
  {
    ListedAreLoadable(journal, session, unf, c.version + 1);
    LoadLeads(journal, session, c, unf, c.version, 0, k);
  }

  lemma LoadsExactlyFrom(journal: seq<Entry>, session: SessionLog, c: Client, unf: Unf)
    requires SessionOk(journal, session) && FilesOk(journal, session, unf.version, unf.snapshot, unf.deltas)
    requires 1 <= c.version <= unf.version && Reach(session, c.version) <= |journal|
    requires unf.deltas != [] ==> unf.deltas[0].version <= c.version + 1
    requires c.objects == Replay(journal[..Reach(session, c.version)])
    ensures LoadDeltas(c, unf, c.version + 1).Ok?
    ensures var loaded := LoadedVersion(unf, c.version);
            && c.version <= loaded <= unf.version && Reach(session, loaded) <= |journal|
            && LoadDeltas(c, unf, c.version + 1).value.objects == Replay(journal[..Reach(session, loaded)])
  {
    LoadAgreesAt(journal, session, c, unf, Key("", "", ""));
    var after, reach := LoadDeltas(c, unf, c.version + 1).value.objects, Reach(session, LoadedVersion(unf, c.version));
    forall k
      ensures Agrees(after, journal, reach, 0, k)
    {
      LoadAgreesAt(journal, session, c, unf, k);
    }
    AgreesEverywhere(after, journal, reach, 0);
  }

  /** What an exact client holds after a run without a reload: the journal up to the newest listed version. */
  lemma LoadsExactly(w: World, s: Step)
    requires ServerInv(w) && Enabled(w, s) && s.RunTheClient? && Exact(w)
    requires FindNext(w.client, s.forceReload, s.unf, 0).NextVersion?
    ensures var v, session, w' := LoadedVersion(s.unf, w.client.version), w.sessions[s.unf.session], Next(w, s);
            && w'.client.session == Some(s.unf.session) && w'.client.version == s.unf.version
            && Reach(session, v) <= Reach(session, s.unf.version) <= |w.journal|
            && w'.client.objects == Replay(w.journal[..Reach(session, v)])
  {
    assert UnfOk(w, s.unf);
    var session := w.sessions[s.unf.session];
    LoadsExactlyFrom(w.journal, session, w.client, s.unf);
    ReachGrows(w.journal, session, LoadedVersion(s.unf, w.client.version), s.unf.version);
  }

  /** In any run, an exact client that runs without a reload takes over the version of the file. It is exact again
      if and only if it did not skip, or every object touched in the journal range it skipped
      ends there with what the client holds. */
  lemma ExactUnlessSkippedChanges(ws: seq<World>, steps: seq<Step>, n: nat)
    requires IsRun(ws, steps) && n < |steps| && steps[n].RunTheClient? && Exact(ws[n])
    requires FindNext(ws[n].client, steps[n].forceReload, steps[n].unf, 0).NextVersion?
    ensures var w, w', unf := ws[n], ws[n + 1], steps[n].unf;
            && unf.session < |w.sessions|
            && var from := Reach(w.sessions[unf.session], LoadedVersion(unf, w.client.version));
            && var reach := Reach(w.sessions[unf.session], unf.version);
            && from <= reach <= |w.journal| && w'.client.version == unf.version
            && (Exact(w') <==> !Skips(w.client, unf, steps[n].forceReload)
                               || ChangeNothing(w'.client.objects, w.journal[from..reach]))
  {
    RunsKeepServerInv(ws, steps, n);
    var w, unf := ws[n], steps[n].unf;
    LoadsExactly(w, steps[n]);
    assert UnfOk(w, unf);
    var session := w.sessions[unf.session];
    var from, reach := Reach(session, LoadedVersion(unf, w.client.version)), Reach(session, unf.version);
    ChangesNothingExactly(w.journal, from, reach);
    assert Exact(ws[n + 1]) <==> Replay(w.journal[..reach]) == Replay(w.journal[..from]);
    if !Skips(w.client, unf, steps[n].forceReload) {
      assert LoadedVersion(unf, w.client.version) == unf.version;
    }
  }

  // ---- a run in which all deltas have expired ----

  const PERSON := Key("EXAMPLE-1", "TEST", "person")
  const ADDED := Entry(PERSON, AddOrUpdate, "text", AuthChange, 1)
  const FIRST_DELTA := Delta(2, 1, 1, 15000, [ADDED], 0, 1)
  const SNAPSHOT_1 := Snapshot(1, 0, 0, [], 0)
  const SNAPSHOT_2 := Snapshot(2, 1, 15000, [Item(PERSON, "text")], 1)
  const FREQUENCY := 14400
  const DAY_LATER := 15000 + DELTA_EXPIRY_SECONDS + 1

  const UNF_1 := Unf(0, 1, SNAPSHOT_1, [])
  const UNF_2 := Unf(0, 2, SNAPSHOT_1, [FIRST_DELTA])
  const UNF_3 := Unf(0, 2, SNAPSHOT_2, [FIRST_DELTA])
  const UNF_4 := Unf(0, 2, SNAPSHOT_2, [])

  const AT_VERSION_1 := Client(Some(0), 1, map[])

  const WORLDS: seq<World> := [
    EMPTY_WORLD,
    World([], [], 0, None, [], map[0 := Started(0, 0)], {}, Client(None, 0, map[]), 0),
    World([], [], 0, Some(Status(0, 1, SNAPSHOT_1, [])), [SessionLog(0, [])], map[], {UNF_1}, Client(None, 0, map[]), 0),
    World([], [], 0, Some(Status(0, 1, SNAPSHOT_1, [])), [SessionLog(0, [])], map[], {UNF_1}, AT_VERSION_1, 0),
    World([ADDED], [1], 1, Some(Status(0, 1, SNAPSHOT_1, [])), [SessionLog(0, [])], map[], {UNF_1}, AT_VERSION_1, 0),
    World([ADDED], [1], 1, Some(Status(0, 1, SNAPSHOT_1, [])), [SessionLog(0, [])],
          map[1 := Started(1, 15000)], {UNF_1}, AT_VERSION_1, 0),
    World([ADDED], [1], 1, Some(Status(0, 2, SNAPSHOT_1, [FIRST_DELTA])), [SessionLog(0, [FIRST_DELTA])],
          map[1 := Snapshotting(1, 15000, 2)], {UNF_1, UNF_2}, AT_VERSION_1, 0),
    World([ADDED], [1], 1, Some(Status(0, 2, SNAPSHOT_1, [FIRST_DELTA])), [SessionLog(0, [FIRST_DELTA])],
          map[1 := Written(1, 15000, 2, [Item(PERSON, "text")], 1)], {UNF_1, UNF_2}, AT_VERSION_1, 0),
    World([ADDED], [1], 1, Some(Status(0, 2, SNAPSHOT_2, [FIRST_DELTA])), [SessionLog(0, [FIRST_DELTA])],
          map[], {UNF_1, UNF_2, UNF_3}, AT_VERSION_1, 0),
    World([ADDED], [1], 1, Some(Status(0, 2, SNAPSHOT_2, [FIRST_DELTA])), [SessionLog(0, [FIRST_DELTA])],
          map[2 := Started(1, DAY_LATER)], {UNF_1, UNF_2, UNF_3}, AT_VERSION_1, 0),
    World([ADDED], [1], 1, Some(Status(0, 2, SNAPSHOT_2, [])), [SessionLog(0, [FIRST_DELTA])],
          map[], {UNF_1, UNF_2, UNF_3, UNF_4}, AT_VERSION_1, 0),
    World([ADDED], [1], 1, Some(Status(0, 2, SNAPSHOT_2, [])), [SessionLog(0, [FIRST_DELTA])],
          map[], {UNF_1, UNF_2, UNF_3, UNF_4}, Client(Some(0), 2, map[]), 0)]

  const STEPS: seq<Step> := [
    StartRun(0, 0, 0), Initialise(0, []), RunTheClient(UNF_1, false, false), CommitJournal([ADDED], [1], 1),
    StartRun(1, 1, 15000), Update(1, FREQUENCY), WriteSnapshot(1, [Item(PERSON, "text")]), PublishSnapshot(1),
    StartRun(2, 1, DAY_LATER), Update(2, FREQUENCY), RunTheClient(UNF_4, false, false)]

  predicate Follows(i: nat)
    requires i < |STEPS|
  {
    && |WORLDS[i].journal| == |WORLDS[i].serials| && Enabled(WORLDS[i], STEPS[i])
    && WORLDS[i + 1] == Next(WORLDS[i], STEPS[i])
  }

  lemma ReplayOne()
    ensures Replay([ADDED]) == map[PERSON := "text"] == Loaded([Item(PERSON, "text")])
    ensures Replay([]) == map[] == Loaded([])
  {
    var none: Mirror := map[];
    assert [ADDED][..0] == [] && [Item(PERSON, "text")][..0] == [];
    assert Apply(none, [ADDED]) == ApplyEntry(none, ADDED) == none[PERSON := "text"];
  }

  lemma SessionStarts()
    ensures Follows(0) && Follows(1) && Follows(2)
  {
    ReplayOne();
    assert WORLDS[1].runs - {0} == map[];
    assert !SnapshotLocked(WORLDS[1]);
  }

  lemma JournalIsCommitted()
    ensures Follows(3) && Follows(4)
  {
  }

  lemma DeltaIsWritten()
    ensures Follows(5)
  {
    var w := WORLDS[5];
    QueryIsSuffix(w.journal, w.serials, 1);
    assert FirstAtLeast([1], 1) == 0 by { assert [1 as nat][..0] == []; }
    assert [ADDED][0..] == [ADDED] && [FIRST_DELTA][..0] == [];
    assert WithDelta(w.status.value, 1, 15000, w.journal, w.serials) == Status(0, 2, SNAPSHOT_1, [FIRST_DELTA]);
    assert Fresh([FIRST_DELTA], 15000) == [FIRST_DELTA];
    assert [FIRST_DELTA][|w.status.value.deltas|..] == [FIRST_DELTA];
    assert !SnapshotLocked(w);
  }

  lemma SnapshotIsMade()
    ensures Follows(6) && Follows(7) && Follows(8)
  {
    ReplayOne();
    assert [FIRST_DELTA][..0] == [];
    assert Fresh([FIRST_DELTA], 15000) == [FIRST_DELTA];
    assert WORLDS[7].runs - {1} == map[];
  }

  lemma DeltaExpires()
    ensures Follows(9)
  {
    var w := WORLDS[9];
    QueryIsSuffix(w.journal, w.serials, 2);
    assert FirstAtLeast([1], 2) == 1;
    assert [ADDED][1..] == [];
    assert WithDelta(w.status.value, 1, DAY_LATER, w.journal, w.serials) == w.status.value;
    assert [FIRST_DELTA][..0] == [];
    assert Fresh([FIRST_DELTA], DAY_LATER) == [];
    assert w.runs - {2} == map[];
    var status := w.status.value;
    assert status.deltas[|status.deltas|..] == [];
    assert Grown(w.sessions[0], status, status) == w.sessions[0];
    assert w.sessions[0 := w.sessions[0]] == w.sessions;
    assert UnfOf(Expire(status, DAY_LATER)) == Some(UNF_4);
  }

  lemma ClientSkips()
    ensures Follows(10) && Skips(WORLDS[10].client, UNF_4, false)
  {
  }

  lemma EachFollows(i: nat)
    requires i < |STEPS|
    ensures Follows(i)
  {
    SessionStarts();
    JournalIsCommitted();
    DeltaIsWritten();
    SnapshotIsMade();
    DeltaExpires();
    ClientSkips();
    assert i <= 4 || i == 5 || i == 6 || i == 7 || i == 8 || i == 9 || i == 10;
    assert i <= 4 ==> i == 0 || i == 1 || i == 2 || i == 3 || i == 4;
  }

  lemma ItIsARun()
    ensures IsRun(WORLDS, STEPS)
  {
    var ws, steps := WORLDS, STEPS;
    forall i | 0 <= i < |steps|
      ensures |ws[i].journal| == |ws[i].serials| && Enabled(ws[i], steps[i]) && ws[i + 1] == Next(ws[i], steps[i])
    {
      EachFollows(i);
      assert Follows(i);
    }
  }

  /** The client sat out one delta for a day; it ends at the newest version without the object of that delta. */
  lemma SkippedDeltaIsLost()
    ensures IsRun(WORLDS, STEPS)
    ensures var w := WORLDS[11];
            var reach := Reach(w.sessions[0], w.client.version);
            && w.client.session == Some(0) && w.client.version == w.status.value.version && w.clientSaw <= reach <= |w.journal|
            && PERSON in Replay(w.journal[..reach]) && PERSON !in w.client.objects
  {
    ItIsARun();
    ReplayOne();
    assert WORLDS[11].journal[..1] == [ADDED];
  }
}
