/** NRTMv4 end to end: journal writers, concurrent server runs and a client, as one state machine. */
module Nrtm4Convergence {
  import opened Journal
  import opened Store
  import opened Nrtm4Server
  import opened Nrtm4Client

  /** Everything one session has published: what its first snapshot saw, and all deltas, expired ones included. */
  datatype SessionLog = SessionLog(base: nat, history: seq<Delta>)

  /** A server run between its two uses of the status lock. `Snapshotting` and `Written` hold the snapshot lock. */
  datatype Run =
    | Started(maxSerial: nat, now: int)
    | Snapshotting(maxSerial: nat, now: int, version: nat)
    | Written(maxSerial: nat, now: int, version: nat, items: seq<Item>, saw: nat)

  /** `journal` holds the committed entries of the source, `serials` their global serials,
      `maxSerial` the highest serial committed for any source. */
  datatype World = World(
    journal: seq<Entry>, serials: seq<nat>, maxSerial: nat,
    status: Option<Status>, sessions: seq<SessionLog>, runs: map<nat, Run>,
    published: set<Unf>, client: Client, clientSaw: nat)

  datatype Step =
    | CommitJournal(entries: seq<Entry>, newSerials: seq<nat>, newMax: nat)
    | StartRun(run: nat, maxSerial: nat, now: int)
    | Initialise(run: nat, items: seq<Item>)
    | Update(run: nat, frequency: int)
    | WriteSnapshot(run: nat, items: seq<Item>)
    | PublishSnapshot(run: nat)
    | StopRun(run: nat)
    | RunTheClient(unf: Unf, forceReload: bool, forceDeltas: bool)

  predicate SnapshotLocked(w: World) {
    exists r :: r in w.runs && !w.runs[r].Started?
  }

  /** The newest journal position a version of a session contains. */
  function Reach(s: SessionLog, version: nat): nat {
    if 2 <= version < |s.history| + 2 then s.history[version - 2].reach else s.base
  }

  predicate Enabled(w: World, s: Step) {
    match s
    case CommitJournal(entries, newSerials, newMax) =>
      && |entries| == |newSerials| && Increasing(newSerials) && w.maxSerial <= newMax
      && forall i | 0 <= i < |newSerials| :: w.maxSerial < newSerials[i] <= newMax
    // clock and maximum are read when the run starts; both may be stale already when the run gets its lock
    case StartRun(run, maxSerial, _) => run !in w.runs && maxSerial <= w.maxSerial
    // no session yet, or the integrity check failed; needs the snapshot lock as well
    case Initialise(run, items) =>
      run in w.runs && w.runs[run].Started? && !SnapshotLocked(w) && Loaded(items) == Replay(w.journal)
    case Update(run, _) => run in w.runs && w.runs[run].Started? && w.status.Some? && |w.sessions| > 0
    case WriteSnapshot(run, items) => run in w.runs && w.runs[run].Snapshotting? && Loaded(items) == Replay(w.journal)
    case PublishSnapshot(run) => run in w.runs && w.runs[run].Written? && w.status.Some?
    case StopRun(run) => run in w.runs
    case RunTheClient(unf, _, _) => unf in w.published
  }

  /** Writing a status whose notification file does not validate fails; nothing is committed then. */
  function Commit(w: World, status: Status): World {
    match UnfOf(status)
    case None => w
    case Some(unf) => w.(status := Some(status), published := w.published + {unf})
  }

  /** The history the next delta leaves behind. */
  function Grown(session: SessionLog, before: Status, after: Status): SessionLog
    requires |before.deltas| <= |after.deltas|
  {
    session.(history := session.history + after.deltas[|before.deltas|..])
  }

  /** The world after a run wrote its delta and its notification file: the last session has grown. */
  function Extended(w: World, grown: SessionLog, status: Status, runs: map<nat, Run>): World
    requires |w.sessions| > 0
  {
    w.(sessions := w.sessions[|w.sessions| - 1 := grown], status := Some(status), runs := runs,
       published := w.published + {Unf(status.session, status.version, status.snapshot, status.deltas)})
  }

  function AfterUpdate(w: World, run: nat, frequency: int): World
    requires Enabled(w, Update(run, frequency)) && |w.journal| == |w.serials|
  {
    var r, before := w.runs[run], w.status.value;
    var with := WithDelta(before, r.maxSerial, r.now, w.journal, w.serials);
    var after := Expire(with, r.now);
    if UnfOf(after).None? then w.(runs := w.runs - {run})
    else
      var snapshots := ShouldCreateSnapshot(after, r.now, frequency) && !SnapshotLocked(w);
      Extended(w, Grown(w.sessions[|w.sessions| - 1], before, with), after,
               if snapshots then w.runs[run := Snapshotting(r.maxSerial, r.now, after.version)] else w.runs - {run})
  }

  function Next(w: World, s: Step): World
    requires Enabled(w, s) && |w.journal| == |w.serials|
  {
    match s
    case CommitJournal(entries, newSerials, newMax) =>
      w.(journal := w.journal + entries, serials := w.serials + newSerials, maxSerial := newMax)
    case StartRun(run, maxSerial, now) => w.(runs := w.runs[run := Started(maxSerial, now)])
    case Initialise(run, items) =>
      var r := w.runs[run];
      var snapshot := Snapshot(1, r.maxSerial, r.now, items, |w.journal|);
      Commit(w, Status(|w.sessions|, 1, snapshot, [])).(
        sessions := w.sessions + [SessionLog(|w.journal|, [])], runs := w.runs - {run})
    case Update(run, frequency) => AfterUpdate(w, run, frequency)
    case WriteSnapshot(run, items) =>
      var r := w.runs[run];
      w.(runs := w.runs[run := Written(r.maxSerial, r.now, r.version, items, |w.journal|)])
    case PublishSnapshot(run) =>
      var r := w.runs[run];
      var snapshot := Snapshot(r.version, r.maxSerial, r.now, r.items, r.saw);
      Commit(w, Expire(w.status.value.(snapshot := snapshot), r.now)).(runs := w.runs - {run})
    case StopRun(run) => w.(runs := w.runs - {run})
    case RunTheClient(unf, forceReload, forceDeltas) =>
      match RunClient(w.client, unf, forceReload, forceDeltas)
      case Failed => w
      case Ok(client) =>
        var reloaded := FindNext(w.client, forceReload, unf, 0).NeedsSnapshot?;
        w.(client := client, clientSaw := if reloaded then unf.snapshot.saw else w.clientSaw)
  }

  // ---- what one session keeps ----

  /** Every entry with a serial up to `upTo` is within the first `reach` entries. */
  predicate Covered(serials: seq<nat>, upTo: int, reach: nat) {
    forall i | 0 <= i < |serials| && serials[i] <= upTo :: i < reach
  }

  /** Versions 2, 3, ...: each delta starts no later than the reach before it, and reaches at least as far. */
  predicate DeltaOk(journal: seq<Entry>, s: SessionLog, i: nat)
    requires i < |s.history|
  {
    var d := s.history[i];
    && d.version == i + 2
    && d.from <= Reach(s, i + 1) <= d.reach <= |journal| && d.from < d.reach
    && d.entries == journal[d.from..d.reach]
  }

  predicate SessionOk(journal: seq<Entry>, s: SessionLog) {
    s.base <= |journal| && forall i | 0 <= i < |s.history| :: DeltaOk(journal, s, i)
  }

  predicate SnapshotOk(journal: seq<Entry>, s: SessionLog, version: nat, items: seq<Item>, saw: nat) {
    && 1 <= version <= |s.history| + 1
    && Reach(s, version) <= saw <= |journal|
    && Loaded(items) == Replay(journal[..saw])
  }

  /** The delta is the one that the session published under its version. */
  predicate Listed(s: SessionLog, d: Delta) {
    2 <= d.version <= |s.history| + 1 && d == s.history[d.version - 2]
  }

  predicate FilesListed(journal: seq<Entry>, s: SessionLog, version: nat, snapshot: Snapshot, deltas: seq<Delta>) {
    && 1 <= version <= |s.history| + 1
    && snapshot.version <= version
    && SnapshotOk(journal, s, snapshot.version, snapshot.items, snapshot.saw)
    && forall d | d in deltas :: Listed(s, d)
  }

  /** The version of the newest listed delta, or the current one when none is listed. */
  function Newest(version: nat, deltas: seq<Delta>): nat {
    if deltas == [] then version else deltas[|deltas| - 1].version
  }

  /** The listed deltas are successive deltas of the session; when they do not lead to its version, the snapshot does. */
  predicate FilesOk(journal: seq<Entry>, s: SessionLog, version: nat, snapshot: Snapshot, deltas: seq<Delta>) {
    && FilesListed(journal, s, version, snapshot, deltas)
    && var newest := Newest(version, deltas);
    && |deltas| < newest <= version
    && deltas == s.history[newest - 1 - |deltas|..newest - 1]
    && (deltas == [] || newest < version ==> snapshot.version == version)
  }

  predicate UnfOk(w: World, unf: Unf) {
    unf.session < |w.sessions| && FilesOk(w.journal, w.sessions[unf.session], unf.version, unf.snapshot, unf.deltas)
  }

  /** The delta contains every entry up to its end serial. */
  predicate DeltaCovers(w: World, d: Delta) {
    d.serialEnd <= w.maxSerial && Covered(w.serials, d.serialEnd, d.reach)
  }

  predicate StatusFits(w: World, session: SessionLog, s: Status) {
    && s.version == |session.history| + 1
    && FilesListed(w.journal, session, s.version, s.snapshot, s.deltas)
    && s.snapshot.globalSerial <= w.maxSerial
    && Covered(w.serials, s.snapshot.globalSerial, Reach(session, s.snapshot.version))
    && forall d | d in s.deltas :: DeltaCovers(w, d)
  }

  predicate StatusOk(w: World, s: Status) {
    && |w.sessions| > 0 && s.session == |w.sessions| - 1
    && StatusFits(w, w.sessions[s.session], s) && UnfOf(s).Some?
  }

  /** A run that is making a snapshot has seen every entry up to its serial in its own version. */
  predicate RunOk(w: World, r: Run) {
    && r.maxSerial <= w.maxSerial
    && (!r.Started? ==>
          && w.status.Some? && |w.sessions| > 0
          && var session := w.sessions[|w.sessions| - 1];
          && 1 <= r.version <= |session.history| + 1
          && Covered(w.serials, r.maxSerial, Reach(session, r.version))
          && (r.Written? ==> SnapshotOk(w.journal, session, r.version, r.items, r.saw)))
  }

  predicate Touched(entries: seq<Entry>, k: Key) {
    exists e :: e in entries && e.key == k
  }

  function Get(m: Mirror, k: Key): Option<string> {
    if k in m then Some(m[k]) else None
  }

  /** The client agrees with the replay up to `reach`, except on keys that entries between `reach`
      and what its snapshot saw have touched already. */
  predicate Agrees(objects: Mirror, journal: seq<Entry>, reach: nat, saw: nat, k: Key)
    requires reach <= |journal| && saw <= |journal|
  {
    (reach < saw && Touched(journal[reach..saw], k)) || Get(objects, k) == Get(Replay(journal[..reach]), k)
  }

  ghost predicate ClientOk(w: World) {
    w.client.session.Some? ==>
      && w.client.session.value < |w.sessions|
      && var s := w.sessions[w.client.session.value];
      && 1 <= w.client.version <= |s.history| + 1
      && Reach(s, w.client.version) <= |w.journal| && w.clientSaw <= |w.journal|
      && forall k :: Agrees(w.client.objects, w.journal, Reach(s, w.client.version), w.clientSaw, k)
  }

  predicate LogOk(w: World) {
    && |w.journal| == |w.serials| && Increasing(w.serials)
    && forall i | 0 <= i < |w.serials| :: w.serials[i] <= w.maxSerial
  }

  predicate OneSnapshotRun(runs: map<nat, Run>) {
    forall r, q | r in runs && q in runs && !runs[r].Started? && !runs[q].Started? :: r == q
  }

  predicate ServerInv(w: World) {
    && LogOk(w)
    && (forall i | 0 <= i < |w.sessions| :: SessionOk(w.journal, w.sessions[i]))
    && (w.status.Some? ==> StatusOk(w, w.status.value))
    && (forall r | r in w.runs :: RunOk(w, w.runs[r])) && OneSnapshotRun(w.runs)
    && (forall unf | unf in w.published :: UnfOk(w, unf))
  }

  ghost predicate Inv(w: World) {
    ServerInv(w) && ClientOk(w)
  }

  // ---- the journal grows, and so do session histories ----

  predicate SessionGrew(s: SessionLog, s': SessionLog) {
    s.base == s'.base && s.history <= s'.history
  }

  predicate Grew(w: World, w': World) {
    && w.journal <= w'.journal && w.serials <= w'.serials && w.maxSerial <= w'.maxSerial
    && (forall i | |w.serials| <= i < |w'.serials| :: w.maxSerial < w'.serials[i])
    && |w.sessions| <= |w'.sessions|
    && forall i | 0 <= i < |w.sessions| :: SessionGrew(w.sessions[i], w'.sessions[i])
  }

  lemma ReachStable(s: SessionLog, s': SessionLog, version: nat)
    requires SessionGrew(s, s') && 1 <= version <= |s.history| + 1
    ensures Reach(s', version) == Reach(s, version)
  {
  }

  lemma ReachBounds(journal: seq<Entry>, s: SessionLog, version: nat)
    requires SessionOk(journal, s) && 1 <= version <= |s.history| + 1
    ensures Reach(s, version) <= |journal|
  {
    if version >= 2 {
      assert DeltaOk(journal, s, version - 2);
    }
  }

  lemma {:induction false} ReachGrows(journal: seq<Entry>, s: SessionLog, v: nat, version: nat)
    requires SessionOk(journal, s) && 1 <= v <= version <= |s.history| + 1
    ensures Reach(s, v) <= Reach(s, version) <= |journal|
  {
    ReachBounds(journal, s, version);
    if v < version {
      ReachGrows(journal, s, v, version - 1);
      assert DeltaOk(journal, s, version - 2);
    }
  }

  lemma SnapshotGrows(journal: seq<Entry>, journal': seq<Entry>, s: SessionLog, s': SessionLog,
                      version: nat, items: seq<Item>, saw: nat)
    requires SnapshotOk(journal, s, version, items, saw) && journal <= journal' && SessionGrew(s, s')
    ensures SnapshotOk(journal', s', version, items, saw)
  {
    ReachStable(s, s', version);
    assert journal'[..saw] == journal[..saw];
  }

  lemma FilesGrow(journal: seq<Entry>, journal': seq<Entry>, s: SessionLog, s': SessionLog,
                  version: nat, snapshot: Snapshot, deltas: seq<Delta>)
    requires FilesListed(journal, s, version, snapshot, deltas) && journal <= journal' && SessionGrew(s, s')
    ensures FilesListed(journal', s', version, snapshot, deltas)
  {
    SnapshotGrows(journal, journal', s, s', snapshot.version, snapshot.items, snapshot.saw);
    assert forall d | d in deltas :: Listed(s, d) ==> Listed(s', d);
  }

  lemma UnfGrows(w: World, w': World, unf: Unf)
    requires UnfOk(w, unf) && Grew(w, w')
    ensures UnfOk(w', unf)
  {
    var s, s' := w.sessions[unf.session], w'.sessions[unf.session];
    FilesGrow(w.journal, w'.journal, s, s', unf.version, unf.snapshot, unf.deltas);
    var newest := Newest(unf.version, unf.deltas);
    assert s'.history[newest - 1 - |unf.deltas|..newest - 1] == s.history[newest - 1 - |unf.deltas|..newest - 1];
  }

  lemma CoveredGrows(w: World, w': World, upTo: int, reach: nat)
    requires Covered(w.serials, upTo, reach) && upTo <= w.maxSerial && Grew(w, w')
    ensures Covered(w'.serials, upTo, reach)
  {
  }

  lemma RunGrows(w: World, w': World, r: Run)
    requires RunOk(w, r) && Grew(w, w') && |w.sessions| == |w'.sessions| && w'.status.Some? == w.status.Some?
    ensures RunOk(w', r)
  {
    if !r.Started? {
      var session, session' := w.sessions[|w.sessions| - 1], w'.sessions[|w.sessions| - 1];
      assert SessionGrew(session, session');
      ReachStable(session, session', r.version);
      CoveredGrows(w, w', r.maxSerial, Reach(session, r.version));
      if r.Written? {
        SnapshotGrows(w.journal, w'.journal, session, session', r.version, r.items, r.saw);
      }
    }
  }

  lemma SessionGrows(journal: seq<Entry>, journal': seq<Entry>, s: SessionLog)
    requires SessionOk(journal, s) && journal <= journal'
    ensures SessionOk(journal', s)
  {
    forall i | 0 <= i < |s.history|
      ensures DeltaOk(journal', s, i)
    {
      var d := s.history[i];
      assert DeltaOk(journal, s, i);
      assert journal'[d.from..d.reach] == journal[d.from..d.reach];
    }
  }

  lemma StatusGrows(w: World, w': World, status: Status)
    requires StatusOk(w, status) && Grew(w, w') && w'.sessions == w.sessions
    ensures StatusOk(w', status)
  {
    var session := w.sessions[status.session];
    FilesGrow(w.journal, w'.journal, session, session, status.version, status.snapshot, status.deltas);
    CoveredGrows(w, w', status.snapshot.globalSerial, Reach(session, status.snapshot.version));
    forall d | d in status.deltas
      ensures DeltaCovers(w', d)
    {
      assert DeltaCovers(w, d);
      CoveredGrows(w, w', d.serialEnd, d.reach);
    }
  }

  lemma AgreesGrows(objects: Mirror, journal: seq<Entry>, journal': seq<Entry>, reach: nat, saw: nat, k: Key)
    requires reach <= |journal| && saw <= |journal| && journal <= journal'
    requires Agrees(objects, journal, reach, saw, k)
    ensures Agrees(objects, journal', reach, saw, k)
  {
    assert journal'[..reach] == journal[..reach];
    if reach < saw {
      assert journal'[reach..saw] == journal[reach..saw];
    }
  }

  lemma ClientGrows(w: World, w': World)
    requires ClientOk(w) && Grew(w, w') && w'.client == w.client && w'.clientSaw == w.clientSaw
    ensures ClientOk(w')
  {
    if w.client.session.Some? {
      var s, s' := w.sessions[w.client.session.value], w'.sessions[w.client.session.value];
      ReachStable(s, s', w.client.version);
      forall k
        ensures Agrees(w.client.objects, w'.journal, Reach(s', w.client.version), w.clientSaw, k)
      {
        AgreesGrows(w.client.objects, w.journal, w'.journal, Reach(s, w.client.version), w.clientSaw, k);
      }
    }
  }

  lemma CommitJournalKeepsInv(w: World, s: Step)
    requires ServerInv(w) && Enabled(w, s) && s.CommitJournal?
    ensures ServerInv(Next(w, s))
  {
    var w' := Next(w, s);
    assert Grew(w, w');
    forall i | 0 <= i < |w.sessions|
      ensures SessionOk(w'.journal, w.sessions[i])
    {
      SessionGrows(w.journal, w'.journal, w.sessions[i]);
    }
    if w.status.Some? {
      StatusGrows(w, w', w.status.value);
    }
    forall r | r in w.runs
      ensures RunOk(w', w.runs[r])
    {
      RunGrows(w, w', w.runs[r]);
    }
    forall unf | unf in w.published
      ensures UnfOk(w', unf)
    {
      UnfGrows(w, w', unf);
    }
  }

  /** A change to the runs, the client or both leaves the rest alone. */
  lemma SameFilesKeepInv(w: World, w': World)
    requires ServerInv(w) && w' == w.(runs := w'.runs, client := w'.client, clientSaw := w'.clientSaw)
    requires (forall r | r in w'.runs :: RunOk(w, w'.runs[r])) && OneSnapshotRun(w'.runs)
    ensures ServerInv(w')
  {
    forall unf | unf in w.published
      ensures UnfOk(w', unf)
    {
      UnfGrows(w, w', unf);
    }
    forall r | r in w'.runs
      ensures RunOk(w', w'.runs[r])
    {
      RunGrows(w, w', w'.runs[r]);
    }
    if w.status.Some? {
      StatusGrows(w, w', w.status.value);
    }
  }

  lemma NewSessionFits(w: World, w': World, status: Status)
    requires w'.journal == w.journal && w'.serials == w.serials && w'.maxSerial == w.maxSerial && |w.journal| == |w.serials|
    requires w'.sessions == w.sessions + [SessionLog(|w.journal|, [])]
    requires status.session == |w.sessions| && status.version == status.snapshot.version == 1 && status.deltas == []
    requires status.snapshot.saw == |w.journal| && Loaded(status.snapshot.items) == Replay(w.journal)
    requires status.snapshot.globalSerial <= w.maxSerial
    ensures StatusOk(w', status) && SessionOk(w'.journal, w'.sessions[|w.sessions|])
    ensures UnfOk(w', Unf(status.session, status.version, status.snapshot, status.deltas))
  {
    assert w.journal[..|w.journal|] == w.journal;
  }

  lemma InitialiseKeepsInv(w: World, s: Step)
    requires ServerInv(w) && Enabled(w, s) && s.Initialise?
    ensures ServerInv(Next(w, s))
  {
    var w' := Next(w, s);
    var r := w.runs[s.run];
    var status := Status(|w.sessions|, 1, Snapshot(1, r.maxSerial, r.now, s.items, |w.journal|), []);
    assert w'.status == Some(status);
    assert RunOk(w, r);
    NewSessionFits(w, w', status);
    forall unf | unf in w'.published
      ensures UnfOk(w', unf)
    {
      if unf in w.published {
        UnfGrows(w, w', unf);
      }
    }
    forall q | q in w'.runs
      ensures RunOk(w', w'.runs[q])
    {
      assert RunOk(w, w.runs[q]) && w.runs[q].Started?;
    }
  }

  lemma WriteSnapshotKeepsInv(w: World, s: Step)
    requires ServerInv(w) && Enabled(w, s) && s.WriteSnapshot?
    ensures ServerInv(Next(w, s))
  {
    var w' := Next(w, s);
    assert RunOk(w, w.runs[s.run]);
    assert w.journal[..|w.journal|] == w.journal;
    ReachBounds(w.journal, w.sessions[|w.sessions| - 1], w.runs[s.run].version);
    SameFilesKeepInv(w, w');
  }

  // ---- server runs ----

  /** The next delta starts inside the current version; with nothing to write, the current version has everything. */
  lemma NextDeltaRange(w: World, session: SessionLog, s: Status)
    requires LogOk(w) && SessionOk(w.journal, session)
    requires StatusFits(w, session, s) && UnfOf(s).Some?
    ensures var f := FirstAtLeast(w.serials, NextSerialStart(s));
            f <= Reach(session, s.version) <= |w.journal|
    ensures Query(w.journal, w.serials, NextSerialStart(s)) == w.journal[FirstAtLeast(w.serials, NextSerialStart(s))..]
  {
    var start := NextSerialStart(s);
    QueryIsSuffix(w.journal, w.serials, start);
    var reach := StartIsCovered(w, session, s);
    assert reach < |w.serials| ==> w.serials[reach] > start - 1;
  }

  /** The entries up to the next start serial are all in some version, and so in the current one. */
  lemma StartIsCovered(w: World, session: SessionLog, s: Status) returns (reach: nat)
    requires SessionOk(w.journal, session) && StatusFits(w, session, s) && UnfOf(s).Some?
    ensures Covered(w.serials, NextSerialStart(s) - 1, reach) && reach <= Reach(session, s.version) <= |w.journal|
  {
    if s.deltas == [] {
      reach := Reach(session, s.version);
      ReachBounds(w.journal, session, s.version);
    } else {
      var last := s.deltas[|s.deltas| - 1];
      assert Listed(session, last) && DeltaCovers(w, last);
      reach := last.reach;
      ReachGrows(w.journal, session, last.version, s.version);
    }
  }

  lemma AppendDelta(journal: seq<Entry>, session: SessionLog, d: Delta)
    requires SessionOk(journal, session)
    requires d.version == |session.history| + 2 && d.from <= Reach(session, |session.history| + 1) <= d.reach <= |journal|
    requires d.from < d.reach && d.entries == journal[d.from..d.reach]
    ensures SessionOk(journal, session.(history := session.history + [d]))
  {
    var grown := session.(history := session.history + [d]);
    forall i | 0 <= i < |grown.history|
      ensures DeltaOk(journal, grown, i)
    {
      ReachStable(session, grown, i + 1);
      if i < |session.history| { assert DeltaOk(journal, session, i); }
    }
  }

  lemma AppendToStatus(w: World, session: SessionLog, s: Status, d: Delta)
    requires LogOk(w) && StatusFits(w, session, s)
    requires d.version == s.version + 1 && d.serialEnd <= w.maxSerial && d.reach == |w.journal|
    ensures StatusFits(w, session.(history := session.history + [d]),
                       s.(version := s.version + 1, deltas := s.deltas + [d]))
  {
    var grown := session.(history := session.history + [d]);
    FilesGrow(w.journal, w.journal, session, grown, s.version, s.snapshot, s.deltas);
    ReachStable(session, grown, s.snapshot.version);
    assert Listed(grown, d) && DeltaCovers(w, d);
    assert forall e | e in s.deltas + [d] :: e in s.deltas || e == d;
  }

  /** Whatever the run read as maximum and as time, the next delta continues the session without a gap,
      and afterwards the current version contains every committed entry. */
  lemma DeltaContinues(w: World, session: SessionLog, s: Status, maxSerial: int, now: int)
    requires LogOk(w) && SessionOk(w.journal, session) && maxSerial <= w.maxSerial
    requires StatusFits(w, session, s) && UnfOf(s).Some?
    ensures var after := WithDelta(s, maxSerial, now, w.journal, w.serials);
            && |s.deltas| <= |after.deltas|
            && SessionOk(w.journal, Grown(session, s, after))
            && StatusFits(w, Grown(session, s, after), after)
            && Reach(Grown(session, s, after), after.version) == |w.journal|
  {
    var start := NextSerialStart(s);
    var f := FirstAtLeast(w.serials, start);
    var after := WithDelta(s, maxSerial, now, w.journal, w.serials);
    NextDeltaRange(w, session, s);
    if f == |w.journal| {
      assert after == s && Grown(session, s, s) == session;
    } else {
      var d := Delta(s.version + 1, start, maxSerial, now, w.journal[f..], f, |w.journal|);
      assert after == s.(version := s.version + 1, deltas := s.deltas + [d]);
      GrownByOne(session, s, after, d);
      assert w.journal[f..] == w.journal[f..|w.journal|];
      AppendDelta(w.journal, session, d);
      AppendToStatus(w, session, s, d);
    }
  }

  lemma GrownByOne(session: SessionLog, before: Status, after: Status, d: Delta)
    requires after.deltas == before.deltas + [d]
    ensures Grown(session, before, after) == session.(history := session.history + [d])
  {
    assert after.deltas[|before.deltas|..] == [d];
  }

  /** Whatever expires, what is listed still fits. */
  lemma ExpireFits(w: World, session: SessionLog, s: Status, now: int)
    requires StatusFits(w, session, s)
    ensures StatusFits(w, session, Expire(s, now))
  {
    FreshMembers(s.deltas, now);
  }

  /** Listed deltas with successive versions are a stretch of the session's history. */
  lemma ListedStretch(s: SessionLog, deltas: seq<Delta>, first: nat)
    requires forall d | d in deltas :: Listed(s, d)
    requires deltas != [] && first + 2 == deltas[0].version && ConsecutiveVersions(deltas)
    ensures first + |deltas| <= |s.history| && deltas == s.history[first..first + |deltas|]
  {
    assert deltas[|deltas| - 1] in deltas;
    forall i | 0 <= i < |deltas|
      ensures deltas[i].version == first + 2 + i && Listed(s, deltas[i])
    {
      assert deltas[i] in deltas;
    }
  }

  /** A notification file that validates lists successive deltas. */
  lemma ValidFiles(journal: seq<Entry>, session: SessionLog, s: Status)
    requires FilesListed(journal, session, s.version, s.snapshot, s.deltas) && UnfOf(s).Some?
    ensures FilesOk(journal, session, s.version, s.snapshot, s.deltas)
  {
    if s.deltas != [] {
      assert Listed(session, s.deltas[0]);
      ListedStretch(session, s.deltas, s.deltas[0].version - 2);
    }
  }

  /** Committing a status that fits: its notification file is right, and so is all that was published before. */
  lemma PublishedKeepsInv(w: World, w': World, status: Status)
    requires ServerInv(w) && Grew(w, w') && LogOk(w') && w'.status == Some(status) && w.status.Some?
    requires |w'.sessions| == |w.sessions| && StatusOk(w', status)
    requires forall i | 0 <= i < |w'.sessions| :: SessionOk(w'.journal, w'.sessions[i])
    requires w'.published == w.published + {Unf(status.session, status.version, status.snapshot, status.deltas)}
    requires forall r | r in w'.runs :: RunOk(w', w'.runs[r]) || (r in w.runs && w'.runs[r] == w.runs[r])
    requires OneSnapshotRun(w'.runs)
    ensures ServerInv(w')
  {
    ValidFiles(w'.journal, w'.sessions[status.session], status);
    forall unf | unf in w'.published
      ensures UnfOk(w', unf)
    {
      if unf in w.published { UnfGrows(w, w', unf); }
    }
    forall r | r in w'.runs
      ensures RunOk(w', w'.runs[r])
    {
      if r in w.runs && w'.runs[r] == w.runs[r] { RunGrows(w, w', w.runs[r]); }
    }
  }

  lemma UpdateRuns(w: World, s: Step, after: Status)
    requires OneSnapshotRun(w.runs) && |w.journal| == |w.serials| && Enabled(w, s) && s.Update?
    requires after == Updated(w.status.value, w.runs[s.run].maxSerial, w.runs[s.run].now, w.journal, w.serials)
    ensures var runs := Next(w, s).runs;
            && OneSnapshotRun(runs)
            && (forall q | q in runs :: q in w.runs)
            && (forall q | q in runs && runs[q] != w.runs[q] ::
                  q == s.run && runs[q] == Snapshotting(w.runs[q].maxSerial, w.runs[q].now, after.version))
  {
    var runs := Next(w, s).runs;
    var snapshotting := Snapshotting(w.runs[s.run].maxSerial, w.runs[s.run].now, after.version);
    assert runs == w.runs - {s.run} || runs == w.runs[s.run := snapshotting] || runs == w.runs;
    if runs == w.runs[s.run := snapshotting] {
      NoSnapshotRuns(w);
    }
  }

  lemma NoSnapshotRuns(w: World)
    ensures !SnapshotLocked(w) ==> forall q | q in w.runs :: w.runs[q].Started?
  {
  }

  lemma UpdateFits(w: World, before: Status, maxSerial: nat, now: int, runs: map<nat, Run>)
    requires LogOk(w) && StatusOk(w, before) && w.status.Some? && maxSerial <= w.maxSerial
    requires SessionOk(w.journal, w.sessions[|w.sessions| - 1])
    requires UnfOf(Updated(before, maxSerial, now, w.journal, w.serials)).Some?
    ensures var with := WithDelta(before, maxSerial, now, w.journal, w.serials);
            var grown := Grown(w.sessions[|w.sessions| - 1], before, with);
            var after := Expire(with, now);
            && SessionOk(w.journal, grown) && StatusOk(Extended(w, grown, after, runs), after)
            && RunOk(Extended(w, grown, after, runs), Snapshotting(maxSerial, now, after.version))
            && Reach(grown, after.version) == |w.journal|
  {
    var session := w.sessions[|w.sessions| - 1];
    DeltaContinues(w, session, before, maxSerial, now);
    var with := WithDelta(before, maxSerial, now, w.journal, w.serials);
    ExpireFits(w, Grown(session, before, with), with, now);
  }

  lemma ExtendedGrew(w: World, more: seq<Delta>, status: Status, runs: map<nat, Run>)
    requires |w.sessions| > 0
    ensures var session := w.sessions[|w.sessions| - 1];
            Grew(w, Extended(w, session.(history := session.history + more), status, runs))
  {
  }

  lemma ExtendedKeepsInv(w: World, grown: SessionLog, status: Status, runs: map<nat, Run>)
    requires ServerInv(w) && w.status.Some? && |w.sessions| > 0 && SessionOk(w.journal, grown)
    requires Grew(w, Extended(w, grown, status, runs)) && StatusOk(Extended(w, grown, status, runs), status)
    requires forall r | r in runs :: RunOk(Extended(w, grown, status, runs), runs[r]) || (r in w.runs && runs[r] == w.runs[r])
    requires OneSnapshotRun(runs)
    ensures ServerInv(Extended(w, grown, status, runs))
  {
    PublishedKeepsInv(w, Extended(w, grown, status, runs), status);
  }

  lemma UpdateKeepsInv(w: World, s: Step)
    requires ServerInv(w) && Enabled(w, s) && s.Update?
    ensures ServerInv(Next(w, s))
  {
    var r, before := w.runs[s.run], w.status.value;
    assert RunOk(w, r);
    var with := WithDelta(before, r.maxSerial, r.now, w.journal, w.serials);
    var after := Expire(with, r.now);
    if UnfOf(after).Some? {
      var runs, grown := Next(w, s).runs, Grown(w.sessions[|w.sessions| - 1], before, with);
      UpdateRuns(w, s, after);
      UpdateFits(w, before, r.maxSerial, r.now, runs);
      ExtendedGrew(w, with.deltas[|before.deltas|..], after, runs);
      ExtendedKeepsInv(w, grown, after, runs);
      assert Next(w, s) == Extended(w, grown, after, runs);
    } else {
      SameFilesKeepInv(w, Next(w, s));
    }
  }

  lemma PublishedFits(w: World, r: Run)
    requires w.status.Some? && StatusOk(w, w.status.value) && RunOk(w, r) && r.Written?
    ensures |w.sessions| > 0 && var session := w.sessions[|w.sessions| - 1];
            var published := w.status.value.(snapshot := Snapshot(r.version, r.maxSerial, r.now, r.items, r.saw));
            StatusFits(w, session, published)
  {
  }

  lemma PublishKeepsInv(w: World, s: Step)
    requires ServerInv(w) && Enabled(w, s) && s.PublishSnapshot?
    ensures ServerInv(Next(w, s))
  {
    var r := w.runs[s.run];
    assert RunOk(w, r);
    PublishedFits(w, r);
    var published := w.status.value.(snapshot := Snapshot(r.version, r.maxSerial, r.now, r.items, r.saw));
    ExpireFits(w, w.sessions[|w.sessions| - 1], published, r.now);
    if UnfOf(Expire(published, r.now)).Some? {
      PublishedKeepsInv(w, Next(w, s), Expire(published, r.now));
    } else {
      SameFilesKeepInv(w, Next(w, s));
    }
  }

  lemma StepKeepsServerInv(w: World, s: Step)
    requires ServerInv(w) && Enabled(w, s)
    ensures ServerInv(Next(w, s))
  {
    match s {
      case CommitJournal(_, _, _) => CommitJournalKeepsInv(w, s);
      case StartRun(_, _, _) => SameFilesKeepInv(w, Next(w, s));
      case StopRun(_) => SameFilesKeepInv(w, Next(w, s));
      case Initialise(_, _) => InitialiseKeepsInv(w, s);
      case Update(_, _) => UpdateKeepsInv(w, s);
      case WriteSnapshot(_, _) => WriteSnapshotKeepsInv(w, s);
      case PublishSnapshot(_) => PublishKeepsInv(w, s);
      case RunTheClient(_, _, _) => SameFilesKeepInv(w, Next(w, s));
    }
  }

  /** Nothing that was committed or published is ever taken back. */
  lemma StepGrows(w: World, s: Step)
    requires LogOk(w) && Enabled(w, s)
    ensures Grew(w, Next(w, s))
  {
    if s.Update? {
      var r, before := w.runs[s.run], w.status.value;
      var with := WithDelta(before, r.maxSerial, r.now, w.journal, w.serials);
      if UnfOf(Expire(with, r.now)).Some? {
        ExtendedGrew(w, with.deltas[|before.deltas|..], Expire(with, r.now), Next(w, s).runs);
      }
    }
  }

  // ---- the client ----

  lemma {:induction false} ApplyUntouched(m: Mirror, entries: seq<Entry>, k: Key)
    requires !Touched(entries, k)
    ensures Get(Apply(m, entries), k) == Get(m, k)
  {
    if entries != [] {
      var init, last := entries[..|entries| - 1], entries[|entries| - 1];
      assert last in entries;
      ApplyUntouched(m, init, k);
    }
  }

  /** What a list of entries says about a key it touches does not depend on where it starts. */
  lemma {:induction false} ApplyTouched(m: Mirror, m': Mirror, entries: seq<Entry>, k: Key)
    requires Touched(entries, k)
    ensures Get(Apply(m, entries), k) == Get(Apply(m', entries), k)
  {
    var init, last := entries[..|entries| - 1], entries[|entries| - 1];
    if last.key != k {
      assert Touched(init, k) by {
        var e :| e in entries && e.key == k;
        assert entries == init + [last];
      }
      ApplyTouched(m, m', init, k);
    }
  }

  lemma TouchedSplit(a: seq<Entry>, b: seq<Entry>, k: Key)
    ensures Touched(a + b, k) <==> Touched(a, k) || Touched(b, k)
  {
    if Touched(a, k) {
      var e :| e in a && e.key == k;
      assert e in a + b;
    }
    if Touched(b, k) {
      var e :| e in b && e.key == k;
      assert e in a + b;
    }
  }

  /** Entries that do not touch a key leave what the replay says about it. */
  lemma ReplayUntouched(journal: seq<Entry>, reach: nat, reach': nat, k: Key)
    requires reach <= reach' <= |journal| && !Touched(journal[reach..reach'], k)
    ensures Get(Replay(journal[..reach']), k) == Get(Replay(journal[..reach]), k)
  {
    assert journal[..reach'] == journal[..reach] + journal[reach..reach'];
    ApplyConcat(map[], journal[..reach], journal[reach..reach']);
    ApplyUntouched(Replay(journal[..reach]), journal[reach..reach'], k);
  }

  lemma TouchedRange(journal: seq<Entry>, a: nat, b: nat, c: nat, k: Key)
    requires a <= b <= c <= |journal|
    ensures Touched(journal[a..c], k) <==> Touched(journal[a..b], k) || Touched(journal[b..c], k)
  {
    assert journal[a..c] == journal[a..b] + journal[b..c];
    TouchedSplit(journal[a..b], journal[b..c], k);
  }

  lemma OverlapUntouched(objects: Mirror, journal: seq<Entry>, from: nat, reach: nat, reach': nat, saw: nat, k: Key)
    requires from <= reach <= reach' <= |journal| && saw <= |journal|
    requires Agrees(objects, journal, reach, saw, k) && !Touched(journal[from..reach'], k)
    ensures Agrees(objects, journal, reach', saw, k)
  {
    TouchedRange(journal, from, reach, reach', k);
    ReplayUntouched(journal, reach, reach', k);
    if reach < saw {
      if saw <= reach' {
        TouchedRange(journal, reach, saw, reach', k);
      } else {
        TouchedRange(journal, reach, reach', saw, k);
      }
    }
  }

  /** Replaying an overlapping tail is harmless: from agreement up to `reach`, applying the entries from any
      earlier position up to `reach'` gives agreement up to `reach'`. */
  lemma OverlapIsHarmless(objects: Mirror, journal: seq<Entry>, from: nat, reach: nat, reach': nat, saw: nat, k: Key)
    requires from <= reach <= reach' <= |journal| && saw <= |journal|
    requires Agrees(objects, journal, reach, saw, k)
    ensures Agrees(Apply(objects, journal[from..reach']), journal, reach', saw, k)
  {
    var entries := journal[from..reach'];
    if Touched(entries, k) {
      assert journal[..reach'] == journal[..from] + entries;
      ApplyConcat(map[], journal[..from], entries);
      ApplyTouched(objects, Replay(journal[..from]), entries, k);
    } else {
      ApplyUntouched(objects, entries, k);
      OverlapUntouched(objects, journal, from, reach, reach', saw, k);
    }
  }

  /** Loading the deltas after version `v`, out of a list that starts no later, leads to the newest of them. */
  lemma {:induction false} DeltasLead(objects: Mirror, journal: seq<Entry>, s: SessionLog, p: nat, q: nat, v: nat, saw: nat, k: Key)
    requires SessionOk(journal, s) && 1 <= v && p <= v - 1 <= q <= |s.history| && saw <= |journal|
    requires Reach(s, v) <= |journal| && Agrees(objects, journal, Reach(s, v), saw, k)
    ensures Reach(s, q + 1) <= |journal|
    ensures Agrees(Apply(objects, EntriesFrom(s.history[p..q], v + 1)), journal, Reach(s, q + 1), saw, k)
    decreases q
  {
    ReachBounds(journal, s, q + 1);
    if q == v - 1 {
      NoneAfter(journal, s, p, q);
    } else {
      DeltasLead(objects, journal, s, p, q - 1, v, saw, k);
      var rest := EntriesFrom(s.history[p..q - 1], v + 1);
      OneMoreDelta(s, journal, p, q, v);
      ApplyConcat(objects, rest, s.history[q - 1].entries);
      DeltaLeads(Apply(objects, rest), journal, s, q, saw, k);
    }
  }

  lemma NoneAfter(journal: seq<Entry>, s: SessionLog, p: nat, q: nat)
    requires SessionOk(journal, s) && p <= q <= |s.history|
    ensures EntriesFrom(s.history[p..q], q + 2) == []
  {
    forall i | 0 <= i < q - p
      ensures s.history[p..q][i].version < q + 2
    {
      assert DeltaOk(journal, s, p + i);
    }
    OldDeltasSkipped(s.history[p..q], q + 2);
  }

  lemma OneMoreDelta(s: SessionLog, journal: seq<Entry>, p: nat, q: nat, v: nat)
    requires SessionOk(journal, s) && p < q <= |s.history| && 1 <= v <= q
    ensures EntriesFrom(s.history[p..q], v + 1) == EntriesFrom(s.history[p..q - 1], v + 1) + s.history[q - 1].entries
  {
    assert DeltaOk(journal, s, q - 1);
    var deltas := s.history[p..q];
    assert deltas[..|deltas| - 1] == s.history[p..q - 1] && deltas[|deltas| - 1] == s.history[q - 1];
  }

  /** The delta after what has been reached leads on to its own reach. */
  lemma DeltaLeads(objects: Mirror, journal: seq<Entry>, s: SessionLog, q: nat, saw: nat, k: Key)
    requires SessionOk(journal, s) && 1 <= q <= |s.history| && saw <= |journal|
    requires Reach(s, q) <= |journal| && Agrees(objects, journal, Reach(s, q), saw, k)
    ensures Reach(s, q + 1) <= |journal|
    ensures Agrees(Apply(objects, s.history[q - 1].entries), journal, Reach(s, q + 1), saw, k)
  {
    var d := s.history[q - 1];
    assert DeltaOk(journal, s, q - 1);
    ReachBounds(journal, s, q + 1);
    OverlapIsHarmless(objects, journal, d.from, Reach(s, q), d.reach, saw, k);
  }

  lemma {:induction false} OldDeltasSkipped(deltas: seq<Delta>, version: nat)
    requires forall i | 0 <= i < |deltas| :: deltas[i].version < version
    ensures EntriesFrom(deltas, version) == []
  {
    if deltas != [] {
      OldDeltasSkipped(deltas[..|deltas| - 1], version);
    }
  }

  /** A client that is behind the version of the file, when the listed deltas do not lead to that version:
      it takes over the version without the data. */
  predicate Skips(c: Client, unf: Unf, forceReload: bool) {
    && FindNext(c, forceReload, unf, 0).NextVersion? && c.version < unf.version
    && (unf.deltas == [] || unf.deltas[|unf.deltas| - 1].version < unf.version)
  }

  /** The version whose data a client has after loading, from version `v`, what the file lists. */
  function LoadedVersion(unf: Unf, v: nat): nat {
    if unf.deltas != [] && v < unf.deltas[|unf.deltas| - 1].version then unf.deltas[|unf.deltas| - 1].version else v
  }

  /** From version `v` in step, loading what the file lists leads to the newest listed version. */
  lemma LoadLeads(journal: seq<Entry>, s: SessionLog, c: Client, unf: Unf, v: nat, saw: nat, k: Key)
    requires SessionOk(journal, s) && FilesOk(journal, s, unf.version, unf.snapshot, unf.deltas)
    requires 1 <= v <= unf.version && saw <= |journal|
    requires unf.deltas != [] ==> unf.deltas[0].version <= v + 1
    requires Reach(s, v) <= |journal| && Agrees(c.objects, journal, Reach(s, v), saw, k)
    requires LoadDeltas(c, unf, v + 1).Ok?
    ensures v <= LoadedVersion(unf, v) <= unf.version && Reach(s, LoadedVersion(unf, v)) <= |journal|
    ensures Agrees(LoadDeltas(c, unf, v + 1).value.objects, journal, Reach(s, LoadedVersion(unf, v)), saw, k)
  {
    if unf.deltas != [] && v < unf.deltas[|unf.deltas| - 1].version {
      ListedFrom(journal, s, unf);
      LoadStretch(journal, s, c, unf, v, saw, k);
    }
  }

  lemma LoadStretch(journal: seq<Entry>, s: SessionLog, c: Client, unf: Unf, v: nat, saw: nat, k: Key)
    requires SessionOk(journal, s) && unf.deltas != [] && 1 <= v < unf.deltas[|unf.deltas| - 1].version
    requires Stretch(s, unf.deltas, unf.deltas[|unf.deltas| - 1].version - 1)
    requires unf.deltas[|unf.deltas| - 1].version - |unf.deltas| <= v && saw <= |journal|
    requires Reach(s, v) <= |journal| && Agrees(c.objects, journal, Reach(s, v), saw, k)
    requires LoadDeltas(c, unf, v + 1).Ok?
    ensures var newest := unf.deltas[|unf.deltas| - 1].version;
            && Reach(s, newest) <= |journal|
            && Agrees(LoadDeltas(c, unf, v + 1).value.objects, journal, Reach(s, newest), saw, k)
  {
    LoadFrom(c.objects, journal, s, unf.deltas, unf.deltas[|unf.deltas| - 1].version - 1, v, saw, k);
    LoadsEntries(c, unf, v);
  }

  lemma LoadsEntries(c: Client, unf: Unf, v: nat)
    requires unf.deltas != [] && v < unf.deltas[|unf.deltas| - 1].version && LoadDeltas(c, unf, v + 1).Ok?
    ensures LoadDeltas(c, unf, v + 1).value.objects == Apply(c.objects, EntriesFrom(unf.deltas, v + 1))
  {
  }

  /** The listed deltas are the stretch of the history that ends below position q. */
  predicate Stretch(s: SessionLog, deltas: seq<Delta>, q: int) {
    |deltas| <= q <= |s.history| && deltas == s.history[q - |deltas|..q]
  }

  lemma ListedFrom(journal: seq<Entry>, s: SessionLog, unf: Unf)
    requires SessionOk(journal, s) && FilesOk(journal, s, unf.version, unf.snapshot, unf.deltas) && unf.deltas != []
    ensures var q := unf.deltas[|unf.deltas| - 1].version - 1;
            Stretch(s, unf.deltas, q) && unf.deltas[0].version == q - |unf.deltas| + 2
  {
    var p := unf.deltas[|unf.deltas| - 1].version - 1 - |unf.deltas|;
    assert unf.deltas[0] == s.history[p] && DeltaOk(journal, s, p);
  }

  lemma LoadFrom(objects: Mirror, journal: seq<Entry>, s: SessionLog, deltas: seq<Delta>, q: nat, v: nat, saw: nat, k: Key)
    requires SessionOk(journal, s) && Stretch(s, deltas, q)
    requires q - |deltas| + 1 <= v <= q && 1 <= v && saw <= |journal|
    requires Reach(s, v) <= |journal| && Agrees(objects, journal, Reach(s, v), saw, k)
    ensures Reach(s, q + 1) <= |journal|
    ensures Agrees(Apply(objects, EntriesFrom(deltas, v + 1)), journal, Reach(s, q + 1), saw, k)
  {
    DeltasLead(objects, journal, s, q - |deltas|, q, v, saw, k);
  }

  lemma ClientAfterSnapshot(w: World, unf: Unf, k: Key)
    requires UnfOk(w, unf)
    ensures var s := w.sessions[unf.session];
            && Reach(s, unf.snapshot.version) <= |w.journal| && unf.snapshot.saw <= |w.journal|
            && Agrees(Loaded(unf.snapshot.items), w.journal, Reach(s, unf.snapshot.version), unf.snapshot.saw, k)
  {
    var s, saw := w.sessions[unf.session], unf.snapshot.saw;
    var reach := Reach(s, unf.snapshot.version);
    assert w.journal[..saw] == w.journal[..reach] + w.journal[reach..saw];
    ApplyConcat(map[], w.journal[..reach], w.journal[reach..saw]);
    if !Touched(w.journal[reach..saw], k) {
      ApplyUntouched(Replay(w.journal[..reach]), w.journal[reach..saw], k);
    }
  }

  /** The client after a reload: the snapshot, and the deltas after it if they were asked for. */
  lemma ReloadInStep(w: World, unf: Unf, forceReload: bool, forceDeltas: bool, k: Key)
    requires ServerInv(w) && UnfOk(w, unf) && FindNext(w.client, forceReload, unf, 0).NeedsSnapshot?
    requires RunClient(w.client, unf, forceReload, forceDeltas).Ok?
    ensures var c := RunClient(w.client, unf, forceReload, forceDeltas).value;
            && c.session == Some(unf.session) && unf.snapshot.version <= c.version <= unf.version
            && unf.snapshot.saw <= |w.journal| && Reach(w.sessions[unf.session], c.version) <= |w.journal|
            && Agrees(c.objects, w.journal, Reach(w.sessions[unf.session], c.version), unf.snapshot.saw, k)
  {
    if forceDeltas {
      SnapshotAndDeltas(w, unf, w.client.(objects := Loaded(unf.snapshot.items)), k);
    } else {
      ClientAfterSnapshot(w, unf, k);
    }
  }

  lemma SnapshotAndDeltas(w: World, unf: Unf, c: Client, k: Key)
    requires ServerInv(w) && UnfOk(w, unf) && c.objects == Loaded(unf.snapshot.items)
    requires unf.deltas != [] ==> unf.deltas[0].version <= unf.snapshot.version + 1
    requires LoadDeltas(c, unf, unf.snapshot.version + 1).Ok?
    ensures var loaded, s := LoadDeltas(c, unf, unf.snapshot.version + 1).value, w.sessions[unf.session];
            && unf.snapshot.saw <= |w.journal| && Reach(s, unf.version) <= |w.journal|
            && Agrees(loaded.objects, w.journal, Reach(s, unf.version), unf.snapshot.saw, k)
  {
    ClientAfterSnapshot(w, unf, k);
    LoadLeads(w.journal, w.sessions[unf.session], c, unf, unf.snapshot.version, unf.snapshot.saw, k);
    assert LoadedVersion(unf, unf.snapshot.version) == unf.version;
  }

  lemma NextVersionMeans(c: Client, unf: Unf, forceReload: bool, forceDeltas: bool)
    requires FindNext(c, forceReload, unf, 0).NextVersion?
    ensures c.session == Some(unf.session) && 1 <= c.version <= unf.version
    ensures unf.deltas != [] ==> unf.deltas[0].version <= c.version + 1
    ensures RunClient(c, unf, forceReload, forceDeltas) == LoadDeltas(c, unf, c.version + 1)
    ensures var loaded := LoadDeltas(c, unf, c.version + 1);
            loaded.Ok? ==> loaded.value.session == c.session && loaded.value.version == unf.version
  {
  }

  lemma DeltasInStep(w: World, unf: Unf, forceReload: bool, forceDeltas: bool, k: Key)
    requires Inv(w) && UnfOk(w, unf) && FindNext(w.client, forceReload, unf, 0).NextVersion?
    requires !Skips(w.client, unf, forceReload)
    requires RunClient(w.client, unf, forceReload, forceDeltas).Ok?
    ensures var c := RunClient(w.client, unf, forceReload, forceDeltas).value;
            && c.session == Some(unf.session) && c.version == unf.version
            && w.clientSaw <= |w.journal| && Reach(w.sessions[unf.session], c.version) <= |w.journal|
            && Agrees(c.objects, w.journal, Reach(w.sessions[unf.session], c.version), w.clientSaw, k)
  {
    var c, s := w.client, w.sessions[unf.session];
    NextVersionMeans(c, unf, forceReload, forceDeltas);
    ClientAgrees(w, k);
    LoadLeads(w.journal, s, c, unf, c.version, w.clientSaw, k);
    assert LoadedVersion(unf, c.version) == unf.version;
  }

  lemma ClientAgrees(w: World, k: Key)
    requires Inv(w) && w.client.session.Some?
    ensures w.client.session.value < |w.sessions| && w.clientSaw <= |w.journal|
    ensures var reach := Reach(w.sessions[w.client.session.value], w.client.version);
            reach <= |w.journal| && Agrees(w.client.objects, w.journal, reach, w.clientSaw, k)
  {
  }

  /** A client that has run, on whatever file was published, agrees with the journal. */
  lemma ClientRunKeepsOk(w: World, unf: Unf, forceReload: bool, forceDeltas: bool, client: Client, saw: nat)
    requires Inv(w) && UnfOk(w, unf) && !Skips(w.client, unf, forceReload)
    requires RunClient(w.client, unf, forceReload, forceDeltas) == Ok(client)
    requires saw == if FindNext(w.client, forceReload, unf, 0).NeedsSnapshot? then unf.snapshot.saw else w.clientSaw
    ensures ClientOk(w.(client := client, clientSaw := saw))
  {
    var any := Key("", "", "");
    if FindNext(w.client, forceReload, unf, 0).NeedsSnapshot? {
      ReloadInStep(w, unf, forceReload, forceDeltas, any);
      forall k
        ensures Agrees(client.objects, w.journal, Reach(w.sessions[unf.session], client.version), saw, k)
      {
        ReloadInStep(w, unf, forceReload, forceDeltas, k);
      }
    } else {
      DeltasInStep(w, unf, forceReload, forceDeltas, any);
      forall k
        ensures Agrees(client.objects, w.journal, Reach(w.sessions[unf.session], client.version), saw, k)
      {
        DeltasInStep(w, unf, forceReload, forceDeltas, k);
      }
    }
  }

  /** Every step keeps the invariant; only a client run that skips leaves the client's part behind. */
  lemma StepKeepsInv(w: World, s: Step)
    requires Inv(w) && Enabled(w, s)
    ensures ServerInv(Next(w, s))
    ensures (s.RunTheClient? && Skips(w.client, s.unf, s.forceReload)) || ClientOk(Next(w, s))
  {
    StepKeepsServerInv(w, s);
    var w' := Next(w, s);
    if w'.client == w.client && w'.clientSaw == w.clientSaw {
      StepGrows(w, s);
      ClientGrows(w, w');
    } else if !Skips(w.client, s.unf, s.forceReload) {
      assert UnfOk(w, s.unf);
      ClientRunKeepsOk(w, s.unf, s.forceReload, s.forceDeltas, w'.client, w'.clientSaw);
    }
  }

  // ---- whole runs ----

  const EMPTY_WORLD := World([], [], 0, None, [], map[], {}, Client(None, 0, map[]), 0)

  ghost predicate IsRun(ws: seq<World>, steps: seq<Step>) {
    && |ws| == |steps| + 1 && ws[0] == EMPTY_WORLD
    && forall i | 0 <= i < |steps| ::
         |ws[i].journal| == |ws[i].serials| && Enabled(ws[i], steps[i]) && ws[i + 1] == Next(ws[i], steps[i])
  }

  /** No client run takes over a version that the listed deltas do not lead to. */
  ghost predicate NeverSkips(ws: seq<World>, steps: seq<Step>)
    requires |ws| == |steps| + 1
  {
    forall i | 0 <= i < |steps| && steps[i].RunTheClient? :: !Skips(ws[i].client, steps[i].unf, steps[i].forceReload)
  }

  lemma {:induction false} RunsKeepServerInv(ws: seq<World>, steps: seq<Step>, n: nat)
    requires IsRun(ws, steps) && n < |ws|
    ensures ServerInv(ws[n])
  {
    if n > 0 {
      RunsKeepServerInv(ws, steps, n - 1);
      StepKeepsServerInv(ws[n - 1], steps[n - 1]);
    }
  }

  lemma {:induction false} RunsKeepInv(ws: seq<World>, steps: seq<Step>, n: nat)
    requires IsRun(ws, steps) && NeverSkips(ws, steps) && n < |ws|
    ensures Inv(ws[n])
  {
    if n > 0 {
      RunsKeepInv(ws, steps, n - 1);
      StepKeepsInv(ws[n - 1], steps[n - 1]);
    }
  }

  /** The delta file contains the journal entry at this position. */
  predicate Carries(d: Delta, journal: seq<Entry>, i: nat) {
    d.from <= i < d.reach <= |journal| && d.entries == journal[d.from..d.reach]
  }

  /** Every journal entry the current version reaches is in the base snapshot or in a delta of the session. */
  lemma {:induction false} NothingSkipped(journal: seq<Entry>, s: SessionLog, version: nat, i: nat)
    requires SessionOk(journal, s) && 1 <= version <= |s.history| + 1 && i < Reach(s, version)
    ensures i < s.base || exists d :: d in s.history[..version - 1] && Carries(d, journal, i)
  {
    if version > 1 {
      var d := s.history[version - 2];
      assert DeltaOk(journal, s, version - 2);
      if i < d.from {
        NothingSkipped(journal, s, version - 1, i);
        assert s.history[..version - 1] == s.history[..version - 2] + [d];
      } else {
        assert Carries(d, journal, i);
        assert d == s.history[..version - 1][version - 2];
      }
    }
  }

  /** The run's update passed the validation of its notification file. */
  predicate Succeeds(w: World, s: Step)
    requires Enabled(w, s) && |w.journal| == |w.serials|
  {
    s.Update? && UnfOf(Updated(w.status.value, w.runs[s.run].maxSerial, w.runs[s.run].now, w.journal, w.serials)).Some?
  }

  lemma UpdateReachesAll(w: World, s: Step)
    requires ServerInv(w) && Enabled(w, s) && Succeeds(w, s)
    ensures var w' := Next(w, s);
            && 0 < |w.sessions| == |w'.sessions| && w'.journal == w.journal
            && var session := w'.sessions[|w.sessions| - 1];
            && SessionOk(w.journal, session) && Reach(session, |session.history| + 1) == |w.journal|
  {
    assert RunOk(w, w.runs[s.run]);
    UpdateFits(w, w.status.value, w.runs[s.run].maxSerial, w.runs[s.run].now, Next(w, s).runs);
  }

  /** The server never skips: after every successful update, each journal entry committed so far
      is in the base snapshot of the session or in one of its deltas. */
  lemma ServerNeverSkips(ws: seq<World>, steps: seq<Step>, n: nat, i: nat)
    requires IsRun(ws, steps) && n < |steps| && Succeeds(ws[n], steps[n]) && i < |ws[n].journal|
    ensures 0 < |ws[n].sessions| <= |ws[n + 1].sessions|
    ensures var s := ws[n + 1].sessions[|ws[n].sessions| - 1];
            i < s.base || exists d :: d in s.history && Carries(d, ws[n].journal, i)
  {
    RunsKeepServerInv(ws, steps, n);
    UpdateReachesAll(ws[n], steps[n]);
    var s := ws[n + 1].sessions[|ws[n].sessions| - 1];
    NothingSkipped(ws[n].journal, s, |s.history| + 1, i);
  }

  /** At every moment the listed deltas have successive versions up to at most that of the status,
      and the notification file can be written. */
  lemma VersionsStayContiguous(ws: seq<World>, steps: seq<Step>, n: nat)
    requires IsRun(ws, steps) && n < |ws| && ws[n].status.Some?
    ensures var s := ws[n].status.value;
            && UnfOf(s).Some? && ConsecutiveVersions(s.deltas)
            && forall d | d in s.deltas :: d.version <= s.version
  {
    RunsKeepServerInv(ws, steps, n);
    assert forall d | d in ws[n].status.value.deltas :: Listed(ws[n].sessions[ws[n].status.value.session], d);
  }

  lemma NextVersionsIncrease(s: Status, maxSerial: int, now: int, journal: seq<Entry>, serials: seq<nat>)
    requires |journal| == |serials| && UnfOf(s).Some?
    ensures var with := WithDelta(s, maxSerial, now, journal, serials);
            && IncreasingVersions(with.deltas) && with.snapshot.version <= with.version
            && (with.deltas != [] ==> with.deltas[|with.deltas| - 1].version <= with.version)
  {
    assert ConsecutiveVersions(s.deltas);
  }

  /** In every run, exactly when an update succeeds: of its listed deltas, the new one included, neighbours that stay have
      successive versions, and either the snapshot is at the new version or a delta of that version stays. */
  lemma UpdateSucceedsExactly(ws: seq<World>, steps: seq<Step>, n: nat)
    requires IsRun(ws, steps) && n < |steps| && steps[n].Update?
    ensures var w, r := ws[n], ws[n].runs[steps[n].run];
            var with := WithDelta(w.status.value, r.maxSerial, r.now, w.journal, w.serials);
            var last := |with.deltas| - 1;
            Succeeds(w, steps[n])
            <==> && SuccessiveStay(with.deltas, r.now)
                 && (|| with.snapshot.version == with.version
                     || (last >= 0 && with.deltas[last].version == with.version && !Stale(with.deltas[last], r.now)))
  {
    VersionsStayContiguous(ws, steps, n);
    var w, r := ws[n], ws[n].runs[steps[n].run];
    NextVersionsIncrease(w.status.value, r.maxSerial, r.now, w.journal, w.serials);
    ExactlyWhenUnfIsValid(WithDelta(w.status.value, r.maxSerial, r.now, w.journal, w.serials), r.now);
  }

  /** Once the listed deltas do not lead up to the version, an update that has something new succeeds
      if and only if all of them have expired: until then the session publishes nothing new. */
  lemma GapBlocksUpdates(ws: seq<World>, steps: seq<Step>, n: nat)
    requires IsRun(ws, steps) && n < |steps| && steps[n].Update?
    requires var s := ws[n].status.value;
             && s.deltas != [] && s.deltas[|s.deltas| - 1].version < s.version
             && Query(ws[n].journal, ws[n].serials, NextSerialStart(s)) != []
    ensures Succeeds(ws[n], steps[n])
        <==> forall d | d in ws[n].status.value.deltas :: Stale(d, ws[n].runs[steps[n].run].now)
  {
    var w, s, r := ws[n], ws[n].status.value, ws[n].runs[steps[n].run];
    var with := WithDelta(s, r.maxSerial, r.now, w.journal, w.serials);
    VersionsStayContiguous(ws, steps, n);
    UpdateSucceedsExactly(ws, steps, n);
    BehindGap(s, with, r.now);
  }

  lemma BehindGap(s: Status, with: Status, now: int)
    requires UnfOf(s).Some? && s.deltas != [] && s.deltas[|s.deltas| - 1].version < s.version
    requires with.version == s.version + 1 && with.snapshot == s.snapshot && |with.deltas| == |s.deltas| + 1
    requires with.deltas[..|s.deltas|] == s.deltas
    requires with.deltas[|s.deltas|].version == with.version && with.deltas[|s.deltas|].timestamp == now
    ensures with.snapshot.version < with.version && !Stale(with.deltas[|s.deltas|], now)
    ensures SuccessiveStay(with.deltas, now) <==> forall d | d in s.deltas :: Stale(d, now)
  {
    var m := LastThatStays(s.deltas, now);
    StayOneMore(with.deltas, now, m);
    assert ConsecutiveVersions(s.deltas);
    if m >= 0 {
      assert s.deltas[m] in s.deltas;
    }
  }

  /** No update runs with a clock older than a delta that is listed. */
  ghost predicate ClocksInOrder(ws: seq<World>, steps: seq<Step>)
    requires IsRun(ws, steps)
  {
    forall i, d | 0 <= i < |steps| && steps[i].Update? && d in ws[i].status.value.deltas ::
      d.timestamp <= ws[i].runs[steps[i].run].now
  }

  lemma ExpireKeepsTail(s: Status, now: int)
    requires TimesNonDecreasing(s.deltas) && VersionsUpTo(s.deltas, s.version)
    ensures TimesNonDecreasing(Expire(s, now).deltas) && VersionsUpTo(Expire(s, now).deltas, s.version)
  {
    var k := FreshIsSuffix(s.deltas, now);
  }

  lemma UpdateKeepsTail(s: Status, maxSerial: int, now: int, journal: seq<Entry>, serials: seq<nat>)
    requires |journal| == |serials| && TimesNonDecreasing(s.deltas) && VersionsUpTo(s.deltas, s.version)
    requires forall d | d in s.deltas :: d.timestamp <= now
    ensures var after := Updated(s, maxSerial, now, journal, serials);
            TimesNonDecreasing(after.deltas) && VersionsUpTo(after.deltas, after.version)
  {
    var with := WithDelta(s, maxSerial, now, journal, serials);
    assert forall i | 0 <= i < |s.deltas| :: s.deltas[i] in s.deltas;
    ExpireKeepsTail(with, now);
  }

  /** With such clocks, the status always lists the newest deltas, up to its own version. */
  lemma {:induction false} NewestStayListed(ws: seq<World>, steps: seq<Step>, n: nat)
    requires IsRun(ws, steps) && ClocksInOrder(ws, steps) && n < |ws| && ws[n].status.Some?
    ensures TimesNonDecreasing(ws[n].status.value.deltas)
    ensures VersionsUpTo(ws[n].status.value.deltas, ws[n].status.value.version)
  {
    var w, s := ws[n - 1], steps[n - 1];
    if w.status.Some? && !s.Initialise? {
      NewestStayListed(ws, steps, n - 1);
      if s.Update? {
        UpdateKeepsTail(w.status.value, w.runs[s.run].maxSerial, w.runs[s.run].now, w.journal, w.serials);
      } else if s.PublishSnapshot? {
        var r := w.runs[s.run];
        ExpireKeepsTail(w.status.value.(snapshot := Snapshot(r.version, r.maxSerial, r.now, r.items, r.saw)), r.now);
      }
    }
  }

  lemma SameMirror(a: Mirror, b: Mirror)
    requires forall k :: Get(a, k) == Get(b, k)
    ensures a == b
  {
    forall k
      ensures k in a <==> k in b
      ensures k in a ==> a[k] == b[k]
    {
      assert Get(a, k) == Get(b, k);
    }
    assert a.Keys == b.Keys;
  }

  /** Convergence: the client agrees with the replay of the journal up to the last entry its version contains,
      key by key; once the version reaches past what its snapshot saw, it holds exactly that replay. */
  lemma ClientConverges(ws: seq<World>, steps: seq<Step>, n: nat)
    requires IsRun(ws, steps) && NeverSkips(ws, steps) && n < |ws| && ws[n].client.session.Some?
    ensures var w := ws[n];
            && w.client.session.value < |w.sessions|
            && var reach := Reach(w.sessions[w.client.session.value], w.client.version);
            && reach <= |w.journal| && w.clientSaw <= |w.journal|
            && (forall k :: Agrees(w.client.objects, w.journal, reach, w.clientSaw, k))
            && (w.clientSaw <= reach ==> w.client.objects == Replay(w.journal[..reach]))
  {
    RunsKeepInv(ws, steps, n);
    var w := ws[n];
    var reach := Reach(w.sessions[w.client.session.value], w.client.version);
    if w.clientSaw <= reach {
      AgreesEverywhere(w.client.objects, w.journal, reach, w.clientSaw);
    }
  }

  lemma AgreesEverywhere(objects: Mirror, journal: seq<Entry>, reach: nat, saw: nat)
    requires saw <= reach <= |journal| && forall k :: Agrees(objects, journal, reach, saw, k)
    ensures objects == Replay(journal[..reach])
  {
    forall k
      ensures Get(objects, k) == Get(Replay(journal[..reach]), k)
    {
      assert Agrees(objects, journal, reach, saw, k);
    }
    SameMirror(objects, Replay(journal[..reach]));
  }
}
