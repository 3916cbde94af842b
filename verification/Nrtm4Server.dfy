/** The NRTMv4 server writer: versions, deltas, snapshots, expiry and the Update Notification File.
    Object texts are as published, after auth hash removal and dummifying. */
module Nrtm4Server {
  import opened Journal
  import opened Store

  const DELTA_EXPIRY_SECONDS := 24 * 60 * 60

  datatype Item = Item(key: Key, text: string)

  /** A delta file with its entry in previous_deltas. `from` and `reach` are bookkeeping for the statements:
      the entries are those of the journal of the source from index `from` up to index `reach`. */
  datatype Delta = Delta(version: nat, serialStart: int, serialEnd: int, timestamp: int,
                         entries: seq<Entry>, from: nat, reach: nat)

  /** A snapshot file with its entry in the status; `saw` counts the journal entries its rows reflect. */
  datatype Snapshot = Snapshot(version: nat, globalSerial: int, timestamp: int, items: seq<Item>, saw: nat)

  datatype Status = Status(session: nat, version: nat, snapshot: Snapshot, deltas: seq<Delta>)

  /** The Update Notification File, with the files it refers to by name and hash. */
  datatype Unf = Unf(session: nat, version: nat, snapshot: Snapshot, deltas: seq<Delta>) {
    /** The validation rules between the versions. */
    predicate VersionsConsistent() {
      && version == (if deltas == [] || snapshot.version >= deltas[|deltas| - 1].version
                     then snapshot.version else deltas[|deltas| - 1].version)
      && forall i | 0 <= i < |deltas| :: deltas[i].version == deltas[0].version + i
    }
  }

  /** Writing the file fails when its own validation fails. */
  function UnfOf(s: Status): Option<Unf> {
    var unf := Unf(s.session, s.version, s.snapshot, s.deltas);
    if unf.VersionsConsistent() then Some(unf) else None
  }

  function Fresh(deltas: seq<Delta>, now: int): seq<Delta> {
    if deltas == [] then []
    else
      var rest := Fresh(deltas[..|deltas| - 1], now);
      var last := deltas[|deltas| - 1];
      if now - last.timestamp > DELTA_EXPIRY_SECONDS then rest else rest + [last]
  }

  /** The journal entries with a global serial of at least `start`. */
  function Query(journal: seq<Entry>, serials: seq<nat>, start: int): seq<Entry>
    requires |journal| == |serials|
  {
    if journal == [] then []
    else
      var n := |journal| - 1;
      var rest := Query(journal[..n], serials[..n], start);
      if serials[n] >= start then rest + [journal[n]] else rest
  }

  function FirstAtLeast(serials: seq<nat>, start: int): (n: nat)
    ensures n <= |serials|
  {
    if serials == [] || serials[|serials| - 1] < start then |serials|
    else FirstAtLeast(serials[..|serials| - 1], start)
  }

  predicate Increasing(serials: seq<nat>) {
    forall i, j | 0 <= i < j < |serials| :: serials[i] < serials[j]
  }

  lemma {:induction false} QueryIsSuffix(journal: seq<Entry>, serials: seq<nat>, start: int)
    requires |journal| == |serials| && Increasing(serials)
    ensures var f := FirstAtLeast(serials, start);
            && Query(journal, serials, start) == journal[f..]
            && (forall i | 0 <= i < |serials| :: serials[i] < start <==> i < f)
  {
    if journal != [] {
      var n := |journal| - 1;
      QueryIsSuffix(journal[..n], serials[..n], start);
      if serials[n] < start {
        assert forall i | 0 <= i < n :: serials[i] == serials[..n][i];
        assert FirstAtLeast(serials[..n], start) == n by {
          if n > 0 { assert serials[..n][n - 1] < start; }
        }
      } else {
        var f := FirstAtLeast(serials[..n], start);
        assert journal[f..] == journal[..n][f..] + [journal[n]];
        assert forall i | 0 <= i < n :: serials[i] == serials[..n][i];
      }
    }
  }

  /** Where the next delta starts: after the last delta, or after the snapshot when no delta is left. */
  function NextSerialStart(s: Status): int {
    (if s.deltas == [] then s.snapshot.globalSerial else s.deltas[|s.deltas| - 1].serialEnd) + 1
  }

  /** The status with the next delta, if the journal has anything for it. */
  function WithDelta(s: Status, maxSerial: int, now: int, journal: seq<Entry>, serials: seq<nat>): Status
    requires |journal| == |serials|
  {
    var start := NextSerialStart(s);
    var entries := Query(journal, serials, start);
    if entries == [] then s
    else s.(version := s.version + 1,
            deltas := s.deltas + [Delta(s.version + 1, start, maxSerial, now, entries,
                                        FirstAtLeast(serials, start), |journal|)])
  }

  function Expire(s: Status, now: int): Status {
    s.(deltas := Fresh(s.deltas, now))
  }

  function Updated(s: Status, maxSerial: int, now: int, journal: seq<Entry>, serials: seq<nat>): Status
    requires |journal| == |serials|
  {
    Expire(WithDelta(s, maxSerial, now, journal, serials), now)
  }

  predicate ShouldCreateSnapshot(s: Status, now: int, frequency: int) {
    s.snapshot.version != s.version && now - s.snapshot.timestamp > frequency
  }

  function Loaded(items: seq<Item>): Mirror {
    if items == [] then map[] else Loaded(items[..|items| - 1])[items[|items| - 1].key := items[|items| - 1].text]
  }

  // ---- expiry ----

  predicate TimesNonDecreasing(deltas: seq<Delta>) {
    forall i, j | 0 <= i < j < |deltas| :: deltas[i].timestamp <= deltas[j].timestamp
  }

  predicate Stale(d: Delta, now: int) {
    now - d.timestamp > DELTA_EXPIRY_SECONDS
  }

  lemma {:induction false} FreshMembers(deltas: seq<Delta>, now: int)
    ensures forall d :: d in Fresh(deltas, now) <==> d in deltas && !Stale(d, now)
  {
    if deltas != [] {
      var init, last := deltas[..|deltas| - 1], deltas[|deltas| - 1];
      FreshMembers(init, now);
      assert deltas == init + [last];
    }
  }

  /** The deltas from one position up to another are those that stay. */
  predicate StaysBetween(deltas: seq<Delta>, now: int, a: nat, b: nat) {
    a <= b <= |deltas| && forall i | 0 <= i < |deltas| :: Stale(deltas[i], now) <==> i < a || b <= i
  }

  lemma {:induction false} FreshOf(deltas: seq<Delta>, now: int, a: nat, b: nat)
    requires StaysBetween(deltas, now, a, b)
    ensures Fresh(deltas, now) == deltas[a..b]
  {
    if deltas != [] {
      var n := |deltas| - 1;
      var init := deltas[..n];
      assert forall i | 0 <= i < n :: init[i] == deltas[i];
      if b == |deltas| && a < b {
        FreshOf(init, now, a, n);
        assert deltas[a..b] == init[a..n] + [deltas[n]];
      } else if b == |deltas| {
        FreshOf(init, now, n, n);
      } else {
        FreshOf(init, now, a, b);
        assert deltas[a..b] == init[a..b];
      }
    }
  }

  /** No stale delta lies between two that are not. */
  predicate NoHole(deltas: seq<Delta>, now: int) {
    forall i, j, k | 0 <= i < j < k < |deltas| && !Stale(deltas[i], now) && !Stale(deltas[k], now) :: !Stale(deltas[j], now)
  }

  /** Without a hole, what stays is in one piece. */
  lemma OnePiece(deltas: seq<Delta>, now: int) returns (a: nat, b: nat)
    requires NoHole(deltas, now)
    ensures StaysBetween(deltas, now, a, b) && Fresh(deltas, now) == deltas[a..b]
    ensures a == b ==> forall i | 0 <= i < |deltas| :: Stale(deltas[i], now)
  {
    a := 0;
    while a < |deltas| && Stale(deltas[a], now)
      invariant a <= |deltas| && forall i | 0 <= i < a :: Stale(deltas[i], now)
    {
      a := a + 1;
    }
    b := |deltas|;
    while b > a && Stale(deltas[b - 1], now)
      invariant a <= b <= |deltas| && forall i | b <= i < |deltas| :: Stale(deltas[i], now)
    {
      b := b - 1;
    }
    FreshOf(deltas, now, a, b);
  }

  predicate VersionsUpTo(deltas: seq<Delta>, version: nat) {
    forall i | 0 <= i < |deltas| :: deltas[i].version == version + 1 + i - |deltas|
  }

  predicate ConsecutiveVersions(deltas: seq<Delta>) {
    forall i | 0 <= i < |deltas| :: deltas[i].version == deltas[0].version + i
  }

  predicate IncreasingVersions(deltas: seq<Delta>) {
    forall i, j | 0 <= i < j < |deltas| :: deltas[i].version < deltas[j].version
  }

  /** Both deltas stay, and none between them does. */
  predicate NextToStay(deltas: seq<Delta>, now: int, i: nat, k: nat) {
    && i < k < |deltas| && !Stale(deltas[i], now) && !Stale(deltas[k], now)
    && forall j | i < j < k :: Stale(deltas[j], now)
  }

  /** Two deltas that stay, with none that stays between them, have successive versions. */
  ghost predicate SuccessiveStay(deltas: seq<Delta>, now: int) {
    forall i: nat, k: nat | NextToStay(deltas, now, i, k) :: deltas[k].version == deltas[i].version + 1
  }

  /** The newest delta that stays, if any. */
  lemma {:induction false} LastThatStays(deltas: seq<Delta>, now: int) returns (m: int)
    ensures -1 <= m < |deltas| && (forall i | m < i < |deltas| :: Stale(deltas[i], now))
    ensures Fresh(deltas, now) == [] <==> m == -1
    ensures m >= 0 ==> !Stale(deltas[m], now) && Fresh(deltas, now)[|Fresh(deltas, now)| - 1] == deltas[m]
  {
    m := -1;
    if deltas != [] {
      m := |deltas| - 1;
      if Stale(deltas[m], now) {
        m := LastThatStays(deltas[..|deltas| - 1], now);
      }
    }
  }

  lemma StayInInit(deltas: seq<Delta>, now: int)
    requires deltas != [] && SuccessiveStay(deltas, now)
    ensures SuccessiveStay(deltas[..|deltas| - 1], now)
  {
    var init := deltas[..|deltas| - 1];
    forall i: nat, k: nat | NextToStay(init, now, i, k)
      ensures init[k].version == init[i].version + 1
    {
      assert forall j | i < j < k :: init[j] == deltas[j];
      assert NextToStay(deltas, now, i, k);
    }
  }

  /** Adding a delta that stays behind the newest one that does. */
  lemma StayOneMore(deltas: seq<Delta>, now: int, m: int)
    requires deltas != [] && -1 <= m < |deltas| - 1 && !Stale(deltas[|deltas| - 1], now)
    requires (m >= 0 ==> !Stale(deltas[m], now)) && forall i | m < i < |deltas| - 1 :: Stale(deltas[i], now)
    ensures SuccessiveStay(deltas, now)
        <==> SuccessiveStay(deltas[..|deltas| - 1], now)
             && (m >= 0 ==> deltas[|deltas| - 1].version == deltas[m].version + 1)
  {
    var n := |deltas| - 1;
    var init := deltas[..n];
    if SuccessiveStay(deltas, now) {
      StayInInit(deltas, now);
      if m >= 0 { assert NextToStay(deltas, now, m, n); }
    }
    if SuccessiveStay(init, now) && (m >= 0 ==> deltas[n].version == deltas[m].version + 1) {
      forall i: nat, k: nat | NextToStay(deltas, now, i, k)
        ensures deltas[k].version == deltas[i].version + 1
      {
        if k < n {
          assert NextToStay(init, now, i, k);
        } else {
          assert i == m;
        }
      }
    }
  }

  /** What is left after expiry has consecutive versions if and only if neighbours that stay are successive. */
  lemma {:induction false} ConsecutiveExactly(deltas: seq<Delta>, now: int)
    ensures ConsecutiveVersions(Fresh(deltas, now)) <==> SuccessiveStay(deltas, now)
  {
    if deltas != [] {
      var n := |deltas| - 1;
      var init, rest := deltas[..n], Fresh(deltas[..n], now);
      ConsecutiveExactly(init, now);
      if Stale(deltas[n], now) {
        if SuccessiveStay(deltas, now) { StayInInit(deltas, now); }
        assert forall i: nat, k: nat | NextToStay(deltas, now, i, k) :: NextToStay(init, now, i, k);
      } else {
        var m := LastThatStays(init, now);
        StayOneMore(deltas, now, m);
        OneMoreConsecutive(rest, deltas[n]);
      }
    }
  }

  lemma OneMoreConsecutive(deltas: seq<Delta>, d: Delta)
    ensures ConsecutiveVersions(deltas + [d])
        <==> ConsecutiveVersions(deltas) && (deltas != [] ==> d.version == deltas[|deltas| - 1].version + 1)
  {
    var all := deltas + [d];
    assert forall i | 0 <= i < |deltas| :: all[i] == deltas[i];
    assert all[|deltas|] == d;
  }

  /** The notification file can be written after expiry if and only if neighbours that stay have successive versions,
      and either the snapshot is at the current version or a delta of that version stays. */
  lemma ExactlyWhenUnfIsValid(s: Status, now: int)
    requires IncreasingVersions(s.deltas) && s.snapshot.version <= s.version
    requires s.deltas != [] ==> s.deltas[|s.deltas| - 1].version <= s.version
    ensures UnfOf(Expire(s, now)).Some?
        <==> && SuccessiveStay(s.deltas, now)
             && (|| s.snapshot.version == s.version
                 || (var n := |s.deltas| - 1; n >= 0 && s.deltas[n].version == s.version && !Stale(s.deltas[n], now)))
  {
    ConsecutiveExactly(s.deltas, now);
    var m := LastThatStays(s.deltas, now);
  }

  lemma StaysInOrder(deltas: seq<Delta>, version: nat, now: int)
    requires VersionsUpTo(deltas, version)
    ensures SuccessiveStay(deltas, now) <==> NoHole(deltas, now)
  {
    if !NoHole(deltas, now) {
      var i: nat, j: nat, k: nat :| i < j < k < |deltas| && !Stale(deltas[i], now) && !Stale(deltas[k], now)
                                    && Stale(deltas[j], now);
      HoleBreaks(deltas, now, version, i, j, k);
    } else {
      forall i: nat, k: nat | NextToStay(deltas, now, i, k)
        ensures k == i + 1
      {
        var next := deltas[i + 1];
        assert Stale(next, now) || k == i + 1;
      }
    }
  }

  /** From a hole to two neighbours that stay and are not successive. */
  lemma HoleBreaks(deltas: seq<Delta>, now: int, version: nat, i: nat, j: nat, k: nat)
    requires VersionsUpTo(deltas, version) && i < j < k < |deltas|
    requires !Stale(deltas[i], now) && Stale(deltas[j], now) && !Stale(deltas[k], now)
    ensures !SuccessiveStay(deltas, now)
    decreases k - i
  {
    if x: nat :| i < x < j && !Stale(deltas[x], now) {
      HoleBreaks(deltas, now, version, x, j, k);
    } else if x: nat :| j < x < k && !Stale(deltas[x], now) {
      HoleBreaks(deltas, now, version, i, j, x);
    } else {
      assert NextToStay(deltas, now, i, k);
    }
  }

  /** While the listed versions run up to the current one: exactly when expiry leaves no hole, and either
      the newest delta stays or the snapshot is at the current version. */
  lemma ValidWithoutHole(s: Status, now: int)
    requires VersionsUpTo(s.deltas, s.version) && s.snapshot.version <= s.version
    ensures UnfOf(Expire(s, now)).Some?
        <==> NoHole(s.deltas, now)
             && (s.snapshot.version == s.version || (s.deltas != [] && !Stale(s.deltas[|s.deltas| - 1], now)))
  {
    ExactlyWhenUnfIsValid(s, now);
    StaysInOrder(s.deltas, s.version, now);
  }

  lemma SortedHasNoHole(deltas: seq<Delta>, now: int)
    requires TimesNonDecreasing(deltas)
    ensures NoHole(deltas, now)
    ensures deltas != [] && Stale(deltas[|deltas| - 1], now) ==> Fresh(deltas, now) == []
  {
    FreshMembers(deltas, now);
    if deltas != [] && Stale(deltas[|deltas| - 1], now) && Fresh(deltas, now) != [] {
      assert Fresh(deltas, now)[0] in Fresh(deltas, now);
    }
  }

  /** With non-decreasing run timestamps, expiry drops a prefix. */
  lemma FreshIsSuffix(deltas: seq<Delta>, now: int) returns (k: nat)
    requires TimesNonDecreasing(deltas)
    ensures k <= |deltas| && Fresh(deltas, now) == deltas[k..]
    ensures forall i | 0 <= i < |deltas| :: Stale(deltas[i], now) <==> i < k
  {
    SortedHasNoHole(deltas, now);
    var a, b := OnePiece(deltas, now);
    k := if a == b then |deltas| else a;
  }

  /** Out of order timestamps can make expiry punch a hole, and the notification file then fails to validate. */
  lemma StaleTimestampExample(s: Status, d: Delta)
    requires s.version == 4 && s.snapshot.version == 1
    requires s.deltas == [d.(version := 2, timestamp := 100), d.(version := 3, timestamp := 0), d.(version := 4, timestamp := 100)]
    ensures UnfOf(s).Some?
    ensures UnfOf(Expire(s, DELTA_EXPIRY_SECONDS + 50)).None?
  {
    var now := DELTA_EXPIRY_SECONDS + 50;
    assert !Stale(s.deltas[0], now) && Stale(s.deltas[1], now) && !Stale(s.deltas[2], now);
    ValidWithoutHole(s, now);
  }

  /** With non-decreasing timestamps there is never a hole: the file can be written after expiry
      if and only if a delta is left or the snapshot is at the current version. */
  lemma WhenUnfIsValid(s: Status, now: int)
    requires TimesNonDecreasing(s.deltas) && VersionsUpTo(s.deltas, s.version) && s.snapshot.version <= s.version
    ensures UnfOf(Expire(s, now)).Some? <==> Expire(s, now).deltas != [] || s.snapshot.version == s.version
  {
    ValidWithoutHole(s, now);
    SortedHasNoHole(s.deltas, now);
    FreshMembers(s.deltas, now);
    if s.deltas != [] && !Stale(s.deltas[|s.deltas| - 1], now) {
      assert s.deltas[|s.deltas| - 1] in Fresh(s.deltas, now);
    }
  }

  /** One delta, older than the limit, and a snapshot from before it: nothing leads up to the version any more. */
  lemma AllExpiredExample(s: Status, d: Delta)
    requires s.version == 2 && s.snapshot.version == 1 && s.deltas == [d.(version := 2, timestamp := 0)]
    ensures UnfOf(s).Some? && UnfOf(Expire(s, DELTA_EXPIRY_SECONDS + 1)).None?
  {
    assert Stale(s.deltas[0], DELTA_EXPIRY_SECONDS + 1);
    ValidWithoutHole(s, DELTA_EXPIRY_SECONDS + 1);
  }

  // ---- delta files ----

  /** The delta file of every listed delta exists. */
  predicate AllThere(s: Status, files: set<Delta>) {
    forall d | d in s.deltas :: d in files
  }

  /** Expiry removes the files of expired deltas, and all files that are not listed. */
  function OnlyListed(files: set<Delta>, s: Status): set<Delta> {
    set d | d in files && d in s.deltas
  }

  function NewDeltas(s: Status, maxSerial: int, now: int, journal: seq<Entry>, serials: seq<nat>): seq<Delta>
    requires |journal| == |serials|
  {
    WithDelta(s, maxSerial, now, journal, serials).deltas[|s.deltas|..]
  }

  /** The files after an update, also when its notification file does not validate. */
  function FilesAfter(files: set<Delta>, s: Status, maxSerial: int, now: int, journal: seq<Entry>, serials: seq<nat>): set<Delta>
    requires |journal| == |serials|
  {
    OnlyListed(files + (set d | d in NewDeltas(s, maxSerial, now, journal, serials)), Updated(s, maxSerial, now, journal, serials))
  }

  /** A failed update leaves the stored status as it was, but not the files: the next run finds all files of that status,
      and goes on with the session, if and only if no listed delta had expired. */
  lemma FailedUpdateKeepsSession(files: set<Delta>, s: Status, maxSerial: int, now: int, journal: seq<Entry>, serials: seq<nat>)
    requires |journal| == |serials| && AllThere(s, files)
    ensures AllThere(s, FilesAfter(files, s, maxSerial, now, journal, serials)) <==> forall d | d in s.deltas :: !Stale(d, now)
  {
    var with := WithDelta(s, maxSerial, now, journal, serials);
    FreshMembers(with.deltas, now);
    assert with.deltas == s.deltas + NewDeltas(s, maxSerial, now, journal, serials);
  }

  class NRTM4ServerWriter {
    const timestamp: int
    const maxSerialGlobal: int
    var status: Status
    /** The delta files on disk. */
    var files: set<Delta>

    constructor (timestamp: int, maxSerialGlobal: int, status: Status, files: set<Delta>)
      ensures this.timestamp == timestamp && this.maxSerialGlobal == maxSerialGlobal
      ensures this.status == status && this.files == files
    {
      this.timestamp, this.maxSerialGlobal, this.status, this.files := timestamp, maxSerialGlobal, status, files;
    }

    /** A run that finds a file missing gives the session up. */
    method VerifyIntegrity() returns (ok: bool)
      ensures ok <==> AllThere(status, files)
    {
      for i := 0 to |status.deltas|
        invariant forall d | d in status.deltas[..i] :: d in files
      {
        assert status.deltas[i] in status.deltas;
        if status.deltas[i] !in files { return false; }
        assert status.deltas[..i + 1] == status.deltas[..i] + [status.deltas[i]];
      }
      assert status.deltas[..|status.deltas|] == status.deltas;
      ok := true;
    }

    method ExpireDeltas()
      modifies this
      ensures status == Expire(old(status), timestamp) && files == OnlyListed(old(files), status)
    {
      var newDeltaList := [];
      for i := 0 to |status.deltas|
        invariant status == old(status) && files <= old(files)
        invariant newDeltaList == Fresh(status.deltas[..i], timestamp)
        invariant forall d | d in old(files) - files :: Stale(d, timestamp)
      {
        assert status.deltas[..i + 1][..i] == status.deltas[..i];
        if timestamp - status.deltas[i].timestamp > DELTA_EXPIRY_SECONDS {
          files := files - {status.deltas[i]};
        } else {
          newDeltaList := newDeltaList + [status.deltas[i]];
        }
      }
      assert status.deltas[..|status.deltas|] == status.deltas;
      FreshMembers(status.deltas, timestamp);
      status := status.(deltas := newDeltaList);
      files := set d | d in files && d in newDeltaList;
    }

    /** The delta file holds exactly the journal entries from the start serial on, in journal order. */
    method WriteDelta(serialStart: int, journal: seq<Entry>, serials: seq<nat>) returns (entries: seq<Entry>)
      requires |journal| == |serials| && Increasing(serials)
      ensures entries == journal[FirstAtLeast(serials, serialStart)..]
      ensures forall i | 0 <= i < |journal| :: serials[i] >= serialStart <==> i >= FirstAtLeast(serials, serialStart)
    {
      QueryIsSuffix(journal, serials, serialStart);
      entries := [];
      for i := 0 to |journal|
        invariant entries == Query(journal[..i], serials[..i], serialStart)
      {
        assert journal[..i + 1][..i] == journal[..i] && serials[..i + 1][..i] == serials[..i];
        if serials[i] >= serialStart {
          entries := entries + [journal[i]];
        }
      }
      assert journal[..|journal|] == journal && serials[..|journal|] == serials;
    }

    /** The snapshot file lists every visible row once, in any order. */
    method WriteSnapshot(rows: Mirror) returns (items: seq<Item>)
      ensures Loaded(items) == rows && |items| == |rows|
    {
      items := [];
      var todo := rows.Keys;
      while todo != {}
        invariant todo <= rows.Keys
        invariant Loaded(items) == map k | k in rows.Keys - todo :: rows[k]
        invariant |items| + |todo| == |rows|
        decreases todo
      {
        var k :| k in todo;
        ghost var before := items;
        items := items + [Item(k, rows[k])];
        assert items[..|before|] == before;
        todo := todo - {k};
      }
    }

    method CommitStatus() returns (unf: Option<Unf>)
      modifies this
      ensures status == Expire(old(status), timestamp) && unf == UnfOf(status)
      ensures files == OnlyListed(old(files), status)
    {
      ExpireDeltas();
      unf := UnfOf(status);
    }

    /** The part of a run under the status lock, in an existing session. */
    method UpdateRepository(journal: seq<Entry>, serials: seq<nat>) returns (unf: Option<Unf>)
      requires |journal| == |serials| && Increasing(serials)
      modifies this
      ensures status == Updated(old(status), maxSerialGlobal, timestamp, journal, serials)
      ensures files == FilesAfter(old(files), old(status), maxSerialGlobal, timestamp, journal, serials)
      ensures unf == UnfOf(status)
    {
      var serialStart := (if |status.deltas| > 0 then status.deltas[|status.deltas| - 1].serialEnd
                          else status.snapshot.globalSerial) + 1;
      var nextVersion := status.version + 1;
      QueryIsSuffix(journal, serials, serialStart);
      ghost var before, filesBefore := status, files;
      var entries := WriteDelta(serialStart, journal, serials);
      if entries != [] {
        status := status.(version := nextVersion);
        var delta := Delta(nextVersion, serialStart, maxSerialGlobal, timestamp, entries,
                           FirstAtLeast(serials, serialStart), |journal|);
        files := files + {delta};
        status := status.(deltas := status.deltas + [delta]);
        assert NewDeltas(before, maxSerialGlobal, timestamp, journal, serials) == [delta];
      } else {
        assert NewDeltas(before, maxSerialGlobal, timestamp, journal, serials) == [];
      }
      assert files == filesBefore + (set d | d in NewDeltas(before, maxSerialGlobal, timestamp, journal, serials));
      unf := CommitStatus();
    }

    /** The last part of a run that made a snapshot, on a status read again under the lock. */
    method PublishSnapshot(version: nat, items: seq<Item>, saw: nat) returns (unf: Option<Unf>)
      modifies this
      ensures status == Expire(old(status).(snapshot := Snapshot(version, maxSerialGlobal, timestamp, items, saw)), timestamp)
      ensures files == OnlyListed(old(files), status)
      ensures unf == UnfOf(status)
    {
      status := status.(snapshot := Snapshot(version, maxSerialGlobal, timestamp, items, saw));
      unf := CommitStatus();
    }

    /** A first run, or one after a failed integrity check: a new session at version 1, without deltas. */
    method Initialise(session: nat, items: seq<Item>, saw: nat) returns (unf: Option<Unf>)
      modifies this
      ensures status == Status(session, 1, Snapshot(1, maxSerialGlobal, timestamp, items, saw), [])
      ensures unf == Some(Unf(session, 1, status.snapshot, [])) && files == {}
    {
      status := Status(session, 1, Snapshot(1, maxSerialGlobal, timestamp, items, saw), []);
      unf := CommitStatus();
    }
  }
}
