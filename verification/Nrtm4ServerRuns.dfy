/** What the steps of NRTMv4 server runs do, told by the stored status, the journal and the clock. */
module Nrtm4ServerRuns {
  import opened Journal
  import opened Store
  import opened Nrtm4Server
  import opened Nrtm4Convergence

  /** Where the next delta starts, in terms of the status. */
  ghost predicate StartsAt(s: Status, start: int) {
    start == 1 + if s.deltas != [] then s.deltas[|s.deltas| - 1].serialEnd else s.snapshot.globalSerial
  }

  ghost predicate SomethingNew(w: World, start: int) {
    exists i :: 0 <= i < |w.serials| && start <= w.serials[i]
  }

  lemma {:induction false} QueryIsEmpty(journal: seq<Entry>, serials: seq<nat>, start: int)
    requires |journal| == |serials|
    ensures Query(journal, serials, start) == [] <==> forall i | 0 <= i < |serials| :: serials[i] < start
  {
    if journal != [] {
      var n := |journal| - 1;
      QueryIsEmpty(journal[..n], serials[..n], start);
      assert forall i | 0 <= i < n :: serials[..n][i] == serials[i];
    }
  }

  /** The delta an update adds: the journal from the start serial on, under the next version. */
  ghost predicate NewDelta(w: World, before: Status, r: Run, start: int, d: Delta)
    requires |w.journal| == |w.serials|
  {
    d == Delta(before.version + 1, start, r.maxSerial, r.now, Query(w.journal, w.serials, start),
               FirstAtLeast(w.serials, start), |w.journal|)
  }

  /** The next version is listed when the journal has something new; nothing else is, apart from what was,
      and nothing that is older than a day. */
  ghost predicate MovesOn(w: World, before: Status, r: Run, start: int, after: Status)
    requires |w.journal| == |w.serials|
  {
    && after.session == before.session && after.snapshot == before.snapshot
    && after.version == before.version + (if SomethingNew(w, start) then 1 else 0)
    && forall d :: d in after.deltas
         <==> r.now - d.timestamp <= 86400
              && (d in before.deltas || (SomethingNew(w, start) && NewDelta(w, before, r, start, d)))
  }

  lemma UpdatedMovesOn(w: World, before: Status, r: Run, start: int)
    requires |w.journal| == |w.serials| && StartsAt(before, start)
    ensures MovesOn(w, before, r, start, Updated(before, r.maxSerial, r.now, w.journal, w.serials))
  {
    var with := WithDelta(before, r.maxSerial, r.now, w.journal, w.serials);
    QueryIsEmpty(w.journal, w.serials, start);
    FreshMembers(with.deltas, r.now);
    if SomethingNew(w, start) {
      var d := Delta(before.version + 1, start, r.maxSerial, r.now, Query(w.journal, w.serials, start),
                     FirstAtLeast(w.serials, start), |w.journal|);
      assert with.deltas == before.deltas + [d];
    } else {
      assert with == before;
    }
  }

  /** An update that fails changes nothing but that the run is over. */
  lemma UpdateFailsCleanly(ws: seq<World>, steps: seq<Step>, n: nat)
    requires IsRun(ws, steps) && n < |steps| && steps[n].Update? && !Succeeds(ws[n], steps[n])
    ensures ws[n + 1] == ws[n].(runs := ws[n].runs - {steps[n].run})
  {
  }

  lemma UpdatePublishes(ws: seq<World>, steps: seq<Step>, n: nat)
    requires IsRun(ws, steps) && n < |steps| && steps[n].Update? && Succeeds(ws[n], steps[n])
    ensures var w, r := ws[n], ws[n].runs[steps[n].run];
            var after := Updated(w.status.value, r.maxSerial, r.now, w.journal, w.serials);
            && ws[n + 1].status == Some(after)
            && ws[n + 1].published == w.published + {Unf(after.session, after.version, after.snapshot, after.deltas)}
            && (steps[n].run in ws[n + 1].runs <==> ShouldCreateSnapshot(after, r.now, steps[n].frequency) && !SnapshotLocked(w))
  {
  }

  /** An update that succeeds goes to the next version exactly when the journal has an entry behind the last delta, or
      behind the snapshot without one; it then lists a delta of that version with the clock of the run. It keeps the
      session and the snapshot, lists what is not older than a day, publishes exactly what it stores, and goes on to
      make a snapshot exactly when the version has moved on since the last one, that one is older than the configured
      frequency, and no other run is making one. */
  lemma UpdateExactly(ws: seq<World>, steps: seq<Step>, n: nat, start: int)
    requires IsRun(ws, steps) && n < |steps| && steps[n].Update? && Succeeds(ws[n], steps[n])
    requires StartsAt(ws[n].status.value, start)
    ensures ws[n + 1].status.Some?
    ensures var r, after := ws[n].runs[steps[n].run], ws[n + 1].status.value;
            && MovesOn(ws[n], ws[n].status.value, r, start, after)
            && ws[n + 1].published == ws[n].published + {Unf(after.session, after.version, after.snapshot, after.deltas)}
            && (steps[n].run in ws[n + 1].runs
                <==> && after.snapshot.version != after.version
                     && r.now - after.snapshot.timestamp > steps[n].frequency
                     && forall q | q in ws[n].runs :: ws[n].runs[q].Started?)
  {
    UpdatedMovesOn(ws[n], ws[n].status.value, ws[n].runs[steps[n].run], start);
    UpdatePublishes(ws, steps, n);
  }
}
