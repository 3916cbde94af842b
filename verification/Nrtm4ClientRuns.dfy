/** What the NRTMv4 client keeps over whole runs, whichever published files it is given. */
module Nrtm4ClientRuns {
  import opened Journal
  import opened Store
  import opened Nrtm4Server
  import opened Nrtm4Client
  import opened Nrtm4Convergence

  lemma PublishedIsConsistent(ws: seq<World>, steps: seq<Step>, n: nat)
    requires IsRun(ws, steps) && n < |steps| && steps[n].RunTheClient?
    ensures steps[n].unf.VersionsConsistent() && 1 <= steps[n].unf.snapshot.version <= steps[n].unf.version
  {
    RunsKeepServerInv(ws, steps, n);
    var w, unf := ws[n], steps[n].unf;
    assert UnfOk(w, unf);
    FilesConsistent(w.journal, w.sessions[unf.session], unf);
  }

  lemma FilesConsistent(journal: seq<Entry>, s: SessionLog, unf: Unf)
    requires SessionOk(journal, s) && FilesOk(journal, s, unf.version, unf.snapshot, unf.deltas)
    ensures unf.VersionsConsistent()
  {
    var first := Newest(unf.version, unf.deltas) - 1 - |unf.deltas|;
    forall i | 0 <= i < |unf.deltas|
      ensures unf.deltas[i].version == first + i + 2
    {
      assert DeltaOk(journal, s, first + i);
    }
  }

  /** In every run, a client that is given an older file of its own session, without a forced reload,
      keeps what it holds, and nothing else changes. */
  lemma OlderFileChangesNothing(ws: seq<World>, steps: seq<Step>, n: nat)
    requires IsRun(ws, steps) && n < |steps| && steps[n].RunTheClient? && !steps[n].forceReload
    requires ws[n].client.session == Some(steps[n].unf.session) && steps[n].unf.version < ws[n].client.version
    ensures ws[n + 1] == ws[n]
  {
    OlderFileFails(ws[n].client, steps[n].unf, false, steps[n].forceDeltas);
  }

  /** In every run, with a forced reload the client holds the snapshot of the file it was given, whatever it held before. */
  lemma ForcedReloadHoldsSnapshot(ws: seq<World>, steps: seq<Step>, n: nat)
    requires IsRun(ws, steps) && n < |steps| && steps[n].RunTheClient? && steps[n].forceReload && !steps[n].forceDeltas
    ensures var unf := steps[n].unf;
            && ws[n + 1].client == Client(Some(unf.session), unf.snapshot.version, Loaded(unf.snapshot.items))
            && ws[n + 1].clientSaw == unf.snapshot.saw
  {
    PublishedIsConsistent(ws, steps, n);
    ReloadExactly(ws[n].client, steps[n].unf, true, false);
  }

  /** The step gives the client a file of the session it is in, without a forced reload, and if the deltas
      it needs are gone, with a snapshot that is no older than what it holds. */
  predicate KeepsUp(c: Client, s: Step) {
    s.RunTheClient? ==>
      && !s.forceReload && c.session == Some(s.unf.session)
      && (OutOfReach(c.version, s.unf) && !s.forceDeltas ==> c.version <= s.unf.snapshot.version)
  }

  lemma StepKeepsClient(w: World, s: Step)
    requires |w.journal| == |w.serials| && Enabled(w, s) && !s.RunTheClient?
    ensures Next(w, s).client == w.client
  {
  }

  lemma ClientStepForward(ws: seq<World>, steps: seq<Step>, n: nat)
    requires IsRun(ws, steps) && n < |steps| && KeepsUp(ws[n].client, steps[n])
    requires ws[n].client.session.Some? && ws[n].client.version > 0
    ensures ws[n + 1].client.session == ws[n].client.session
    ensures ws[n].client.version <= ws[n + 1].client.version
  {
    var c, s := ws[n].client, steps[n];
    if !s.RunTheClient? {
      StepKeepsClient(ws[n], s);
    } else {
      PublishedIsConsistent(ws, steps, n);
      OlderFileFails(c, s.unf, false, s.forceDeltas);
      if Reloads(c, false, s.unf) {
        ReloadExactly(c, s.unf, false, s.forceDeltas);
      } else if c.version <= s.unf.version {
        ContinueExactly(c, s.unf, false, s.forceDeltas);
      }
    }
  }

  /** Over any stretch of a run in which the client keeps up, it stays in its session and its version never goes back. */
  lemma {:induction false} VersionNeverGoesBack(ws: seq<World>, steps: seq<Step>, m: nat, n: nat)
    requires IsRun(ws, steps) && m <= n < |ws| && ws[m].client.session.Some? && ws[m].client.version > 0
    requires forall i | m <= i < n :: KeepsUp(ws[i].client, steps[i])
    ensures ws[n].client.session == ws[m].client.session && ws[m].client.version <= ws[n].client.version
  {
    if m < n {
      VersionNeverGoesBack(ws, steps, m, n - 1);
      ClientStepForward(ws, steps, n - 1);
    }
  }
}
