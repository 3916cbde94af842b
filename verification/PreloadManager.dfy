/** The store manager with its list of updater threads, both changed in place. */
module PreloadManager {
  import opened Preload

  class PreloadUpdater {
    var updateRoutes: bool
    var updateAsSets: bool
    var updateRouteSets: bool
    var phase: Phase

    constructor (updateRoutes: bool, updateAsSets: bool, updateRouteSets: bool)
      ensures View() == Updater(PartSet(updateRoutes, updateAsSets, updateRouteSets), Waiting)
    {
      this.updateRoutes, this.updateAsSets, this.updateRouteSets := updateRoutes, updateAsSets, updateRouteSets;
      phase := Waiting;
    }

    ghost function View(): Updater
      reads this
    {
      Updater(PartSet(updateRoutes, updateAsSets, updateRouteSets), phase)
    }

    method AddFlags(routes: bool, asSets: bool, routeSets: bool)
      modifies this
      ensures View() == Updater(old(View()).flags + PartSet(routes, asSets, routeSets), old(phase))
    {
      if routes { updateRoutes := true; }
      if asSets { updateAsSets := true; }
      if routeSets { updateRouteSets := true; }
    }
  }

  function PartSet(routes: bool, asSets: bool, routeSets: bool): set<Part> {
    (if routes then {Routes} else {}) + (if asSets then {AsSets} else {}) + (if routeSets then {RouteSets} else {})
  }

  ghost function Views(threads: seq<PreloadUpdater>): (views: seq<Updater>)
    reads threads
    ensures |views| == |threads| && forall i | 0 <= i < |views| :: views[i] == threads[i].View()
  {
    if threads == [] then [] else [threads[0].View()] + Views(threads[1..])
  }

  class PreloadStoreManager {
    var threads: seq<PreloadUpdater>

    ghost predicate Valid()
      reads this
    {
      forall i, j :: 0 <= i < j < |threads| ==> threads[i] != threads[j]
    }

    /** Flags every thread on the list, drops dead ones, and starts a new thread unless two are left. */
    method PerformReload(message: Message)
      requires Valid()
      modifies this, threads
      ensures Valid() && Views(threads) == Requested(old(Views(threads)), PartsOf(message))
      ensures forall t | t in threads :: t in old(threads) || fresh(t)
    {
      var updateRoutes := message == All || message.classes * {"route", "route6"} != {};
      var updateAsSets := message == All || message.classes * {"as-set", "aut-num"} != {};
      var updateRouteSets := message == All || message.classes * {"route-set", "route", "route6"} != {};
      PartsAre(message, updateRoutes, updateAsSets, updateRouteSets);
      if !(updateRoutes || updateAsSets || updateRouteSets) { return; }
      FlagThreads(updateRoutes, updateAsSets, updateRouteSets);
      RemoveDeadThreads();
      if |threads| > 1 { return; }
      StartThread(updateRoutes, updateAsSets, updateRouteSets);
    }

    method StartThread(routes: bool, asSets: bool, routeSets: bool)
      requires Valid()
      modifies this
      ensures Valid() && Views(threads) == old(Views(threads)) + [Updater(PartSet(routes, asSets, routeSets), Waiting)]
      ensures forall t | t in threads :: t in old(threads) || fresh(t)
    {
      ghost var before := Views(threads);
      var thread := new PreloadUpdater(routes, asSets, routeSets);
      threads := threads + [thread];
      assert forall i | 0 <= i < |before| :: threads[i].View() == before[i];
      assert Views(threads) == before + [thread.View()];
    }

    method FlagThreads(routes: bool, asSets: bool, routeSets: bool)
      requires Valid()
      modifies threads
      ensures threads == old(threads)
      ensures Views(threads) == Flagged(old(Views(threads)), PartSet(routes, asSets, routeSets))
    {
      ghost var before := Views(threads);
      for i := 0 to |threads|
        invariant threads == old(threads)
        invariant forall k | 0 <= k < i :: threads[k].View() == before[k].(flags := before[k].flags + PartSet(routes, asSets, routeSets))
        invariant forall k | i <= k < |threads| :: threads[k].View() == before[k]
      {
        threads[i].AddFlags(routes, asSets, routeSets);
      }
    }

    method RemoveDeadThreads()
      requires Valid()
      modifies this
      ensures Valid() && Views(threads) == RemoveDead(old(Views(threads)), 0)
      ensures forall t | t in threads :: t in old(threads)
    {
      var i := 0;
      while i < |threads|
        invariant Valid() && RemoveDead(Views(threads), i) == RemoveDead(old(Views(threads)), 0)
        invariant forall t | t in threads :: t in old(threads)
        decreases |threads| - i
      {
        if threads[i].phase == Dead {
          RemoveAt(i);
        }
        i := i + 1;
      }
    }

    method RemoveAt(i: nat)
      requires Valid() && i < |threads|
      modifies this
      ensures Valid() && threads == old(threads[..i] + threads[i + 1..])
      ensures Views(threads) == old(Views(threads)[..i] + Views(threads)[i + 1..])
    {
      ghost var before := Views(threads);
      threads := threads[..i] + threads[i + 1..];
      assert Views(threads) == before[..i] + before[i + 1..];
    }
  }

  lemma PartsAre(message: Message, routes: bool, asSets: bool, routeSets: bool)
    requires routes == (message == All || message.classes * {"route", "route6"} != {})
    requires asSets == (message == All || message.classes * {"as-set", "aut-num"} != {})
    requires routeSets == (message == All || message.classes * {"route-set", "route", "route6"} != {})
    ensures PartsOf(message) == PartSet(routes, asSets, routeSets)
  {
  }
}
