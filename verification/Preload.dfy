/** The reloading of the preload store: requests over a channel, at most two updater threads, one lock. */
module Preload {
  import opened Store

  /** The three parts of the store, in the order in which an updater reads them. */
  datatype Part = Routes | AsSets | RouteSets

  const ALL_PARTS: set<Part> := {Routes, AsSets, RouteSets}

  function Position(p: Part): nat {
    match p
    case Routes => 0
    case AsSets => 1
    case RouteSets => 2
  }

  /** The classes whose rows the part is computed from. */
  function Inputs(p: Part): set<string> {
    match p
    case Routes => {"route", "route6"}
    case AsSets => {"as-set", "aut-num"}
    case RouteSets => {"route-set", "route", "route6"}
  }

  datatype Message = All | Changed(classes: set<string>)

  /** What a writer asks for after its commit. */
  function SignalReload(changed: Option<set<string>>): Message {
    if changed == None || changed.value == {} then All else Changed(changed.value)
  }

  /** The parts a request reloads. */
  function PartsOf(m: Message): set<Part> {
    (if m == All || m.classes * {"route", "route6"} != {} then {Routes} else {})
    + (if m == All || m.classes * {"as-set", "aut-num"} != {} then {AsSets} else {})
    + (if m == All || m.classes * {"route-set", "route", "route6"} != {} then {RouteSets} else {})
  }

  lemma PartsOfMessage(m: Message, p: Part)
    ensures p in PartsOf(m) <==> m == All || exists c :: c in m.classes && c in Inputs(p)
  {
    if m != All {
      if exists c :: c in m.classes && c in Inputs(p) {
        var c :| c in m.classes && c in Inputs(p);
        assert c in m.classes * Inputs(p);
      }
      if m.classes * Inputs(p) != {} {
        var c :| c in m.classes * Inputs(p);
      }
    }
  }

  /** A reload is asked for exactly when the part is computed from one of the changed classes. */
  lemma ReloadsExactlyTheDependents(changed: set<string>, p: Part)
    requires changed != {}
    ensures p in PartsOf(SignalReload(Some(changed))) <==> exists c :: c in changed && c in Inputs(p)
  {
    PartsOfMessage(Changed(changed), p);
  }

  /** Which change concerns which part: members by reference come from aut-num objects and from routes. */
  const DEPENDENTS: set<(string, Part)> := {
    ("route", Routes), ("route6", Routes), ("as-set", AsSets), ("aut-num", AsSets),
    ("route-set", RouteSets), ("route", RouteSets), ("route6", RouteSets)}

  lemma InputsExactly(c: string, p: Part)
    ensures c in Inputs(p) <==> (c, p) in DEPENDENTS
  {
  }

  /** The request a writer makes, part by part; without a list of classes it asks for everything. */
  lemma RequestExactly(changed: Option<set<string>>, p: Part)
    ensures p in PartsOf(SignalReload(changed))
        <==> changed == None || changed.value == {} || exists c :: c in changed.value && (c, p) in DEPENDENTS
  {
    PartsOfMessage(SignalReload(changed), p);
    if changed.Some? {
      forall c | c in changed.value
        ensures c in Inputs(p) <==> (c, p) in DEPENDENTS
      {
        InputsExactly(c, p);
      }
    }
  }

  // ---- updater threads ----

  /** How often each class has changed. */
  type Versions = map<string, nat>

  function Version(v: Versions, c: string): nat {
    if c in v then v[c] else 0
  }

  /** Waiting for the lock; running, at one of the parts and perhaps holding what it read for it;
      past the release of the lock but still alive; or ended. */
  datatype Phase = Waiting | Running(position: nat, held: Option<Versions>) | Released | Dead

  datatype Updater = Updater(flags: set<Part>, phase: Phase) {
    predicate Alive() { phase != Dead }

    /** The updater has the lock and has not come past the part. */
    predicate NotPast(p: Part) {
      phase.Running? && (phase.position < Position(p) || (phase.position == Position(p) && phase.held == None))
    }

    /** The updater will still read the part. */
    predicate WillRead(p: Part) {
      p in flags && (phase == Waiting || NotPast(p))
    }
  }

  // ---- requests ----

  function Flagged(threads: seq<Updater>, parts: set<Part>): seq<Updater> {
    seq(|threads|, i requires 0 <= i < |threads| => threads[i].(flags := threads[i].flags + parts))
  }

  /** Dead threads are removed from the list that is being iterated over, so the one after a removed one is skipped. */
  function RemoveDead(threads: seq<Updater>, i: nat): seq<Updater>
    decreases |threads| - i
  {
    if i >= |threads| then threads
    else if threads[i].Alive() then RemoveDead(threads, i + 1)
    else RemoveDead(threads[..i] + threads[i + 1..], i + 1)
  }

  /** What is left of a list from its front: a live thread stays, a dead one goes, and the one behind it stays unseen. */
  function Unremoved(threads: seq<Updater>): seq<Updater> {
    if threads == [] then []
    else if threads[0].Alive() then [threads[0]] + Unremoved(threads[1..])
    else if |threads| == 1 then []
    else [threads[1]] + Unremoved(threads[2..])
  }

  /** Removal during the iteration, for lists of any length. */
  lemma {:induction false} RemovalExactly(threads: seq<Updater>, i: nat)
    requires i <= |threads|
    ensures RemoveDead(threads, i) == threads[..i] + Unremoved(threads[i..])
    decreases |threads| - i
  {
    if i < |threads| {
      if threads[i].Alive() {
        RemovalExactly(threads, i + 1);
        assert threads[i..][1..] == threads[i + 1..];
      } else {
        var without := threads[..i] + threads[i + 1..];
        if i < |without| {
          RemovalExactly(without, i + 1);
          assert without[i + 1..] == threads[i..][2..] && without[..i + 1] == threads[..i] + [threads[i..][1]];
        }
      }
    }
  }

  function Requested(threads: seq<Updater>, parts: set<Part>): seq<Updater> {
    if parts == {} then threads
    else
      var remaining := RemoveDead(Flagged(threads, parts), 0);
      if |remaining| > 1 then remaining else remaining + [Updater(parts, Waiting)]
  }

  /** At most two threads are on the list, and at most one of them has the lock. */
  ghost predicate ThreadsOk(threads: seq<Updater>) {
    && |threads| <= 2
    && (forall u | u in threads && u.phase.Running? :: u.phase.position <= 3 && (u.phase.held.Some? ==> u.phase.position < 3))
    && (forall i, j :: 0 <= i < j < |threads| && threads[i].phase.Running? ==> !threads[j].phase.Running?)
  }

  /** A request that comes now finds a waiting thread, or a list that does not hold two live threads. */
  predicate HasRoom(threads: seq<Updater>) {
    |threads| == 2 && threads[0].Alive() && threads[1].Alive() ==> threads[0].phase == Waiting || threads[1].phase == Waiting
  }

  lemma RemoveDeadOfTwo(threads: seq<Updater>)
    requires |threads| <= 2
    ensures var r := RemoveDead(threads, 0);
            && |r| <= |threads| && (forall u | u in r :: u in threads)
            && (forall u | u in threads && u.Alive() :: u in r)
            && (|r| == 2 ==> r == threads && threads[0].Alive() && threads[1].Alive())
            && (|r| == 1 && |threads| == 2 ==> r[0] == threads[0] || r[0] == threads[1])
  {
    if |threads| == 2 {
      var without := threads[..0] + threads[1..];
      assert without == [threads[1]];
      assert RemoveDead(without, 1) == without;
      assert threads[..1] + threads[2..] == [threads[0]];
      assert RemoveDead(threads, 1) == if threads[1].Alive() then threads else [threads[0]];
    } else if |threads| == 1 {
      assert threads[..0] + threads[1..] == [];
    }
  }

  /** A request leaves the list in order, and the threads that were alive as they were, with more flags at most. */
  lemma LiveGoOn(threads: seq<Updater>, parts: set<Part>)
    requires ThreadsOk(threads)
    ensures var after := Requested(threads, parts);
            && ThreadsOk(after)
            && forall u | u in threads && u.Alive() :: exists v :: v in after && v.phase == u.phase && u.flags + parts <= v.flags
  {
    FlaggedIsOk(threads, parts);
    var flagged := Flagged(threads, parts);
    RemoveDeadOfTwo(flagged);
    var after := Requested(threads, parts);
    forall u | u in threads && u.Alive()
      ensures exists v :: v in after && v.phase == u.phase && u.flags + parts <= v.flags
    {
      var i :| 0 <= i < |threads| && threads[i] == u;
      if parts == {} {
        assert u.flags + parts <= u.flags;
      } else {
        assert flagged[i] in flagged;
        assert flagged[i] in after;
      }
    }
  }

  lemma FlaggedIsOk(threads: seq<Updater>, parts: set<Part>)
    requires ThreadsOk(threads)
    ensures HasRoom(threads) <==> HasRoom(Flagged(threads, parts))
    ensures ThreadsOk(Flagged(threads, parts)) && forall u | u in Flagged(threads, parts) :: parts <= u.flags
  {
    var flagged := Flagged(threads, parts);
    assert forall i | 0 <= i < |threads| :: threads[i] in threads && flagged[i].phase == threads[i].phase;
  }

  /** Some thread that has not begun to read is flagged for the parts. */
  predicate Taken(threads: seq<Updater>, parts: set<Part>) {
    exists u :: u in threads && u.phase == Waiting && parts <= u.flags
  }

  lemma RequestIsTaken(threads: seq<Updater>, parts: set<Part>)
    requires ThreadsOk(threads) && HasRoom(threads) && parts != {}
    ensures Taken(Requested(threads, parts), parts)
  {
    FlaggedIsOk(threads, parts);
    var flagged := Flagged(threads, parts);
    RemoveDeadOfTwo(flagged);
    var remaining := RemoveDead(flagged, 0);
    if |remaining| > 1 {
      assert remaining[0] in remaining && remaining[1] in remaining;
      assert remaining[0].phase == Waiting || remaining[1].phase == Waiting;
    } else {
      assert (remaining + [Updater(parts, Waiting)])[|remaining|] == Updater(parts, Waiting);
    }
  }

  /** The thread that has the lock has not come past the part. */
  predicate RunsUpTo(threads: seq<Updater>, p: Part) {
    exists u :: u in threads && u.NotPast(p)
  }

  /** Some thread will still read the part. */
  predicate WillBeRead(threads: seq<Updater>, p: Part) {
    exists u :: u in threads && u.WillRead(p)
  }

  /** Either no two live threads are on the list of which none waits, or the running one has not come past any of the parts. */
  predicate CanAnswer(threads: seq<Updater>, parts: set<Part>) {
    HasRoom(threads) || forall p | p in parts :: RunsUpTo(threads, p)
  }

  /** After a request each of its parts will still be read, if and only if the threads can answer. */
  lemma AnsweredExactly(threads: seq<Updater>, parts: set<Part>)
    requires ThreadsOk(threads) && parts != {}
    ensures (forall p | p in parts :: WillBeRead(Requested(threads, parts), p)) <==> CanAnswer(threads, parts)
  {
    var after := Requested(threads, parts);
    if HasRoom(threads) {
      RequestIsTaken(threads, parts);
      var u :| u in after && u.phase == Waiting && parts <= u.flags;
      assert forall p | p in parts :: u.WillRead(p);
    } else {
      FullList(threads, parts);
      forall p | p in parts
        ensures WillBeRead(after, p) <==> RunsUpTo(threads, p)
      {
        ReadByTheRunning(threads, parts, p);
      }
    }
  }

  /** Two live threads of which none waits just get the flags. */
  lemma FullList(threads: seq<Updater>, parts: set<Part>)
    requires !HasRoom(threads) && parts != {}
    ensures Requested(threads, parts) == Flagged(threads, parts)
  {
    var flagged := Flagged(threads, parts);
    assert flagged[0].Alive() && flagged[1].Alive();
    assert RemoveDead(flagged, 1) == RemoveDead(flagged, 2) == flagged;
  }

  lemma ReadByTheRunning(threads: seq<Updater>, parts: set<Part>, p: Part)
    requires !HasRoom(threads) && p in parts
    ensures WillBeRead(Flagged(threads, parts), p) <==> RunsUpTo(threads, p)
  {
    var flagged := Flagged(threads, parts);
    var first, second := threads[0], threads[1];
    assert flagged == [first.(flags := first.flags + parts), second.(flags := second.flags + parts)];
    assert threads == [first, second];
    assert RunsUpTo(threads, p) <==> first.NotPast(p) || second.NotPast(p);
    assert WillBeRead(flagged, p) <==> flagged[0].WillRead(p) || flagged[1].WillRead(p);
  }

  // ---- the system ----

  datatype World = World(db: Versions, store: map<Part, Versions>, channel: seq<Message>, threads: seq<Updater>)

  datatype Step =
    | Commit(changed: set<string>)
    | Deliver
    | Acquire(i: nat)
    | Check(i: nat)
    | Write(i: nat, read: Versions)
    | WriteFails(i: nat)
    | Raise(i: nat)
    | Finish(i: nat)
    | SignalFails(i: nat)
    | Release(i: nat)
    | Exit(i: nat)

  function PartAt(position: nat): Part
    requires position < 3
  {
    if position == 0 then Routes else if position == 1 then AsSets else RouteSets
  }

  function Bumped(db: Versions, changed: set<string>): Versions {
    db + map c | c in changed :: Version(db, c) + 1
  }

  function WithPhase(threads: seq<Updater>, i: nat, phase: Phase): seq<Updater>
    requires i < |threads|
  {
    threads[i := threads[i].(phase := phase)]
  }

  predicate IsRunning(w: World, i: nat) {
    i < |w.threads| && w.threads[i].phase.Running?
  }

  predicate LockIsFree(w: World) {
    forall u | u in w.threads :: !u.phase.Running?
  }

  /** The rows of a part are read by several queries, each after the flag was checked. */
  ghost predicate ReadBetween(p: Part, before: Versions, read: Versions, now: Versions) {
    forall c | c in Inputs(p) :: Version(before, c) <= Version(read, c) <= Version(now, c)
  }

  ghost predicate Enabled(w: World, s: Step) {
    match s
    case Commit(changed) => changed != {}
    case Deliver => w.channel != []
    case Acquire(i) => i < |w.threads| && w.threads[i].phase == Waiting && LockIsFree(w)
    case Check(i) => IsRunning(w, i) && w.threads[i].phase.held == None && w.threads[i].phase.position < 3
    case Write(i, read) =>
      IsRunning(w, i) && w.threads[i].phase.held.Some? && w.threads[i].phase.position < 3
      && ReadBetween(PartAt(w.threads[i].phase.position), w.threads[i].phase.held.value, read, w.db)
    case WriteFails(i) => IsRunning(w, i) && w.threads[i].phase.held.Some? && w.threads[i].phase.position < 3
    case Raise(i) => IsRunning(w, i)
    case Finish(i) => IsRunning(w, i) && w.threads[i].phase.position == 3
    case SignalFails(i) => IsRunning(w, i) && w.threads[i].phase.position == 3
    case Release(i) => IsRunning(w, i) && w.threads[i].phase.position == 3
    case Exit(i) => i < |w.threads| && w.threads[i].phase == Released
  }

  /** Releasing the lock and ending are one step of `Finish`, and two in `Release` and `Exit`.
      Where a reload of everything is requested by a thread that then ends, the request comes first;
      the ended thread is still on the list. */
  ghost function Next(w: World, s: Step): World
    requires Enabled(w, s)
  {
    match s
    case Commit(changed) =>
      w.(db := Bumped(w.db, changed), channel := w.channel + [SignalReload(Some(changed))])
    case Deliver =>
      w.(channel := w.channel[1..], threads := Requested(w.threads, PartsOf(w.channel[0])))
    case Acquire(i) =>
      w.(threads := WithPhase(w.threads, i, Running(0, None)))
    case Check(i) =>
      var position := w.threads[i].phase.position;
      var after := if PartAt(position) in w.threads[i].flags then Running(position, Some(w.db)) else Running(position + 1, None);
      w.(threads := WithPhase(w.threads, i, after))
    case Write(i, read) =>
      var position := w.threads[i].phase.position;
      w.(store := w.store[PartAt(position) := read], threads := WithPhase(w.threads, i, Running(position + 1, None)))
    case WriteFails(i) =>
      w.(threads := Requested(WithPhase(w.threads, i, Running(w.threads[i].phase.position + 1, None)), ALL_PARTS))
    case Raise(i) => w.(threads := EndedAfterRequest(w.threads, i))
    case Finish(i) => w.(threads := WithPhase(w.threads, i, Dead))
    case SignalFails(i) => w.(threads := EndedAfterRequest(w.threads, i))
    case Release(i) => w.(threads := WithPhase(w.threads, i, Released))
    case Exit(i) => w.(threads := WithPhase(w.threads, i, Dead))
  }

  function Ended(u: Updater): Updater {
    if u.phase.Running? then u.(phase := Dead) else u
  }

  /** The thread that has the lock asks for a reload of everything and then ends. */
  function EndedAfterRequest(threads: seq<Updater>, i: nat): seq<Updater> {
    var after := Requested(threads, ALL_PARTS);
    seq(|after|, k requires 0 <= k < |after| => Ended(after[k]))
  }

  predicate Fails(s: Step) {
    s.WriteFails? || s.Raise? || s.SignalFails?
  }

  /** The step makes no request for a reload, or makes one that the threads can answer. A thread that fails asks
      for a reload of everything, and does not answer itself: it ends, or goes on with its next part. */
  ghost predicate Heard(w: World, s: Step)
    requires Enabled(w, s)
  {
    && (Fails(s) ==> HasRoom(w.threads))
    && (s.Deliver? ==> CanAnswer(w.threads, PartsOf(w.channel[0])))
  }

  ghost predicate Initial(w: World) {
    && w.channel == [] && w.threads == Requested([], ALL_PARTS)
    && forall p, c | p in w.store && c in Inputs(p) :: Version(w.store[p], c) <= Version(w.db, c)
  }

  /** The thread holds, for the part, the rows of the class as they are now. */
  predicate HoldsCurrent(u: Updater, p: Part, c: string, db: Versions) {
    u.phase.Running? && u.phase.held.Some? && u.phase.position == Position(p) && Version(u.phase.held.value, c) == Version(db, c)
  }

  /** The stored part is up to date with the class, or it will be: a request is on its way,
      or some live thread will still read the part or has just read it. */
  ghost predicate Served(w: World, p: Part, c: string) {
    || (p in w.store && Version(w.store[p], c) == Version(w.db, c))
    || (exists m :: m in w.channel && (m == All || c in m.classes))
    || (exists u :: u in w.threads && (u.WillRead(p) || HoldsCurrent(u, p, c, w.db)))
  }

  /** What is stored is not newer than what a running thread holds for the same part, and that not newer than the database. */
  ghost predicate HeldOk(w: World, u: Updater) {
    u.phase.Running? && u.phase.held.Some? && u.phase.position < 3 ==>
      var p := PartAt(u.phase.position);
      forall c | c in Inputs(p) ::
        && Version(u.phase.held.value, c) <= Version(w.db, c)
        && (p in w.store ==> Version(w.store[p], c) <= Version(u.phase.held.value, c))
  }

  ghost predicate Ordered(w: World) {
    && (forall p, c | p in w.store && c in Inputs(p) :: Version(w.store[p], c) <= Version(w.db, c))
    && (forall u | u in w.threads :: HeldOk(w, u))
  }

  ghost predicate Inv(w: World) {
    ThreadsOk(w.threads) && Ordered(w) && forall p, c | c in Inputs(p) :: Served(w, p, c)
  }

  lemma InitialInv(w: World)
    requires Initial(w)
    ensures Inv(w)
  {
    FirstThread();
    assert w.threads == [Updater(ALL_PARTS, Waiting)];
    var u := w.threads[0];
    forall p, c | c in Inputs(p)
      ensures Served(w, p, c)
    {
      assert p in ALL_PARTS;
      assert u in w.threads && u.WillRead(p);
    }
  }

  lemma FirstThread()
    ensures Requested([], ALL_PARTS) == [Updater(ALL_PARTS, Waiting)]
  {
    assert Routes in ALL_PARTS;
    assert Flagged([], ALL_PARTS) == [];
  }

  // ---- every step keeps the invariant ----

  /** A request makes every part it names due, and takes no due part away. */
  lemma RequestServes(w: World, parts: set<Part>, p: Part, c: string)
    requires ThreadsOk(w.threads) && CanAnswer(w.threads, parts)
    requires p in parts || Served(w, p, c)
    ensures Served(w.(threads := Requested(w.threads, parts)), p, c)
  {
    var after := Requested(w.threads, parts);
    if p in parts {
      AnsweredExactly(w.threads, parts);
      assert WillBeRead(after, p);
    } else if u :| u in w.threads && (u.WillRead(p) || HoldsCurrent(u, p, c, w.db)) {
      LiveGoOn(w.threads, parts);
      var v :| v in after && v.phase == u.phase && u.flags + parts <= v.flags;
      assert v.WillRead(p) || HoldsCurrent(v, p, c, w.db);
    }
  }

  lemma CommitServes(w: World, changed: set<string>, p: Part, c: string)
    requires changed != {} && Served(w, p, c)
    ensures Served(Next(w, Commit(changed)), p, c)
  {
    var w' := Next(w, Commit(changed));
    var m := SignalReload(Some(changed));
    if c in changed {
      assert w'.channel[|w.channel|] == m;
      assert m in w'.channel;
    } else {
      assert Version(w'.db, c) == Version(w.db, c);
      if m' :| m' in w.channel && (m' == All || c in m'.classes) {
        assert m' in w'.channel;
      }
      if u :| u in w.threads && (u.WillRead(p) || HoldsCurrent(u, p, c, w.db)) {
        assert u.WillRead(p) || HoldsCurrent(u, p, c, w'.db);
      }
    }
  }

  lemma DeliverServes(w: World, p: Part, c: string)
    requires w.channel != [] && ThreadsOk(w.threads) && Heard(w, Deliver) && c in Inputs(p) && Served(w, p, c)
    ensures Served(Next(w, Deliver), p, c)
  {
    var m := w.channel[0];
    var rest := w.(channel := w.channel[1..]);
    PartsOfMessage(m, p);
    if p !in PartsOf(m) {
      if m' :| m' in w.channel && (m' == All || c in m'.classes) {
        assert m' != m;
        assert m' in rest.channel;
      }
      assert Served(rest, p, c);
    }
    RequestServes(rest, PartsOf(m), p, c);
  }

  /** Only the phase of thread i changes: what is due stays due if thread i still takes care of it. */
  lemma PhaseServes(w: World, w': World, i: nat, p: Part, c: string)
    requires i < |w.threads| == |w'.threads| && w'.db == w.db && w'.channel == w.channel
    requires forall k | 0 <= k < |w.threads| && k != i :: w'.threads[k] == w.threads[k]
    requires Served(w, p, c)
    requires w.threads[i].WillRead(p) || HoldsCurrent(w.threads[i], p, c, w.db) ==>
               || w'.threads[i].WillRead(p) || HoldsCurrent(w'.threads[i], p, c, w.db)
               || (p in w'.store && Version(w'.store[p], c) == Version(w.db, c))
    requires p in w.store ==> p in w'.store
    requires p in w.store && Version(w.store[p], c) == Version(w.db, c) ==> Version(w'.store[p], c) == Version(w.db, c)
    ensures Served(w', p, c)
  {
    if u :| u in w.threads && (u.WillRead(p) || HoldsCurrent(u, p, c, w.db)) {
      var k :| 0 <= k < |w.threads| && w.threads[k] == u;
      assert w'.threads[k] in w'.threads;
    }
  }

  lemma WriteServes(w: World, i: nat, read: Versions, p: Part, c: string)
    requires Enabled(w, Write(i, read)) && Ordered(w) && c in Inputs(p) && Served(w, p, c)
    ensures Served(Next(w, Write(i, read)), p, c)
  {
    assert HeldOk(w, w.threads[i]);
    PhaseServes(w, Next(w, Write(i, read)), i, p, c);
  }

  /** The thread with the lock has nothing more to read, or has asked for a reload of everything. */
  lemma EndServes(w: World, i: nat, p: Part, c: string)
    requires ThreadsOk(w.threads) && HasRoom(w.threads) && IsRunning(w, i)
    ensures Served(w.(threads := EndedAfterRequest(w.threads, i)), p, c)
  {
    RequestIsTaken(w.threads, ALL_PARTS);
    var after := Requested(w.threads, ALL_PARTS);
    var u :| u in after && u.phase == Waiting && ALL_PARTS <= u.flags;
    var k :| 0 <= k < |after| && after[k] == u;
    assert EndedAfterRequest(w.threads, i)[k] == u && u.WillRead(p);
  }

  /** A thread that takes the lock, looks at its flags, or is past its last part leaves nothing due undone. */
  lemma PhaseStepServes(w: World, s: Step, i: nat, p: Part, c: string)
    requires Enabled(w, s) && c in Inputs(p) && Served(w, p, c)
    requires s in {Acquire(i), Check(i), Finish(i), Release(i), Exit(i)}
    ensures Served(Next(w, s), p, c)
  {
    PhaseServes(w, Next(w, s), i, p, c);
  }

  lemma WriteFailsServes(w: World, i: nat, p: Part, c: string)
    requires ThreadsOk(w.threads) && HasRoom(w.threads) && Enabled(w, WriteFails(i))
    ensures Served(Next(w, WriteFails(i)), p, c)
  {
    var phase := Running(w.threads[i].phase.position + 1, None);
    PhaseKeepsThreadsOk(w.threads, i, phase);
    RequestServes(w.(threads := WithPhase(w.threads, i, phase)), ALL_PARTS, p, c);
  }

  lemma StepServes(w: World, s: Step, p: Part, c: string)
    requires Inv(w) && Enabled(w, s) && Heard(w, s) && c in Inputs(p)
    ensures Served(Next(w, s), p, c)
  {
    match s {
      case Commit(changed) => CommitServes(w, changed, p, c);
      case Deliver => DeliverServes(w, p, c);
      case Acquire(i) => PhaseStepServes(w, s, i, p, c);
      case Check(i) => PhaseStepServes(w, s, i, p, c);
      case Write(i, read) => WriteServes(w, i, read, p, c);
      case WriteFails(i) => WriteFailsServes(w, i, p, c);
      case Raise(i) => EndServes(w, i, p, c);
      case Finish(i) => PhaseStepServes(w, s, i, p, c);
      case SignalFails(i) => EndServes(w, i, p, c);
      case Release(i) => PhaseStepServes(w, s, i, p, c);
      case Exit(i) => PhaseStepServes(w, s, i, p, c);
    }
  }

  /** The reload that a failing thread asks for will be done, if and only if no two live threads are on the list
      of which none waits. */
  lemma FailureAnsweredExactly(w: World, s: Step)
    requires ThreadsOk(w.threads) && Enabled(w, s) && Fails(s)
    ensures (forall p :: WillBeRead(Next(w, s).threads, p)) <==> HasRoom(w.threads)
  {
    AllParts();
    if s.WriteFails? {
      WriteFailureAnswered(w, s.i);
    } else if HasRoom(w.threads) {
      RequestIsTaken(w.threads, ALL_PARTS);
      var after := Requested(w.threads, ALL_PARTS);
      var u :| u in after && u.phase == Waiting && ALL_PARTS <= u.flags;
      var k :| 0 <= k < |after| && after[k] == u;
      assert EndedAfterRequest(w.threads, s.i)[k] == u;
      forall p
        ensures WillBeRead(Next(w, s).threads, p)
      {
        assert u.WillRead(p);
      }
    } else {
      FullList(w.threads, ALL_PARTS);
      assert forall v | v in EndedAfterRequest(w.threads, s.i) :: !v.WillRead(Routes);
      assert !WillBeRead(Next(w, s).threads, Routes);
    }
  }

  lemma WriteFailureAnswered(w: World, i: nat)
    requires ThreadsOk(w.threads) && Enabled(w, WriteFails(i))
    ensures (forall p :: WillBeRead(Next(w, WriteFails(i)).threads, p)) <==> HasRoom(w.threads)
  {
    var phase := Running(w.threads[i].phase.position + 1, None);
    var threads := WithPhase(w.threads, i, phase);
    AllParts();
    PhaseKeepsThreadsOk(w.threads, i, phase);
    AnsweredExactly(threads, ALL_PARTS);
    PastRoutes(threads, i);
    assert HasRoom(threads) <==> HasRoom(w.threads);
    assert Routes in ALL_PARTS && CanAnswer(threads, ALL_PARTS) == HasRoom(threads);
    var after := Next(w, WriteFails(i)).threads;
    assert after == Requested(threads, ALL_PARTS);
    assert (forall p | p in ALL_PARTS :: WillBeRead(after, p)) <==> HasRoom(w.threads);
  }

  lemma AllParts()
    ensures forall p: Part :: p in ALL_PARTS
  {
    forall p: Part
      ensures p in ALL_PARTS
    {
      assert p == Routes || p == AsSets || p == RouteSets;
    }
  }

  lemma PastRoutes(threads: seq<Updater>, i: nat)
    requires ThreadsOk(threads) && i < |threads| && threads[i].phase.Running? && threads[i].phase.position > 0
    ensures !RunsUpTo(threads, Routes)
  {
  }

  // ---- at most two threads, one lock, and the order of versions ----

  lemma PhaseKeepsThreadsOk(threads: seq<Updater>, i: nat, phase: Phase)
    requires ThreadsOk(threads) && i < |threads|
    requires phase.Running? ==> phase.position <= 3 && (phase.held.Some? ==> phase.position < 3)
    requires phase.Running? ==> forall k | 0 <= k < |threads| && k != i :: !threads[k].phase.Running?
    ensures ThreadsOk(WithPhase(threads, i, phase))
    ensures HasRoom(threads) && phase != Waiting && threads[i].phase != Waiting && threads[i].Alive()
            ==> HasRoom(WithPhase(threads, i, phase))
  {
  }

  lemma EndKeepsThreadsOk(threads: seq<Updater>, i: nat)
    requires ThreadsOk(threads) && i < |threads|
    ensures ThreadsOk(EndedAfterRequest(threads, i))
  {
    LiveGoOn(threads, ALL_PARTS);
    var after := Requested(threads, ALL_PARTS);
    forall u | u in EndedAfterRequest(threads, i)
      ensures !u.phase.Running?
    {
      var k :| 0 <= k < |after| && u == Ended(after[k]);
      assert after[k] in after;
    }
  }

  lemma StepKeepsThreadsOk(w: World, s: Step)
    requires ThreadsOk(w.threads) && Enabled(w, s)
    ensures ThreadsOk(Next(w, s).threads)
  {
    match s {
      case Commit(changed) =>
      case Deliver => LiveGoOn(w.threads, PartsOf(w.channel[0]));
      case Acquire(i) => PhaseKeepsThreadsOk(w.threads, i, Running(0, None));
      case Check(i) => PhaseKeepsThreadsOk(w.threads, i, Next(w, s).threads[i].phase);
      case Write(i, read) => PhaseKeepsThreadsOk(w.threads, i, Next(w, s).threads[i].phase);
      case WriteFails(i) => {
        PhaseKeepsThreadsOk(w.threads, i, Running(w.threads[i].phase.position + 1, None));
        LiveGoOn(WithPhase(w.threads, i, Running(w.threads[i].phase.position + 1, None)), ALL_PARTS);
      }
      case Raise(i) => EndKeepsThreadsOk(w.threads, i);
      case Finish(i) => PhaseKeepsThreadsOk(w.threads, i, Dead);
      case SignalFails(i) => EndKeepsThreadsOk(w.threads, i);
      case Release(i) => PhaseKeepsThreadsOk(w.threads, i, Released);
      case Exit(i) => PhaseKeepsThreadsOk(w.threads, i, Dead);
    }
  }

  /** Every thread after a request was there before, with the same phase, or waits. */
  lemma RequestPhases(threads: seq<Updater>, parts: set<Part>, v: Updater)
    requires |threads| <= 2 && v in Requested(threads, parts)
    ensures v.phase == Waiting || exists u :: u in threads && u.phase == v.phase
  {
    if parts != {} {
      var flagged := Flagged(threads, parts);
      RemoveDeadOfTwo(flagged);
      if v in flagged {
        var i :| 0 <= i < |flagged| && flagged[i] == v;
        assert threads[i] in threads;
      }
    }
  }

  lemma RequestKeepsOrdered(w: World, parts: set<Part>)
    requires Ordered(w) && |w.threads| <= 2
    ensures Ordered(w.(threads := Requested(w.threads, parts)))
  {
    var w' := w.(threads := Requested(w.threads, parts));
    forall v | v in w'.threads
      ensures HeldOk(w', v)
    {
      RequestPhases(w.threads, parts, v);
      if u :| u in w.threads && u.phase == v.phase {
        assert HeldOk(w, u);
      }
    }
  }

  lemma CommitKeepsOrdered(w: World, changed: set<string>)
    requires Ordered(w) && changed != {}
    ensures Ordered(Next(w, Commit(changed)))
  {
    var w' := Next(w, Commit(changed));
    assert forall c :: Version(w.db, c) <= Version(w'.db, c);
    forall u | u in w'.threads
      ensures HeldOk(w', u)
    {
      assert HeldOk(w, u);
    }
  }

  lemma WriteFailsKeepsOrdered(w: World, i: nat)
    requires Ordered(w) && ThreadsOk(w.threads) && Enabled(w, WriteFails(i))
    ensures Ordered(Next(w, WriteFails(i)))
  {
    var phase := Running(w.threads[i].phase.position + 1, None);
    PhaseKeepsOrdered(w, i, phase);
    RequestKeepsOrdered(w.(threads := WithPhase(w.threads, i, phase)), ALL_PARTS);
  }

  lemma StepKeepsOrdered(w: World, s: Step)
    requires Ordered(w) && ThreadsOk(w.threads) && Enabled(w, s)
    ensures Ordered(Next(w, s))
  {
    var w' := Next(w, s);
    match s {
      case Commit(changed) => CommitKeepsOrdered(w, changed);
      case Deliver => RequestKeepsOrdered(w, PartsOf(w.channel[0]));
      case Write(i, read) => WriteKeepsOrdered(w, i, read);
      case WriteFails(i) => WriteFailsKeepsOrdered(w, i);
      case Raise(i) => EndKeepsOrdered(w, i);
      case SignalFails(i) => EndKeepsOrdered(w, i);
      case Acquire(i) => PhaseKeepsOrdered(w, i, w'.threads[i].phase);
      case Check(i) => PhaseKeepsOrdered(w, i, w'.threads[i].phase);
      case Finish(i) => PhaseKeepsOrdered(w, i, Dead);
      case Release(i) => PhaseKeepsOrdered(w, i, Released);
      case Exit(i) => PhaseKeepsOrdered(w, i, Dead);
    }
  }

  lemma PhaseKeepsOrdered(w: World, i: nat, phase: Phase)
    requires Ordered(w) && i < |w.threads|
    requires phase.Running? && phase.held.Some? ==> phase.held.value == w.db
    ensures Ordered(w.(threads := WithPhase(w.threads, i, phase)))
  {
    var w' := w.(threads := WithPhase(w.threads, i, phase));
    forall u | u in w'.threads
      ensures HeldOk(w', u)
    {
      assert u == w'.threads[i] || (u in w.threads && HeldOk(w, u));
    }
  }

  lemma WriteKeepsOrdered(w: World, i: nat, read: Versions)
    requires Ordered(w) && ThreadsOk(w.threads) && Enabled(w, Write(i, read))
    ensures Ordered(Next(w, Write(i, read)))
  {
    var w' := Next(w, Write(i, read));
    assert HeldOk(w, w.threads[i]);
    forall k | 0 <= k < |w'.threads|
      ensures HeldOk(w', w'.threads[k])
    {
      assert w'.threads[k].phase.Running? ==> k == i;
    }
  }

  lemma EndKeepsOrdered(w: World, i: nat)
    requires Ordered(w) && ThreadsOk(w.threads) && IsRunning(w, i)
    ensures Ordered(w.(threads := EndedAfterRequest(w.threads, i)))
  {
    var w' := w.(threads := EndedAfterRequest(w.threads, i));
    var after := Requested(w.threads, ALL_PARTS);
    forall u | u in w'.threads
      ensures HeldOk(w', u)
    {
      var k :| 0 <= k < |after| && u == Ended(after[k]);
    }
  }

  lemma StepKeepsInv(w: World, s: Step)
    requires Inv(w) && Enabled(w, s) && Heard(w, s)
    ensures Inv(Next(w, s))
  {
    StepKeepsThreadsOk(w, s);
    StepKeepsOrdered(w, s);
    forall p, c | c in Inputs(p)
      ensures Served(Next(w, s), p, c)
    {
      StepServes(w, s, p, c);
    }
  }

  // ---- runs ----

  ghost predicate IsRun(worlds: seq<World>, steps: seq<Step>) {
    && |worlds| == |steps| + 1 && Initial(worlds[0])
    && forall k: nat | k < |steps| :: Enabled(worlds[k], steps[k]) && worlds[k + 1] == Next(worlds[k], steps[k])
  }

  /** No request finds threads that cannot answer. */
  ghost predicate AllHeard(worlds: seq<World>, steps: seq<Step>)
    requires IsRun(worlds, steps)
  {
    forall k: nat | k < |steps| :: Heard(worlds[k], steps[k])
  }

  /** In every run in which all requests are heard, none is lost. */
  lemma {:induction false} RunsKeepInv(worlds: seq<World>, steps: seq<Step>, n: nat)
    requires IsRun(worlds, steps) && AllHeard(worlds, steps) && n <= |steps|
    ensures Inv(worlds[n])
  {
    if n == 0 {
      InitialInv(worlds[0]);
    } else {
      RunsKeepInv(worlds, steps, n - 1);
      StepKeepsInv(worlds[n - 1], steps[n - 1]);
    }
  }

  predicate NoneReleased(threads: seq<Updater>) {
    forall u | u in threads :: u.phase != Released
  }

  lemma StepReleasesNone(w: World, s: Step)
    requires ThreadsOk(w.threads) && NoneReleased(w.threads) && Enabled(w, s) && !s.Release?
    ensures NoneReleased(Next(w, s).threads) && HasRoom(w.threads)
  {
    assert |w.threads| == 2 ==> w.threads[0] in w.threads && w.threads[1] in w.threads;
    forall u | u in Next(w, s).threads
      ensures u.phase != Released
    {
      match s {
        case Deliver => RequestPhases(w.threads, PartsOf(w.channel[0]), u);
        case WriteFails(i) => RequestPhases(WithPhase(w.threads, i, Running(w.threads[i].phase.position + 1, None)), ALL_PARTS, u);
        case Raise(i) => EndPhases(w.threads, i, u);
        case SignalFails(i) => EndPhases(w.threads, i, u);
        case _ =>
      }
    }
  }

  lemma EndPhases(threads: seq<Updater>, i: nat, u: Updater)
    requires |threads| <= 2 && NoneReleased(threads) && u in EndedAfterRequest(threads, i)
    ensures u.phase != Released
  {
    var after := Requested(threads, ALL_PARTS);
    var k :| 0 <= k < |after| && u == Ended(after[k]);
    RequestPhases(threads, ALL_PARTS, after[k]);
  }

  /** When each thread ends as it releases the lock, all requests are heard. */
  lemma {:induction false} AtomicEndsAreHeard(worlds: seq<World>, steps: seq<Step>, n: nat)
    requires IsRun(worlds, steps) && (forall s | s in steps :: !s.Release?) && n <= |steps|
    ensures Inv(worlds[n]) && NoneReleased(worlds[n].threads)
    ensures forall k: nat | k < n :: Heard(worlds[k], steps[k])
  {
    if n == 0 {
      InitialInv(worlds[0]);
      FirstThread();
    } else {
      var w, s := worlds[n - 1], steps[n - 1];
      AtomicEndsAreHeard(worlds, steps, n - 1);
      assert s in steps;
      StepReleasesNone(w, s);
      StepKeepsInv(w, s);
    }
  }

  /** Nothing is on its way and no thread is left. */
  predicate Quiet(w: World) {
    w.channel == [] && forall u | u in w.threads :: !u.Alive()
  }

  ghost predicate UpToDate(w: World) {
    forall p, c | c in Inputs(p) :: p in w.store && Version(w.store[p], c) == Version(w.db, c)
  }

  /** Once quiet, the store holds what is in the database. */
  lemma QuietIsUpToDate(worlds: seq<World>, steps: seq<Step>)
    requires IsRun(worlds, steps) && AllHeard(worlds, steps) && Quiet(worlds[|steps|])
    ensures UpToDate(worlds[|steps|])
  {
    RunsKeepInv(worlds, steps, |steps|);
    var w := worlds[|steps|];
    forall p, c | c in Inputs(p)
      ensures p in w.store && Version(w.store[p], c) == Version(w.db, c)
    {
      assert Served(w, p, c);
    }
  }

  lemma {:induction false} RunsKeepThreadsOk(worlds: seq<World>, steps: seq<Step>, n: nat)
    requires IsRun(worlds, steps) && n <= |steps|
    ensures ThreadsOk(worlds[n].threads)
  {
    if n == 0 {
      FirstThread();
    } else {
      RunsKeepThreadsOk(worlds, steps, n - 1);
      StepKeepsThreadsOk(worlds[n - 1], steps[n - 1]);
    }
  }

  /** In every run at most two threads are on the list, and at most one has the lock. */
  lemma AtMostTwoThreads(worlds: seq<World>, steps: seq<Step>)
    requires IsRun(worlds, steps)
    ensures var threads := worlds[|steps|].threads;
            |threads| <= 2 && forall i, j :: 0 <= i < j < |threads| && threads[i].phase.Running? ==> !threads[j].phase.Running?
  {
    RunsKeepThreadsOk(worlds, steps, |steps|);
  }

  // ---- progress ----

  function StepsLeft(u: Updater): nat {
    match u.phase
    case Waiting => 9
    case Running(position, held) => if position > 3 then 2 else 2 * (3 - position) + (if held == None then 2 else 1)
    case Released => 1
    case Dead => 0
  }

  function TotalLeft(threads: seq<Updater>): nat {
    if threads == [] then 0 else StepsLeft(threads[0]) + TotalLeft(threads[1..])
  }

  function WorkLeft(w: World): nat {
    10 * |w.channel| + TotalLeft(w.threads)
  }

  lemma {:induction false} TotalOfUpdate(threads: seq<Updater>, i: nat, u: Updater)
    requires i < |threads|
    ensures TotalLeft(threads[i := u]) == TotalLeft(threads) - StepsLeft(threads[i]) + StepsLeft(u)
  {
    if i > 0 {
      assert threads[i := u][1..] == threads[1..][i - 1 := u];
      TotalOfUpdate(threads[1..], i - 1, u);
    } else {
      assert threads[0 := u][1..] == threads[1..];
    }
  }

  lemma TotalOfShort(threads: seq<Updater>)
    ensures threads == [] ==> TotalLeft(threads) == 0
    ensures |threads| == 1 ==> TotalLeft(threads) == StepsLeft(threads[0])
    ensures |threads| == 2 ==> TotalLeft(threads) == StepsLeft(threads[0]) + StepsLeft(threads[1])
  {
    if |threads| == 2 {
      assert threads[1..] == [threads[1]];
    }
  }

  lemma FlaggedTotal(threads: seq<Updater>, parts: set<Part>)
    requires |threads| <= 2
    ensures TotalLeft(Flagged(threads, parts)) == TotalLeft(threads)
  {
    TotalOfShort(threads);
    TotalOfShort(Flagged(threads, parts));
  }

  lemma RemoveDeadTotal(threads: seq<Updater>)
    requires |threads| <= 2
    ensures TotalLeft(RemoveDead(threads, 0)) <= TotalLeft(threads)
  {
    RemoveDeadOfTwo(threads);
    TotalOfShort(threads);
    TotalOfShort(RemoveDead(threads, 0));
  }

  lemma {:induction false} TotalOfAppend(threads: seq<Updater>, u: Updater)
    ensures TotalLeft(threads + [u]) == TotalLeft(threads) + StepsLeft(u)
  {
    if threads == [] {
      assert threads + [u] == [u];
    } else {
      assert (threads + [u])[1..] == threads[1..] + [u];
      TotalOfAppend(threads[1..], u);
    }
  }

  lemma RequestAddsOneThread(threads: seq<Updater>, parts: set<Part>)
    requires |threads| <= 2
    ensures TotalLeft(Requested(threads, parts)) <= TotalLeft(threads) + 9
  {
    FlaggedTotal(threads, parts);
    RemoveDeadTotal(Flagged(threads, parts));
    TotalOfAppend(RemoveDead(Flagged(threads, parts), 0), Updater(parts, Waiting));
  }

  /** Without new commits and failures, every step brings the system closer to being quiet. */
  lemma StepsAreFinite(w: World, s: Step)
    requires Inv(w) && Enabled(w, s) && !Fails(s) && !s.Commit?
    ensures WorkLeft(Next(w, s)) < WorkLeft(w)
  {
    match s {
      case Deliver => RequestAddsOneThread(w.threads, PartsOf(w.channel[0]));
      case Acquire(i) => TotalOfUpdate(w.threads, i, Next(w, s).threads[i]);
      case Check(i) => TotalOfUpdate(w.threads, i, Next(w, s).threads[i]);
      case Write(i, read) => TotalOfUpdate(w.threads, i, Next(w, s).threads[i]);
      case Finish(i) => TotalOfUpdate(w.threads, i, Next(w, s).threads[i]);
      case Release(i) => TotalOfUpdate(w.threads, i, Next(w, s).threads[i]);
      case Exit(i) => TotalOfUpdate(w.threads, i, Next(w, s).threads[i]);
    }
  }

  /** The step of a thread that has the lock. */
  lemma RunningCanStep(w: World, i: nat)
    requires Inv(w) && IsRunning(w, i)
    ensures exists s :: Enabled(w, s) && !Fails(s) && !s.Commit? && !s.Deliver?
  {
    var phase := w.threads[i].phase;
    assert w.threads[i] in w.threads;
    if phase.position == 3 {
      assert Enabled(w, Finish(i));
    } else if phase.held == None {
      assert Enabled(w, Check(i));
    } else {
      assert HeldOk(w, w.threads[i]);
      assert Enabled(w, Write(i, phase.held.value));
    }
  }

  /** As long as the system is not quiet, some step can be taken that loses no request:
      requests and threads are never stuck. */
  lemma NeverStuck(w: World)
    requires Inv(w) && !Quiet(w)
    ensures exists s :: Enabled(w, s) && Heard(w, s) && !Fails(s) && !s.Commit?
  {
    if i: nat :| i < |w.threads| && w.threads[i].phase.Running? {
      RunningCanStep(w, i);
    } else if i: nat :| i < |w.threads| && w.threads[i].phase == Released {
      assert Enabled(w, Exit(i));
    } else if i: nat :| i < |w.threads| && w.threads[i].phase == Waiting {
      assert LockIsFree(w);
      assert Enabled(w, Acquire(i));
    } else {
      assert forall k: nat | k < |w.threads| :: w.threads[k].phase == Dead;
      assert Enabled(w, Deliver) && Heard(w, Deliver);
    }
  }

  // ---- a thread that is alive after it released the lock ----

  ghost predicate Reached(w: World) {
    exists worlds, steps :: IsRun(worlds, steps) && worlds[|steps|] == w && forall s | s in steps :: !Fails(s)
  }

  lemma ReachedNext(w: World, s: Step)
    requires Reached(w) && Enabled(w, s) && !Fails(s)
    ensures Reached(Next(w, s))
  {
    var worlds, steps :| IsRun(worlds, steps) && worlds[|steps|] == w && forall s | s in steps :: !Fails(s);
    var worldsThen, stepsThen := worlds + [Next(w, s)], steps + [s];
    assert IsRun(worldsThen, stepsThen);
    assert worldsThen[|stepsThen|] == Next(w, s);
  }

  lemma ReachedRead(w: World, i: nat, p: Part)
    requires Reached(w) && i < |w.threads| && w.threads[i].phase == Running(Position(p), None) && p in w.threads[i].flags
    ensures Reached(w.(store := w.store[p := w.db], threads := WithPhase(w.threads, i, Running(Position(p) + 1, None))))
  {
    ReachedNext(w, Check(i));
    var held := Next(w, Check(i));
    ReachedNext(held, Write(i, w.db));
    assert Next(held, Write(i, w.db)).threads == WithPhase(w.threads, i, Running(Position(p) + 1, None));
  }

  /** The request for a changed route, when two threads are alive or only the first. */
  lemma RouteRequest(threads: seq<Updater>, parts: set<Part>)
    requires 1 <= |threads| <= 2 && parts != {} && forall u | u in threads :: u.Alive()
    ensures Requested(threads, parts) == Flagged(threads, parts) + if |threads| == 2 then [] else [Updater(parts, Waiting)]
  {
    var flagged := Flagged(threads, parts);
    forall k | 0 <= k < |flagged|
      ensures flagged[k].Alive()
    {
      assert threads[k] in threads;
    }
    assert RemoveDead(flagged, |flagged|) == flagged;
    assert |flagged| == 2 ==> RemoveDead(flagged, 1) == flagged;
  }

  const ROUTE_CHANGED: set<string> := {"route"}

  function Idle(db: Versions, threads: seq<Updater>, routes: Versions, asSets: Versions): World {
    World(db, map[Routes := routes, AsSets := asSets, RouteSets := routes], [], threads)
  }

  lemma CommitAndDeliver(w: World, parts: set<Part>)
    requires Reached(w) && w.channel == [] && parts == PartsOf(Changed(ROUTE_CHANGED))
    ensures Reached(w.(db := Bumped(w.db, ROUTE_CHANGED), threads := Requested(w.threads, parts)))
  {
    ReachedNext(w, Commit(ROUTE_CHANGED));
    var committed := Next(w, Commit(ROUTE_CHANGED));
    ReachedNext(committed, Deliver);
    assert Next(committed, Deliver).channel == [];
  }

  lemma FirstThreadReads(first: Updater)
    requires first == Updater(ALL_PARTS, Running(3, None))
    ensures Reached(Idle(map[], [first], map[], map[]))
  {
    ReachedStart();
    var w := World(map[], map[], [], [first.(phase := Running(0, None))]);
    ReachedAll(w, first);
    assert w.store[Routes := w.db][AsSets := w.db][RouteSets := w.db] == map[Routes := map[], AsSets := map[], RouteSets := map[]];
  }

  lemma ReachedStart()
    ensures Reached(World(map[], map[], [], [Updater(ALL_PARTS, Running(0, None))]))
  {
    var start := World(map[], map[], [], Requested([], ALL_PARTS));
    assert start.threads == [Updater(ALL_PARTS, Waiting)];
    var none: seq<Step> := [];
    assert IsRun([start], none) && [start][|none|] == start;
    ReachedNext(start, Acquire(0));
  }

  lemma ReachedAll(w: World, first: Updater)
    requires Reached(w) && first == Updater(ALL_PARTS, Running(3, None)) && w.threads == [first.(phase := Running(0, None))]
    ensures Reached(w.(store := w.store[Routes := w.db][AsSets := w.db][RouteSets := w.db], threads := [first]))
  {
    ReachedRead(w, 0, Routes);
    var w1 := w.(store := w.store[Routes := w.db], threads := WithPhase(w.threads, 0, Running(1, None)));
    ReachedRead(w1, 0, AsSets);
    var w2 := w1.(store := w1.store[AsSets := w.db], threads := WithPhase(w1.threads, 0, Running(2, None)));
    ReachedRead(w2, 0, RouteSets);
    assert WithPhase(w2.threads, 0, Running(3, None)) == [first];
  }

  lemma PartsOfRoute()
    ensures PartsOf(Changed(ROUTE_CHANGED)) == {Routes, RouteSets}
  {
    assert "route" in Inputs(Routes) && "route" in Inputs(RouteSets);
    PartsOfMessage(Changed(ROUTE_CHANGED), Routes);
    PartsOfMessage(Changed(ROUTE_CHANGED), AsSets);
    PartsOfMessage(Changed(ROUTE_CHANGED), RouteSets);
  }

  const ROUTE_PARTS: set<Part> := {Routes, RouteSets}

  /** A request for the changed route with live threads only. */
  lemma RouteChanges(w: World)
    requires Reached(w) && w.channel == [] && 1 <= |w.threads| <= 2
    requires forall u | u in w.threads :: u.Alive() && ROUTE_PARTS <= u.flags
    ensures Reached(w.(db := Bumped(w.db, ROUTE_CHANGED),
                       threads := w.threads + if |w.threads| == 2 then [] else [Updater(ROUTE_PARTS, Waiting)]))
  {
    PartsOfRoute();
    CommitAndDeliver(w, ROUTE_PARTS);
    RouteRequest(w.threads, ROUTE_PARTS);
    forall k | 0 <= k < |w.threads|
      ensures Flagged(w.threads, ROUTE_PARTS)[k] == w.threads[k]
    {
      assert w.threads[k] in w.threads;
      assert w.threads[k].flags + ROUTE_PARTS == w.threads[k].flags;
    }
    assert Flagged(w.threads, ROUTE_PARTS) == w.threads;
  }

  /** The thread leaves out a part it is not flagged for. */
  lemma ReachedSkip(w: World, i: nat, position: nat)
    requires Reached(w) && i < |w.threads| && w.threads[i].phase == Running(position, None) && position < 3
    requires PartAt(position) !in w.threads[i].flags
    ensures Reached(w.(threads := WithPhase(w.threads, i, Running(position + 1, None))))
  {
    ReachedNext(w, Check(i));
  }

  lemma SecondThreadStarts(first: Updater, second: Updater)
    requires first == Updater(ALL_PARTS, Released) && second == Updater(ROUTE_PARTS, Running(0, None))
    ensures Reached(Idle(Bumped(map[], ROUTE_CHANGED), [first, second], map[], map[]))
  {
    var reading, waiting := first.(phase := Running(3, None)), second.(phase := Waiting);
    FirstThreadReads(reading);
    var w := Idle(map[], [reading], map[], map[]);
    RouteChanges(w);
    var w1 := w.(db := Bumped(map[], ROUTE_CHANGED), threads := [reading] + [waiting]);
    HandOver(w1, reading, waiting);
    assert WithPhase(WithPhase(w1.threads, 0, Released), 1, Running(0, None)) == [first, second];
  }

  lemma HandOver(w: World, reading: Updater, waiting: Updater)
    requires Reached(w) && w.threads == [reading, waiting] && reading.phase == Running(3, None) && waiting.phase == Waiting
    ensures Reached(w.(threads := WithPhase(WithPhase(w.threads, 0, Released), 1, Running(0, None))))
  {
    ReachedNext(w, Release(0));
    ReachedNext(Next(w, Release(0)), Acquire(1));
  }

  /** The first thread has released the lock but is still alive; the second has read all it will read. */
  lemma SecondThreadReads(first: Updater, second: Updater, db: Versions)
    requires db == Bumped(map[], ROUTE_CHANGED)
    requires first == Updater(ALL_PARTS, Released) && second == Updater(ROUTE_PARTS, Running(3, None))
    ensures Reached(Idle(db, [first, second], db, map[]))
  {
    SecondThreadStarts(first, second.(phase := Running(0, None)));
    var w := Idle(db, [first, second.(phase := Running(0, None))], map[], map[]);
    RestOfSecond(w, first, second);
    assert w.store[Routes := db][RouteSets := db] == map[Routes := db, AsSets := map[], RouteSets := db];
  }

  lemma RestOfSecond(w: World, first: Updater, second: Updater)
    requires Reached(w) && w.threads == [first, second.(phase := Running(0, None))]
    requires second == Updater(ROUTE_PARTS, Running(3, None))
    ensures Reached(w.(store := w.store[Routes := w.db][RouteSets := w.db], threads := [first, second]))
  {
    SecondReadsRoutes(w, first, second);
    var w2 := w.(store := w.store[Routes := w.db], threads := [first, second.(phase := Running(2, None))]);
    ReachedRead(w2, 1, RouteSets);
    assert WithPhase(w2.threads, 1, Running(3, None)) == [first, second];
  }

  lemma SecondReadsRoutes(w: World, first: Updater, second: Updater)
    requires Reached(w) && w.threads == [first, second.(phase := Running(0, None))] && second.flags == ROUTE_PARTS
    ensures Reached(w.(store := w.store[Routes := w.db], threads := [first, second.(phase := Running(2, None))]))
  {
    ReachedRead(w, 1, Routes);
    var w1 := w.(store := w.store[Routes := w.db], threads := WithPhase(w.threads, 1, Running(1, None)));
    ReachedSkip(w1, 1, 1);
    assert WithPhase(w1.threads, 1, Running(2, None)) == [first, second.(phase := Running(2, None))];
  }

  /** A further change of a route finds two threads alive, and neither will read it. */
  lemma LastRequestIsDropped(first: Updater, second: Updater, db: Versions)
    requires db == Bumped(map[], ROUTE_CHANGED)
    requires first == Updater(ALL_PARTS, Released) && second == Updater(ROUTE_PARTS, Running(3, None))
    ensures Reached(Idle(db, [first, second], db, map[]).(db := Bumped(db, ROUTE_CHANGED)))
  {
    SecondThreadReads(first, second, db);
    var w := Idle(db, [first, second], db, map[]);
    RouteChanges(w);
    assert w.threads + [] == w.threads;
  }

  lemma BothEnd(w: World, first: Updater, second: Updater)
    requires Reached(w) && w.threads == [first, second] && first.phase == Released && second.phase == Running(3, None)
    ensures Reached(w.(threads := WithPhase(WithPhase(w.threads, 1, Dead), 0, Dead)))
  {
    ReachedNext(w, Finish(1));
    ReachedNext(Next(w, Finish(1)), Exit(0));
  }

  lemma StoreIsBehind(w: World, db: Versions)
    requires db == Bumped(map[], ROUTE_CHANGED) && w.db == Bumped(db, ROUTE_CHANGED)
    requires Routes in w.store && w.store[Routes] == db
    ensures !UpToDate(w)
  {
    assert "route" in Inputs(Routes) && Version(w.store[Routes], "route") == 1 && Version(w.db, "route") == 2;
  }

  /** If a thread can be seen alive after it released the lock, a run without any failure ends quiet
      with a route in the database that is not in the store. */
  lemma ReleaseBeforeExitLosesReload()
    ensures exists w :: Reached(w) && Quiet(w) && !UpToDate(w)
  {
    var db := Bumped(map[], ROUTE_CHANGED);
    var first, second := Updater(ALL_PARTS, Released), Updater(ROUTE_PARTS, Running(3, None));
    LastRequestIsDropped(first, second, db);
    var w := Idle(db, [first, second], db, map[]).(db := Bumped(db, ROUTE_CHANGED));
    BothEnd(w, first, second);
    var end := w.(threads := WithPhase(WithPhase(w.threads, 1, Dead), 0, Dead));
    StoreIsBehind(end, db);
    assert Quiet(end);
  }
}
