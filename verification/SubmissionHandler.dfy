/** The submission handler: the validity loop over the requests of one submission, and saving the accepted ones. */
module SubmissionHandler {
  import opened Journal
  import opened References
  import opened Acceptance

  function DataOf(requests: seq<ChangeRequest>): (rs: seq<Request>)
    ensures |rs| == |requests| && forall i | 0 <= i < |rs| :: rs[i] == requests[i].request
  {
    seq(|requests|, i requires 0 <= i < |requests| => requests[i].request)
  }

  function StatusesOf(requests: seq<ChangeRequest>): (ss: seq<RequestStatus>)
    reads requests
    ensures |ss| == |requests| && forall i | 0 <= i < |ss| :: ss[i] == requests[i].status
  {
    seq(|requests|, i requires 0 <= i < |requests| reads requests => requests[i].status)
  }

  predicate AllDistinct(requests: seq<ChangeRequest>) {
    forall i, j | 0 <= i < j < |requests| :: requests[i] != requests[j]
  }

  /** Every accepted request passes with exactly the accepted requests as its submission. */
  ghost predicate Stable(env: Env, rs: seq<Request>, ss: seq<RequestStatus>) {
    |rs| == |ss| && SelfSupporting(env, rs, ValidSet(ss)) && forall i | i in ValidSet(ss) :: ss[i] == Processing
  }

  /** The validity loop without any cache: passes until one changes nothing about which requests are valid. */
  function UncachedLoop(env: Env, rs: seq<Request>, ss: seq<RequestStatus>): (final: seq<RequestStatus>)
    requires |rs| == |ss|
    ensures |final| == |ss|
    decreases |ValidIndices(ss)|
  {
    var next := UncachedStatuses(env, rs, ss);
    if ValidIndices(next) == ValidIndices(ss) then next
    else
      Shorter(ss, next);
      UncachedLoop(env, rs, next)
  }

  // ---- saving ----

  /** The request submits the version that was stored when the requests were read. */
  predicate Resubmits(current: Objects, r: Request) {
    r.kind != DeleteRequest && r.obj.key in current && current[r.obj.key] == r.obj
  }

  /** Such a request writes nothing, whatever is stored by now. */
  function SaveOne(current: Objects, db: Objects, r: Request): Objects {
    if r.kind == DeleteRequest then db - {r.obj.key}
    else if Resubmits(current, r) then db
    else db[r.obj.key := r.obj]
  }

  /** The database after saving the valid requests in submission order. */
  function SaveAll(current: Objects, rs: seq<Request>, ss: seq<RequestStatus>): Objects
    requires |rs| == |ss|
  {
    if rs == [] then current
    else
      var n := |rs| - 1;
      var saved := SaveAll(current, rs[..n], ss[..n]);
      if IsValidStatus(ss[n]) then SaveOne(current, saved, rs[n]) else saved
  }

  class ChangeSubmissionHandler {
    const env: Env
    var db: Objects

    constructor (env: Env)
      ensures this.env == env && db == env.db
    {
      this.env, db := env, env.db;
    }

    method ValidateAt(requests: seq<ChangeRequest>, i: nat, references: ReferenceValidator, auth: AuthValidator)
      requires AllDistinct(requests) && i < |requests| && requests[i].status == Processing
      modifies requests[i], references`cache
      ensures var (s, cache) := Validated(references.env, old(references.cache), references.Preloaded(),
                                          auth.preApproved, requests[i].request);
              StatusesOf(requests) == old(StatusesOf(requests))[i := s] && references.cache == cache
    {
      var _ := requests[i].Validate(references, auth);
    }

    method ValidatePass(requests: seq<ChangeRequest>, validChanges: seq<nat>, references: ReferenceValidator, auth: AuthValidator)
      requires AllDistinct(requests) && PositionsOk(validChanges, |requests|)
      requires forall a | 0 <= a < |validChanges| :: StatusesOf(requests)[validChanges[a]] == Processing
      requires forall a, b | 0 <= a < b < |validChanges| :: validChanges[a] < validChanges[b]
      modifies requests, references`cache
      ensures (StatusesOf(requests), references.cache)
           == Pass(references.env, references.Preloaded(), auth.preApproved, DataOf(requests),
                   old(StatusesOf(requests)), old(references.cache), validChanges)
    {
      ghost var rs, before := DataOf(requests), StatusesOf(requests);
      ghost var p, preApproved := references.Preloaded(), auth.preApproved;
      for n := 0 to |validChanges|
        invariant (StatusesOf(requests), references.cache)
               == Pass(references.env, p, preApproved, rs, before, old(references.cache), validChanges[..n])
        invariant forall a | n <= a < |validChanges| :: StatusesOf(requests)[validChanges[a]] == Processing
      {
        PassNext(references.env, p, preApproved, rs, before, old(references.cache), validChanges, n);
        ValidateAt(requests, validChanges[n], references, auth);
      }
      assert validChanges[..|validChanges|] == validChanges;
    }

    method Announce(requests: seq<ChangeRequest>, validChanges: seq<nat>, references: ReferenceValidator, auth: AuthValidator)
      requires PositionsOk(validChanges, |requests|)
      modifies references`preloadedNew, references`preloadedDeleted, auth
      ensures var valid := set i | i in validChanges;
              && references.Preloaded() == PreloadsAt(DataOf(requests), valid)
              && auth.preApproved == PreApprovedAt(DataOf(requests), valid)
    {
      var changes: seq<Change>, mntners: seq<string> := [], [];
      ghost var rs := DataOf(requests);
      for n := 0 to |validChanges|
        invariant PreloadsFor(changes) == PreloadsAt(rs, set i | i in validChanges[..n])
        invariant (set m | m in mntners) == PreApprovedAt(rs, set i | i in validChanges[..n])
      {
        var i := validChanges[n];
        assert i in validChanges && validChanges[..n + 1] == validChanges[..n] + [i];
        var r := requests[i].request;
        PreloadsForAppend(changes, ChangeOf(r));
        AnnounceOne(rs, validChanges[..n], i);
        changes := changes + [ChangeOf(r)];
        if r.kind == Create && r.isMntner {
          ghost var before := mntners;
          mntners := mntners + [r.obj.key.rpslPk];
          assert (set m | m in mntners) == (set m | m in before) + {r.obj.key.rpslPk};
        }
      }
      assert validChanges[..|validChanges|] == validChanges;
      references.Preload(changes);
      auth.PreApprove(mntners);
    }

    method OnePass(requests: seq<ChangeRequest>, validChanges: seq<nat>, references: ReferenceValidator, auth: AuthValidator)
      requires AllDistinct(requests) && references.env == env && validChanges == ValidIndices(StatusesOf(requests))
      requires forall i | i in validChanges :: StatusesOf(requests)[i] == Processing
      modifies requests, references, auth
      ensures (StatusesOf(requests), references.cache)
           == NextStatuses(env, DataOf(requests), old(StatusesOf(requests)), old(references.cache))
    {
      Announce(requests, validChanges, references, auth);
      assert forall a | 0 <= a < |validChanges| :: validChanges[a] in validChanges;
      ValidatePass(requests, validChanges, references, auth);
    }

    /** The validity loop. It makes at most one pass more than there are requests, so its guard never fires;
        it ends as the loop without a cache of reference checks does; what is left supports itself; and
        without deletions nothing self-supporting is lost. */
    method ResolveValidity(requests: seq<ChangeRequest>, references: ReferenceValidator, auth: AuthValidator) returns (passes: nat)
      requires AllDistinct(requests) && references.env == env && references.cache == {}
      requires forall r | r in requests :: r.status != Saved
      modifies requests, references, auth
      ensures passes <= |requests| + 1
      ensures StatusesOf(requests) == UncachedLoop(env, DataOf(requests), old(StatusesOf(requests)))
      ensures ValidSet(StatusesOf(requests)) <= old(ValidSet(StatusesOf(requests)))
      ensures Stable(env, DataOf(requests), StatusesOf(requests))
      ensures KeepsSelfSupporting(env, DataOf(requests), old(StatusesOf(requests)), StatusesOf(requests))
    {
      ghost var rs, before := DataOf(requests), StatusesOf(requests);
      var validChanges := ValidIndices(StatusesOf(requests));
      var previousValidChanges: seq<nat> := [];
      var loopCount := 0;
      var loopMax := |requests| + 10;
      LoopStarts(env, rs, before);
      while validChanges != previousValidChanges
        invariant validChanges == ValidIndices(StatusesOf(requests))
        invariant LoopInv(env, rs, before, StatusesOf(requests), references.cache)
        invariant loopCount + |validChanges| <= |requests| + (if validChanges == previousValidChanges then 1 else 0)
        invariant validChanges == previousValidChanges ==> Stable(env, rs, StatusesOf(requests))
        invariant LoopRest(env, rs, StatusesOf(requests), validChanges == previousValidChanges) == UncachedLoop(env, rs, before)
        decreases |validChanges|, validChanges != previousValidChanges
      {
        LoopStep(env, rs, before, StatusesOf(requests), references.cache);
        RestOfLoop(env, rs, StatusesOf(requests), references.cache);
        previousValidChanges := validChanges;
        OnePass(requests, validChanges, references, auth);
        validChanges := ValidIndices(StatusesOf(requests));
        loopCount := loopCount + 1;
        if loopCount > loopMax {
          assert false;
        }
      }
      passes := loopCount;
    }

    /** The comparison is with the version read when the request was made, before anything was saved. */
    method Write(request: Request)
      modifies this`db
      ensures db == SaveOne(env.db, old(db), request)
    {
      if request.kind == DeleteRequest {
        db := db - {request.obj.key};
      } else if request.obj.key in env.db && env.db[request.obj.key] == request.obj {
        // identical to the current object: no change recorded
      } else {
        db := db[request.obj.key := request.obj];
      }
    }

    /** Saving writes exactly the accepted requests that are not resubmissions, in order. */
    method Save(requests: seq<ChangeRequest>)
      requires AllDistinct(requests)
      requires db == env.db && forall r | r in requests :: r.status != Saved
      modifies requests, this`db
      ensures db == SaveAll(env.db, DataOf(requests), old(StatusesOf(requests)))
      ensures forall i | 0 <= i < |requests| ::
                requests[i].status == if old(requests[i].status) == Processing then Saved else old(requests[i].status)
    {
      ghost var rs, ss := DataOf(requests), StatusesOf(requests);
      for n := 0 to |requests|
        invariant db == SaveAll(env.db, rs[..n], ss[..n])
        invariant forall i | 0 <= i < n :: requests[i].status == if ss[i] == Processing then Saved else ss[i]
        invariant forall i | n <= i < |requests| :: requests[i].status == ss[i]
      {
        assert rs[..n + 1][..n] == rs[..n] && ss[..n + 1][..n] == ss[..n];
        assert requests[n] in requests;
        var r := requests[n];
        if r.IsValid() {
          Write(r.request);
          r.status := Saved;
        }
      }
      assert rs[..|rs|] == rs && ss[..|ss|] == ss;
    }

    /** A whole submission: what passes with exactly the saved requests as its submission is saved, and nothing else. */
    method HandleChangeRequests(requests: seq<ChangeRequest>, references: ReferenceValidator, auth: AuthValidator)
      requires AllDistinct(requests) && references.env == env && references.cache == {}
      requires db == env.db && forall r | r in requests :: r.status != Saved
      modifies requests, references, auth, this`db
      ensures SelfSupporting(env, DataOf(requests), ValidSet(StatusesOf(requests)))
      ensures db == SaveAll(env.db, DataOf(requests), StatusesOf(requests))
      ensures forall r | r in requests :: r.status != Processing
      ensures SavedQualify(env, DataOf(requests), StatusesOf(requests))
    {
      var _ := ResolveValidity(requests, references, auth);
      ghost var rs, ss := DataOf(requests), StatusesOf(requests);
      assert forall i | 0 <= i < |requests| :: requests[i] in requests && ss[i] == requests[i].status;
      NoneSaved(env, rs, ss);
      Save(requests);
      AfterSave(env, rs, ss, StatusesOf(requests));
    }
  }

  /** A set of requests supports itself if and only if each of them qualifies as part of it. */
  lemma SupportMeansQualified(env: Env, rs: seq<Request>, s: set<nat>)
    ensures SelfSupporting(env, rs, s) <==> forall i | i in s :: i < |rs| && Qualifies(env, rs, s, rs[i])
  {
    forall i | i in s && i < |rs|
      ensures Passed(env, PreloadsAt(rs, s), PreApprovedAt(rs, s), rs[i]) <==> Qualifies(env, rs, s, rs[i])
    {
      PassesExactly(env, rs, s, rs[i]);
    }
  }

  /** Each saved request qualifies as part of the saved ones; above all, none that creates an object without an override
      takes a protected name, or one that an object still refers to which is not deleted along with it. */
  ghost predicate SavedQualify(env: Env, rs: seq<Request>, ss: seq<RequestStatus>)
    requires |rs| == |ss|
  {
    forall i: nat | i < |ss| && ss[i] == Saved ::
      && Qualifies(env, rs, ValidSet(ss), rs[i])
      && (rs[i].kind == Create && !rs[i].override ==>
            rs[i].obj.key !in env.protectedNames && NothingElseRefers(env, rs, ValidSet(ss), rs[i].obj.key))
  }

  lemma SupportedQualify(env: Env, rs: seq<Request>, ss: seq<RequestStatus>)
    requires |rs| == |ss| && SelfSupporting(env, rs, ValidSet(ss))
    ensures SavedQualify(env, rs, ss)
  {
    SupportMeansQualified(env, rs, ValidSet(ss));
    forall i: nat | i < |ss| && ss[i] == Saved
      ensures i in ValidSet(ss)
    {
      assert i in ValidIndices(ss);
    }
  }

  lemma NoneSaved(env: Env, rs: seq<Request>, ss: seq<RequestStatus>)
    requires Stable(env, rs, ss)
    ensures forall i | 0 <= i < |ss| :: ss[i] != Saved
  {
    forall i: nat | i < |ss| && IsValidStatus(ss[i])
      ensures ss[i] == Processing
    {
      assert i in ValidIndices(ss);
      assert i in ValidSet(ss);
    }
  }

  /** Marking the valid requests as saved changes neither which they are nor what saving them does. */
  lemma {:induction false} SavedAreTheValid(db: Objects, rs: seq<Request>, ss: seq<RequestStatus>, ss': seq<RequestStatus>)
    requires |rs| == |ss| == |ss'| && forall i | 0 <= i < |ss| :: IsValidStatus(ss[i]) == IsValidStatus(ss'[i])
    ensures ValidSet(ss) == ValidSet(ss') && SaveAll(db, rs, ss) == SaveAll(db, rs, ss')
  {
    if rs != [] {
      var n := |rs| - 1;
      SavedAreTheValid(db, rs[..n], ss[..n], ss'[..n]);
    }
    assert forall i: nat :: i in ValidIndices(ss) <==> i in ValidIndices(ss');
  }

  lemma AfterSave(env: Env, rs: seq<Request>, ss: seq<RequestStatus>, ss': seq<RequestStatus>)
    requires Stable(env, rs, ss) && |ss'| == |ss|
    requires forall i | 0 <= i < |ss| :: ss'[i] == if ss[i] == Processing then Saved else ss[i]
    ensures SelfSupporting(env, rs, ValidSet(ss')) && SaveAll(env.db, rs, ss) == SaveAll(env.db, rs, ss')
    ensures SavedQualify(env, rs, ss') && forall i | 0 <= i < |ss'| :: ss'[i] != Processing
  {
    SavedAreTheValid(env.db, rs, ss, ss');
    SupportedQualify(env, rs, ss');
  }

  /** What the loop still does after a pass. */
  function LoopRest(env: Env, rs: seq<Request>, ss: seq<RequestStatus>, done: bool): seq<RequestStatus>
    requires |rs| == |ss|
  {
    if done then ss else UncachedLoop(env, rs, ss)
  }

  lemma NothingValid(env: Env, rs: seq<Request>, ss: seq<RequestStatus>)
    requires |rs| == |ss| && ValidIndices(ss) == []
    ensures UncachedLoop(env, rs, ss) == ss
  {
    assert forall i: nat | i < |ss| :: IsValidStatus(ss[i]) ==> i in ValidIndices(ss);
    assert UncachedStatuses(env, rs, ss) == ss;
  }

  lemma RestOfLoop(env: Env, rs: seq<Request>, ss: seq<RequestStatus>, cache: set<Key>)
    requires |rs| == |ss| && CacheOk(env.db, cache, PreloadsAt(rs, ValidSet(ss)))
    ensures var ss' := NextStatuses(env, rs, ss, cache).0;
            LoopRest(env, rs, ss', ValidIndices(ss') == ValidIndices(ss)) == UncachedLoop(env, rs, ss)
  {
    PassIsUncached(env, rs, ss, cache);
  }

  /** What holds between the passes of the validity loop. */
  ghost predicate LoopInv(env: Env, rs: seq<Request>, before: seq<RequestStatus>, ss: seq<RequestStatus>, cache: set<Key>) {
    && |rs| == |before| == |ss|
    && (forall i | i in ValidSet(ss) :: ss[i] == Processing)
    && CacheOk(env.db, cache, PreloadsAt(rs, ValidSet(ss)))
    && ValidSet(ss) <= ValidSet(before)
    && KeepsSelfSupporting(env, rs, before, ss)
  }

  /** Without deletions, every self-supporting set of initially valid requests is still valid. */
  ghost predicate KeepsSelfSupporting(env: Env, rs: seq<Request>, before: seq<RequestStatus>, ss: seq<RequestStatus>) {
    NoDeletions(rs) ==> forall s | SelfSupporting(env, rs, s) && s <= ValidSet(before) :: s <= ValidSet(ss)
  }

  lemma LoopStarts(env: Env, rs: seq<Request>, before: seq<RequestStatus>)
    requires |rs| == |before| && forall s | s in before :: s != Saved
    ensures LoopInv(env, rs, before, before, {})
    ensures |ValidIndices(before)| <= |before|
    ensures ValidIndices(before) == [] ==> Stable(env, rs, before) && UncachedLoop(env, rs, before) == before
  {
    if ValidIndices(before) == [] { NothingValid(env, rs, before); }
    IndicesAreFew(before);
    assert forall i: nat | i < |before| :: before[i] in before;
  }

  lemma PassNext(env: Env, p: Preloads, preApproved: set<string>, rs: seq<Request>,
                 ss: seq<RequestStatus>, cache: set<Key>, positions: seq<nat>, n: nat)
    requires |rs| == |ss| && n < |positions| && PositionsOk(positions, |rs|)
    ensures var (ss1, cache1) := Pass(env, p, preApproved, rs, ss, cache, positions[..n]);
            var (s, cache2) := Validated(env, cache1, p, preApproved, rs[positions[n]]);
            Pass(env, p, preApproved, rs, ss, cache, positions[..n + 1]) == (ss1[positions[n] := s], cache2)
  {
    assert positions[..n + 1][..n] == positions[..n];
  }

  lemma LoopStep(env: Env, rs: seq<Request>, before: seq<RequestStatus>, ss: seq<RequestStatus>, cache: set<Key>)
    requires LoopInv(env, rs, before, ss, cache)
    ensures var (ss', cache') := NextStatuses(env, rs, ss, cache);
            && LoopInv(env, rs, before, ss', cache')
            && |ValidIndices(ss')| <= |ValidIndices(ss)|
            && (ValidIndices(ss') == ValidIndices(ss) ==> Stable(env, rs, ss'))
            && (ValidIndices(ss') != ValidIndices(ss) ==> |ValidIndices(ss')| < |ValidIndices(ss)|)
  {
    var ss' := NextStatuses(env, rs, ss, cache).0;
    PassShrinks(env, rs, ss, cache);
    SmallerOrSame(ss, ss');
    if NoDeletions(rs) {
      forall s | SelfSupporting(env, rs, s) && s <= ValidSet(before)
        ensures s <= ValidSet(ss')
      {
        PassKeepsSelfSupporting(env, rs, ss, cache, s);
      }
    }
    if ValidIndices(ss') == ValidIndices(ss) {
      assert ValidSet(ss') == ValidSet(ss);
    }
  }

  lemma PreloadsForAppend(cs: seq<Change>, c: Change)
    ensures PreloadsFor(cs + [c]) == var p := PreloadsFor(cs);
              if c.deleted then p.(deleted := p.deleted + {c.key}) else p.(added := p.added + {c.key})
  {
    assert forall x :: x in cs + [c] <==> x in cs || x == c;
  }

  lemma AnnounceOne(rs: seq<Request>, valid: seq<nat>, i: nat)
    requires i < |rs|
    ensures PreloadsAt(rs, set j | j in valid + [i]) == var p := PreloadsAt(rs, set j | j in valid);
              if rs[i].kind == DeleteRequest then p.(deleted := p.deleted + {rs[i].obj.key})
              else p.(added := p.added + {rs[i].obj.key})
    ensures PreApprovedAt(rs, set j | j in valid + [i])
         == PreApprovedAt(rs, set j | j in valid)
          + (if rs[i].kind == Create && rs[i].isMntner then {rs[i].obj.key.rpslPk} else {})
  {
    assert (set j | j in valid + [i]) == (set j | j in valid) + {i};
  }

  lemma {:induction false} IndicesAreFew(ss: seq<RequestStatus>)
    ensures |ValidIndices(ss)| <= |ss|
  {
    if ss != [] {
      IndicesAreFew(ss[..|ss| - 1]);
    }
  }

  /** A set of valid requests that did not grow is either the same list or a shorter one. */
  lemma SmallerOrSame(ss: seq<RequestStatus>, ss': seq<RequestStatus>)
    requires |ss| == |ss'| && ValidSet(ss') <= ValidSet(ss)
    ensures |ValidIndices(ss')| <= |ValidIndices(ss)|
    ensures ValidIndices(ss') == ValidIndices(ss) || |ValidIndices(ss')| < |ValidIndices(ss)|
  {
    forall i: nat | i < |ss| && IsValidStatus(ss'[i])
      ensures IsValidStatus(ss[i])
    {
      assert i in ValidIndices(ss');
      assert i in ValidSet(ss');
    }
    Shorter(ss, ss');
  }

  lemma {:induction false} Shorter(ss: seq<RequestStatus>, ss': seq<RequestStatus>)
    requires |ss| == |ss'| && forall i | 0 <= i < |ss| && IsValidStatus(ss'[i]) :: IsValidStatus(ss[i])
    ensures |ValidIndices(ss')| <= |ValidIndices(ss)|
    ensures ValidIndices(ss') == ValidIndices(ss) || |ValidIndices(ss')| < |ValidIndices(ss)|
  {
    if ss != [] {
      var n := |ss| - 1;
      Shorter(ss[..n], ss'[..n]);
    }
  }
}
