/** Batch acceptance of change requests: validation is repeated until the set of valid requests
    is stable, and then the valid ones are saved. */
module Acceptance {
  import opened Journal
  import opened References

  datatype RequestType = Create | Modify | DeleteRequest

  datatype RequestStatus =
    | Processing | Saved | ErrorParsing | ErrorRules | ErrorAuth | ErrorReference
    | ErrorProtectedName | ErrorRoa | ErrorScopefilter | ErrorAtConstruction

  /** One change request as constructed. `passing` holds the mntners whose internal authentication,
      API key, password or PGP key passes for it; `mntnersRelated` is empty when no related object matters. */
  datatype Request = Request(
    obj: Obj, kind: RequestType, isMntner: bool, nonStrict: bool,
    cleanOk: bool, rulesOk: bool, roaOk: bool, inScope: bool,
    override: bool, passing: set<string>, mntnersNew: seq<string>, mntnersCurrent: seq<string>,
    mntnersRelated: seq<string>, relatedAutnumOk: bool, mntnerSelfOk: bool)

  predicate IsValidStatus(s: RequestStatus) {
    s.Processing? || s.Saved?
  }

  // ---- authentication ----

  predicate CheckMntners(preApproved: set<string>, passing: set<string>, mntners: seq<string>) {
    exists m :: m in mntners && (m in preApproved || m in passing)
  }

  /** Maintainers of the new object, of the current one or else of a related one; new mntners need an override. */
  predicate ProcessAuth(preApproved: set<string>, r: Request) {
    r.override ||
    (&& CheckMntners(preApproved, r.passing, r.mntnersNew)
     && (if r.kind != Create then CheckMntners(preApproved, r.passing, r.mntnersCurrent)
         else r.relatedAutnumOk && (r.mntnersRelated == [] || CheckMntners(preApproved, r.passing, r.mntnersRelated)))
     && (r.isMntner ==> r.kind != Create && r.mntnerSelfOk))
  }

  lemma AuthIsMonotone(preApproved: set<string>, more: set<string>, r: Request)
    requires preApproved <= more && ProcessAuth(preApproved, r)
    ensures ProcessAuth(more, r)
  {
    forall ms: seq<string> | CheckMntners(preApproved, r.passing, ms)
      ensures CheckMntners(more, r.passing, ms)
    {
      var m :| m in ms && (m in preApproved || m in r.passing);
    }
  }

  // ---- one validation ----

  function ChangeOf(r: Request): Change {
    Change(r.obj.key, r.kind == DeleteRequest)
  }

  /** What a set of requests stands for in the reference checks of a pass. */
  function PreloadsAt(rs: seq<Request>, valid: set<nat>): Preloads {
    Preloads(set i | i in valid && i < |rs| && rs[i].kind != DeleteRequest :: rs[i].obj.key,
             set i | i in valid && i < |rs| && rs[i].kind == DeleteRequest :: rs[i].obj.key)
  }

  function PreApprovedAt(rs: seq<Request>, valid: set<nat>): set<string> {
    set i | i in valid && i < |rs| && rs[i].kind == Create && rs[i].isMntner :: rs[i].obj.key.rpslPk
  }

  predicate DeletionOk(env: Env, p: Preloads, r: Request) {
    (r.override && r.obj.key.objectClass in env.protectedClasses) || Referrers(env, r.obj.key) <= p.deleted
  }

  predicate ProtectedNameOk(env: Env, p: Preloads, r: Request) {
    r.kind != Create || r.override || (Referrers(env, r.obj.key) <= p.deleted && r.obj.key !in env.protectedNames)
  }

  function ReferenceCheck(env: Env, cache: set<Key>, p: Preloads, r: Request): (bool, set<Key>) {
    if r.nonStrict then (true, cache)
    else if r.kind == DeleteRequest then (DeletionOk(env, p, r), cache)
    else CheckAll(env.db, cache, p, r.obj.refs, r.obj.key.source)
  }

  /** The status after validating a request that was valid, and the cache it leaves. */
  function Validated(env: Env, cache: set<Key>, p: Preloads, preApproved: set<string>, r: Request): (RequestStatus, set<Key>) {
    if r.kind == Create && !r.cleanOk then (ErrorParsing, cache)
    else if r.kind != DeleteRequest && !r.rulesOk then (ErrorRules, cache)
    else if !ProcessAuth(preApproved, r) then (ErrorAuth, cache)
    else
      var (refsOk, cache') := ReferenceCheck(env, cache, p, r);
      (if !refsOk then ErrorReference
       else if !ProtectedNameOk(env, p, r) then ErrorProtectedName
       else if r.kind != DeleteRequest && !r.roaOk then ErrorRoa
       else if r.kind == Create && !r.inScope then ErrorScopefilter
       else Processing, cache')
  }

  class AuthValidator {
    var preApproved: set<string>

    constructor ()
      ensures preApproved == {}
    {
      preApproved := {};
    }

    method PreApprove(newMntners: seq<string>)
      modifies this
      ensures preApproved == set m | m in newMntners
    {
      preApproved := set m | m in newMntners;
    }
  }

  class ChangeRequest {
    const request: Request
    var status: RequestStatus

    constructor (request: Request, status: RequestStatus)
      ensures this.request == request && this.status == status
    {
      this.request, this.status := request, status;
    }

    predicate IsValid()
      reads this
    {
      IsValidStatus(status)
    }

    method Validate(references: ReferenceValidator, auth: AuthValidator) returns (ok: bool)
      requires status == Processing
      modifies this, references`cache
      ensures (status, references.cache)
           == Validated(references.env, old(references.cache), references.Preloaded(), auth.preApproved, request)
      ensures ok <==> status == Processing
    {
      if request.kind == Create && !request.cleanOk {
        status := ErrorParsing;
        return false;
      }
      if request.kind != DeleteRequest && !request.rulesOk {
        status := ErrorRules;
        return false;
      }
      if !ProcessAuth(auth.preApproved, request) {
        status := ErrorAuth;
        return false;
      }
      var referencesValid := CheckReferences(references);
      var protectedNameValid := CheckProtectedNames(references);
      var rpkiValid := request.kind == DeleteRequest || request.roaOk;
      if !rpkiValid && IsValid() { status := ErrorRoa; }
      var scopefilterValid := request.kind != Create || request.inScope;
      if !scopefilterValid && IsValid() { status := ErrorScopefilter; }
      ok := referencesValid && rpkiValid && scopefilterValid && protectedNameValid;
    }

    method CheckReferences(references: ReferenceValidator) returns (ok: bool)
      requires status == Processing
      modifies `status, references`cache
      ensures (ok, references.cache) == ReferenceCheck(references.env, old(references.cache), references.Preloaded(), request)
      ensures status == if ok then Processing else ErrorReference
    {
      if request.nonStrict { return true; }
      if request.kind == DeleteRequest {
        ok := references.CheckReferencesFromOthers(request.obj.key);
        ok := ok || (request.override && request.obj.key.objectClass in references.env.protectedClasses);
      } else {
        ok := references.CheckReferencesToOthers(request.obj);
      }
      if !ok { status := ErrorReference; }
    }

    method CheckProtectedNames(references: ReferenceValidator) returns (ok: bool)
      modifies `status
      ensures ok <==> ProtectedNameOk(references.env, references.Preloaded(), request)
      ensures status == if !ok && IsValidStatus(old(status)) then ErrorProtectedName else old(status)
    {
      ok := true;
      if request.kind == Create && !request.override {
        var unreferenced := references.CheckReferencesFromOthers(request.obj.key);
        ok := unreferenced && request.obj.key !in references.env.protectedNames;
        if !ok && IsValid() { status := ErrorProtectedName; }
      }
    }
  }

  // ---- the fixpoint loop ----

  predicate PositionsOk(positions: seq<nat>, n: nat) {
    forall a | 0 <= a < |positions| :: positions[a] < n
  }

  /** The positions of the requests that are still valid, in order. */
  function ValidIndices(ss: seq<RequestStatus>): (valid: seq<nat>)
    ensures forall i: nat :: i in valid <==> i < |ss| && IsValidStatus(ss[i])
    ensures forall a, b | 0 <= a < b < |valid| :: valid[a] < valid[b]
    ensures PositionsOk(valid, |ss|)
  {
    if ss == [] then []
    else
      var n := |ss| - 1;
      var rest := ValidIndices(ss[..n]);
      assert forall a | 0 <= a < |rest| :: rest[a] in rest;
      if IsValidStatus(ss[n]) then rest + [n] else rest
  }

  function ValidSet(ss: seq<RequestStatus>): set<nat> {
    set i | i in ValidIndices(ss)
  }

  /** Validating the requests at the given positions, in order. */
  function Pass(env: Env, p: Preloads, preApproved: set<string>, rs: seq<Request>,
                ss: seq<RequestStatus>, cache: set<Key>, positions: seq<nat>): (r: (seq<RequestStatus>, set<Key>))
    requires |rs| == |ss| && PositionsOk(positions, |rs|)
    ensures |r.0| == |ss|
  {
    if positions == [] then (ss, cache)
    else
      var n := |positions| - 1;
      var (ss1, cache1) := Pass(env, p, preApproved, rs, ss, cache, positions[..n]);
      var (s, cache2) := Validated(env, cache1, p, preApproved, rs[positions[n]]);
      (ss1[positions[n] := s], cache2)
  }

  /** The request is accepted by a pass with these preloads. */
  predicate Passed(env: Env, p: Preloads, preApproved: set<string>, r: Request) {
    Validated(env, {}, p, preApproved, r).0 == Processing
  }

  /** The cache of earlier reference checks changes no status. */
  lemma ValidatedIgnoresCache(env: Env, cache: set<Key>, p: Preloads, preApproved: set<string>, r: Request)
    requires CacheOk(env.db, cache, p)
    ensures var (s, cache') := Validated(env, cache, p, preApproved, r);
            CacheOk(env.db, cache', p) && s == Validated(env, {}, p, preApproved, r).0
  {
    CheckAllExact(env.db, cache, p, r.obj.refs, r.obj.key.source);
    CacheIsInvisible(env.db, cache, p, r.obj.refs, r.obj.key.source);
  }

  /** A pass only changes the statuses at its positions; each is what the request gets without any cache. */
  lemma {:induction false} PassIgnoresCache(env: Env, p: Preloads, preApproved: set<string>, rs: seq<Request>,
                                            ss: seq<RequestStatus>, cache: set<Key>, positions: seq<nat>)
    requires |rs| == |ss| && CacheOk(env.db, cache, p)
    requires PositionsOk(positions, |rs|)
    requires forall a, b | 0 <= a < b < |positions| :: positions[a] < positions[b]
    ensures var (ss', cache') := Pass(env, p, preApproved, rs, ss, cache, positions);
            && CacheOk(env.db, cache', p)
            && (forall i | 0 <= i < |ss| && i !in positions :: ss'[i] == ss[i])
            && (forall i | i in positions :: i < |rs| && ss'[i] == Validated(env, {}, p, preApproved, rs[i]).0)
  {
    if positions != [] {
      var n := |positions| - 1;
      assert positions == positions[..n] + [positions[n]];
      PassIgnoresCache(env, p, preApproved, rs, ss, cache, positions[..n]);
      var (ss1, cache1) := Pass(env, p, preApproved, rs, ss, cache, positions[..n]);
      ValidatedIgnoresCache(env, cache1, p, preApproved, rs[positions[n]]);
      assert positions[n] !in positions[..n];
    }
  }

  /** More objects and mntners in the submission, and no deletions: what passed still passes. */
  lemma PassedIsMonotone(env: Env, p: Preloads, more: Preloads, preApproved: set<string>, approvedMore: set<string>, r: Request)
    requires p.added <= more.added && p.deleted == {} && more.deleted == {} && preApproved <= approvedMore
    requires Passed(env, p, preApproved, r)
    ensures Passed(env, more, approvedMore, r)
  {
    AuthIsMonotone(preApproved, approvedMore, r);
    var refs, source := r.obj.refs, r.obj.key.source;
    CheckAllExact(env.db, {}, p, refs, source);
    CheckAllExact(env.db, {}, more, refs, source);
    forall ref | Resolves(env.db, p, ref, source)
      ensures Resolves(env.db, more, ref, source)
    {
      BeforeAnnounced(more, ref.classes, ref.pk, source);
    }
  }

  /** Every request of the set passes when the set itself is what the submission offers. */
  ghost predicate SelfSupporting(env: Env, rs: seq<Request>, s: set<nat>) {
    forall i | i in s :: i < |rs| && Passed(env, PreloadsAt(rs, s), PreApprovedAt(rs, s), rs[i])
  }

  // ---- what is asked of a request, in its own fields and those of the submission it is part of ----

  /** One of the maintainers passes for the request, or is a new one of the submission. */
  ghost predicate Approves(rs: seq<Request>, s: set<nat>, r: Request, mntners: seq<string>) {
    exists m :: m in mntners && (m in r.passing || NewMntner(rs, s, m))
  }

  ghost predicate NewMntner(rs: seq<Request>, s: set<nat>, m: string) {
    exists i :: i in s && i < |rs| && rs[i].kind == Create && rs[i].isMntner && rs[i].obj.key.rpslPk == m
  }

  ghost predicate DeletedIn(rs: seq<Request>, s: set<nat>, k: Key) {
    exists i :: i in s && i < |rs| && rs[i].kind == DeleteRequest && rs[i].obj.key == k
  }

  /** Every stored object of the source that refers to this one is being deleted. */
  ghost predicate NothingElseRefers(env: Env, rs: seq<Request>, s: set<nat>, k: Key) {
    k.objectClass in env.inbound ==>
      forall q, f | q in env.db && q.source == k.source && f in env.inbound[k.objectClass]
                    && (f, k.rpslPk) in env.db[q].attrs :: DeletedIn(rs, s, q)
  }

  ghost predicate MaintainersApprove(rs: seq<Request>, s: set<nat>, r: Request) {
    && Approves(rs, s, r, r.mntnersNew)
    && (r.kind != Create ==> Approves(rs, s, r, r.mntnersCurrent))
    && (r.kind == Create ==> r.relatedAutnumOk && (r.mntnersRelated == [] || Approves(rs, s, r, r.mntnersRelated)))
    && (r.isMntner ==> r.kind != Create && r.mntnerSelfOk)
  }

  ghost predicate ReferencesHold(env: Env, rs: seq<Request>, s: set<nat>, r: Request) {
    if r.kind == DeleteRequest then
      (r.override && r.obj.key.objectClass in env.protectedClasses) || NothingElseRefers(env, rs, s, r.obj.key)
    else
      forall ref | ref in r.obj.refs :: Resolves(env.db, PreloadsAt(rs, s), ref, r.obj.key.source)
  }

  ghost predicate NameIsFree(env: Env, rs: seq<Request>, s: set<nat>, r: Request) {
    r.obj.key !in env.protectedNames && NothingElseRefers(env, rs, s, r.obj.key)
  }

  lemma ReferrersAre(env: Env, rs: seq<Request>, s: set<nat>, k: Key)
    ensures Referrers(env, k) <= PreloadsAt(rs, s).deleted <==> NothingElseRefers(env, rs, s, k)
  {
    assert forall q :: q in PreloadsAt(rs, s).deleted <==> DeletedIn(rs, s, q);
    if Referrers(env, k) <= PreloadsAt(rs, s).deleted && k.objectClass in env.inbound {
      forall q, f | q in env.db && q.source == k.source && f in env.inbound[k.objectClass] && (f, k.rpslPk) in env.db[q].attrs
        ensures DeletedIn(rs, s, q)
      {
        assert q in Referrers(env, k);
      }
    }
  }

  lemma MntnersAre(rs: seq<Request>, s: set<nat>, r: Request)
    ensures ProcessAuth(PreApprovedAt(rs, s), r) <==> r.override || MaintainersApprove(rs, s, r)
  {
    assert forall m :: m in PreApprovedAt(rs, s) <==> NewMntner(rs, s, m);
    forall ms: seq<string>
      ensures CheckMntners(PreApprovedAt(rs, s), r.passing, ms) <==> Approves(rs, s, r, ms)
    {
    }
  }

  lemma ReferencesAre(env: Env, rs: seq<Request>, s: set<nat>, r: Request)
    ensures ReferenceCheck(env, {}, PreloadsAt(rs, s), r).0 <==> r.nonStrict || ReferencesHold(env, rs, s, r)
  {
    CheckAllExact(env.db, {}, PreloadsAt(rs, s), r.obj.refs, r.obj.key.source);
    ReferrersAre(env, rs, s, r.obj.key);
  }

  /** The request is well-formed, follows the rules, is approved by its maintainers or by an override, keeps references
      whole, takes no name that is protected or still in use, does not conflict with a ROA, and is in scope. */
  ghost predicate Qualifies(env: Env, rs: seq<Request>, s: set<nat>, r: Request) {
    && (r.kind == Create ==> r.cleanOk && r.inScope)
    && (r.kind != DeleteRequest ==> r.rulesOk && r.roaOk)
    && (r.override || MaintainersApprove(rs, s, r))
    && (r.nonStrict || ReferencesHold(env, rs, s, r))
    && (r.kind == Create && !r.override ==> NameIsFree(env, rs, s, r))
  }

  /** A request passes as part of a submission if and only if it qualifies. */
  lemma PassesExactly(env: Env, rs: seq<Request>, s: set<nat>, r: Request)
    ensures Passed(env, PreloadsAt(rs, s), PreApprovedAt(rs, s), r) <==> Qualifies(env, rs, s, r)
  {
    MntnersAre(rs, s, r);
    ReferencesAre(env, rs, s, r);
    ReferrersAre(env, rs, s, r.obj.key);
  }

  /** Each error names a check that the request really fails, after all checks before it were passed. */
  lemma ErrorsAreReal(env: Env, rs: seq<Request>, s: set<nat>, r: Request)
    ensures var status := Validated(env, {}, PreloadsAt(rs, s), PreApprovedAt(rs, s), r).0;
            && status in {Processing, ErrorParsing, ErrorRules, ErrorAuth, ErrorReference, ErrorProtectedName,
                          ErrorRoa, ErrorScopefilter}
            && (status == ErrorParsing <==> r.kind == Create && !r.cleanOk)
            && (status == ErrorRules ==> r.kind != DeleteRequest && !r.rulesOk)
            && (status == ErrorAuth ==> !r.override && !MaintainersApprove(rs, s, r))
            && (status == ErrorReference ==> !r.nonStrict && !ReferencesHold(env, rs, s, r))
            && (status == ErrorProtectedName ==> r.kind == Create && !r.override && !NameIsFree(env, rs, s, r))
            && (status == ErrorRoa ==> r.kind != DeleteRequest && !r.roaOk)
            && (status == ErrorScopefilter ==> r.kind == Create && !r.inScope)
            && (status in {ErrorAuth, ErrorReference, ErrorProtectedName, ErrorRoa, ErrorScopefilter}
                ==> r.kind != DeleteRequest ==> r.rulesOk)
            && (status in {ErrorReference, ErrorProtectedName, ErrorRoa, ErrorScopefilter}
                ==> r.override || MaintainersApprove(rs, s, r))
            && (status in {ErrorProtectedName, ErrorRoa, ErrorScopefilter} ==> r.nonStrict || ReferencesHold(env, rs, s, r))
            && (status in {ErrorRoa, ErrorScopefilter} ==> r.kind == Create && !r.override ==> NameIsFree(env, rs, s, r))
            && (status == ErrorScopefilter ==> r.roaOk)
  {
    MntnersAre(rs, s, r);
    ReferencesAre(env, rs, s, r);
    ReferrersAre(env, rs, s, r.obj.key);
  }

  predicate NoDeletions(rs: seq<Request>) {
    forall r | r in rs :: r.kind != DeleteRequest
  }

  /** One pass over the valid requests. */
  function NextStatuses(env: Env, rs: seq<Request>, ss: seq<RequestStatus>, cache: set<Key>): (r: (seq<RequestStatus>, set<Key>))
    requires |rs| == |ss|
    ensures |r.0| == |ss|
  {
    Pass(env, PreloadsAt(rs, ValidSet(ss)), PreApprovedAt(rs, ValidSet(ss)), rs, ss, cache, ValidIndices(ss))
  }

  /** One pass as it would be without a cache and with all validations at once. */
  function UncachedStatuses(env: Env, rs: seq<Request>, ss: seq<RequestStatus>): (next: seq<RequestStatus>)
    requires |rs| == |ss|
    ensures |next| == |ss|
    ensures forall i | 0 <= i < |ss| && IsValidStatus(next[i]) :: IsValidStatus(ss[i])
  {
    var p, preApproved := PreloadsAt(rs, ValidSet(ss)), PreApprovedAt(rs, ValidSet(ss));
    seq(|ss|, i requires 0 <= i < |ss| =>
      if IsValidStatus(ss[i]) then Validated(env, {}, p, preApproved, rs[i]).0 else ss[i])
  }

  /** One pass is its version without a cache, and keeps the cache apart from the deletions that are left. */
  lemma PassIsUncached(env: Env, rs: seq<Request>, ss: seq<RequestStatus>, cache: set<Key>)
    requires |rs| == |ss| && CacheOk(env.db, cache, PreloadsAt(rs, ValidSet(ss)))
    ensures var (ss', cache') := NextStatuses(env, rs, ss, cache);
            ss' == UncachedStatuses(env, rs, ss) && CacheOk(env.db, cache', PreloadsAt(rs, ValidSet(ss)))
  {
    var p, preApproved := PreloadsAt(rs, ValidSet(ss)), PreApprovedAt(rs, ValidSet(ss));
    var ss' := NextStatuses(env, rs, ss, cache).0;
    PassIgnoresCache(env, p, preApproved, rs, ss, cache, ValidIndices(ss));
    forall i: nat | i < |ss|
      ensures ss'[i] == UncachedStatuses(env, rs, ss)[i]
    {
      assert i in ValidIndices(ss) <==> IsValidStatus(ss[i]);
    }
  }

  /** One pass drops requests only, and what stays valid passed. */
  lemma PassShrinks(env: Env, rs: seq<Request>, ss: seq<RequestStatus>, cache: set<Key>)
    requires |rs| == |ss| && CacheOk(env.db, cache, PreloadsAt(rs, ValidSet(ss)))
    ensures var (ss', cache') := NextStatuses(env, rs, ss, cache);
            && ValidSet(ss') <= ValidSet(ss)
            && CacheOk(env.db, cache', PreloadsAt(rs, ValidSet(ss')))
            && (forall i: nat | i in ValidSet(ss') :: ss'[i] == Processing
                  && Passed(env, PreloadsAt(rs, ValidSet(ss)), PreApprovedAt(rs, ValidSet(ss)), rs[i]))
  {
    var valid := ValidSet(ss);
    var (ss', cache') := NextStatuses(env, rs, ss, cache);
    PassIsUncached(env, rs, ss, cache);
    forall i: nat | i in ValidSet(ss')
      ensures i in valid && ss'[i] == Processing && Passed(env, PreloadsAt(rs, valid), PreApprovedAt(rs, valid), rs[i])
    {
      assert i in ValidIndices(ss') && IsValidStatus(ss[i]);
      assert i in ValidIndices(ss);
    }
    CacheOutlivesDeletions(env.db, cache', PreloadsAt(rs, valid), PreloadsAt(rs, ValidSet(ss')));
  }

  lemma PassKeepsSelfSupporting(env: Env, rs: seq<Request>, ss: seq<RequestStatus>, cache: set<Key>, s: set<nat>)
    requires |rs| == |ss| && CacheOk(env.db, cache, PreloadsAt(rs, ValidSet(ss)))
    requires NoDeletions(rs) && SelfSupporting(env, rs, s) && s <= ValidSet(ss)
    ensures s <= ValidSet(NextStatuses(env, rs, ss, cache).0)
  {
    var valid := ValidSet(ss);
    var p, preApproved := PreloadsAt(rs, valid), PreApprovedAt(rs, valid);
    var ss' := NextStatuses(env, rs, ss, cache).0;
    PassIsUncached(env, rs, ss, cache);
    forall i | i in s
      ensures i in ValidSet(ss')
    {
      assert i in ValidIndices(ss);
      assert forall j: nat | j < |rs| :: rs[j] in rs;
      PassedIsMonotone(env, PreloadsAt(rs, s), p, PreApprovedAt(rs, s), preApproved, rs[i]);
      assert i in ValidIndices(ss');
    }
  }
}
