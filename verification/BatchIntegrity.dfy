/** Saving the accepted requests of a submission keeps referential integrity. */
module BatchIntegrity {
  import opened Journal
  import opened References
  import opened Acceptance
  import opened SubmissionHandler

  /** The accepted request at position i. */
  predicate Accepted(rs: seq<Request>, ss: seq<RequestStatus>, i: nat)
    requires |rs| == |ss|
  {
    i < |rs| && IsValidStatus(ss[i])
  }

  predicate AcceptedKey(rs: seq<Request>, ss: seq<RequestStatus>, k: Key, deletion: bool)
    requires |rs| == |ss|
  {
    exists i: nat | i < |rs| :: Accepted(rs, ss, i) && rs[i].obj.key == k && (rs[i].kind == DeleteRequest) == deletion
  }

  /** The accepted request changes the database: it is not a resubmission of what was stored. */
  predicate Effective(current: Objects, rs: seq<Request>, ss: seq<RequestStatus>, i: nat)
    requires |rs| == |ss|
  {
    Accepted(rs, ss, i) && !Resubmits(current, rs[i])
  }

  /** No effective request of the submission comes after this one for the same object. */
  predicate IsLast(current: Objects, rs: seq<Request>, ss: seq<RequestStatus>, i: nat)
    requires |rs| == |ss|
  {
    && Effective(current, rs, ss, i)
    && forall j: nat | i < j < |rs| && Effective(current, rs, ss, j) :: rs[j].obj.key != rs[i].obj.key
  }

  predicate NoneEffective(current: Objects, rs: seq<Request>, ss: seq<RequestStatus>, k: Key)
    requires |rs| == |ss|
  {
    forall j: nat | j < |rs| && Effective(current, rs, ss, j) :: rs[j].obj.key != k
  }

  /** The last effective request for the object deletes it. */
  ghost predicate Gone(current: Objects, rs: seq<Request>, ss: seq<RequestStatus>, k: Key)
    requires |rs| == |ss|
  {
    exists j: nat :: IsLast(current, rs, ss, j) && rs[j].obj.key == k && rs[j].kind == DeleteRequest
  }

  /** The accepted write is what is stored in the end. */
  predicate Lasts(current: Objects, rs: seq<Request>, ss: seq<RequestStatus>, i: nat)
    requires |rs| == |ss|
  {
    && Accepted(rs, ss, i) && rs[i].kind != DeleteRequest
    && (IsLast(current, rs, ss, i) || NoneEffective(current, rs, ss, rs[i].obj.key))
  }

  /** No object that the submission writes or resubmits is gone in the end. */
  ghost predicate WrittenStay(current: Objects, rs: seq<Request>, ss: seq<RequestStatus>)
    requires |rs| == |ss|
  {
    forall i: nat | Accepted(rs, ss, i) && rs[i].kind != DeleteRequest :: !Gone(current, rs, ss, rs[i].obj.key)
  }

  /** Strict mode, and no override used to delete a protected object. */
  ghost predicate Strict(env: Env, rs: seq<Request>, ss: seq<RequestStatus>)
    requires |rs| == |ss|
  {
    forall i: nat | Accepted(rs, ss, i) ::
      && !rs[i].nonStrict && FitsSchema(env, rs[i].obj)
      && !(rs[i].kind == DeleteRequest && rs[i].override && rs[i].obj.key.objectClass in env.protectedClasses)
  }

  lemma LastExists(current: Objects, rs: seq<Request>, ss: seq<RequestStatus>, i: nat) returns (j: nat)
    requires |rs| == |ss| && Effective(current, rs, ss, i)
    ensures i <= j && IsLast(current, rs, ss, j) && rs[j].obj.key == rs[i].obj.key
    decreases |rs| - i
  {
    j := i;
    if !IsLast(current, rs, ss, i) {
      var next: nat :| i < next < |rs| && Effective(current, rs, ss, next) && rs[next].obj.key == rs[i].obj.key;
      j := LastExists(current, rs, ss, next);
    }
  }

  lemma LastOfPrefix(current: Objects, rs: seq<Request>, ss: seq<RequestStatus>, n: nat, j: nat)
    requires |rs| == |ss| && j < n <= |rs| && IsLast(current, rs, ss, j)
    ensures IsLast(current, rs[..n], ss[..n], j)
  {
    forall i: nat | j < i < n && Effective(current, rs[..n], ss[..n], i)
      ensures rs[..n][i].obj.key != rs[..n][j].obj.key
    {
      assert Effective(current, rs, ss, i);
    }
  }

  lemma PrefixWithout(current: Objects, rs: seq<Request>, ss: seq<RequestStatus>, n: nat, k: Key)
    requires |rs| == |ss| && n <= |rs| && NoneEffective(current, rs, ss, k)
    ensures NoneEffective(current, rs[..n], ss[..n], k)
  {
    forall j: nat | j < n && Effective(current, rs[..n], ss[..n], j)
      ensures rs[..n][j].obj.key != k
    {
      assert Effective(current, rs, ss, j);
    }
  }

  lemma {:induction false} SavedByLast(current: Objects, rs: seq<Request>, ss: seq<RequestStatus>, j: nat)
    requires |rs| == |ss| && IsLast(current, rs, ss, j)
    ensures var saved, k := SaveAll(current, rs, ss), rs[j].obj.key;
            if rs[j].kind == DeleteRequest then k !in saved else k in saved && saved[k] == rs[j].obj
    decreases |rs|
  {
    var n: nat := |rs| - 1;
    if j < n {
      LastOfPrefix(current, rs, ss, n, j);
      SavedByLast(current, rs[..n], ss[..n], j);
      assert IsValidStatus(ss[n]) && !Resubmits(current, rs[n]) ==> Effective(current, rs, ss, n);
    }
  }

  lemma {:induction false} SavedUntouched(current: Objects, rs: seq<Request>, ss: seq<RequestStatus>, k: Key)
    requires |rs| == |ss| && NoneEffective(current, rs, ss, k)
    ensures var saved := SaveAll(current, rs, ss); (k in saved <==> k in current) && (k in current ==> saved[k] == current[k])
    decreases |rs|
  {
    if rs != [] {
      var n: nat := |rs| - 1;
      PrefixWithout(current, rs, ss, n, k);
      SavedUntouched(current, rs[..n], ss[..n], k);
      assert IsValidStatus(ss[n]) && !Resubmits(current, rs[n]) ==> Effective(current, rs, ss, n);
    }
  }

  /** What saving leaves under each key is decided by the last effective request for it;
      without one, what was stored stays. */
  lemma SavedAt(current: Objects, rs: seq<Request>, ss: seq<RequestStatus>, k: Key)
    requires |rs| == |ss|
    ensures var saved := SaveAll(current, rs, ss);
            && (forall j: nat | IsLast(current, rs, ss, j) && rs[j].obj.key == k ::
                  if rs[j].kind == DeleteRequest then k !in saved else k in saved && saved[k] == rs[j].obj)
            && (NoneEffective(current, rs, ss, k) ==>
                  (k in saved <==> k in current) && (k in current ==> saved[k] == current[k]))
  {
    var saved := SaveAll(current, rs, ss);
    forall j: nat | IsLast(current, rs, ss, j) && rs[j].obj.key == k
      ensures if rs[j].kind == DeleteRequest then k !in saved else k in saved && saved[k] == rs[j].obj
    {
      SavedByLast(current, rs, ss, j);
    }
    if NoneEffective(current, rs, ss, k) {
      SavedUntouched(current, rs, ss, k);
    }
  }

  /** An accepted write that lasts is what is stored. */
  lemma LastingIsSaved(current: Objects, rs: seq<Request>, ss: seq<RequestStatus>, i: nat)
    requires |rs| == |ss| && Lasts(current, rs, ss, i)
    ensures var saved, k := SaveAll(current, rs, ss), rs[i].obj.key; k in saved && saved[k] == rs[i].obj
  {
    SavedAt(current, rs, ss, rs[i].obj.key);
    assert Effective(current, rs, ss, i) || Resubmits(current, rs[i]);
  }

  /** What is stored was written by a request that lasts, or was there and no request was accepted for it. */
  lemma SavedComesFrom(current: Objects, rs: seq<Request>, ss: seq<RequestStatus>, k: Key)
    requires |rs| == |ss| && k in SaveAll(current, rs, ss)
    ensures var o := SaveAll(current, rs, ss)[k];
            || (exists i: nat :: Lasts(current, rs, ss, i) && rs[i].obj == o && rs[i].obj.key == k)
            || (k in current && o == current[k] && forall i: nat | Accepted(rs, ss, i) :: rs[i].obj.key != k)
  {
    SavedAt(current, rs, ss, k);
    if e: nat :| e < |rs| && Effective(current, rs, ss, e) && rs[e].obj.key == k {
      var j := LastExists(current, rs, ss, e);
      assert Lasts(current, rs, ss, j);
    } else if i: nat :| Accepted(rs, ss, i) && rs[i].obj.key == k {
      assert Effective(current, rs, ss, i) || Resubmits(current, rs[i]);
      assert NoneEffective(current, rs, ss, k) && Lasts(current, rs, ss, i);
    }
  }

  lemma PreloadsAreAccepted(rs: seq<Request>, ss: seq<RequestStatus>, k: Key)
    requires |rs| == |ss|
    ensures k in PreloadsAt(rs, ValidSet(ss)).added <==> AcceptedKey(rs, ss, k, false)
    ensures k in PreloadsAt(rs, ValidSet(ss)).deleted <==> AcceptedKey(rs, ss, k, true)
  {
    forall i: nat
      ensures i in ValidSet(ss) <==> Accepted(rs, ss, i)
    {
      assert i in ValidIndices(ss) <==> i < |ss| && IsValidStatus(ss[i]);
    }
  }

  lemma PassedReferences(env: Env, p: Preloads, preApproved: set<string>, r: Request)
    requires Passed(env, p, preApproved, r) && !r.nonStrict
    ensures r.kind != DeleteRequest ==> forall ref | ref in r.obj.refs :: Kept(env.db, p, r.obj.key.source, ref)
    ensures r.kind == DeleteRequest ==> DeletionOk(env, p, r)
  {
    CheckAllExact(env.db, {}, p, r.obj.refs, r.obj.key.source);
  }

  /** The targets of an untouched object are not deleted: an accepted deletion would have found it as a referrer. */
  lemma TargetIsNotDeleted(env: Env, rs: seq<Request>, ss: seq<RequestStatus>, source: string, k: Key, r: Reference, c: string)
    requires EnvOk(env) && |rs| == |ss| && SelfSupporting(env, rs, ValidSet(ss)) && Strict(env, rs, ss)
    requires k in env.db && k.source == source && r in env.db[k].refs && c in r.classes
    requires forall i: nat | Accepted(rs, ss, i) :: rs[i].obj.key != k
    ensures Key(r.pk, source, c) !in PreloadsAt(rs, ValidSet(ss)).deleted
  {
    var p, target := PreloadsAt(rs, ValidSet(ss)), Key(r.pk, source, c);
    assert FitsSchema(env, env.db[k]);
    assert k in env.db && (c in env.inbound ==> (r.field, r.pk) in env.db[k].attrs);
    PreloadsAreAccepted(rs, ss, target);
    PreloadsAreAccepted(rs, ss, k);
    if target in p.deleted {
      assert k in Referrers(env, target);
      var i: nat :| i < |rs| && Accepted(rs, ss, i) && rs[i].obj.key == target && (rs[i].kind == DeleteRequest) == true;
      assert i in ValidIndices(ss) && i in ValidSet(ss);
      PassedReferences(env, p, PreApprovedAt(rs, ValidSet(ss)), rs[i]);
      assert false;
    }
  }

  /** The reference has a target that is written or kept, and not gone in the end. */
  ghost predicate KeptForGood(env: Env, rs: seq<Request>, ss: seq<RequestStatus>, source: string, r: Reference)
    requires |rs| == |ss|
  {
    var p := PreloadsAt(rs, ValidSet(ss));
    exists c :: c in r.classes && Key(r.pk, source, c) in p.added + (env.db.Keys - p.deleted)
                && !Gone(env.db, rs, ss, Key(r.pk, source, c))
  }

  /** Each reference of an object that is written and lasts has such a target. */
  ghost predicate NoneDangles(env: Env, rs: seq<Request>, ss: seq<RequestStatus>, source: string)
    requires |rs| == |ss|
  {
    forall i: nat, r | Lasts(env.db, rs, ss, i) && rs[i].obj.key.source == source && r in rs[i].obj.refs ::
      KeptForGood(env, rs, ss, source, r)
  }

  lemma LastDecides(current: Objects, rs: seq<Request>, ss: seq<RequestStatus>, j: nat)
    requires |rs| == |ss| && IsLast(current, rs, ss, j)
    ensures Gone(current, rs, ss, rs[j].obj.key) <==> rs[j].kind == DeleteRequest
  {
    if l: nat :| IsLast(current, rs, ss, l) && rs[l].obj.key == rs[j].obj.key && rs[l].kind == DeleteRequest {
      assert Effective(current, rs, ss, l) && Effective(current, rs, ss, j);
      assert l == j;
    }
  }

  /** What is there after saving: what was written or kept, and is not gone. */
  lemma SavedKeys(env: Env, rs: seq<Request>, ss: seq<RequestStatus>, k: Key)
    requires |rs| == |ss|
    ensures var p := PreloadsAt(rs, ValidSet(ss));
            k in SaveAll(env.db, rs, ss) <==> k in p.added + (env.db.Keys - p.deleted) && !Gone(env.db, rs, ss, k)
  {
    PreloadsAreAccepted(rs, ss, k);
    if e: nat :| e < |rs| && Effective(env.db, rs, ss, e) && rs[e].obj.key == k {
      var j := LastExists(env.db, rs, ss, e);
      SavedByLast(env.db, rs, ss, j);
      LastIsAccepted(env.db, rs, ss, j);
      LastDecides(env.db, rs, ss, j);
    } else {
      SavedUntouched(env.db, rs, ss, k);
      OnlyResubmitted(env.db, rs, ss, k);
    }
  }

  lemma LastIsAccepted(current: Objects, rs: seq<Request>, ss: seq<RequestStatus>, j: nat)
    requires |rs| == |ss| && IsLast(current, rs, ss, j)
    ensures AcceptedKey(rs, ss, rs[j].obj.key, rs[j].kind == DeleteRequest)
  {
    assert Accepted(rs, ss, j);
  }

  lemma OnlyResubmitted(current: Objects, rs: seq<Request>, ss: seq<RequestStatus>, k: Key)
    requires |rs| == |ss| && NoneEffective(current, rs, ss, k)
    ensures !AcceptedKey(rs, ss, k, true) && (AcceptedKey(rs, ss, k, false) ==> k in current) && !Gone(current, rs, ss, k)
  {
    forall i: nat | i < |rs| && Accepted(rs, ss, i) && rs[i].obj.key == k
      ensures rs[i].kind != DeleteRequest && k in current
    {
      assert Effective(current, rs, ss, i) || Resubmits(current, rs[i]);
    }
  }

  lemma SatisfiedExactly(env: Env, rs: seq<Request>, ss: seq<RequestStatus>, source: string, r: Reference)
    requires |rs| == |ss|
    ensures Satisfied(SaveAll(env.db, rs, ss), source, r) <==> KeptForGood(env, rs, ss, source, r)
  {
    forall c | c in r.classes {
      SavedKeys(env, rs, ss, Key(r.pk, source, c));
    }
  }

  /** If every strong reference in a source is satisfied before a submission, then after all accepted requests are saved
      that is so if and only if each object written for good refers to objects written or kept for good. */
  lemma IntegrityExactly(env: Env, rs: seq<Request>, ss: seq<RequestStatus>, source: string)
    requires EnvOk(env) && |rs| == |ss| && SelfSupporting(env, rs, ValidSet(ss)) && Strict(env, rs, ss)
    requires Integrity(env.db, source)
    ensures Integrity(SaveAll(env.db, rs, ss), source) <==> NoneDangles(env, rs, ss, source)
  {
    var saved := SaveAll(env.db, rs, ss);
    if NoneDangles(env, rs, ss, source) {
      forall k, r | k in saved && k.source == source && r in saved[k].refs
        ensures Satisfied(saved, source, r)
      {
        SavedIsSatisfied(env, rs, ss, source, k, r);
      }
    }
    if Integrity(saved, source) {
      forall i: nat, r | Lasts(env.db, rs, ss, i) && rs[i].obj.key.source == source && r in rs[i].obj.refs
        ensures KeptForGood(env, rs, ss, source, r)
      {
        LastingIsSaved(env.db, rs, ss, i);
        SatisfiedExactly(env, rs, ss, source, r);
      }
    }
  }

  lemma SavedIsSatisfied(env: Env, rs: seq<Request>, ss: seq<RequestStatus>, source: string, k: Key, r: Reference)
    requires EnvOk(env) && |rs| == |ss| && SelfSupporting(env, rs, ValidSet(ss)) && Strict(env, rs, ss)
    requires Integrity(env.db, source) && NoneDangles(env, rs, ss, source)
    requires var saved := SaveAll(env.db, rs, ss); k in saved && k.source == source && r in saved[k].refs
    ensures Satisfied(SaveAll(env.db, rs, ss), source, r)
  {
    SavedComesFrom(env.db, rs, ss, k);
    SatisfiedExactly(env, rs, ss, source, r);
    var o := SaveAll(env.db, rs, ss)[k];
    if i: nat :| Lasts(env.db, rs, ss, i) && rs[i].obj == o && rs[i].obj.key == k {
      assert KeptForGood(env, rs, ss, source, r);
    } else {
      UntouchedStays(env, rs, ss, source, k, r);
    }
  }

  /** An object without accepted requests keeps a target that no accepted request touches, or only writes. */
  lemma UntouchedStays(env: Env, rs: seq<Request>, ss: seq<RequestStatus>, source: string, k: Key, r: Reference)
    requires EnvOk(env) && |rs| == |ss| && SelfSupporting(env, rs, ValidSet(ss)) && Strict(env, rs, ss)
    requires k in env.db && k.source == source && r in env.db[k].refs && Satisfied(env.db, source, r)
    requires forall i: nat | Accepted(rs, ss, i) :: rs[i].obj.key != k
    ensures KeptForGood(env, rs, ss, source, r)
  {
    var c :| c in r.classes && Key(r.pk, source, c) in env.db;
    var target := Key(r.pk, source, c);
    TargetIsNotDeleted(env, rs, ss, source, k, r, c);
    NotDeletedIsNotGone(env, rs, ss, target);
  }

  lemma NotDeletedIsNotGone(env: Env, rs: seq<Request>, ss: seq<RequestStatus>, k: Key)
    requires |rs| == |ss| && k !in PreloadsAt(rs, ValidSet(ss)).deleted
    ensures !Gone(env.db, rs, ss, k)
  {
    PreloadsAreAccepted(rs, ss, k);
    forall j: nat | IsLast(env.db, rs, ss, j) && rs[j].obj.key == k
      ensures rs[j].kind != DeleteRequest
    {
      LastIsAccepted(env.db, rs, ss, j);
    }
  }

  /** That is so whenever nothing that the submission writes or resubmits is gone in the end. */
  lemma BatchKeepsIntegrity(env: Env, rs: seq<Request>, ss: seq<RequestStatus>, source: string)
    requires EnvOk(env) && |rs| == |ss| && SelfSupporting(env, rs, ValidSet(ss))
    requires WrittenStay(env.db, rs, ss) && Strict(env, rs, ss)
    requires Integrity(env.db, source)
    ensures Integrity(SaveAll(env.db, rs, ss), source)
  {
    forall i: nat, r | Lasts(env.db, rs, ss, i) && rs[i].obj.key.source == source && r in rs[i].obj.refs
      ensures KeptForGood(env, rs, ss, source, r)
    {
      WrittenReferences(env, rs, ss, i, r);
    }
    IntegrityExactly(env, rs, ss, source);
  }

  lemma WrittenReferences(env: Env, rs: seq<Request>, ss: seq<RequestStatus>, i: nat, r: Reference)
    requires |rs| == |ss| && SelfSupporting(env, rs, ValidSet(ss)) && WrittenStay(env.db, rs, ss) && Strict(env, rs, ss)
    requires Accepted(rs, ss, i) && rs[i].kind != DeleteRequest && r in rs[i].obj.refs
    ensures KeptForGood(env, rs, ss, rs[i].obj.key.source, r)
  {
    var p, source := PreloadsAt(rs, ValidSet(ss)), rs[i].obj.key.source;
    assert i in ValidIndices(ss) && i in ValidSet(ss);
    PassedReferences(env, p, PreApprovedAt(rs, ValidSet(ss)), rs[i]);
    var c :| c in r.classes && Key(r.pk, source, c) in p.added + (env.db.Keys - p.deleted);
    var target := Key(r.pk, source, c);
    PreloadsAreAccepted(rs, ss, target);
    if target in p.added {
      var w: nat :| w < |rs| && Accepted(rs, ss, w) && rs[w].obj.key == target && (rs[w].kind == DeleteRequest) == false;
      assert !Gone(env.db, rs, ss, target);
    } else {
      NotDeletedIsNotGone(env, rs, ss, target);
    }
  }

  /** A submission from beginning to end, with validators of its own: it keeps integrity in every source,
      in strict mode and when nothing that it writes or resubmits is gone in the end. */
  method LoadTextBlob(env: Env, requests: seq<ChangeRequest>) returns (db: Objects)
    requires AllDistinct(requests) && forall r | r in requests :: r.status != Saved
    modifies requests
    ensures db == SaveAll(env.db, DataOf(requests), StatusesOf(requests))
    ensures var rs, ss := DataOf(requests), StatusesOf(requests);
            EnvOk(env) && WrittenStay(env.db, rs, ss) && Strict(env, rs, ss) ==>
              forall source | Integrity(env.db, source) :: Integrity(db, source)
  {
    var references := new ReferenceValidator(env);
    var auth := new AuthValidator();
    var handler := new ChangeSubmissionHandler(env);
    handler.HandleChangeRequests(requests, references, auth);
    db := handler.db;
    ghost var rs, ss := DataOf(requests), StatusesOf(requests);
    if EnvOk(env) && WrittenStay(env.db, rs, ss) && Strict(env, rs, ss) {
      forall source | Integrity(env.db, source)
        ensures Integrity(db, source)
      {
        BatchKeepsIntegrity(env, rs, ss, source);
      }
    }
  }

  // ---- one object twice in a submission ----

  const X := Key("X", "TEST", "person")
  const Y := Key("Y", "TEST", "mntner")
  const TO_X := Reference("admin-c", CONTACT, "X")
  const PERSON := Obj(X, "stored", [], {})
  const CHANGED := Obj(X, "changed", [], {})
  const MNTNER := Obj(Y, "maintainer", [TO_X], {("admin-c", "X")})
  const TWICE_ENV := Env(map[X := PERSON], map["role" := {"admin-c"}, "person" := {"admin-c"}], {}, {})
  const ALL_VALID := [Processing, Processing, Processing]

  predicate AlwaysAuthorised(r: Request) {
    r.override && r.cleanOk && r.rulesOk && r.roaOk && r.inScope && !r.nonStrict
  }

  function ModifyX(template: Request, o: Obj): Request {
    template.(obj := o, kind := Modify)
  }

  function DeleteX(template: Request): Request {
    template.(obj := PERSON, kind := DeleteRequest)
  }

  function CreateY(template: Request): Request {
    template.(obj := MNTNER, kind := Create)
  }

  function ModifyThenDelete(template: Request): seq<Request> {
    [ModifyX(template, CHANGED), DeleteX(template), CreateY(template)]
  }

  function DeleteThenResubmit(template: Request): seq<Request> {
    [DeleteX(template), ModifyX(template, PERSON), CreateY(template)]
  }

  lemma AllThreeAreValid()
    ensures ValidSet(ALL_VALID) == {0, 1, 2}
  {
    forall i: nat
      ensures i in ValidSet(ALL_VALID) <==> i < 3
    {
      assert i in ValidIndices(ALL_VALID) <==> i < |ALL_VALID| && IsValidStatus(ALL_VALID[i]);
    }
  }

  /** Each of these requests passes when the others are announced with it. */
  lemma EachPasses(template: Request, preApproved: set<string>)
    requires AlwaysAuthorised(template)
    ensures var p := Preloads({X, Y}, {X});
            && Passed(TWICE_ENV, p, preApproved, ModifyX(template, CHANGED))
            && Passed(TWICE_ENV, p, preApproved, ModifyX(template, PERSON))
            && Passed(TWICE_ENV, p, preApproved, DeleteX(template))
            && Passed(TWICE_ENV, p, preApproved, CreateY(template))
  {
    var env, p := TWICE_ENV, Preloads({X, Y}, {X});
    assert Referrers(env, X) == {} && Referrers(env, Y) == {};
    assert CONTACT[1..] == ["person"];
    assert Known({}, p, TO_X.classes, TO_X.pk, "TEST") == Known({}, p, ["person"], TO_X.pk, "TEST") == Present;
    assert [TO_X][..0] == [];
    assert CheckAll(env.db, {}, p, [TO_X], "TEST") == (true, {});
  }

  lemma TwicePreloads(template: Request)
    ensures PreloadsAt(ModifyThenDelete(template), {0, 1, 2}) == Preloads({X, Y}, {X})
    ensures PreloadsAt(DeleteThenResubmit(template), {0, 1, 2}) == Preloads({X, Y}, {X})
  {
    var rs := ModifyThenDelete(template);
    assert X == rs[0].obj.key == rs[1].obj.key && Y == rs[2].obj.key;
    assert PreloadsAt(rs, {0, 1, 2}).added == {X, Y} && PreloadsAt(rs, {0, 1, 2}).deleted == {X};
    var rs' := DeleteThenResubmit(template);
    assert X == rs'[0].obj.key == rs'[1].obj.key && Y == rs'[2].obj.key;
    assert PreloadsAt(rs', {0, 1, 2}).added == {X, Y} && PreloadsAt(rs', {0, 1, 2}).deleted == {X};
  }

  lemma AllPassing(rs: seq<Request>)
    requires |rs| == 3
    requires forall i: nat | i < 3 :: Passed(TWICE_ENV, PreloadsAt(rs, {0, 1, 2}), PreApprovedAt(rs, {0, 1, 2}), rs[i])
    ensures Stable(TWICE_ENV, rs, ALL_VALID)
  {
    AllThreeAreValid();
  }

  lemma OneOfThemPasses(template: Request, rs: seq<Request>, preApproved: set<string>, i: nat)
    requires AlwaysAuthorised(template) && i < 3
    requires rs in [ModifyThenDelete(template), DeleteThenResubmit(template)]
    ensures Passed(TWICE_ENV, Preloads({X, Y}, {X}), preApproved, rs[i])
  {
    EachPasses(template, preApproved);
    IsOneOfThem(template, rs, i);
  }

  lemma ThreeAreStable(template: Request, rs: seq<Request>)
    requires AlwaysAuthorised(template) && rs in [ModifyThenDelete(template), DeleteThenResubmit(template)]
    ensures Stable(TWICE_ENV, rs, ALL_VALID)
  {
    TwicePreloads(template);
    forall i: nat | i < 3
      ensures Passed(TWICE_ENV, Preloads({X, Y}, {X}), PreApprovedAt(rs, {0, 1, 2}), rs[i])
    {
      OneOfThemPasses(template, rs, PreApprovedAt(rs, {0, 1, 2}), i);
    }
    AllPassing(rs);
  }

  lemma IsOneOfThem(template: Request, rs: seq<Request>, i: nat)
    requires rs in [ModifyThenDelete(template), DeleteThenResubmit(template)] && i < 3
    ensures rs[i] == ModifyX(template, CHANGED) || rs[i] == ModifyX(template, PERSON)
         || rs[i] == DeleteX(template) || rs[i] == CreateY(template)
  {
  }

  lemma ThreeAreStrict(template: Request, rs: seq<Request>)
    requires AlwaysAuthorised(template) && rs in [ModifyThenDelete(template), DeleteThenResubmit(template)]
    ensures EnvOk(TWICE_ENV) && Strict(TWICE_ENV, rs, ALL_VALID)
  {
    forall i: nat | i < 3
      ensures FitsSchema(TWICE_ENV, rs[i].obj) && !rs[i].nonStrict
    {
      IsOneOfThem(template, rs, i);
    }
  }

  lemma ThreeSaved(template: Request, rs: seq<Request>)
    requires rs in [ModifyThenDelete(template), DeleteThenResubmit(template)]
    ensures SaveAll(TWICE_ENV.db, rs, ALL_VALID) == map[Y := MNTNER]
  {
    var ss, db := ALL_VALID, TWICE_ENV.db;
    assert rs[..2][..1] == [rs[0]] && ss[..2][..1] == [ss[0]] && [rs[0]][..0] == [] && [ss[0]][..0] == [];
    assert SaveAll(db, [rs[0]], [ss[0]]) == SaveOne(db, db, rs[0]);
    assert SaveAll(db, rs[..2], ss[..2]) == SaveOne(db, SaveOne(db, db, rs[0]), rs[1]) == map[];
  }

  /** One object twice in a submission breaks integrity. Modified and then deleted: a reference to it is accepted because
      of the modification, and left dangling by the deletion saved after it. Deleted and then submitted again unchanged:
      the reference is accepted because of the second, which writes nothing. */
  lemma DuplicateKeyBreaksIntegrity(template: Request, rs: seq<Request>)
    requires AlwaysAuthorised(template) && rs in [ModifyThenDelete(template), DeleteThenResubmit(template)]
    ensures EnvOk(TWICE_ENV) && Stable(TWICE_ENV, rs, ALL_VALID) && Strict(TWICE_ENV, rs, ALL_VALID)
    ensures Integrity(TWICE_ENV.db, "TEST") && !Integrity(SaveAll(TWICE_ENV.db, rs, ALL_VALID), "TEST")
  {
    ThreeAreStable(template, rs);
    ThreeAreStrict(template, rs);
    ThreeSaved(template, rs);
    var saved: Objects := map[Y := MNTNER];
    assert Y in saved && TO_X in saved[Y].refs;
    assert !Satisfied(saved, "TEST", TO_X);
  }

  /** A modification stays although the stored version is submitted again after it. */
  lemma OldVersionIsDropped(current: Objects, r: Request, stored: Request)
    requires r.kind == Modify == stored.kind && r.obj.key == stored.obj.key && r.obj != stored.obj && Resubmits(current, stored)
    ensures SaveAll(current, [r, stored], [Processing, Processing]) == current[r.obj.key := r.obj]
  {
    var rs, ss: seq<RequestStatus> := [r, stored], [Processing, Processing];
    assert rs[..1] == [r] && ss[..1] == [Processing] && [r][..0] == [] && ss[..1][..0] == [];
    assert SaveAll(current, [r], [Processing]) == SaveOne(current, current, r);
  }
}
