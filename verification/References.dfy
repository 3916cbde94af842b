/** Strong references between objects, and the validator that checks them against the database,
    the objects of the same submission, and a cache of earlier answers. */
module References {
  import opened Journal

  /** The class lists of all strong reference fields: contacts and maintainers. */
  const CONTACT: seq<string> := ["role", "person"]
  const MAINTAINER: seq<string> := ["mntner"]
  type ClassList = classes: seq<string> | classes == CONTACT || classes == MAINTAINER witness MAINTAINER

  /** One value of a strong reference field, with the object classes it may point to. */
  datatype Reference = Reference(field: string, classes: ClassList, pk: string)

  /** An object: `text` is its text without a last-modified attribute, from which the rest follows. */
  datatype Obj = Obj(key: Key, text: string, refs: seq<Reference>, attrs: set<(string, string)>)
  type Objects = map<Key, Obj>

  /** `inbound` maps a class to the fields, of any class, that strongly refer to it. */
  datatype Env = Env(db: Objects, inbound: map<string, set<string>>,
                     protectedClasses: set<string>, protectedNames: set<Key>)

  /** The schema gives a field the same targets as it gives the targets inbound fields,
      and reference values are attribute values. */
  predicate FitsSchema(env: Env, o: Obj) {
    forall r | r in o.refs ::
      && (r.field, r.pk) in o.attrs
      && forall c | c in r.classes :: c in env.inbound && r.field in env.inbound[c]
  }

  predicate EnvOk(env: Env) {
    forall k | k in env.db :: env.db[k].key == k && FitsSchema(env, env.db[k])
  }

  predicate Satisfied(db: Objects, source: string, r: Reference) {
    exists c :: c in r.classes && Key(r.pk, source, c) in db
  }

  /** Every strong reference within one source points to an existing object. */
  predicate Integrity(db: Objects, source: string) {
    forall k, r | k in db && k.source == source && r in db[k].refs :: Satisfied(db, source, r)
  }

  /** The keys of the submission: created or modified, and deleted. */
  datatype Preloads = Preloads(added: set<Key>, deleted: set<Key>)

  /** A valid request as far as references are concerned. */
  datatype Change = Change(key: Key, deleted: bool)

  function PreloadsFor(cs: seq<Change>): Preloads {
    Preloads(set c | c in cs && !c.deleted :: c.key, set c | c in cs && c.deleted :: c.key)
  }

  datatype Verdict = Present | Absent | AskDatabase

  function Known(cache: set<Key>, p: Preloads, classes: seq<string>, pk: string, source: string): Verdict {
    if classes == [] then AskDatabase
    else
      var k := Key(pk, source, classes[0]);
      if k in cache || k in p.added then Present
      else if k in p.deleted then Absent
      else Known(cache, p, classes[1..], pk, source)
  }

  function Found(db: Objects, classes: seq<string>, pk: string, source: string): set<Key> {
    set c | c in classes && Key(pk, source, c) in db :: Key(pk, source, c)
  }

  function CheckOne(db: Objects, cache: set<Key>, p: Preloads, r: Reference, source: string): (bool, set<Key>) {
    match Known(cache, p, r.classes, r.pk, source)
    case Present => (true, cache)
    case Absent => (false, cache)
    case AskDatabase => (Found(db, r.classes, r.pk, source) != {}, cache + Found(db, r.classes, r.pk, source))
  }

  /** All references are checked, also after a failure, and the cache grows along. */
  function CheckAll(db: Objects, cache: set<Key>, p: Preloads, refs: seq<Reference>, source: string): (bool, set<Key>) {
    if refs == [] then (true, cache)
    else
      var (ok, cache1) := CheckAll(db, cache, p, refs[..|refs| - 1], source);
      var (ok1, cache2) := CheckOne(db, cache1, p, refs[|refs| - 1], source);
      (ok && ok1, cache2)
  }

  /** The objects of the source with the key in one of the fields that may refer to its class. */
  function Referrers(env: Env, k: Key): set<Key> {
    if k.objectClass !in env.inbound then {}
    else set q | q in env.db && q.source == k.source
             && exists f :: f in env.inbound[k.objectClass] && (f, k.rpslPk) in env.db[q].attrs
  }

  // ---- what the cache may hold ----

  /** The class list that a class is on. */
  function Siblings(objectClass: string): seq<string> {
    if objectClass in CONTACT then CONTACT else if objectClass in MAINTAINER then MAINTAINER else []
  }

  /** A class is on one list only. */
  lemma OneList(classes: ClassList, c: string)
    requires c in classes
    ensures Siblings(c) == classes
  {
  }

  /** Neither the object nor one of the same name in another class of its list is being deleted. */
  predicate Apart(k: Key, p: Preloads) {
    k !in p.deleted && forall c | c in Siblings(k.objectClass) :: Key(k.rpslPk, k.source, c) !in p.deleted
  }

  /** The cache only holds objects that exist and are apart from the deletions. */
  predicate CacheOk(db: Objects, cache: set<Key>, p: Preloads) {
    cache <= db.Keys && forall k | k in cache :: Apart(k, p)
  }

  /** Where a reference was found: in the submission, or in the database and not being deleted. */
  predicate Kept(db: Objects, p: Preloads, source: string, r: Reference) {
    exists c :: c in r.classes && Key(r.pk, source, c) in p.added + (db.Keys - p.deleted)
  }

  lemma {:induction false} KnownMeans(cache: set<Key>, p: Preloads, classes: seq<string>, pk: string, source: string)
    ensures Known(cache, p, classes, pk, source) == AskDatabase
        <==> forall c | c in classes :: Key(pk, source, c) !in cache + p.added + p.deleted
    ensures Known(cache, p, classes, pk, source) == Present
        ==> exists c :: c in classes && Key(pk, source, c) in cache + p.added
  {
    if classes != [] {
      assert forall c :: c in classes <==> c == classes[0] || c in classes[1..];
      KnownMeans(cache, p, classes[1..], pk, source);
      assert classes[0] in classes;
    }
  }

  /** How many classes come before the first one under which the submission has the key. */
  function FirstAnnounced(p: Preloads, classes: seq<string>, pk: string, source: string): (i: nat)
    ensures i <= |classes|
  {
    if classes == [] || Key(pk, source, classes[0]) in p.added + p.deleted then 0
    else 1 + FirstAnnounced(p, classes[1..], pk, source)
  }

  lemma {:induction false} BeforeAnnounced(p: Preloads, classes: seq<string>, pk: string, source: string)
    ensures var i := FirstAnnounced(p, classes, pk, source);
            && (forall c | c in classes[..i] :: Key(pk, source, c) !in p.added + p.deleted)
            && (i < |classes| ==> Key(pk, source, classes[i]) in p.added + p.deleted)
  {
    if classes != [] && Key(pk, source, classes[0]) !in p.added + p.deleted {
      var i := FirstAnnounced(p, classes, pk, source);
      BeforeAnnounced(p, classes[1..], pk, source);
      assert classes[..i] == [classes[0]] + classes[1..][..i - 1];
    }
  }

  /** The reference is to an object that is written or stays, and the first of its classes
      under which the submission has the key, if any, is one of a written object. */
  ghost predicate Resolves(db: Objects, p: Preloads, r: Reference, source: string) {
    var i := FirstAnnounced(p, r.classes, r.pk, source);
    Kept(db, p, source, r) && (i == |r.classes| || Key(r.pk, source, r.classes[i]) in p.added)
  }

  /** The order in which cache, new and deleted keys are looked up. */
  lemma {:induction false} KnownExactly(cache: set<Key>, p: Preloads, classes: seq<string>, pk: string, source: string)
    requires cache !! p.deleted
    ensures var i := FirstAnnounced(p, classes, pk, source);
            Known(cache, p, classes, pk, source)
            == if exists c :: c in classes[..i] && Key(pk, source, c) in cache then Present
               else if i == |classes| then AskDatabase
               else if Key(pk, source, classes[i]) in p.added then Present else Absent
  {
    if classes != [] && Key(pk, source, classes[0]) !in p.added + p.deleted {
      var i := FirstAnnounced(p, classes, pk, source);
      KnownExactly(cache, p, classes[1..], pk, source);
      assert classes[..i] == [classes[0]] + classes[1..][..i - 1];
    }
  }

  /** With an empty cache the check decides whether the reference resolves. */
  lemma UncachedExactly(db: Objects, p: Preloads, r: Reference, source: string)
    ensures CheckOne(db, {}, p, r, source).0 <==> Resolves(db, p, r, source)
  {
    var i := FirstAnnounced(p, r.classes, r.pk, source);
    KnownExactly({}, p, r.classes, r.pk, source);
    BeforeAnnounced(p, r.classes, r.pk, source);
    if i == |r.classes| {
      assert r.classes[..i] == r.classes;
      if Kept(db, p, source, r) {
        var c :| c in r.classes && Key(r.pk, source, c) in p.added + (db.Keys - p.deleted);
        assert Key(r.pk, source, c) in Found(db, r.classes, r.pk, source);
      }
    } else if Key(r.pk, source, r.classes[i]) in p.added {
      assert r.classes[i] in r.classes;
    }
  }

  /** A cached object makes the reference resolve. */
  lemma CachedResolves(db: Objects, cache: set<Key>, p: Preloads, r: Reference, source: string, c: string)
    requires CacheOk(db, cache, p) && c in r.classes && Key(r.pk, source, c) in cache
    ensures Resolves(db, p, r, source)
  {
    var i := FirstAnnounced(p, r.classes, r.pk, source);
    OneList(r.classes, c);
    BeforeAnnounced(p, r.classes, r.pk, source);
    assert Apart(Key(r.pk, source, c), p);
    if i < |r.classes| { assert r.classes[i] in Siblings(c); }
  }

  lemma CacheGrows(db: Objects, cache: set<Key>, p: Preloads, r: Reference, source: string)
    requires CacheOk(db, cache, p)
    ensures CacheOk(db, CheckOne(db, cache, p, r, source).1, p)
  {
    KnownMeans(cache, p, r.classes, r.pk, source);
    forall c | c in r.classes && Known(cache, p, r.classes, r.pk, source) == AskDatabase
      ensures Apart(Key(r.pk, source, c), p)
    {
      OneList(r.classes, c);
    }
  }

  /** One check decides whether the reference resolves, whatever the cache holds that checks have left in it. */
  lemma CheckOneExact(db: Objects, cache: set<Key>, p: Preloads, r: Reference, source: string)
    requires CacheOk(db, cache, p)
    ensures var (ok, cache') := CheckOne(db, cache, p, r, source);
            CacheOk(db, cache', p) && (ok <==> Resolves(db, p, r, source))
  {
    CacheGrows(db, cache, p, r, source);
    UncachedExactly(db, p, r, source);
    KnownExactly(cache, p, r.classes, r.pk, source);
    KnownExactly({}, p, r.classes, r.pk, source);
    var i := FirstAnnounced(p, r.classes, r.pk, source);
    if c :| c in r.classes[..i] && Key(r.pk, source, c) in cache {
      CachedResolves(db, cache, p, r, source, c);
    }
  }

  lemma {:induction false} CheckAllExact(db: Objects, cache: set<Key>, p: Preloads, refs: seq<Reference>, source: string)
    requires CacheOk(db, cache, p)
    ensures var (ok, cache') := CheckAll(db, cache, p, refs, source);
            CacheOk(db, cache', p) && (ok <==> forall r | r in refs :: Resolves(db, p, r, source))
  {
    if refs != [] {
      var init, last := refs[..|refs| - 1], refs[|refs| - 1];
      assert refs == init + [last];
      CheckAllExact(db, cache, p, init, source);
      CheckOneExact(db, CheckAll(db, cache, p, init, source).1, p, last, source);
    }
  }

  /** The cache never changes an answer. */
  lemma CacheIsInvisible(db: Objects, cache: set<Key>, p: Preloads, refs: seq<Reference>, source: string)
    requires CacheOk(db, cache, p)
    ensures CheckAll(db, cache, p, refs, source).0 == CheckAll(db, {}, p, refs, source).0
  {
    CheckAllExact(db, cache, p, refs, source);
    CheckAllExact(db, {}, p, refs, source);
  }

  /** Fewer deletions leave the cache as good as it was. */
  lemma CacheOutlivesDeletions(db: Objects, cache: set<Key>, p: Preloads, fewer: Preloads)
    requires CacheOk(db, cache, p) && fewer.deleted <= p.deleted
    ensures CacheOk(db, cache, fewer)
  {
    assert forall k | k in cache :: Apart(k, p);
  }

  /** A contact is refused although it may mean a person that stays: the submission deletes the role of the same name. */
  lemma RefusedThoughKept(db: Objects, cache: set<Key>, pk: string, source: string)
    requires var p := Preloads({}, {Key(pk, source, "role")}); CacheOk(db, cache, p)
    requires Key(pk, source, "person") in db
    ensures var p, r := Preloads({}, {Key(pk, source, "role")}), Reference("admin-c", CONTACT, pk);
            Kept(db, p, source, r) && !CheckOne(db, cache, p, r, source).0
  {
    var p, r := Preloads({}, {Key(pk, source, "role")}), Reference("admin-c", CONTACT, pk);
    CheckOneExact(db, cache, p, r, source);
    assert CONTACT[1] in CONTACT && Key(pk, source, CONTACT[0]) in p.deleted;
  }

  class ReferenceValidator {
    const env: Env
    var cache: set<Key>
    var preloadedNew: set<Key>
    var preloadedDeleted: set<Key>

    constructor (env: Env)
      ensures this.env == env && cache == {} && preloadedNew == {} && preloadedDeleted == {}
    {
      this.env := env;
      cache, preloadedNew, preloadedDeleted := {}, {}, {};
    }

    function Preloaded(): Preloads
      reads this
    {
      Preloads(preloadedNew, preloadedDeleted)
    }

    method Preload(changes: seq<Change>)
      modifies `preloadedNew, `preloadedDeleted
      ensures Preloaded() == PreloadsFor(changes)
    {
      preloadedNew, preloadedDeleted := {}, {};
      for i := 0 to |changes|
        invariant Preloaded() == PreloadsFor(changes[..i])
      {
        assert changes[..i + 1] == changes[..i] + [changes[i]];
        if changes[i].deleted {
          preloadedDeleted := preloadedDeleted + {changes[i].key};
        } else {
          preloadedNew := preloadedNew + {changes[i].key};
        }
      }
      assert changes[..|changes|] == changes;
    }

    method CheckReferenceToOthers(r: Reference, source: string) returns (ok: bool)
      modifies `cache
      ensures (ok, cache) == CheckOne(env.db, old(cache), Preloaded(), r, source)
    {
      for i := 0 to |r.classes|
        invariant cache == old(cache)
        invariant Known(cache, Preloaded(), r.classes, r.pk, source)
               == Known(cache, Preloaded(), r.classes[i..], r.pk, source)
      {
        var k := Key(r.pk, source, r.classes[i]);
        if k in cache { return true; }
        if k in preloadedNew { return true; }
        if k in preloadedDeleted { return false; }
        assert r.classes[i..][1..] == r.classes[i + 1..];
      }
      var results := Found(env.db, r.classes, r.pk, source);
      cache := cache + results;
      ok := results != {};
    }

    method CheckReferencesToOthers(o: Obj) returns (valid: bool)
      modifies `cache
      ensures (valid, cache) == CheckAll(env.db, old(cache), Preloaded(), o.refs, o.key.source)
    {
      valid := true;
      for i := 0 to |o.refs|
        invariant (valid, cache) == CheckAll(env.db, old(cache), Preloaded(), o.refs[..i], o.key.source)
      {
        assert o.refs[..i + 1][..i] == o.refs[..i];
        var ok := CheckReferenceToOthers(o.refs[i], o.key.source);
        valid := valid && ok;
      }
      assert o.refs[..|o.refs|] == o.refs;
    }

    /** Whether each object that refers to this one is itself being deleted. */
    method CheckReferencesFromOthers(k: Key) returns (valid: bool)
      ensures valid <==> Referrers(env, k) <= preloadedDeleted
    {
      valid := true;
      var todo := Referrers(env, k);
      while todo != {}
        invariant todo <= Referrers(env, k)
        invariant valid <==> Referrers(env, k) - todo <= preloadedDeleted
        decreases todo
      {
        var q :| q in todo;
        if q !in preloadedDeleted {
          valid := false;
        }
        todo := todo - {q};
      }
    }
  }
}
