/** Recursive resolving of as-sets and route-sets over a membership graph that may have cycles. */
module SetResolver {
  import opened Store
  import opened Text

  datatype ObjectClass = AsSet | RouteSet

  datatype SetMembers = SetMembers(members: seq<string>, objectClass: ObjectClass)

  /** Per source, the joined text that is stored for each name. */
  type Contents = map<string, map<string, string>>

  function At(store: Contents, source: string, key: string): Option<string> {
    if source in store && key in store[source] then Some(store[source][key]) else None
  }

  /** How names are read: the address parser and the AS number parser. */
  datatype Syntax = Syntax(isPrefix: string -> bool, asNumber: string -> Option<string>,
                           isIpv6: string -> bool)

  datatype Family = Ipv4 | Ipv6

  /** One of the sources has the item in what it stores for the name. */
  ghost predicate StoredIn(store: Contents, name: string, sources: seq<string>, item: string) {
    exists s :: s in sources && s in store && name in store[s] && item in Split(store[s][name], ',')
  }

  datatype Stores = Stores(asSets: Contents, routeSets: Contents, routes4: Contents, routes6: Contents) {
    /** The first of the sources that has the set, looking through the as-sets before the route-sets. */
    ghost function Lookup(setPk: string, sources: seq<string>, classes: set<ObjectClass>): Option<SetMembers> {
      var fromAsSets := if AsSet in classes then FirstIn(asSets, setPk, sources) else None;
      var fromRouteSets := if RouteSet in classes then FirstIn(routeSets, setPk, sources) else None;
      if fromAsSets.Some? then Some(SetMembers(Split(fromAsSets.value, ','), AsSet))
      else if fromRouteSets.Some? then Some(SetMembers(Split(fromRouteSets.value, ','), RouteSet))
      else None
    }

    /** Some source has the prefix for the origin, in one family or in either. */
    ghost predicate OriginatesIn(origin: string, sources: seq<string>, only: Option<Family>, prefix: string) {
      exists s :: s in sources
                  && (|| (only != Some(Ipv6) && At(routes4, s, origin).Some? && prefix in Split(At(routes4, s, origin).value, ','))
                      || (only != Some(Ipv4) && At(routes6, s, origin).Some? && prefix in Split(At(routes6, s, origin).value, ',')))
    }

    ghost predicate Originates(origin: string, sources: seq<string>, prefix: string) {
      OriginatesIn(origin, sources, None, prefix)
    }
  }

  /** A query for one family reads the routes of that family; without a family it reads both. */
  lemma FamiliesApart(stores: Stores, origin: string, sources: seq<string>)
    ensures forall p :: stores.OriginatesIn(origin, sources, Some(Ipv4), p) <==> StoredIn(stores.routes4, origin, sources, p)
    ensures forall p :: stores.OriginatesIn(origin, sources, Some(Ipv6), p) <==> StoredIn(stores.routes6, origin, sources, p)
    ensures forall p :: stores.OriginatesIn(origin, sources, None, p)
              <==> StoredIn(stores.routes4, origin, sources, p) || StoredIn(stores.routes6, origin, sources, p)
  {
  }

  ghost function FirstIn(store: Contents, key: string, sources: seq<string>): Option<string> {
    if sources == [] then None
    else if At(store, sources[0], key).Some? then At(store, sources[0], key)
    else FirstIn(store, key, sources[1..])
  }

  ghost function Names(store: Contents): set<string> {
    set s, k, m | s in store && k in store[s] && m in Split(store[s][k], ',') :: m
  }

  lemma {:induction false} FirstIsStored(store: Contents, key: string, sources: seq<string>)
    requires FirstIn(store, key, sources).Some?
    ensures forall m | m in Split(FirstIn(store, key, sources).value, ',') :: m in Names(store)
  {
    if At(store, sources[0], key).None? {
      FirstIsStored(store, key, sources[1..]);
    } else {
      assert store[sources[0]][key] == FirstIn(store, key, sources).value;
    }
  }

  class Preloader {
    const stores: Stores

    constructor (stores: Stores)
      ensures this.stores == stores
    {
      this.stores := stores;
    }

    method FirstSourceWith(store: Contents, setPk: string, sources: seq<string>) returns (text: Option<string>)
      ensures text == FirstIn(store, setPk, sources)
    {
      var i := 0;
      while i < |sources|
        invariant i <= |sources| && FirstIn(store, setPk, sources) == FirstIn(store, setPk, sources[i..])
      {
        if At(store, sources[i], setPk).Some? { return At(store, sources[i], setPk); }
        i := i + 1;
      }
      text := None;
    }

    method SetMembersOf(setPk: string, sources: seq<string>, classes: set<ObjectClass>) returns (found: Option<SetMembers>)
      ensures found == stores.Lookup(Upper(setPk), sources, classes)
    {
      if AsSet in classes {
        var text := FirstSourceWith(stores.asSets, Upper(setPk), sources);
        if text.Some? { return Some(SetMembers(Split(text.value, ','), AsSet)); }
      }
      if RouteSet in classes {
        var text := FirstSourceWith(stores.routeSets, Upper(setPk), sources);
        if text.Some? { return Some(SetMembers(Split(text.value, ','), RouteSet)); }
      }
      found := None;
    }

    method RoutesForOrigin(origin: string, sources: seq<string>, only: Option<Family>) returns (prefixes: set<string>)
      ensures forall p :: p in prefixes <==> stores.OriginatesIn(origin, sources, only, p)
      ensures only == Some(Ipv4) ==> forall p :: p in prefixes <==> StoredIn(stores.routes4, origin, sources, p)
      ensures only == Some(Ipv6) ==> forall p :: p in prefixes <==> StoredIn(stores.routes6, origin, sources, p)
      ensures only == None ==>
                forall p :: p in prefixes
                            <==> StoredIn(stores.routes4, origin, sources, p) || StoredIn(stores.routes6, origin, sources, p)
    {
      prefixes := {};
      for i := 0 to |sources|
        invariant forall p :: p in prefixes <==> stores.OriginatesIn(origin, sources[..i], only, p)
      {
        var four, six := At(stores.routes4, sources[i], origin), At(stores.routes6, sources[i], origin);
        ghost var before := prefixes;
        if only != Some(Ipv6) && four.Some? { prefixes := prefixes + set p | p in Split(four.value, ','); }
        if only != Some(Ipv4) && six.Some? { prefixes := prefixes + set p | p in Split(six.value, ','); }
        assert sources[..i + 1] == sources[..i] + [sources[i]];
      }
      assert sources[..|sources|] == sources;
      FamiliesApart(stores, origin, sources);
    }

    /** All prefixes of some origins. */
    method RoutesForOrigins(origins: set<string>, sources: seq<string>, only: Option<Family>) returns (prefixes: set<string>)
      ensures forall p :: p in prefixes <==> exists o :: o in origins && stores.OriginatesIn(o, sources, only, p)
    {
      prefixes := {};
      var todo := origins;
      while todo != {}
        invariant todo <= origins
        invariant forall p :: p in prefixes <==> exists o :: o in origins - todo && stores.OriginatesIn(o, sources, only, p)
        decreases todo
      {
        var o :| o in todo;
        var more := RoutesForOrigin(o, sources, only);
        ghost var done := origins - todo;
        todo := todo - {o};
        assert origins - todo == done + {o};
        prefixes := prefixes + more;
      }
      assert origins - {} == origins;
    }
  }

  // ---- the membership graph ----

  datatype Query = Query(syntax: Syntax, stores: Stores, sources: seq<string>, root: string,
                         rootSource: Option<string>, excluded: set<string>, depth: int, startClass: Option<ObjectClass>) {

    function RootSources(): seq<string> {
      if rootSource.Some? then [rootSource.value] else sources
    }

    /** The class that is given, or else that of the root. */
    ghost function RootClass(): Option<ObjectClass> {
      var found := stores.Lookup(Upper(root), RootSources(), Classes(startClass));
      if startClass.Some? then startClass
      else if found.Some? then Some(found.value.objectClass) else None
    }

    /** The set behind a name. Only the root is looked for in the root source;
        other names are restricted by the class of the root. */
    ghost function Found(name: string): Option<SetMembers> {
      if name == root then stores.Lookup(Upper(root), RootSources(), Classes(startClass))
      else stores.Lookup(Upper(name), sources, Classes(RootClass()))
    }

    ghost predicate MemberOf(m: string, name: string) {
      Found(name).Some? && m in Found(name).value.members
    }

    ghost predicate Terminal(m: string) {
      (RootClass() != Some(AsSet) && syntax.isPrefix(m)) || syntax.asNumber(m).Some?
    }

    /** What a terminal member contributes: a prefix in a route-set and an AS number in an as-set themselves,
        an AS number in a route-set the prefixes it originates. */
    ghost predicate Yields(m: string, t: string) {
      if RootClass() != Some(AsSet) && syntax.isPrefix(m) then t == m
      else if syntax.asNumber(m).Some? then
        if RootClass() == Some(RouteSet) then stores.Originates(syntax.asNumber(m).value, sources, t) else t == m
      else false
    }

    ghost predicate YieldsAny(ms: set<string>, t: string) {
      exists m :: m in ms && Yields(m, t)
    }

    /** t is a terminal member of the set with this name. */
    ghost predicate TerminalOf(name: string, t: string) {
      exists m :: MemberOf(m, name) && Yields(m, t)
    }

    ghost predicate Edge(a: string, b: string) {
      MemberOf(b, a) && !Terminal(b) && b !in excluded
    }

    ghost predicate Path(path: seq<string>, x: string) {
      && path != [] && path[0] == root && path[|path| - 1] == x
      && forall i: nat | i < |path| - 1 :: Edge(path[i], path[i + 1])
    }

    ghost predicate Reachable(x: string) {
      exists path :: Path(path, x)
    }

    ghost predicate Within(x: string, n: int) {
      exists path :: Path(path, x) && |path| <= n + 1
    }

    /** x is n steps away from the root, and no fewer. */
    ghost predicate Level(x: string, n: int) {
      Within(x, n) && !Within(x, n - 1)
    }

    /** The root and every name that is stored as a member. */
    ghost function StoredNames(): set<string> {
      {root} + Names(stores.asSets) + Names(stores.routeSets)
    }

    /** Every route that a route-set can bring in is a text that reads as a prefix. */
    ghost predicate RoutesArePrefixes() {
      RootClass() == Some(RouteSet) ==> forall asn, p | stores.Originates(asn, sources, p) :: syntax.isPrefix(p)
    }

    /** What the set at some level adds to the answer: its terminal members, and at the
        last level all its members, or its own name when there is no such set. */
    ghost predicate Adds(x: string, level: int, t: string) {
      if depth <= 0 then TerminalOf(x, t)
      else
        || (level < depth && TerminalOf(x, t))
        || (level == depth - 1 && (MemberOf(t, x) || (Found(x).None? && t == x)))
    }

    ghost predicate AddedFrom(n: nat, t: string) {
      exists x, level :: level >= n && Level(x, level) && Adds(x, level, t)
    }
  }

  function Classes(rootClass: Option<ObjectClass>): set<ObjectClass> {
    if rootClass == Some(AsSet) then {AsSet} else {AsSet, RouteSet}
  }

  /** Of the sources in their order, this is the first one that stores the name, with the members it stores. */
  ghost predicate FirstWith(store: Contents, name: string, sources: seq<string>, members: seq<string>) {
    exists i: nat | i < |sources| ::
      && sources[i] in store && name in store[sources[i]] && members == Split(store[sources[i]][name], ',')
      && forall j: nat | j < i :: sources[j] in store ==> name !in store[sources[j]]
  }

  ghost predicate StoredNowhere(store: Contents, name: string, sources: seq<string>) {
    forall s | s in sources :: s in store ==> name !in store[s]
  }

  lemma FirstWithNext(store: Contents, name: string, sources: seq<string>, members: seq<string>)
    requires sources != [] && (sources[0] in store ==> name !in store[sources[0]])
    requires FirstWith(store, name, sources[1..], members)
    ensures FirstWith(store, name, sources, members)
  {
    var rest := sources[1..];
    var i: nat :| i < |rest| && rest[i] in store && name in store[rest[i]] && members == Split(store[rest[i]][name], ',')
                  && forall j: nat | j < i :: rest[j] in store ==> name !in store[rest[j]];
    assert sources[i + 1] == rest[i];
    forall j: nat | j < i + 1 && sources[j] in store
      ensures name !in store[sources[j]]
    {
      if j > 0 { assert rest[j - 1] == sources[j]; }
    }
  }

  lemma {:induction false} FirstInExactly(store: Contents, name: string, sources: seq<string>)
    ensures FirstIn(store, name, sources).None? <==> StoredNowhere(store, name, sources)
    ensures FirstIn(store, name, sources).Some?
            ==> FirstWith(store, name, sources, Split(FirstIn(store, name, sources).value, ','))
  {
    if sources != [] {
      FirstInExactly(store, name, sources[1..]);
      if At(store, sources[0], name).None? && FirstIn(store, name, sources).Some? {
        FirstWithNext(store, name, sources, Split(FirstIn(store, name, sources).value, ','));
      }
    }
  }

  /** Below an as-set only as-sets are looked for; otherwise as-sets first, in all sources, and then route-sets. */
  lemma LookupMeans(stores: Stores, name: string, sources: seq<string>, rootClass: Option<ObjectClass>)
    ensures var found := stores.Lookup(name, sources, Classes(rootClass));
            && (found.None? <==> && StoredNowhere(stores.asSets, name, sources)
                                 && (rootClass == Some(AsSet) || StoredNowhere(stores.routeSets, name, sources)))
            && (found.Some? ==>
                  if StoredNowhere(stores.asSets, name, sources)
                  then found.value.objectClass == RouteSet && FirstWith(stores.routeSets, name, sources, found.value.members)
                  else found.value.objectClass == AsSet && FirstWith(stores.asSets, name, sources, found.value.members))
  {
    FirstInExactly(stores.asSets, name, sources);
    FirstInExactly(stores.routeSets, name, sources);
  }

  /** The steps and the ends of resolving, spelled out. The class of the root, unless it is given, is that of the set found
      for it in its own source or in all. A member is followed unless it is excluded, an AS number, or, except from
      an as-set, a prefix; prefixes and AS numbers are answered themselves, save that below a route-set an AS number
      stands for the prefixes stored for it. */
  lemma ResolvingMeans(q: Query, a: string, m: string, t: string)
    ensures q.startClass.Some? ==> q.RootClass() == q.startClass
    ensures q.startClass.None? ==>
              var found := q.stores.Lookup(Upper(q.root), if q.rootSource.Some? then [q.rootSource.value] else q.sources,
                                           {AsSet, RouteSet});
              q.RootClass() == if found.Some? then Some(found.value.objectClass) else None
    ensures q.Edge(a, m) <==> && q.MemberOf(m, a) && m !in q.excluded && q.syntax.asNumber(m).None?
                              && (q.RootClass() == Some(AsSet) || !q.syntax.isPrefix(m))
    ensures q.Yields(m, t) && t != m ==> && q.RootClass() == Some(RouteSet) && q.syntax.asNumber(m).Some?
                                         && (|| StoredIn(q.stores.routes4, q.syntax.asNumber(m).value, q.sources, t)
                                             || StoredIn(q.stores.routes6, q.syntax.asNumber(m).value, q.sources, t))
    ensures q.syntax.isPrefix(m) && q.RootClass() != Some(AsSet) ==> q.Yields(m, m)
    ensures q.syntax.asNumber(m).Some? && q.RootClass() == Some(AsSet) ==> q.Yields(m, m)
    ensures q.syntax.asNumber(m).Some? && !q.syntax.isPrefix(m) && q.RootClass() == Some(RouteSet) ==>
              (q.Yields(m, t) <==> || StoredIn(q.stores.routes4, q.syntax.asNumber(m).value, q.sources, t)
                                   || StoredIn(q.stores.routes6, q.syntax.asNumber(m).value, q.sources, t))
    ensures q.syntax.asNumber(m).None? && (q.RootClass() == Some(AsSet) || !q.syntax.isPrefix(m)) ==> !q.Yields(m, t)
  {
    if q.syntax.asNumber(m).Some? {
      FamiliesApart(q.stores, q.syntax.asNumber(m).value, q.sources);
    }
  }

  // ---- levels ----

  lemma WithinGrows(q: Query, x: string, n: int, n': int)
    requires q.Within(x, n) && n <= n'
    ensures q.Within(x, n')
  {
    var path :| q.Path(path, x) && |path| <= n + 1;
  }

  lemma RootIsWithin(q: Query, n: nat)
    ensures q.Within(q.root, n)
    ensures forall x :: q.Within(x, 0) <==> x == q.root
    ensures forall x :: !q.Within(x, -1)
  {
    assert q.Path([q.root], q.root);
    forall x
      ensures q.Within(x, 0) <==> x == q.root
    {
      if q.Within(x, 0) {
        var path :| q.Path(path, x) && |path| <= 1;
        assert path == [x];
      }
    }
  }

  lemma WithinStep(q: Query, a: string, b: string, n: nat)
    requires q.Within(a, n) && q.Edge(a, b)
    ensures q.Within(b, n + 1)
  {
    var path :| q.Path(path, a) && |path| <= n + 1;
    assert q.Path(path + [b], b);
  }

  lemma WithinBack(q: Query, b: string, n: nat)
    requires q.Within(b, n + 1) && b != q.root
    ensures exists a :: q.Within(a, n) && q.Edge(a, b)
  {
    var path :| q.Path(path, b) && |path| <= n + 2;
    var a := path[|path| - 2];
    assert q.Path(path[..|path| - 1], a);
    assert q.Edge(a, b);
  }

  lemma {:induction false} HasLevel(q: Query, x: string, n: nat)
    requires q.Within(x, n)
    ensures exists level: nat :: level <= n && q.Level(x, level)
  {
    RootIsWithin(q, 0);
    if n > 0 && q.Within(x, n - 1) {
      HasLevel(q, x, n - 1);
      var level: nat :| level <= n - 1 && q.Level(x, level);
    } else {
      assert q.Level(x, n);
    }
  }

  /** Nothing is beyond a level without sets. */
  lemma {:induction false} NothingBeyond(q: Query, n: nat, level: nat)
    requires n <= level && forall x :: !q.Level(x, n)
    ensures forall x :: !q.Level(x, level)
    decreases level
  {
    if n < level {
      NothingBeyond(q, n, level - 1);
      forall b
        ensures !q.Level(b, level)
      {
        if q.Level(b, level) {
          PreviousLevel(q, b, level - 1);
        }
      }
    }
  }

  lemma PreviousLevel(q: Query, b: string, n: nat)
    requires q.Level(b, n + 1)
    ensures exists a :: q.Level(a, n)
  {
    RootIsWithin(q, n);
    WithinBack(q, b, n);
    var a :| q.Within(a, n) && q.Edge(a, b);
    if n > 0 && q.Within(a, n - 1) {
      WithinStep(q, a, b, n - 1);
    }
    assert q.Level(a, n);
  }

  lemma StaysInside(q: Query, members: set<string>, seen: set<string>, further: set<string>, universe: set<string>)
    requires Closed(q, universe)
    requires forall b :: b in further <==> (exists a :: a in members && q.Edge(a, b)) && b !in seen
    ensures further <= universe
  {
  }

  lemma MoreIsSeen(members: set<string>, setsSeen: set<string>, universe: set<string>)
    requires members <= universe && !(members <= setsSeen)
    ensures universe - (setsSeen + members) < universe - setsSeen
  {
    var m :| m in members && m !in setsSeen;
    assert m in universe - setsSeen && m !in universe - (setsSeen + members);
  }

  /** The names one step further that are new make up the next level. */
  lemma NextLevel(q: Query, n: nat, frontier: set<string>, seen: set<string>, next: set<string>)
    requires forall x :: x in frontier <==> q.Level(x, n)
    requires forall x :: x in seen <==> q.Within(x, n)
    requires forall b :: b in next <==> (exists a :: a in frontier && q.Edge(a, b)) && b !in seen
    ensures forall b :: b in next <==> q.Level(b, n + 1)
    ensures forall b :: b in seen + next <==> q.Within(b, n + 1)
  {
    RootIsWithin(q, n);
    forall b
      ensures b in next <==> q.Level(b, n + 1)
      ensures q.Within(b, n) ==> q.Within(b, n + 1)
    {
      if b in next {
        var a :| a in frontier && q.Edge(a, b);
        WithinStep(q, a, b, n);
      }
      if q.Level(b, n + 1) {
        WithinBack(q, b, n);
        var a :| q.Within(a, n) && q.Edge(a, b);
        if q.Within(a, n - 1) && n > 0 {
          WithinStep(q, a, b, n - 1);
        }
        assert a in frontier;
      }
      if q.Within(b, n) { WithinGrows(q, b, n, n + 1); }
    }
  }

  /** Without a depth limit the answer is made of the terminal members of all reachable sets. */
  lemma UnlimitedIsReachable(q: Query, t: string)
    requires q.depth <= 0
    ensures q.AddedFrom(0, t) <==> exists x :: q.Reachable(x) && q.TerminalOf(x, t)
  {
    if q.AddedFrom(0, t) {
      var x, level :| level >= 0 && q.Level(x, level) && q.Adds(x, level, t);
      assert q.Within(x, level);
      assert q.Reachable(x);
    }
    if exists x :: q.Reachable(x) && q.TerminalOf(x, t) {
      var x :| q.Reachable(x) && q.TerminalOf(x, t);
      var path :| q.Path(path, x);
      assert q.Within(x, |path| - 1);
      HasLevel(q, x, |path| - 1);
      var level: nat :| q.Level(x, level);
      assert q.Adds(x, level, t);
    }
  }

  /** From an as-set, the answer is made of the AS numbers, as they are written, in all reachable sets. */
  lemma AsNumbersReached(q: Query, t: string)
    requires q.startClass == Some(AsSet) && q.depth <= 0
    ensures q.AddedFrom(0, t) <==> exists x :: q.Reachable(x) && q.MemberOf(t, x) && q.syntax.asNumber(t).Some?
  {
    UnlimitedIsReachable(q, t);
    forall x
      ensures q.TerminalOf(x, t) <==> q.MemberOf(t, x) && q.syntax.asNumber(t).Some?
    {
      assert q.Yields(t, t) <==> q.syntax.asNumber(t).Some?;
    }
  }

  /** A set without members is stored as an empty text, and that reads back as one member without a name:
      it is the direct answer and the answer at depth 1. Without a depth limit nothing is added. */
  lemma EmptySetAnswer(q: Query, objectClass: ObjectClass, t: string)
    requires q.Found(q.root) == Some(SetMembers(Split(Join([], ','), ','), objectClass)) && !q.Terminal("")
    ensures q.MemberOf(t, q.root) <==> t == ""
    ensures q.depth == 1 ==> (q.AddedFrom(0, t) <==> t == "")
    ensures q.depth <= 0 && q.Found("").None? ==> !q.AddedFrom(0, t)
  {
    assert Join<char>([], ',') == [] && Split("", ',') == [""];
    assert forall m :: q.MemberOf(m, q.root) <==> m == "";
    RootIsWithin(q, 0);
    if q.depth == 1 {
      assert q.Level(q.root, 0);
      assert q.MemberOf(t, q.root) ==> q.Adds(q.root, 0, t);
    }
    if q.depth <= 0 && q.Found("").None? {
      UnlimitedIsReachable(q, t);
      forall x | q.Reachable(x)
        ensures !q.TerminalOf(x, t)
      {
        var path :| q.Path(path, x);
        assert |path| > 1 ==> q.Edge(path[0], path[1]);
        assert |path| > 2 ==> q.Edge(path[1], path[2]);
      }
    }
  }

  /** One level and the rest. */
  lemma AddedFromNext(q: Query, n: nat, t: string)
    ensures q.AddedFrom(n, t) <==> (exists x :: q.Level(x, n) && q.Adds(x, n, t)) || q.AddedFrom(n + 1, t)
  {
    if q.AddedFrom(n, t) && !q.AddedFrom(n + 1, t) {
      var x, level :| level >= n && q.Level(x, level) && q.Adds(x, level, t);
      assert level == n;
    }
  }

  class QueryResolver {
    const syntax: Syntax
    const preloader: Preloader
    const sources: seq<string>
    const ipv4OnlyRouteSetMembers: bool
    var currentSetRootObjectClass: Option<ObjectClass>
    var currentExcludedSets: set<string>
    var currentSetMaximumDepth: int

    constructor (syntax: Syntax, preloader: Preloader, sources: seq<string>, ipv4OnlyRouteSetMembers: bool)
      ensures this.syntax == syntax && this.preloader == preloader && this.sources == sources
      ensures this.ipv4OnlyRouteSetMembers == ipv4OnlyRouteSetMembers
    {
      this.syntax, this.preloader, this.sources := syntax, preloader, sources;
      this.ipv4OnlyRouteSetMembers := ipv4OnlyRouteSetMembers;
      currentSetRootObjectClass, currentExcludedSets, currentSetMaximumDepth := None, {}, 0;
    }

    ghost function Lookup(name: string, limitSource: Option<string>, rootClass: Option<ObjectClass>): Option<SetMembers> {
      preloader.stores.Lookup(Upper(name), if limitSource.Some? then [limitSource.value] else sources, Classes(rootClass))
    }

    ghost predicate Has(name: string, limitSource: Option<string>, rootClass: Option<ObjectClass>, m: string) {
      Lookup(name, limitSource, rootClass).Some? && m in Lookup(name, limitSource, rootClass).value.members
    }

    ghost predicate HasAny(names: set<string>, limitSource: Option<string>, rootClass: Option<ObjectClass>, m: string) {
      exists name :: name in names && Has(name, limitSource, rootClass, m)
    }

    /** The class of the first set that is found becomes the root class. */
    method FindSetMembers(setNames: set<string>, limitSource: Option<string>)
      returns (members: set<string>, leafMembers: set<string>)
      modifies this`currentSetRootObjectClass
      ensures forall m :: m in members <==> HasAny(setNames, limitSource, old(currentSetRootObjectClass), m)
      ensures forall name :: name in leafMembers
                             <==> name in setNames && Lookup(name, limitSource, old(currentSetRootObjectClass)).None?
      ensures old(currentSetRootObjectClass).Some? || leafMembers == setNames
              ==> currentSetRootObjectClass == old(currentSetRootObjectClass)
      ensures old(currentSetRootObjectClass).None? && leafMembers != setNames
              ==> exists name :: name in setNames && name !in leafMembers && currentSetRootObjectClass
                                 == Some(Lookup(name, limitSource, old(currentSetRootObjectClass)).value.objectClass)
    {
      members, leafMembers := {}, {};
      var limited := if limitSource.Some? then [limitSource.value] else sources;
      var classes := Classes(currentSetRootObjectClass);
      ghost var rootClass := currentSetRootObjectClass;
      var todo := setNames;
      while todo != {}
        invariant todo <= setNames
        invariant forall m :: m in members <==> HasAny(setNames - todo, limitSource, rootClass, m)
        invariant forall name :: name in leafMembers
                                 <==> name in setNames - todo && Lookup(name, limitSource, rootClass).None?
        invariant rootClass.Some? || leafMembers == setNames - todo ==> currentSetRootObjectClass == rootClass
        invariant rootClass.None? && leafMembers != setNames - todo
                  ==> exists name :: name in setNames - todo && name !in leafMembers && currentSetRootObjectClass
                                     == Some(Lookup(name, limitSource, rootClass).value.objectClass)
        decreases todo
      {
        var name :| name in todo;
        var found := preloader.SetMembersOf(name, limited, classes);
        assert found == Lookup(name, limitSource, rootClass);
        ghost var done, before := setNames - todo, members;
        assert setNames - (todo - {name}) == done + {name};
        forall m
          ensures HasAny(done + {name}, limitSource, rootClass, m)
              <==> HasAny(done, limitSource, rootClass, m) || Has(name, limitSource, rootClass, m)
        {
        }
        if found.None? {
          leafMembers := leafMembers + {name};
        } else {
          members := members + set m | m in found.value.members;
          if currentSetRootObjectClass.None? {
            currentSetRootObjectClass := Some(found.value.objectClass);
          }
        }
        todo := todo - {name};
      }
      assert setNames - {} == setNames;
    }

    ghost predicate Answers(q: Query)
      reads this
    {
      q.syntax == syntax && q.stores == preloader.stores && q.sources == sources && q.excluded == currentExcludedSets
    }

    /** Terminal members directly, and AS numbers in route-sets by the prefixes they originate. */
    method Classify(subMembers: set<string>, ghost q: Query)
      returns (setMembers: set<string>, resolvedAsMembers: set<string>)
      requires Answers(q) && currentSetRootObjectClass == q.RootClass()
      ensures forall t :: t in setMembers <==> q.YieldsAny(subMembers, t)
      ensures forall m :: m in subMembers && q.Terminal(m) ==> m in setMembers || m in resolvedAsMembers
      ensures forall m | m in resolvedAsMembers :: q.Terminal(m)
    {
      setMembers, resolvedAsMembers := {}, {};
      var todo := subMembers;
      while todo != {}
        invariant todo <= subMembers
        invariant forall t :: t in setMembers <==> q.YieldsAny(subMembers - todo, t)
        invariant forall m :: m in subMembers - todo && q.Terminal(m) ==> m in setMembers || m in resolvedAsMembers
        invariant forall m | m in resolvedAsMembers :: q.Terminal(m)
        decreases todo
      {
        var m :| m in todo;
        ghost var done := subMembers - todo;
        todo := todo - {m};
        assert subMembers - todo == done + {m};
        forall t
          ensures q.YieldsAny(done + {m}, t) <==> q.YieldsAny(done, t) || q.Yields(m, t)
        {
        }
        if currentSetRootObjectClass != Some(AsSet) && syntax.isPrefix(m) {
          setMembers := setMembers + {m};
        } else if syntax.asNumber(m).Some? {
          if currentSetRootObjectClass == Some(RouteSet) {
            var prefixes := preloader.RoutesForOrigin(syntax.asNumber(m).value, sources, None);
            setMembers := setMembers + prefixes;
            resolvedAsMembers := resolvedAsMembers + {m};
          } else {
            setMembers := setMembers + {m};
          }
        }
      }
      assert subMembers - {} == subMembers;
    }

    /** The state in which level n of the query is resolved. */
    ghost predicate AtLevel(q: Query, n: nat, members: set<string>, setsSeen: set<string>, rootSource: Option<string>)
      reads this
    {
      && Answers(q) && q.RoutesArePrefixes()
      && currentSetMaximumDepth == q.depth - n && (q.depth > 0 ==> n < q.depth)
      && (if n == 0 then currentSetRootObjectClass == q.startClass && rootSource == q.rootSource
          else currentSetRootObjectClass == q.RootClass() && rootSource == None)
      && (forall x :: x in members <==> q.Level(x, n))
      && (forall x :: x in setsSeen <==> q.Within(x, n - 1))
    }

    /** Looking up a level finds the members of its sets. */
    lemma LookupsOfLevel(q: Query, n: nat, members: set<string>, setsSeen: set<string>, rootSource: Option<string>)
      requires AtLevel(q, n, members, setsSeen, rootSource)
      ensures forall x | x in members :: Lookup(x, rootSource, currentSetRootObjectClass) == q.Found(x)
      ensures n == 0 ==> members == {q.root}
    {
      RootIsWithin(q, n);
      if n > 0 {
        RootIsWithin(q, n - 1);
        assert q.root !in members;
      } else {
        forall x
          ensures x in members <==> x == q.root
        {
        }
      }
    }

    method ResolveLevel(members: set<string>, setsSeen: set<string>, rootSource: Option<string>, ghost q: Query, ghost n: nat)
      returns (subMembers: set<string>, leafMembers: set<string>, setMembers: set<string>, resolvedAsMembers: set<string>)
      requires AtLevel(q, n, members, setsSeen, rootSource) && members != {}
      modifies this`currentSetRootObjectClass
      ensures currentSetRootObjectClass == q.RootClass()
      ensures SubMembersAre(q, members, subMembers, leafMembers)
      ensures forall t :: t in setMembers <==> q.YieldsAny(subMembers, t)
      ensures forall m :: m in subMembers && q.Terminal(m) ==> m in setMembers || m in resolvedAsMembers
      ensures forall m | m in resolvedAsMembers :: q.Terminal(m)
    {
      LookupsOfLevel(q, n, members, setsSeen, rootSource);
      ghost var rootClass := currentSetRootObjectClass;
      subMembers, leafMembers := FindSetMembers(members, rootSource);
      LookupsMatch(q, members, subMembers, leafMembers, rootSource, rootClass);
      if n > 0 {
        var x :| x in members;
        RootIsFound(q, x, n);
      }
      setMembers, resolvedAsMembers := Classify(subMembers, q);
    }

    lemma LookupsMatch(q: Query, members: set<string>, subMembers: set<string>, leafMembers: set<string>,
                       rootSource: Option<string>, rootClass: Option<ObjectClass>)
      requires forall x | x in members :: Lookup(x, rootSource, rootClass) == q.Found(x)
      requires forall m :: m in subMembers <==> HasAny(members, rootSource, rootClass, m)
      requires forall x :: x in leafMembers <==> x in members && Lookup(x, rootSource, rootClass).None?
      ensures SubMembersAre(q, members, subMembers, leafMembers)
    {
      forall m
        ensures HasAny(members, rootSource, rootClass, m) <==> exists x :: x in members && q.MemberOf(m, x)
      {
        if exists x :: x in members && q.MemberOf(m, x) {
          var x :| x in members && q.MemberOf(m, x);
          assert Has(x, rootSource, rootClass, m);
        }
      }
    }

    method RecursiveSetResolve(members: set<string>, setsSeen: set<string>, rootSource: Option<string>,
                               ghost q: Query, ghost n: nat, ghost universe: set<string>)
      returns (result: set<string>)
      requires AtLevel(q, n, members, setsSeen, rootSource)
      requires members <= universe && Closed(q, universe)
      modifies this
      ensures forall t :: t in result <==> q.AddedFrom(n, t)
      decreases universe - setsSeen
    {
      if forall m | m in members :: m in setsSeen {
        NothingLeft(q, n, members, setsSeen);
        return {};
      }
      var seen := setsSeen + members;
      var subMembers, leafMembers, setMembers, resolvedAsMembers := ResolveLevel(members, setsSeen, rootSource, q, n);
      currentSetMaximumDepth := currentSetMaximumDepth - 1;
      if currentSetMaximumDepth == 0 {
        LastLevel(q, n, members, subMembers, leafMembers);
        return setMembers + subMembers + leafMembers;
      }
      var further := subMembers - setMembers - seen - resolvedAsMembers - currentExcludedSets;
      NextIsReady(q, n, members, setsSeen, subMembers, leafMembers, setMembers, resolvedAsMembers, further, universe);
      ReadyForNext(q, n, further, seen);
      var newMembers := RecursiveSetResolve(further, seen, None, q, n + 1, universe);
      result := setMembers + newMembers;
      InnerLevel(q, n, members, subMembers, leafMembers);
    }

    lemma ReadyForNext(q: Query, n: nat, further: set<string>, seen: set<string>)
      requires Answers(q) && q.RoutesArePrefixes() && currentSetRootObjectClass == q.RootClass()
      requires currentSetMaximumDepth == q.depth - n - 1 && currentSetMaximumDepth != 0 && (q.depth > 0 ==> n < q.depth)
      requires forall x :: x in further <==> q.Level(x, n + 1)
      requires forall x :: x in seen <==> q.Within(x, n)
      ensures AtLevel(q, n + 1, further, seen, None)
    {
    }

    method ResolveFromRoot(name: string, rootSource: Option<string>, ghost q: Query) returns (result: set<string>)
      requires Answers(q) && q.RoutesArePrefixes() && q.root == name && q.rootSource == rootSource
      requires currentSetRootObjectClass == q.startClass && currentSetMaximumDepth == q.depth
      modifies this
      ensures forall t :: t in result <==> q.AddedFrom(0, t)
    {
      RootIsWithin(q, 0);
      StoredNamesAreClosed(q);
      result := RecursiveSetResolve({name}, {}, rootSource, q, 0, q.StoredNames());
    }

    /** The members of a set, or with `recursive` all that is added level by level, without the set itself
        and, when configured, without IPv6 prefixes. */
    method MembersForSet(parameter: string, excludeSets: set<string>, depth: int, recursive: bool, rootSource: Option<string>)
      returns (result: set<string>)
      requires QueryOf(parameter, excludeSets, depth, rootSource).RoutesArePrefixes()
      modifies this
      ensures var q := QueryOf(parameter, excludeSets, depth, rootSource);
              forall t :: t in result
                          <==> && t != parameter && !(ipv4OnlyRouteSetMembers && syntax.isIpv6(t))
                               && if recursive then q.AddedFrom(0, t) else q.MemberOf(t, parameter)
    {
      ghost var q := QueryOf(parameter, excludeSets, depth, rootSource);
      currentSetRootObjectClass, currentExcludedSets, currentSetMaximumDepth := None, excludeSets, depth;
      if !recursive {
        var members, leafMembers := FindSetMembers({parameter}, rootSource);
        LookupsMatch(q, {parameter}, members, leafMembers, rootSource, None);
        result := members + leafMembers;
      } else {
        result := ResolveFromRoot(parameter, rootSource, q);
      }
      result := result - {parameter};
      if ipv4OnlyRouteSetMembers {
        result := set m | m in result && !syntax.isIpv6(m);
      }
    }

    ghost function QueryOf(parameter: string, excludeSets: set<string>, depth: int, rootSource: Option<string>): Query {
      Query(syntax, preloader.stores, sources, parameter, rootSource, excludeSets, depth, None)
    }

    /** The set as an as-set, whatever else has its name, without a depth limit. */
    ghost function AsSetQuery(setName: string, excludeSets: set<string>): Query {
      Query(syntax, preloader.stores, sources, setName, None, excludeSets, 0, Some(AsSet))
    }

    /** The prefixes that the AS numbers reachable from an as-set originate, in one family or in both. */
    method RoutesForAsSet(setName: string, only: Option<Family>, excludeSets: set<string>) returns (prefixes: set<string>)
      modifies this
      ensures var q := AsSetQuery(setName, excludeSets);
              forall p :: p in prefixes
                          <==> exists x, asn :: q.Reachable(x) && q.MemberOf(asn, x) && syntax.asNumber(asn).Some?
                                                && preloader.stores.OriginatesIn(asn, sources, only, p)
      ensures var q := AsSetQuery(setName, excludeSets);
              only == Some(Ipv4) ==> forall p :: p in prefixes <==> ReachedIn(q, preloader.stores.routes4, p)
      ensures var q := AsSetQuery(setName, excludeSets);
              only == Some(Ipv6) ==> forall p :: p in prefixes <==> ReachedIn(q, preloader.stores.routes6, p)
      ensures var q := AsSetQuery(setName, excludeSets);
              only == None ==>
                forall p :: p in prefixes
                            <==> ReachedIn(q, preloader.stores.routes4, p) || ReachedIn(q, preloader.stores.routes6, p)
    {
      ghost var q := AsSetQuery(setName, excludeSets);
      currentSetRootObjectClass, currentExcludedSets, currentSetMaximumDepth := Some(AsSet), excludeSets, 0;
      var members := ResolveFromRoot(setName, None, q);
      forall t
        ensures t in members <==> exists x :: q.Reachable(x) && q.MemberOf(t, x) && syntax.asNumber(t).Some?
      {
        AsNumbersReached(q, t);
      }
      prefixes := preloader.RoutesForOrigins(members, sources, only);
      forall x, asn | q.Reachable(x) && q.MemberOf(asn, x) {
        FamiliesApart(preloader.stores, asn, sources);
      }
    }
  }

  /** Some source of the query has the prefix stored for an AS number in a reachable set. */
  ghost predicate ReachedIn(q: Query, routes: Contents, prefix: string) {
    exists x, asn :: q.Reachable(x) && q.MemberOf(asn, x) && q.syntax.asNumber(asn).Some?
                     && StoredIn(routes, asn, q.sources, prefix)
  }

  lemma RootIsFound(q: Query, x: string, n: nat)
    requires n > 0 && q.Level(x, n)
    ensures q.RootClass().Some?
  {
    RootIsWithin(q, n - 1);
    var path :| q.Path(path, x) && |path| <= n + 1;
    assert |path| > 1 && q.Edge(path[0], path[1]);
  }

  lemma SeenIsWithin(q: Query, n: nat, members: set<string>, setsSeen: set<string>)
    requires forall x :: x in members <==> q.Level(x, n)
    requires forall x :: x in setsSeen <==> q.Within(x, n - 1)
    ensures forall x :: x in setsSeen + members <==> q.Within(x, n)
  {
    forall x
      ensures x in setsSeen + members <==> q.Within(x, n)
    {
      if q.Within(x, n - 1) { WithinGrows(q, x, n - 1, n); }
    }
  }

  /** Everything the next call of the recursion relies on. */
  lemma NextIsReady(q: Query, n: nat, members: set<string>, setsSeen: set<string>, subMembers: set<string>, leafMembers: set<string>,
                    setMembers: set<string>, resolvedAsMembers: set<string>, further: set<string>, universe: set<string>)
    requires SubMembersAre(q, members, subMembers, leafMembers) && q.RoutesArePrefixes() && Closed(q, universe)
    requires members <= universe && !(members <= setsSeen)
    requires forall x :: x in members <==> q.Level(x, n)
    requires forall x :: x in setsSeen <==> q.Within(x, n - 1)
    requires forall t :: t in setMembers <==> q.YieldsAny(subMembers, t)
    requires forall m :: m in subMembers && q.Terminal(m) ==> m in setMembers || m in resolvedAsMembers
    requires forall m | m in resolvedAsMembers :: q.Terminal(m)
    requires further == subMembers - setMembers - (setsSeen + members) - resolvedAsMembers - q.excluded
    ensures forall x :: x in further <==> q.Level(x, n + 1)
    ensures forall x :: x in setsSeen + members <==> q.Within(x, n)
    ensures further <= universe && universe - (setsSeen + members) < universe - setsSeen
  {
    var seen := setsSeen + members;
    SeenIsWithin(q, n, members, setsSeen);
    FurtherAre(q, members, subMembers, leafMembers, setMembers, resolvedAsMembers, seen, further);
    NextLevel(q, n, members, seen, further);
    StaysInside(q, members, seen, further, universe);
    MoreIsSeen(members, setsSeen, universe);
  }

  lemma NothingLeft(q: Query, n: nat, members: set<string>, setsSeen: set<string>)
    requires forall x :: x in members <==> q.Level(x, n)
    requires forall x :: x in setsSeen <==> q.Within(x, n - 1)
    requires members <= setsSeen
    ensures forall t :: !q.AddedFrom(n, t)
  {
    assert forall x :: x in members ==> x in setsSeen;
    forall t
      ensures !q.AddedFrom(n, t)
    {
      NothingAdded(q, n, t);
    }
  }

  /** All names that can appear: the measure of the recursion is how many are not seen yet. */
  ghost predicate Closed(q: Query, universe: set<string>) {
    q.root in universe && forall a, m | q.MemberOf(m, a) :: m in universe
  }

  lemma LookupIsStored(stores: Stores, setPk: string, sources: seq<string>, classes: set<ObjectClass>)
    requires stores.Lookup(setPk, sources, classes).Some?
    ensures forall m | m in stores.Lookup(setPk, sources, classes).value.members
              :: m in Names(stores.asSets) || m in Names(stores.routeSets)
  {
    if AsSet in classes && FirstIn(stores.asSets, setPk, sources).Some? {
      FirstIsStored(stores.asSets, setPk, sources);
    } else {
      FirstIsStored(stores.routeSets, setPk, sources);
    }
  }

  lemma StoredNamesAreClosed(q: Query)
    ensures Closed(q, q.StoredNames())
  {
    forall a, m | q.MemberOf(m, a)
      ensures m in q.StoredNames()
    {
      if a == q.root {
        LookupIsStored(q.stores, Upper(q.root), q.RootSources(), Classes(q.startClass));
      } else {
        LookupIsStored(q.stores, Upper(a), q.sources, Classes(q.RootClass()));
      }
    }
  }

  ghost predicate SubMembersAre(q: Query, names: set<string>, subMembers: set<string>, leafMembers: set<string>) {
    && (forall m :: m in subMembers <==> exists x :: x in names && q.MemberOf(m, x))
    && (forall x :: x in leafMembers <==> x in names && q.Found(x).None?)
  }

  lemma NothingAdded(q: Query, n: nat, t: string)
    requires forall x :: !q.Level(x, n)
    ensures !q.AddedFrom(n, t)
  {
    if q.AddedFrom(n, t) {
      var x, level :| level >= n && q.Level(x, level) && q.Adds(x, level, t);
      NothingBeyond(q, n, level);
    }
  }

  lemma YieldedByLevel(q: Query, names: set<string>, subMembers: set<string>, leafMembers: set<string>, t: string)
    requires SubMembersAre(q, names, subMembers, leafMembers)
    ensures q.YieldsAny(subMembers, t) <==> exists x :: x in names && q.TerminalOf(x, t)
  {
    if q.YieldsAny(subMembers, t) {
      var m :| m in subMembers && q.Yields(m, t);
      var x :| x in names && q.MemberOf(m, x);
      assert q.TerminalOf(x, t);
    }
    if exists x :: x in names && q.TerminalOf(x, t) {
      var x :| x in names && q.TerminalOf(x, t);
      var m :| q.MemberOf(m, x) && q.Yields(m, t);
      assert m in subMembers;
    }
  }

  lemma LastLevel(q: Query, n: nat, names: set<string>, subMembers: set<string>, leafMembers: set<string>)
    requires SubMembersAre(q, names, subMembers, leafMembers) && q.depth == n + 1
    requires forall x :: x in names <==> q.Level(x, n)
    ensures forall t :: q.AddedFrom(n, t) <==> q.YieldsAny(subMembers, t) || t in subMembers || t in leafMembers
  {
    forall t
      ensures q.AddedFrom(n, t) <==> q.YieldsAny(subMembers, t) || t in subMembers || t in leafMembers
    {
      YieldedByLevel(q, names, subMembers, leafMembers, t);
      if q.AddedFrom(n, t) {
        var x, level :| level >= n && q.Level(x, level) && q.Adds(x, level, t);
        assert level == n && x in names;
      }
      if exists x :: x in names && (q.MemberOf(t, x) || q.TerminalOf(x, t)) {
        var x :| x in names && (q.MemberOf(t, x) || q.TerminalOf(x, t));
        assert q.Level(x, n) && q.Adds(x, n, t);
      }
      if t in leafMembers {
        assert q.Level(t, n) && q.Adds(t, n, t);
      }
    }
  }

  lemma InnerLevel(q: Query, n: nat, names: set<string>, subMembers: set<string>, leafMembers: set<string>)
    requires SubMembersAre(q, names, subMembers, leafMembers) && (q.depth > 0 ==> n + 1 < q.depth)
    requires forall x :: x in names <==> q.Level(x, n)
    ensures forall t :: q.AddedFrom(n, t) <==> q.YieldsAny(subMembers, t) || q.AddedFrom(n + 1, t)
  {
    forall t
      ensures q.AddedFrom(n, t) <==> q.YieldsAny(subMembers, t) || q.AddedFrom(n + 1, t)
    {
      YieldedByLevel(q, names, subMembers, leafMembers, t);
      AddedFromNext(q, n, t);
      forall x
        ensures q.Adds(x, n, t) <==> q.TerminalOf(x, t)
      {
      }
    }
  }

  lemma YieldedIsTerminal(q: Query, m: string, t: string)
    requires q.RoutesArePrefixes() && q.Yields(m, t)
    ensures q.Terminal(t)
  {
    if t != m {
      assert q.stores.Originates(q.syntax.asNumber(m).value, q.sources, t);
    }
  }

  lemma FurtherAre(q: Query, names: set<string>, subMembers: set<string>, leafMembers: set<string>,
                   setMembers: set<string>, resolvedAsMembers: set<string>, seen: set<string>, further: set<string>)
    requires SubMembersAre(q, names, subMembers, leafMembers) && q.RoutesArePrefixes()
    requires forall t :: t in setMembers <==> q.YieldsAny(subMembers, t)
    requires forall m :: m in subMembers && q.Terminal(m) ==> m in setMembers || m in resolvedAsMembers
    requires forall m | m in resolvedAsMembers :: q.Terminal(m)
    requires further == subMembers - setMembers - seen - resolvedAsMembers - q.excluded
    ensures forall b :: b in further <==> (exists a :: a in names && q.Edge(a, b)) && b !in seen
  {
    forall b
      ensures b in further <==> (exists a :: a in names && q.Edge(a, b)) && b !in seen
    {
      if b in setMembers {
        var m :| m in subMembers && q.Yields(m, b);
        YieldedIsTerminal(q, m, b);
      }
      if b in further {
        var a :| a in names && q.MemberOf(b, a);
        assert q.Edge(a, b);
      }
    }
  }
}
