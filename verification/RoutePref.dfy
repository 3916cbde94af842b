/** Route object preference: routes are suppressed by overlapping routes of higher preference,
    evaluated for all routes or only around changed prefixes. */
module RoutePref {
  import opened Journal
  import opened RoaTrie

  const MAX_FILTER_PREFIX_LEN := 5000

  datatype Route = Route(pk: string, prefix: Network, source: string, status: RoutePreferenceStatus)
  type Routes = map<string, Route>
  type Preferences = map<string, int>

  predicate Overlaps(a: Network, b: Network) {
    a.Contains(b) || b.Contains(a)
  }

  /** Some overlapping route has a strictly higher preference. */
  ghost predicate Outranked(prefs: Preferences, rows: set<Route>, r: Route)
    requires r.source in prefs
  {
    exists q :: q in rows && q.source in prefs && Overlaps(q.prefix, r.prefix) && prefs[q.source] > prefs[r.source]
  }

  /** The status a route should have, given the rows that are looked at. */
  ghost function RightStatus(prefs: Preferences, rows: set<Route>, r: Route): RoutePreferenceStatus {
    if r.source in prefs && Outranked(prefs, rows, r) then Suppressed else Visible
  }

  ghost function Rows(db: Routes): set<Route> {
    set pk | pk in db :: db[pk]
  }

  predicate RoutesOk(db: Routes) {
    forall pk | pk in db :: db[pk].pk == pk
  }

  /** What evaluating some of the rows leaves in the database. */
  ghost function Evaluated(prefs: Preferences, db: Routes, rows: set<Route>): Routes {
    map pk | pk in db :: if db[pk] in rows then db[pk].(status := RightStatus(prefs, rows, db[pk])) else db[pk]
  }

  /** The rows that equal, contain or are contained in one of the prefixes. */
  ghost function Around(db: Routes, prefixes: seq<Network>): set<Route> {
    set r | r in Rows(db) && exists p :: p in prefixes && Overlaps(r.prefix, p)
  }

  // ---- prefixes are nested or disjoint ----

  lemma {:induction false} ShiftTwice(n: nat, j: nat, k: nat)
    ensures Shift(Shift(n, j), k) == Shift(n, j + k)
  {
    if j > 0 {
      ShiftTwice(n / 2, j - 1, k);
    }
  }

  /** Two blocks that contain a common block are nested. */
  lemma NestedOrDisjoint(a: Network, b: Network, common: Network)
    requires a.Contains(common) && b.Contains(common)
    ensures Overlaps(a, b)
  {
    if a.length <= b.length {
      NestedAbove(a, b, common);
    } else {
      NestedAbove(b, a, common);
    }
  }

  lemma NestedAbove(a: Network, b: Network, common: Network)
    requires a.Contains(common) && b.Contains(common) && a.length <= b.length
    ensures a.Contains(b)
  {
    ContainedHasSameShift(a, common);
    ContainedHasSameShift(b, common);
    var k: nat := b.length - a.length;
    ShiftTwice(common.first, b.HostBits(), k);
    ShiftTwice(b.first, b.HostBits(), k);
    SameShiftIsContained(a, b);
  }

  // ---- the full pass ----

  /** No two visible routes with preferences that overlap differ in preference. */
  lemma NoMixedVisibleOverlaps(prefs: Preferences, db: Routes, x: string, y: string)
    requires RoutesOk(db) && x in db && y in db
    requires var after := Evaluated(prefs, db, Rows(db));
             && after[x].source in prefs && after[y].source in prefs && Overlaps(after[x].prefix, after[y].prefix)
             && after[x].status == Visible && after[y].status == Visible
    ensures prefs[db[x].source] == prefs[db[y].source]
  {
    assert db[x] in Rows(db) && db[y] in Rows(db);
    assert Overlaps(db[y].prefix, db[x].prefix);
  }

  /** The routes of one set are also in the other, whatever their status. */
  ghost predicate Within(rows: set<Route>, rows': set<Route>) {
    forall q | q in rows :: exists status :: q.(status := status) in rows'
  }

  lemma OutrankedIgnoresStatus(prefs: Preferences, rows: set<Route>, rows': set<Route>, r: Route, status: RoutePreferenceStatus)
    requires r.source in prefs && Within(rows, rows')
    ensures Outranked(prefs, rows, r) ==> Outranked(prefs, rows', r.(status := status))
  {
    if Outranked(prefs, rows, r) {
      var q :| q in rows && q.source in prefs && Overlaps(q.prefix, r.prefix) && prefs[q.source] > prefs[r.source];
      var s :| q.(status := s) in rows';
      assert q.(status := s).source == q.source && q.(status := s).prefix == q.prefix;
    }
  }

  lemma RightIgnoresStatus(prefs: Preferences, rows: set<Route>, rows': set<Route>, r: Route, status: RoutePreferenceStatus)
    requires Within(rows, rows') && Within(rows', rows)
    ensures RightStatus(prefs, rows', r.(status := status)) == RightStatus(prefs, rows, r)
  {
    if r.source in prefs {
      OutrankedIgnoresStatus(prefs, rows, rows', r, status);
      OutrankedIgnoresStatus(prefs, rows', rows, r.(status := status), r.status);
    }
  }

  lemma EvaluatedHasSameRoutes(prefs: Preferences, db: Routes)
    requires RoutesOk(db)
    ensures var after := Evaluated(prefs, db, Rows(db)); Within(Rows(db), Rows(after)) && Within(Rows(after), Rows(db))
  {
    var after := Evaluated(prefs, db, Rows(db));
    forall q | q in Rows(db)
      ensures exists status :: q.(status := status) in Rows(after)
    {
      assert after[q.pk] in Rows(after) && after[q.pk] == q.(status := after[q.pk].status);
    }
    forall q | q in Rows(after)
      ensures exists status :: q.(status := status) in Rows(db)
    {
      assert db[q.pk] in Rows(db) && db[q.pk] == q.(status := db[q.pk].status);
    }
  }

  lemma RightAfterwards(prefs: Preferences, db: Routes, pk: string)
    requires RoutesOk(db) && pk in db
    ensures var after := Evaluated(prefs, db, Rows(db)); RightStatus(prefs, Rows(after), after[pk]) == after[pk].status
  {
    var after := Evaluated(prefs, db, Rows(db));
    EvaluatedHasSameRoutes(prefs, db);
    assert db[pk] in Rows(db);
    var right := RightStatus(prefs, Rows(db), db[pk]);
    assert after[pk] == db[pk].(status := right);
    RightIgnoresStatus(prefs, Rows(db), Rows(after), db[pk], right);
  }

  lemma RightIsUnchanged(prefs: Preferences, db: Routes)
    requires forall pk | pk in db :: RightStatus(prefs, Rows(db), db[pk]) == db[pk].status
    ensures Evaluated(prefs, db, Rows(db)) == db
  {
  }

  /** A second full pass changes nothing. */
  lemma FullPassIsStable(prefs: Preferences, db: Routes)
    requires RoutesOk(db)
    ensures var after := Evaluated(prefs, db, Rows(db)); Evaluated(prefs, after, Rows(after)) == after
  {
    var after := Evaluated(prefs, db, Rows(db));
    forall pk | pk in after
      ensures RightStatus(prefs, Rows(after), after[pk]) == after[pk].status
    {
      RightAfterwards(prefs, db, pk);
    }
    RightIsUnchanged(prefs, after);
  }

  // ---- the pass around changed prefixes ----

  /** Whatever the pass around some prefixes suppresses, the full pass suppresses too. */
  lemma PartialSuppressesNoMore(prefs: Preferences, db: Routes, prefixes: seq<Network>, r: Route)
    requires r in Around(db, prefixes) && RightStatus(prefs, Around(db, prefixes), r) == Suppressed
    ensures RightStatus(prefs, Rows(db), r) == Suppressed
  {
  }

  /** For a route equal to or more specific than a changed prefix, both passes agree. */
  lemma PartialIsExactBelow(prefs: Preferences, db: Routes, prefixes: seq<Network>, r: Route, p: Network)
    requires r in Rows(db) && p in prefixes && p.Contains(r.prefix)
    ensures r in Around(db, prefixes)
    ensures RightStatus(prefs, Around(db, prefixes), r) == RightStatus(prefs, Rows(db), r)
  {
    if r.source in prefs && Outranked(prefs, Rows(db), r) {
      var q :| q in Rows(db) && q.source in prefs && Overlaps(q.prefix, r.prefix) && prefs[q.source] > prefs[r.source];
      if q.prefix.Contains(r.prefix) {
        NestedOrDisjoint(q.prefix, p, r.prefix);
      }
      assert q in Around(db, prefixes);
    }
  }

  ghost predicate Outranks(prefs: Preferences, q: Route, r: Route)
    requires r.source in prefs
  {
    q.source in prefs && Overlaps(q.prefix, r.prefix) && prefs[q.source] > prefs[r.source]
  }

  /** The passes differ on a route if and only if it is outranked, and all that outranks it lies strictly inside
      its prefix and beside every changed prefix. */
  lemma PartialMissesExactly(prefs: Preferences, db: Routes, prefixes: seq<Network>, r: Route)
    requires r in Around(db, prefixes) && r.source in prefs
    ensures RightStatus(prefs, Around(db, prefixes), r) != RightStatus(prefs, Rows(db), r)
        <==> && (exists q :: q in Rows(db) && Outranks(prefs, q, r))
             && forall q | q in Rows(db) && Outranks(prefs, q, r) ::
                  !q.prefix.Contains(r.prefix) && forall p | p in prefixes :: !Overlaps(q.prefix, p)
  {
    forall q | q in Rows(db) && Outranks(prefs, q, r) && q.prefix.Contains(r.prefix)
      ensures q in Around(db, prefixes)
    {
      var p :| p in prefixes && Overlaps(r.prefix, p);
      if p.Contains(r.prefix) {
        NestedOrDisjoint(q.prefix, p, r.prefix);
      } else {
        assert q.prefix.Contains(p);
      }
    }
    assert Outranked(prefs, Rows(db), r) <==> exists q :: q in Rows(db) && Outranks(prefs, q, r);
    assert Outranked(prefs, Around(db, prefixes), r) <==> exists q :: q in Around(db, prefixes) && Outranks(prefs, q, r);
  }

  /** For a route that strictly covers every changed prefix around it, the partial pass can miss
      the route that outranks it: here x is outranked by y, which lies beside the changed prefix p. */
  lemma PartialMissesAbove(prefs: Preferences, x: Route, y: Route, p: Network)
    requires x.pk != y.pk && x.source in prefs && y.source in prefs && prefs[y.source] > prefs[x.source]
    requires x.prefix.Contains(p) && x.prefix.Contains(y.prefix) && !Overlaps(y.prefix, p)
    ensures var db := map[x.pk := x, y.pk := y];
            && x in Around(db, [p])
            && RightStatus(prefs, Around(db, [p]), x) == Visible && RightStatus(prefs, Rows(db), x) == Suppressed
  {
    var db: Routes := map[x.pk := x, y.pk := y];
    assert db[x.pk] in Rows(db) && db[y.pk] in Rows(db);
    assert p in [p];
    assert y !in Around(db, [p]);
  }

  lemma PartialMissesAboveHappens()
    ensures exists x: Network, y: Network, p: Network :: x.Contains(p) && x.Contains(y) && !Overlaps(y, p)
  {
    assert Pow2(7) == 128 && Pow2(8) == 256;
    ByteIsEightBits();
    BlockExists(1, 24);
    BlockExists(2, 25);
    BlockExists(3, 25);
    var x, y, p := Prefix(V4, 256, 24), Prefix(V4, 256, 25), Prefix(V4, 384, 25);
    assert x.WellFormed() && y.WellFormed() && p.WellFormed();
    var nx: Network, ny: Network, np: Network := x, y, p;
    assert nx.Contains(np) && nx.Contains(ny) && !Overlaps(ny, np);
  }

  lemma BlockExists(q: nat, length: nat)
    requires q <= 255 && 8 <= length <= 32
    ensures Prefix(V4, q * Pow2(32 - length), length).WellFormed()
  {
    var k: nat := 32 - length;
    NextMultiple(q, Pow2(k));
    ShiftUnique(q * Pow2(k), k, q);
    Pow2Add(length, k);
    ByteIsEightBits();
    if length > 8 { Pow2Grows(8, length); }
    MulOrder(q, 255, Pow2(k));
    MulOrder(256, Pow2(length), Pow2(k));
    NextMultiple(255, Pow2(k));
  }
}
