/** The route preference validator: a tree of route prefixes, filled and searched in loops. */
module RoutePrefValidator {
  import opened Journal
  import opened Store
  import opened RoaTrie
  import opened RoutePref

  /** The routes at one prefix: row key to preference and current status. */
  type NodeData = map<string, (int, RoutePreferenceStatus)>

  predicate Consistent(rows: seq<Route>) {
    forall a, b | a in rows && b in rows && a.pk == b.pk :: a == b
  }

  /** The highest preference; any number when there is none. */
  method Highest(preferences: Preferences) returns (m: int)
    ensures forall s | s in preferences :: preferences[s] <= m
    ensures |preferences| > 0 ==> m in preferences.Values
  {
    m := 0;
    var todo := preferences.Keys;
    while todo != {}
      invariant todo <= preferences.Keys
      invariant forall s | s in preferences.Keys - todo :: preferences[s] <= m
      invariant todo != preferences.Keys ==> m in preferences.Values
      decreases todo
    {
      var s :| s in todo;
      if todo == preferences.Keys || preferences[s] > m { m := preferences[s]; }
      todo := todo - {s};
    }
  }

  predicate InTree(prefs: Preferences, tree: map<Network, NodeData>, r: Route) {
    && r.source in prefs && r.prefix in tree && r.pk in tree[r.prefix]
    && tree[r.prefix][r.pk] == (prefs[r.source], r.status)
  }

  predicate IsEntry(prefs: Preferences, tree: map<Network, NodeData>, r: Route, p: Network, pk: string) {
    r.prefix == p && r.pk == pk && InTree(prefs, tree, r)
  }

  /** The tree holds exactly the routes with a preference, each at its prefix. */
  ghost predicate TreeOk(prefs: Preferences, tree: map<Network, NodeData>, rows: set<Route>) {
    && (forall r | r in rows && r.source in prefs :: InTree(prefs, tree, r))
    && (forall p, pk | p in tree && pk in tree[p] :: exists r :: r in rows && IsEntry(prefs, tree, r, p, pk))
  }

  lemma AddedEntry(prefs: Preferences, tree: map<Network, NodeData>, rows: set<Route>, route: Route, data: NodeData)
    requires TreeOk(prefs, tree, rows) && route.source in prefs
    requires forall r | r in rows && r.pk == route.pk :: r == route
    requires data == if route.prefix in tree then tree[route.prefix] else map[]
    ensures TreeOk(prefs, tree[route.prefix := data[route.pk := (prefs[route.source], route.status)]], rows + {route})
  {
    var tree' := tree[route.prefix := data[route.pk := (prefs[route.source], route.status)]];
    forall p, pk | p in tree' && pk in tree'[p]
      ensures exists r :: r in rows + {route} && IsEntry(prefs, tree', r, p, pk)
    {
      if p == route.prefix && pk == route.pk {
        assert IsEntry(prefs, tree', route, p, pk);
      } else {
        assert p in tree && pk in tree[p] && tree'[p][pk] == tree[p][pk];
        var r :| r in rows && IsEntry(prefs, tree, r, p, pk);
        assert IsEntry(prefs, tree', r, p, pk);
      }
    }
  }

  class RoutePreferenceValidator {
    const sourcePreferences: Preferences
    const maxPreference: int
    var rtree: map<Network, NodeData>
    var excludedCurrentlySuppressed: seq<string>
    ghost var rows: set<Route>

    ghost predicate Valid()
      reads this
    {
      && (forall s | s in sourcePreferences :: sourcePreferences[s] <= maxPreference)
      && TreeOk(sourcePreferences, rtree, rows)
      && (forall pk :: pk in excludedCurrentlySuppressed
                       <==> exists r :: r in rows && r.pk == pk && r.source !in sourcePreferences && r.status != Visible)
    }

    constructor (sourcePreferences: Preferences, routes: seq<Route>)
      requires Consistent(routes)
      ensures Valid() && rows == (set r | r in routes) && this.sourcePreferences == sourcePreferences
    {
      var highest := Highest(sourcePreferences);
      this.sourcePreferences, maxPreference := sourcePreferences, highest;
      rtree, excludedCurrentlySuppressed, rows := map[], [], {};
      new;
      for i := 0 to |routes|
        invariant Valid() && rows == set r | r in routes[..i]
      {
        assert routes[i] in routes && forall r | r in routes[..i] :: r in routes;
        AddRoute(routes[i]);
        assert forall r :: r in routes[..i + 1] <==> r in routes[..i] || r == routes[i];
      }
      assert routes[..|routes|] == routes;
    }

    method AddRoute(route: Route)
      requires Valid() && forall r | r in rows && r.pk == route.pk :: r == route
      modifies this
      ensures Valid() && rows == old(rows) + {route}
    {
      if route.source !in sourcePreferences {
        if route.status != Visible {
          excludedCurrentlySuppressed := excludedCurrentlySuppressed + [route.pk];
        }
        rows := rows + {route};
      } else {
        var data: NodeData := if route.prefix in rtree then rtree[route.prefix] else map[];
        AddEntry(route, data);
      }
    }

    method AddEntry(route: Route, data: NodeData)
      requires Valid() && route.source in sourcePreferences
      requires forall r | r in rows && r.pk == route.pk :: r == route
      requires data == if route.prefix in rtree then rtree[route.prefix] else map[]
      modifies this
      ensures Valid() && rows == old(rows) + {route}
    {
      AddedEntry(sourcePreferences, rtree, rows, route, data);
      rtree := rtree[route.prefix := data[route.pk := (sourcePreferences[route.source], route.status)]];
      rows := rows + {route};
    }

    /** The nodes that contain the prefix and those it contains, itself included. */
    ghost function Overlapping(p: Network): set<Network>
      reads this
    {
      set q | q in rtree && Overlaps(q, p)
    }

    method SearchOverlapping(p: Network) returns (nodes: set<Network>)
      ensures nodes == Overlapping(p)
    {
      var covered := set q | q in rtree && p.Contains(q);
      var covering := set q | q in rtree && q.Contains(p);
      nodes := covered + covering;
    }

    predicate Bounded()
      reads this
    {
      forall q, pk | q in rtree && pk in rtree[q] :: rtree[q][pk].0 <= maxPreference
    }

    lemma ValidIsBounded()
      requires Valid()
      ensures Bounded()
    {
      forall q, pk | q in rtree && pk in rtree[q]
        ensures rtree[q][pk].0 <= maxPreference
      {
        var r :| r in rows && IsEntry(sourcePreferences, rtree, r, q, pk);
      }
    }

    predicate Beaten(preference: int, nodes: set<Network>)
      reads this
    {
      exists q, pk :: q in nodes && q in rtree && pk in rtree[q] && rtree[q][pk].0 > preference
    }

    /** The shortcut for the highest preference changes nothing. */
    method EvaluateRoute(preference: int, nodes: set<Network>) returns (status: RoutePreferenceStatus)
      requires Bounded() && nodes <= rtree.Keys
      ensures status == Suppressed <==> Beaten(preference, nodes)
    {
      if preference == maxPreference {
        return Visible;
      }
      var todo := nodes;
      while todo != {}
        invariant todo <= nodes
        invariant forall q, pk | q in nodes - todo && pk in rtree[q] :: rtree[q][pk].0 <= preference
        decreases todo
      {
        var q :| q in todo;
        var pks := rtree[q].Keys;
        while pks != {}
          invariant pks <= rtree[q].Keys
          invariant forall pk | pk in rtree[q].Keys - pks :: rtree[q][pk].0 <= preference
          decreases pks
        {
          var pk :| pk in pks;
          if rtree[q][pk].0 > preference { return Suppressed; }
          pks := pks - {pk};
        }
        todo := todo - {q};
      }
      status := Visible;
    }

    /** What evaluating one entry of a node against the overlapping nodes finds. */
    predicate FoundWrong(p: Network, pk: string, nodes: set<Network>, status: RoutePreferenceStatus)
      reads this
    {
      && p in rtree && pk in rtree[p] && rtree[p][pk].1 != status
      && (Beaten(rtree[p][pk].0, nodes) <==> status == Suppressed)
    }

    ghost predicate ShouldChange(pk: string, status: RoutePreferenceStatus)
      reads this
    {
      exists r :: r in rows && r.pk == pk && r.source in sourcePreferences
                  && r.status != status && RightStatus(sourcePreferences, rows, r) == status
    }

    lemma EntriesAreOutranking(r: Route)
      requires Valid() && r in rows && r.source in sourcePreferences
      ensures Outranked(sourcePreferences, rows, r) <==> Beaten(sourcePreferences[r.source], Overlapping(r.prefix))
    {
      if Outranked(sourcePreferences, rows, r) {
        var q :| q in rows && q.source in sourcePreferences && Overlaps(q.prefix, r.prefix)
                 && sourcePreferences[q.source] > sourcePreferences[r.source];
        assert InTree(sourcePreferences, rtree, q) && q.prefix in Overlapping(r.prefix);
      }
      if Beaten(sourcePreferences[r.source], Overlapping(r.prefix)) {
        var q, pk :| q in Overlapping(r.prefix) && pk in rtree[q] && rtree[q][pk].0 > sourcePreferences[r.source];
        var other :| other in rows && IsEntry(sourcePreferences, rtree, other, q, pk);
        assert Overlaps(other.prefix, r.prefix);
      }
    }

    lemma FoundIsChange(p: Network, pk: string, status: RoutePreferenceStatus)
      requires Valid() && forall a, b | a in rows && b in rows && a.pk == b.pk :: a == b
      ensures FoundWrong(p, pk, Overlapping(p), status) <==> ChangeAt(p, pk, status)
    {
      if FoundWrong(p, pk, Overlapping(p), status) {
        var r :| r in rows && IsEntry(sourcePreferences, rtree, r, p, pk);
        EntriesAreOutranking(r);
        assert r.status != status;
      }
      if ChangeAt(p, pk, status) {
        var r :| r in rows && r.pk == pk && r.source in sourcePreferences && r.prefix == p
                 && r.status != status && RightStatus(sourcePreferences, rows, r) == status;
        assert InTree(sourcePreferences, rtree, r);
        EntriesAreOutranking(r);
      }
    }

    /** Exactly the routes whose status is not the right one, on the list of their right status. */
    method ValidateKnownRoutes() returns (toBeVisible: seq<string>, toBeSuppressed: seq<string>)
      requires Valid() && forall a, b | a in rows && b in rows && a.pk == b.pk :: a == b
      ensures forall pk :: pk in toBeVisible <==> ShouldChange(pk, Visible)
      ensures forall pk :: pk in toBeSuppressed <==> ShouldChange(pk, Suppressed)
    {
      toBeVisible, toBeSuppressed := [], [];
      if |sourcePreferences| == 0 {
        assert sourcePreferences == map[];
        return;
      }
      ValidIsBounded();
      var nodes := rtree.Keys;
      while nodes != {}
        invariant nodes <= rtree.Keys
        invariant forall pk :: pk in toBeVisible <==> ChangeOutside(nodes, pk, Visible)
        invariant forall pk :: pk in toBeSuppressed <==> ChangeOutside(nodes, pk, Suppressed)
        decreases nodes
      {
        var p :| p in nodes;
        var visible, suppressed := ValidateNode(p);
        forall pk, status
          ensures FoundWrong(p, pk, Overlapping(p), status) <==> ChangeAt(p, pk, status)
        {
          FoundIsChange(p, pk, status);
        }
        ghost var rest := nodes - {p};
        forall pk, status: RoutePreferenceStatus
          ensures ChangeOutside(rest, pk, status) <==> ChangeOutside(nodes, pk, status) || ChangeAt(p, pk, status)
        {
        }
        toBeVisible, toBeSuppressed := toBeVisible + visible, toBeSuppressed + suppressed;
        nodes := nodes - {p};
      }
      forall pk, status: RoutePreferenceStatus
        ensures ChangeOutside({}, pk, status) <==> ShouldChange(pk, status)
      {
      }
    }

    ghost predicate ChangeAt(p: Network, pk: string, status: RoutePreferenceStatus)
      reads this
    {
      exists r :: r in rows && r.pk == pk && r.source in sourcePreferences && r.prefix == p
                  && r.status != status && RightStatus(sourcePreferences, rows, r) == status
    }

    ghost predicate ChangeOutside(nodes: set<Network>, pk: string, status: RoutePreferenceStatus)
      reads this
    {
      exists r :: r in rows && r.pk == pk && r.source in sourcePreferences && r.prefix !in nodes
                  && r.status != status && RightStatus(sourcePreferences, rows, r) == status
    }

    ghost predicate Matching(db: Routes)
      reads this
    {
      RoutesOk(db) && rows <= Rows(db)
    }

    /** The lists of the validator hold a route of the database exactly when its status has to change. */
    lemma ChangesOf(db: Routes, pk: string, visible: seq<string>, suppressed: seq<string>)
      requires Valid() && Matching(db) && pk in db
      requires pk in visible <==> ShouldChange(pk, Visible)
      requires pk in suppressed <==> ShouldChange(pk, Suppressed)
      ensures var r := db[pk]; var right := if r in rows then RightStatus(sourcePreferences, rows, r) else r.status;
              && (pk in suppressed <==> right != r.status && right == Suppressed)
              && (pk in visible + excludedCurrentlySuppressed <==> right != r.status && right == Visible)
    {
      assert forall r | r in rows && r.pk == pk :: r == db[pk];
    }

    method ValidateNode(p: Network) returns (toBeVisible: seq<string>, toBeSuppressed: seq<string>)
      requires Bounded() && p in rtree
      ensures forall pk :: pk in toBeVisible <==> FoundWrong(p, pk, Overlapping(p), Visible)
      ensures forall pk :: pk in toBeSuppressed <==> FoundWrong(p, pk, Overlapping(p), Suppressed)
    {
      toBeVisible, toBeSuppressed := [], [];
      var nodes := SearchOverlapping(p);
      var pks := rtree[p].Keys;
      while pks != {}
        invariant pks <= rtree[p].Keys
        invariant forall pk :: pk in toBeVisible <==> pk !in pks && FoundWrong(p, pk, nodes, Visible)
        invariant forall pk :: pk in toBeSuppressed <==> pk !in pks && FoundWrong(p, pk, nodes, Suppressed)
        decreases pks
      {
        var pk :| pk in pks;
        var (preference, currentStatus) := rtree[p][pk];
        var newStatus := EvaluateRoute(preference, nodes);
        if newStatus != currentStatus {
          if newStatus == Suppressed {
            toBeSuppressed := toBeSuppressed + [pk];
          } else {
            toBeVisible := toBeVisible + [pk];
          }
        }
        pks := pks - {pk};
      }
    }
  }

  // ---- the update of the database ----

  /** The configured preference of every source, if it has one. */
  type Settings = map<string, Option<int>>

  function PreferencesOf(settings: Settings): Preferences {
    map s | s in settings && settings[s].Some? :: settings[s].value
  }

  /** The early exit looks for a preference that is set and not zero. */
  predicate AnyNonZero(settings: Settings) {
    exists s :: s in settings && settings[s].Some? && settings[s].value != 0
  }

  /** The routes that are evaluated: all of them without a filter, or with one that is too long. */
  ghost function Considered(db: Routes, filter: seq<Network>): set<Route> {
    if |filter| == 0 || |filter| > MAX_FILTER_PREFIX_LEN then Rows(db) else Around(db, filter)
  }

  class RouteTable {
    var routes: Routes

    method QueryAll() returns (result: seq<Route>)
      ensures forall r :: r in result <==> r in Rows(routes)
    {
      result := [];
      var pks := routes.Keys;
      while pks != {}
        invariant pks <= routes.Keys
        invariant forall r :: r in result <==> exists pk :: pk in routes.Keys - pks && routes[pk] == r
        decreases pks
      {
        var pk :| pk in pks;
        result := result + [routes[pk]];
        pks := pks - {pk};
      }
    }

    method QueryIpAny(prefix: Network) returns (result: seq<Route>)
      ensures forall r :: r in result <==> r in Rows(routes) && Overlaps(r.prefix, prefix)
    {
      result := [];
      var all := QueryAll();
      for i := 0 to |all|
        invariant forall r :: r in result <==> r in all[..i] && Overlaps(r.prefix, prefix)
      {
        if Overlaps(all[i].prefix, prefix) { result := result + [all[i]]; }
        assert all[..i + 1] == all[..i] + [all[i]];
      }
      assert all[..|all|] == all;
    }

    method SetStatus(toBeVisible: seq<string>, toBeSuppressed: seq<string>)
      modifies this
      ensures routes.Keys == old(routes.Keys)
      ensures forall pk | pk in routes ::
        routes[pk] == if pk in toBeSuppressed then old(routes)[pk].(status := Suppressed)
                      else if pk in toBeVisible then old(routes)[pk].(status := Visible)
                      else old(routes)[pk]
    {
      routes := map pk | pk in routes :: if pk in toBeVisible then routes[pk].(status := Visible) else routes[pk];
      routes := map pk | pk in routes :: if pk in toBeSuppressed then routes[pk].(status := Suppressed) else routes[pk];
    }
  }

  method BuildValidator(table: RouteTable, preferences: Preferences, filter: seq<Network>)
    returns (validator: RoutePreferenceValidator)
    requires RoutesOk(table.routes)
    ensures fresh(validator) && validator.Valid() && validator.sourcePreferences == preferences
    ensures validator.rows == if filter == [] then Rows(table.routes) else Around(table.routes, filter)
  {
    var rows: seq<Route> := [];
    if filter == [] {
      rows := table.QueryAll();
    } else {
      for i := 0 to |filter|
        invariant forall r :: r in rows <==> r in Around(table.routes, filter[..i])
      {
        var more := table.QueryIpAny(filter[i]);
        rows := rows + more;
        assert filter[..i + 1] == filter[..i] + [filter[i]];
      }
      assert filter[..|filter|] == filter;
    }
    validator := new RoutePreferenceValidator(preferences, rows);
  }

  ghost function RightIn(prefs: Preferences, rows: set<Route>, r: Route): RoutePreferenceStatus {
    if r in rows then RightStatus(prefs, rows, r) else r.status
  }

  /** The lists hold a route exactly when its status has to change. */
  ghost predicate Lists(prefs: Preferences, db: Routes, rows: set<Route>, visible: seq<string>, suppressed: seq<string>) {
    forall pk | pk in db ::
      && (pk in suppressed <==> RightIn(prefs, rows, db[pk]) != db[pk].status && RightIn(prefs, rows, db[pk]) == Suppressed)
      && (pk in visible <==> RightIn(prefs, rows, db[pk]) != db[pk].status && RightIn(prefs, rows, db[pk]) == Visible)
  }

  method SaveStatus(table: RouteTable, visible: seq<string>, suppressed: seq<string>, ghost prefs: Preferences, ghost rows: set<Route>)
    requires Lists(prefs, table.routes, rows, visible, suppressed)
    modifies table
    ensures table.routes == Evaluated(prefs, old(table.routes), rows)
  {
    table.SetStatus(visible, suppressed);
  }

  method Revalidate(table: RouteTable, validator: RoutePreferenceValidator)
    requires validator.Valid() && validator.Matching(table.routes)
    modifies table
    ensures table.routes == Evaluated(validator.sourcePreferences, old(table.routes), validator.rows)
  {
    ghost var db, rows, prefs := table.routes, validator.rows, validator.sourcePreferences;
    var visible, suppressed := validator.ValidateKnownRoutes();
    var becomeVisible := visible + validator.excludedCurrentlySuppressed;
    forall pk | pk in db
      ensures pk in suppressed <==> RightIn(prefs, rows, db[pk]) != db[pk].status && RightIn(prefs, rows, db[pk]) == Suppressed
      ensures pk in becomeVisible <==> RightIn(prefs, rows, db[pk]) != db[pk].status && RightIn(prefs, rows, db[pk]) == Visible
    {
      validator.ChangesOf(db, pk, visible, suppressed);
    }
    SaveStatus(table, becomeVisible, suppressed, prefs, rows);
  }

  /** Every route looked at gets the right status; nothing happens unless some preference is not zero. */
  ghost function Updated(settings: Settings, db: Routes, filter: seq<Network>): Routes {
    if AnyNonZero(settings) then Evaluated(PreferencesOf(settings), db, Considered(db, filter)) else db
  }

  method UpdateRoutePreferenceStatus(table: RouteTable, settings: Settings, filter: seq<Network>)
    requires RoutesOk(table.routes)
    modifies table
    ensures table.routes == Updated(settings, old(table.routes), filter)
  {
    if !AnyNonZero(settings) { return; }
    var prefixes := if |filter| > MAX_FILTER_PREFIX_LEN then [] else filter;
    var validator := BuildValidator(table, PreferencesOf(settings), prefixes);
    Revalidate(table, validator);
  }

  /** The route overlaps one of the prefixes. */
  ghost predicate Touches(r: Route, prefixes: seq<Network>) {
    exists p :: p in prefixes && (r.prefix.Contains(p) || p.Contains(r.prefix))
  }

  ghost predicate Preferred(settings: Settings, q: Route, r: Route) {
    && q.source in settings && settings[q.source].Some? && r.source in settings && settings[r.source].Some?
    && settings[q.source].value > settings[r.source].value
    && (q.prefix.Contains(r.prefix) || r.prefix.Contains(q.prefix))
  }

  /** What an update leaves. Nothing, unless some preference is set and not zero. Without changed prefixes, or with more
      than 5000, a route ends suppressed exactly when an overlapping route is preferred; otherwise this holds of the
      routes that overlap a changed prefix, among each other, and all others stay as they are. */
  lemma UpdateMeans(settings: Settings, db: Routes, filter: seq<Network>, pk: string)
    requires RoutesOk(db) && pk in db
    ensures Updated(settings, db, filter).Keys == db.Keys
    ensures var r, after := db[pk], Updated(settings, db, filter)[pk];
            && after == r.(status := after.status)
            && ((forall s | s in settings && settings[s].Some? :: settings[s].value == 0) ==> after == r)
            && ((exists s :: s in settings && settings[s].Some? && settings[s].value != 0) ==>
                  if 0 < |filter| <= 5000 && !Touches(r, filter) then after == r
                  else after.status == Suppressed
                       <==> exists q :: && q in db.Values && Preferred(settings, q, r)
                                        && (0 < |filter| <= 5000 ==> Touches(q, filter)))
  {
    var r, rows := db[pk], Considered(db, filter);
    assert forall q :: q in db.Values <==> q in Rows(db);
    forall q | q in Rows(db)
      ensures q in rows <==> (0 < |filter| <= 5000 ==> Touches(q, filter))
    {
    }
    if AnyNonZero(settings) && r in rows {
      var prefs := PreferencesOf(settings);
      assert r.source in prefs ==> forall q | q in rows :: Outranks(prefs, q, r) <==> Preferred(settings, q, r);
      assert r.source in prefs ==> (Outranked(prefs, rows, r) <==> exists q :: q in rows && Outranks(prefs, q, r));
    }
  }

  // ---- the same preference everywhere ----

  predicate SamePreference(settings: Settings) {
    forall s, t | s in settings && t in settings && settings[s].Some? && settings[t].Some? :: settings[s] == settings[t]
  }

  predicate AllVisible(db: Routes) {
    forall pk | pk in db :: db[pk].status == Visible
  }

  /** With the same preference wherever one is set, an update of all routes makes them all visible
      if and only if that preference is not zero, or they were visible before. */
  lemma ResetsExactly(settings: Settings, db: Routes)
    requires SamePreference(settings) && RoutesOk(db)
    ensures AllVisible(Updated(settings, db, [])) <==> AnyNonZero(settings) || AllVisible(db)
  {
    if AnyNonZero(settings) {
      forall pk | pk in db
        ensures Updated(settings, db, [])[pk].status == Visible
      {
        assert db[pk] in Rows(db);
      }
    }
  }

  /** All preferences set to zero: a suppressed route stays suppressed. */
  lemma ZeroResetsNothing(r: Route)
    requires r.status == Suppressed
    ensures var settings, db := map["TEST" := Some(0)], map[r.pk := r];
            SamePreference(settings) && RoutesOk(db) && !AllVisible(Updated(settings, db, []))
  {
    var settings: Settings, db: Routes := map["TEST" := Some(0)], map[r.pk := r];
    assert r.pk in db && db[r.pk].status == Suppressed;
    assert !AnyNonZero(settings) && !AllVisible(db);
  }
}
