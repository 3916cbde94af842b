/** The three bulk status updates: which rows they change and which journal entries they make. */
module StatusUpdates {
  import opened Journal
  import opened Store

  /** One object of a status update list. `was` holds the old status next to the two untouched ones;
      `now` holds the new status next to the same two. */
  datatype StatusChange = StatusChange(key: Key, text: string, was: Statuses, now: Statuses)

  predicate Appeared(c: StatusChange) {
    ObjectIsVisible(c.now) && !ObjectIsVisible(c.was)
  }

  predicate Disappeared(c: StatusChange) {
    !ObjectIsVisible(c.now) && ObjectIsVisible(c.was)
  }

  /** Visible as far as RPKI and the scope filter are concerned. */
  predicate OtherwiseVisible(c: StatusChange) {
    ObjectIsVisible(c.now.(pref := Visible))
  }

  function KeysOf(cs: seq<StatusChange>): set<Key> {
    set c | c in cs :: c.key
  }

  function PksOf(cs: seq<StatusChange>): set<string> {
    set c | c in cs :: c.key.rpslPk
  }

  function SetRpki(table: Table, keys: set<Key>, status: RpkiStatus): Table {
    map k | k in table :: if k in keys then table[k].(statuses := table[k].statuses.(rpki := status)) else table[k]
  }

  function SetPref(table: Table, keys: set<Key>, status: RoutePreferenceStatus): Table {
    map k | k in table :: if k in keys then table[k].(statuses := table[k].statuses.(pref := status)) else table[k]
  }

  /** The scope filter update is keyed on rpsl_pk alone, so it reaches every class and source. */
  function SetScope(table: Table, pks: set<string>, status: ScopeFilterStatus): Table {
    map k | k in table ::
      if k.rpslPk in pks then table[k].(statuses := table[k].statuses.(scope := status)) else table[k]
  }

  function RecordSelected(cfg: Config, s: Session, cs: seq<StatusChange>, pick: StatusChange -> bool,
                          op: Operation, origin: Origin): Session
  {
    if cs == [] then s
    else
      var rest := RecordSelected(cfg, s, cs[..|cs| - 1], pick, op, origin);
      var c := cs[|cs| - 1];
      if pick(c) then RecordOperation(cfg, rest, op, c.key, c.text, origin) else rest
  }

  function RpkiTable(table: Table, valid: seq<StatusChange>, invalid: seq<StatusChange>, notFound: seq<StatusChange>): Table {
    SetRpki(SetRpki(SetRpki(table, KeysOf(valid), Valid), KeysOf(invalid), Invalid), KeysOf(notFound), NotFound)
  }

  function UpdateRpki(cfg: Config, s: Session, valid: seq<StatusChange>, invalid: seq<StatusChange>,
                      notFound: seq<StatusChange>): Session
  {
    var updated := WithTable(s, RpkiTable(s.db.table, valid, invalid, notFound));
    var added := RecordSelected(cfg, updated, valid + notFound, Appeared, AddOrUpdate, RpkiOrigin);
    RecordSelected(cfg, added, invalid, Disappeared, Delete, RpkiOrigin)
  }

  function ScopeTable(table: Table, inScope: seq<StatusChange>, outAs: seq<StatusChange>, outPrefix: seq<StatusChange>): Table {
    SetScope(SetScope(SetScope(table, PksOf(inScope), InScope), PksOf(outAs), OutScopeAs), PksOf(outPrefix), OutScopePrefix)
  }

  function UpdateScope(cfg: Config, s: Session, inScope: seq<StatusChange>, outAs: seq<StatusChange>,
                       outPrefix: seq<StatusChange>): Session
  {
    var updated := WithTable(s, ScopeTable(s.db.table, inScope, outAs, outPrefix));
    var added := RecordSelected(cfg, updated, inScope, Appeared, AddOrUpdate, ScopeOrigin);
    RecordSelected(cfg, added, outAs + outPrefix, Disappeared, Delete, ScopeOrigin)
  }

  function PrefTable(table: Table, visible: seq<StatusChange>, suppressed: seq<StatusChange>): Table {
    SetPref(SetPref(table, KeysOf(visible), Visible), KeysOf(suppressed), Suppressed)
  }

  /** Here the journal entries are made first and the rows changed afterwards. */
  function UpdatePref(cfg: Config, s: Session, visible: seq<StatusChange>, suppressed: seq<StatusChange>): Session {
    var added := RecordSelected(cfg, s, visible, OtherwiseVisible, AddOrUpdate, PrefOrigin);
    var removed := RecordSelected(cfg, added, suppressed, OtherwiseVisible, Delete, PrefOrigin);
    WithTable(removed, PrefTable(s.db.table, visible, suppressed))
  }

  lemma RecordSelectedNext(cfg: Config, s: Session, cs: seq<StatusChange>, pick: StatusChange -> bool,
                           op: Operation, origin: Origin, i: nat)
    requires i < |cs|
    ensures RecordSelected(cfg, s, cs[..i + 1], pick, op, origin)
         == var rest := RecordSelected(cfg, s, cs[..i], pick, op, origin);
            if pick(cs[i]) then RecordOperation(cfg, rest, op, cs[i].key, cs[i].text, origin) else rest
  {
    assert cs[..i + 1][..i] == cs[..i];
  }
}
