/** What the three bulk status updates leave: which status each row ends with, and which entries the journal gets. */
module StatusOutcomes {
  import opened Journal
  import opened Store
  import opened StatusUpdates
  import opened Visibility
  import Text

  /** Listed rows have the new statuses they were listed with and their old text; all other rows are as they were. */
  ghost predicate BecomesNow(table: Table, after: Table, listed: seq<StatusChange>) {
    && after.Keys == table.Keys
    && (forall c | c in listed :: c.key in table && after[c.key] == Row(table[c.key].text, c.now))
    && (forall k | k in table && k !in KeysOf(listed) :: after[k] == table[k])
  }

  lemma TableAfterRpki(cfg: Config, s: Session, valid: seq<StatusChange>, invalid: seq<StatusChange>,
                       notFound: seq<StatusChange>)
    ensures UpdateRpki(cfg, s, valid, invalid, notFound).db.table == RpkiTable(s.db.table, valid, invalid, notFound)
  {
    var updated := WithTable(s, RpkiTable(s.db.table, valid, invalid, notFound));
    SelectedKeepsTable(cfg, updated, valid + notFound, Appeared, AddOrUpdate, RpkiOrigin);
    SelectedKeepsTable(cfg, RecordSelected(cfg, updated, valid + notFound, Appeared, AddOrUpdate, RpkiOrigin),
                       invalid, Disappeared, Delete, RpkiOrigin);
  }

  /** An RPKI update stores valid for the valid list, invalid for the invalid list and not found for the third. */
  lemma RpkiStatusesBecome(cfg: Config, s: Session, valid: seq<StatusChange>, invalid: seq<StatusChange>,
                           notFound: seq<StatusChange>)
    requires RpkiListsOk(s.db.table, valid, invalid, notFound) && KeysOf(valid) !! KeysOf(notFound)
    ensures BecomesNow(s.db.table, UpdateRpki(cfg, s, valid, invalid, notFound).db.table, valid + invalid + notFound)
  {
    TableAfterRpki(cfg, s, valid, invalid, notFound);
    forall c | c in valid + invalid + notFound
      ensures RpkiTable(s.db.table, valid, invalid, notFound)[c.key] == Row(s.db.table[c.key].text, c.now)
    {
      if c in valid { assert c.key in KeysOf(valid); }
      if c in invalid { assert c.key in KeysOf(invalid); }
      if c in notFound { assert c.key in KeysOf(notFound); }
    }
    ListedTogether(valid, invalid, notFound);
  }

  lemma ListedTogether(a: seq<StatusChange>, b: seq<StatusChange>, c: seq<StatusChange>)
    ensures KeysOf(a + b + c) == KeysOf(a) + KeysOf(b) + KeysOf(c)
  {
    assert forall x :: x in a + b + c <==> x in a || x in b || x in c;
  }

  /** A preference update stores visible for the visible list and suppressed for the suppressed list. */
  lemma PrefStatusesBecome(cfg: Config, s: Session, visible: seq<StatusChange>, suppressed: seq<StatusChange>)
    requires TruthfulPref(s.db.table, visible, Visible) && TruthfulPref(s.db.table, suppressed, Suppressed)
    requires KeysOf(visible) !! KeysOf(suppressed)
    ensures BecomesNow(s.db.table, UpdatePref(cfg, s, visible, suppressed).db.table, visible + suppressed)
  {
    forall c | c in visible + suppressed
      ensures PrefTable(s.db.table, visible, suppressed)[c.key] == Row(s.db.table[c.key].text, c.now)
    {
      if c in visible { assert c.key in KeysOf(visible); }
      if c in suppressed { assert c.key in KeysOf(suppressed); }
    }
    ListedTogether(visible, [], suppressed);
    assert visible + [] == visible;
  }

  // ---- the scope filter, which matches on rpsl_pk alone ----

  /** The status of one row after a scope filter update: that of the last list with its rpsl_pk. */
  ghost predicate ScopeBecomes(was: Row, now: Row, inScope: seq<StatusChange>, outAs: seq<StatusChange>,
                               outPrefix: seq<StatusChange>, pk: string)
  {
    && now.text == was.text && now.statuses == was.statuses.(scope := now.statuses.scope)
    && (now.statuses.scope == OutScopePrefix
        <==> pk in PksOf(outPrefix)
             || (was.statuses.scope == OutScopePrefix && pk !in PksOf(inScope) + PksOf(outAs)))
    && (now.statuses.scope == OutScopeAs
        <==> pk !in PksOf(outPrefix)
             && (pk in PksOf(outAs) || (was.statuses.scope == OutScopeAs && pk !in PksOf(inScope))))
  }

  lemma TableAfterScope(cfg: Config, s: Session, inScope: seq<StatusChange>, outAs: seq<StatusChange>,
                        outPrefix: seq<StatusChange>)
    ensures UpdateScope(cfg, s, inScope, outAs, outPrefix).db.table == ScopeTable(s.db.table, inScope, outAs, outPrefix)
  {
    var updated := WithTable(s, ScopeTable(s.db.table, inScope, outAs, outPrefix));
    SelectedKeepsTable(cfg, updated, inScope, Appeared, AddOrUpdate, ScopeOrigin);
    SelectedKeepsTable(cfg, RecordSelected(cfg, updated, inScope, Appeared, AddOrUpdate, ScopeOrigin),
                       outAs + outPrefix, Disappeared, Delete, ScopeOrigin);
  }

  /** Every row, listed or not, gets the status of the last list with its rpsl_pk, and keeps everything else. */
  lemma ScopeStatusesBecome(cfg: Config, s: Session, inScope: seq<StatusChange>, outAs: seq<StatusChange>,
                            outPrefix: seq<StatusChange>)
    ensures var after := UpdateScope(cfg, s, inScope, outAs, outPrefix).db.table;
            && after.Keys == s.db.table.Keys
            && forall k | k in after :: ScopeBecomes(s.db.table[k], after[k], inScope, outAs, outPrefix, k.rpslPk)
  {
    TableAfterScope(cfg, s, inScope, outAs, outPrefix);
  }

  /** A listed object gets the status it is listed with if and only if no later list has its rpsl_pk. */
  lemma ListedScopeExactly(cfg: Config, s: Session, inScope: seq<StatusChange>, outAs: seq<StatusChange>,
                           outPrefix: seq<StatusChange>, c: StatusChange)
    requires ScopeListsOk(s.db.table, inScope, outAs, outPrefix) && c in inScope + outAs + outPrefix
    ensures c.key in UpdateScope(cfg, s, inScope, outAs, outPrefix).db.table
    ensures UpdateScope(cfg, s, inScope, outAs, outPrefix).db.table[c.key].statuses == c.now
        <==> c in outPrefix
             || (c.key.rpslPk !in PksOf(outPrefix) && (c in outAs || c.key.rpslPk !in PksOf(outAs)))
  {
    TableAfterScope(cfg, s, inScope, outAs, outPrefix);
    if c in outPrefix { assert c.key in KeysOf(outPrefix) && c.key.rpslPk in PksOf(outPrefix); }
    if c in outAs { assert c.key in KeysOf(outAs) && c.key.rpslPk in PksOf(outAs); }
    if c in inScope { assert c.key in KeysOf(inScope) && c.key.rpslPk in PksOf(inScope); }
  }

  // ---- the journal entries ----

  /** One entry is about one picked object of the list: its key and its text, with this operation and origin. */
  ghost predicate Tells(e: Entry, cs: seq<StatusChange>, pick: StatusChange -> bool, op: Operation, origin: Origin) {
    exists c :: c in cs && pick(c) && e == Entry(c.key, op, c.text, origin, e.serial)
  }

  ghost predicate HasEntry(entries: seq<Entry>, k: Key, op: Operation) {
    exists e :: e in entries && e.key == k && e.op == op
  }

  /** The entries are those of the picked objects of journaled sources, and no others. */
  ghost predicate EntriesOf(cfg: Config, added: seq<Entry>, cs: seq<StatusChange>, pick: StatusChange -> bool,
                            op: Operation, origin: Origin)
  {
    && (forall e | e in added :: e.key.source in cfg.keepJournal && Tells(e, cs, pick, op, origin))
    && (forall c | c in cs && pick(c) && c.key.source in cfg.keepJournal :: HasEntry(added, c.key, op))
  }

  lemma EntriesGrow(cfg: Config, added: seq<Entry>, e: Entry, cs: seq<StatusChange>, c: StatusChange,
                    pick: StatusChange -> bool, op: Operation, origin: Origin)
    requires EntriesOf(cfg, added, cs, pick, op, origin)
    requires pick(c) && c.key.source in cfg.keepJournal && e == Entry(c.key, op, c.text, origin, e.serial)
    ensures EntriesOf(cfg, added + [e], cs + [c], pick, op, origin)
  {
    assert c in cs + [c] && e in added + [e];
    forall x | x in added
      ensures Tells(x, cs + [c], pick, op, origin)
    {
      var d :| d in cs && pick(d) && x == Entry(d.key, op, d.text, origin, x.serial);
      assert d in cs + [c];
    }
    forall d | d in cs && pick(d) && d.key.source in cfg.keepJournal
      ensures HasEntry(added + [e], d.key, op)
    {
      var x :| x in added && x.key == d.key && x.op == op;
      assert x in added + [e];
    }
  }

  lemma EntriesStay(cfg: Config, added: seq<Entry>, cs: seq<StatusChange>, c: StatusChange,
                    pick: StatusChange -> bool, op: Operation, origin: Origin)
    requires EntriesOf(cfg, added, cs, pick, op, origin)
    requires !pick(c) || c.key.source !in cfg.keepJournal
    ensures EntriesOf(cfg, added, cs + [c], pick, op, origin)
  {
    forall x | x in added
      ensures Tells(x, cs + [c], pick, op, origin)
    {
      var d :| d in cs && pick(d) && x == Entry(d.key, op, d.text, origin, x.serial);
      assert d in cs + [c];
    }
  }

  lemma {:induction false} SelectedEntries(cfg: Config, s: Session, cs: seq<StatusChange>, pick: StatusChange -> bool,
                                           op: Operation, origin: Origin) returns (added: seq<Entry>)
    requires s.journaling
    ensures RecordSelected(cfg, s, cs, pick, op, origin).db.journal == s.db.journal + added
    ensures RecordSelected(cfg, s, cs, pick, op, origin).journaling
    ensures EntriesOf(cfg, added, cs, pick, op, origin)
  {
    if cs == [] {
      added := [];
    } else {
      var init, c := cs[..|cs| - 1], cs[|cs| - 1];
      assert cs == init + [c];
      var rest := SelectedEntries(cfg, s, init, pick, op, origin);
      if pick(c) && c.key.source in cfg.keepJournal {
        var e := RecordSelected(cfg, s, cs, pick, op, origin).db.journal[|s.db.journal + rest|];
        added := rest + [e];
        EntriesGrow(cfg, rest, e, init, c, pick, op, origin);
        Text.Associative(s.db.journal, rest, [e]);
      } else {
        added := rest;
        EntriesStay(cfg, rest, init, c, pick, op, origin);
      }
    }
  }

  /** What an update with truthful lists added to the journal. */
  ghost predicate JournaledExactly(cfg: Config, before: Session, after: Session, origin: Origin,
                                   adds: set<Key>, dels: set<Key>)
  {
    && before.db.journal <= after.db.journal
    && var added := after.db.journal[|before.db.journal|..];
       && (forall e | e in added :: && e.key in before.db.table && e.text == before.db.table[e.key].text
                                    && e.origin == origin)
       && (forall k :: HasEntry(added, k, AddOrUpdate) <==> k in adds && k.source in cfg.keepJournal)
       && (forall k :: HasEntry(added, k, Delete) <==> k in dels && k.source in cfg.keepJournal)
  }

  predicate Described(table: Table, cs: seq<StatusChange>) {
    forall c | c in cs :: c.key in table && c.text == table[c.key].text
  }

  lemma HasExactly(cfg: Config, added: seq<Entry>, cs: seq<StatusChange>, pick: StatusChange -> bool,
                   op: Operation, origin: Origin, k: Key)
    requires EntriesOf(cfg, added, cs, pick, op, origin)
    ensures HasEntry(added, k, op) <==> Picked(cs, pick, k) && k.source in cfg.keepJournal
  {
    if HasEntry(added, k, op) {
      var e :| e in added && e.key == k && e.op == op;
      assert Tells(e, cs, pick, op, origin);
    }
    if Picked(cs, pick, k) && k.source in cfg.keepJournal {
      var c :| c in cs && pick(c) && c.key == k;
    }
  }

  lemma EntriesDescribe(cfg: Config, table: Table, added: seq<Entry>, cs: seq<StatusChange>, pick: StatusChange -> bool,
                        op: Operation, origin: Origin)
    requires EntriesOf(cfg, added, cs, pick, op, origin) && Described(table, cs)
    ensures forall e | e in added :: e.key in table && e.text == table[e.key].text && e.origin == origin && e.op == op
  {
    forall e | e in added
      ensures e.key in table && e.text == table[e.key].text && e.origin == origin && e.op == op
    {
      assert Tells(e, cs, pick, op, origin);
    }
  }

  lemma UpdateJournals(cfg: Config, s: Session, adds: seq<StatusChange>, addPick: StatusChange -> bool, addKeys: set<Key>,
                       dels: seq<StatusChange>, delPick: StatusChange -> bool, delKeys: set<Key>, origin: Origin, table: Table)
    requires s.journaling && Described(table, adds) && Described(table, dels)
    requires forall k :: k in addKeys <==> Picked(adds, addPick, k)
    requires forall k :: k in delKeys <==> Picked(dels, delPick, k)
    ensures var after := RecordSelected(cfg, RecordSelected(cfg, s, adds, addPick, AddOrUpdate, origin),
                                        dels, delPick, Delete, origin);
            JournaledExactly(cfg, WithTable(s, table), after, origin, addKeys, delKeys)
  {
    var middle := RecordSelected(cfg, s, adds, addPick, AddOrUpdate, origin);
    var added := SelectedEntries(cfg, s, adds, addPick, AddOrUpdate, origin);
    var removed := SelectedEntries(cfg, middle, dels, delPick, Delete, origin);
    var after := RecordSelected(cfg, middle, dels, delPick, Delete, origin);
    Text.Associative(s.db.journal, added, removed);
    var all := after.db.journal[|s.db.journal|..];
    assert all == added + removed;
    EntriesDescribe(cfg, table, added, adds, addPick, AddOrUpdate, origin);
    EntriesDescribe(cfg, table, removed, dels, delPick, Delete, origin);
    forall k
      ensures HasEntry(all, k, AddOrUpdate) <==> k in addKeys && k.source in cfg.keepJournal
      ensures HasEntry(all, k, Delete) <==> k in delKeys && k.source in cfg.keepJournal
    {
      HasExactly(cfg, added, adds, addPick, AddOrUpdate, origin, k);
      HasExactly(cfg, removed, dels, delPick, Delete, origin, k);
      BothParts(added, removed, k);
    }
  }

  lemma BothParts(added: seq<Entry>, removed: seq<Entry>, k: Key)
    requires (forall e | e in added :: e.op == AddOrUpdate) && forall e | e in removed :: e.op == Delete
    ensures HasEntry(added + removed, k, AddOrUpdate) <==> HasEntry(added, k, AddOrUpdate)
    ensures HasEntry(added + removed, k, Delete) <==> HasEntry(removed, k, Delete)
  {
    assert forall e :: e in added + removed <==> e in added || e in removed;
  }

  function Appearing(before: Table, after: Table): set<Key> {
    set k | k in after && k in before && ObjectIsVisible(after[k].statuses) && !ObjectIsVisible(before[k].statuses)
  }

  /** An RPKI update journals exactly the rows that it makes appear or disappear. */
  lemma RpkiJournalsChanges(cfg: Config, s: Session, valid: seq<StatusChange>, invalid: seq<StatusChange>,
                            notFound: seq<StatusChange>)
    requires s.journaling
    requires RpkiListsOk(s.db.table, valid, invalid, notFound) && KeysOf(valid) !! KeysOf(notFound)
    ensures var after := UpdateRpki(cfg, s, valid, invalid, notFound);
            JournaledExactly(cfg, s, after, RpkiOrigin, Appearing(s.db.table, after.db.table), Appearing(after.db.table, s.db.table))
  {
    var table, after := s.db.table, UpdateRpki(cfg, s, valid, invalid, notFound).db.table;
    RpkiStatusesBecome(cfg, s, valid, invalid, notFound);
    forall k
      ensures k in Appearing(table, after) <==> Picked(valid + notFound, Appeared, k)
      ensures k in Appearing(after, table) <==> Picked(invalid, Disappeared, k)
    {
      RpkiChangesAt(table, after, valid, invalid, notFound, k);
    }
    UpdateJournals(cfg, WithTable(s, after), valid + notFound, Appeared, Appearing(table, after),
                   invalid, Disappeared, Appearing(after, table), RpkiOrigin, table);
    TableAfterRpki(cfg, s, valid, invalid, notFound);
  }

  lemma RpkiChangesAt(table: Table, after: Table, valid: seq<StatusChange>, invalid: seq<StatusChange>,
                      notFound: seq<StatusChange>, k: Key)
    requires RpkiListsOk(table, valid, invalid, notFound) && KeysOf(valid) !! KeysOf(notFound)
    requires BecomesNow(table, after, valid + invalid + notFound)
    ensures k in Appearing(table, after) <==> Picked(valid + notFound, Appeared, k)
    ensures k in Appearing(after, table) <==> Picked(invalid, Disappeared, k)
  {
    ListedTogether(valid, invalid, notFound);
    if k in KeysOf(valid) + KeysOf(notFound) {
      var c :| c in valid + notFound && c.key == k;
      assert c in valid + invalid + notFound;
      assert Picked(valid + notFound, Appeared, k) <==> Appeared(c);
      assert !Picked(invalid, Disappeared, k);
    } else if k in KeysOf(invalid) {
      var c :| c in invalid && c.key == k;
      assert c in valid + invalid + notFound;
      assert Picked(invalid, Disappeared, k) <==> Disappeared(c);
      assert !Picked(valid + notFound, Appeared, k);
    } else {
      assert !Picked(valid + notFound, Appeared, k) && !Picked(invalid, Disappeared, k);
    }
  }

  /** The scope filter update journals exactly the listed objects that come into sight or go out of it. */
  lemma ScopeJournalsChanges(cfg: Config, s: Session, inScope: seq<StatusChange>, outAs: seq<StatusChange>,
                             outPrefix: seq<StatusChange>)
    requires s.journaling && ScopeListsOk(s.db.table, inScope, outAs, outPrefix)
    ensures JournaledExactly(cfg, s, UpdateScope(cfg, s, inScope, outAs, outPrefix), ScopeOrigin,
                             (set k | k in KeysOf(inScope) && k in s.db.table && s.db.table[k].statuses.scope != InScope
                                && ObjectIsVisible(s.db.table[k].statuses.(scope := InScope))),
                             set k | k in KeysOf(outAs) + KeysOf(outPrefix) && k in s.db.table
                                && ObjectIsVisible(s.db.table[k].statuses))
  {
    var table := s.db.table;
    var adds := set k | k in KeysOf(inScope) && k in table && table[k].statuses.scope != InScope
                  && ObjectIsVisible(table[k].statuses.(scope := InScope));
    var dels := set k | k in KeysOf(outAs) + KeysOf(outPrefix) && k in table && ObjectIsVisible(table[k].statuses);
    forall k
      ensures k in adds <==> Picked(inScope, Appeared, k)
      ensures k in dels <==> Picked(outAs + outPrefix, Disappeared, k)
    {
      if k in KeysOf(inScope) {
        var c :| c in inScope && c.key == k;
        assert Picked(inScope, Appeared, k) <==> Appeared(c);
      }
      if k in KeysOf(outAs) + KeysOf(outPrefix) {
        var c :| c in outAs + outPrefix && c.key == k;
        assert Picked(outAs + outPrefix, Disappeared, k) <==> Disappeared(c);
      }
    }
    UpdateJournals(cfg, WithTable(s, ScopeTable(table, inScope, outAs, outPrefix)), inScope, Appeared, adds,
                   outAs + outPrefix, Disappeared, dels, ScopeOrigin, table);
  }

  /** The preference update journals every listed object that neither RPKI nor the scope filter hides. */
  lemma PrefJournalsListed(cfg: Config, s: Session, visible: seq<StatusChange>, suppressed: seq<StatusChange>)
    requires s.journaling
    requires TruthfulPref(s.db.table, visible, Visible) && TruthfulPref(s.db.table, suppressed, Suppressed)
    ensures JournaledExactly(cfg, s, UpdatePref(cfg, s, visible, suppressed), PrefOrigin,
                             (set k | k in KeysOf(visible) && k in s.db.table && s.db.table[k].statuses.rpki != Invalid
                                && s.db.table[k].statuses.scope == InScope),
                             set k | k in KeysOf(suppressed) && k in s.db.table && s.db.table[k].statuses.rpki != Invalid
                                && s.db.table[k].statuses.scope == InScope)
  {
    var table := s.db.table;
    var adds := set k | k in KeysOf(visible) && k in table && table[k].statuses.rpki != Invalid
                  && table[k].statuses.scope == InScope;
    var dels := set k | k in KeysOf(suppressed) && k in table && table[k].statuses.rpki != Invalid
                  && table[k].statuses.scope == InScope;
    forall k
      ensures k in adds <==> Picked(visible, OtherwiseVisible, k)
      ensures k in dels <==> Picked(suppressed, OtherwiseVisible, k)
    {
      if k in KeysOf(visible) {
        var c :| c in visible && c.key == k;
        assert Picked(visible, OtherwiseVisible, k) <==> OtherwiseVisible(c);
      }
      if k in KeysOf(suppressed) {
        var c :| c in suppressed && c.key == k;
        assert Picked(suppressed, OtherwiseVisible, k) <==> OtherwiseVisible(c);
      }
    }
    UpdateJournals(cfg, s, visible, OtherwiseVisible, adds, suppressed, OtherwiseVisible, dels, PrefOrigin, table);
  }
}
