/** Replaying the journal of a source gives exactly its visible rows, after every run of the store. */
module Visibility {
  import opened Journal
  import opened Store
  import opened StatusUpdates
  import opened DatabaseHandlers

  /** A mirror that has replayed the whole journal of the source holds its visible rows. */
  predicate InSync(db: Db, source: string) {
    Replay(OfSource(db.journal, source)) == VisibleText(db.table, source)
  }

  predicate Journaled(cfg: Config, s: Session, source: string) {
    s.journaling && source in cfg.keepJournal
  }

  /** What the mirror of a source knows about a key. */
  function Mirrored(s: Session, source: string, k: Key): Option<string> {
    var m := Replay(OfSource(s.db.journal, source));
    if k in m then Some(m[k]) else None
  }

  /** What the source shows about a key. */
  function Shown(table: Table, source: string, k: Key): Option<string> {
    if k in table && k.source == source && ObjectIsVisible(table[k].statuses) then Some(table[k].text) else None
  }

  lemma InSyncPointwise(s: Session, source: string)
    ensures InSync(s.db, source) <==> forall k :: Mirrored(s, source, k) == Shown(s.db.table, source, k)
  {
    var m, v := Replay(OfSource(s.db.journal, source)), VisibleText(s.db.table, source);
    if forall k :: Mirrored(s, source, k) == Shown(s.db.table, source, k) {
      forall k
        ensures k in m <==> k in v
        ensures k in m ==> m[k] == v[k]
      {
        assert Mirrored(s, source, k) == Shown(s.db.table, source, k);
      }
      assert m.Keys == v.Keys;
    }
  }

  lemma MirroredAfterRecord(cfg: Config, s: Session, op: Operation, key: Key, text: string, origin: Origin,
                            source: string, k: Key)
    requires Journaled(cfg, s, source)
    ensures Mirrored(RecordOperation(cfg, s, op, key, text, origin), source, k)
         == if k != key || key.source != source then Mirrored(s, source, k)
            else if op == AddOrUpdate then Some(text) else None
  {
    var serial := NextSerial(s.db.journal, s.db.status, s.tracker.newSerials, key.source);
    ReplayAppend(s.db.journal, Entry(key, op, text, origin, serial), source);
  }

  lemma UpsertAt(cfg: Config, s: Session, u: Upsert, source: string, k: Key)
    requires Journaled(cfg, s, source)
    requires Mirrored(s, source, k) == Shown(s.db.table, source, k)
    ensures var after := ImmediateUpsert(cfg, s, u);
            Mirrored(after, source, k) == Shown(after.db.table, source, k)
            <==> !(k == u.key && Shown(s.db.table, source, k).Some? && !ObjectIsVisible(u.row.statuses))
  {
    var table := s.db.table[u.key := u.row];
    if ObjectIsVisible(u.row.statuses) {
      MirroredAfterRecord(cfg, WithTable(s, table), AddOrUpdate, u.key, u.row.text, u.origin, source, k);
    }
  }

  /** An upsert keeps the mirror exact if and only if it does not turn a visible row invisible:
      such an upsert makes no journal entry, and the mirror keeps the old text. */
  lemma UpsertSync(cfg: Config, s: Session, u: Upsert, source: string)
    requires Journaled(cfg, s, source) && InSync(s.db, source)
    ensures InSync(ImmediateUpsert(cfg, s, u).db, source)
        <==> !(Shown(s.db.table, source, u.key).Some? && !ObjectIsVisible(u.row.statuses))
  {
    InSyncPointwise(s, source);
    InSyncPointwise(ImmediateUpsert(cfg, s, u), source);
    forall k {
      UpsertAt(cfg, s, u, source, k);
    }
    UpsertAt(cfg, s, u, source, u.key);
  }

  /** The failing case happens: a visible route is replaced by one that RPKI makes invalid. */
  lemma StaleMirrorExample(s: Session)
    requires s == Session(s.committed, Db(map[], [], {}, [], map[]), FRESH_TRACKER, true)
    ensures var cfg := Config({"TEST"}, {});
            var key := Key("192.0.2.0/24AS65530", "TEST", "route");
            var shown := ImmediateUpsert(cfg, s, Upsert(key, Row("old", Statuses(NotFound, InScope, Visible)), Mirror));
            var hidden := ImmediateUpsert(cfg, shown, Upsert(key, Row("new", Statuses(Invalid, InScope, Visible)), Mirror));
            InSync(shown.db, "TEST") && !InSync(hidden.db, "TEST")
  {
    var cfg := Config({"TEST"}, {});
    var key := Key("192.0.2.0/24AS65530", "TEST", "route");
    var u := Upsert(key, Row("old", Statuses(NotFound, InScope, Visible)), Mirror);
    var u' := Upsert(key, Row("new", Statuses(Invalid, InScope, Visible)), Mirror);
    assert VisibleText(s.db.table, "TEST") == map[];
    UpsertSync(cfg, s, u, "TEST");
    UpsertSync(cfg, ImmediateUpsert(cfg, s, u), u', "TEST");
  }

  lemma DeleteAt(cfg: Config, s: Session, key: Key, origin: Origin, protect: bool, source: string, k: Key)
    requires Journaled(cfg, s, source) && key in s.db.table
    requires Mirrored(s, source, k) == Shown(s.db.table, source, k)
    ensures var after := ImmediateDelete(cfg, s, key, origin, protect);
            Mirrored(after, source, k) == Shown(after.db.table, source, k)
  {
    var removed := WithTable(s, s.db.table - {key});
    MirroredAfterRecord(cfg, removed, Delete, key, s.db.table[key].text, origin, source, k);
  }

  lemma DeleteSync(cfg: Config, s: Session, key: Key, origin: Origin, protect: bool, source: string)
    requires Journaled(cfg, s, source) && InSync(s.db, source)
    ensures InSync(ImmediateDelete(cfg, s, key, origin, protect).db, source)
  {
    if key in s.db.table {
      var after := ImmediateDelete(cfg, s, key, origin, protect);
      InSyncPointwise(s, source);
      InSyncPointwise(after, source);
      forall k
        ensures Mirrored(after, source, k) == Shown(after.db.table, source, k)
      {
        DeleteAt(cfg, s, key, origin, protect, source, k);
      }
    }
  }

  lemma SuspendSync(cfg: Config, s: Session, key: Key, source: string)
    requires Journaled(cfg, s, source) && InSync(s.db, source)
    ensures InSync(ImmediateSuspend(cfg, s, key).db, source)
  {
    if key in s.db.table {
      var text, after := s.db.table[key].text, ImmediateSuspend(cfg, s, key);
      var moved := s.(db := s.db.(table := s.db.table - {key}, suspended := s.db.suspended + [Suspended(key, text)]));
      InSyncPointwise(s, source);
      InSyncPointwise(after, source);
      forall k
        ensures Mirrored(after, source, k) == Shown(after.db.table, source, k)
      {
        assert Mirrored(s, source, k) == Shown(s.db.table, source, k);
        MirroredAfterRecord(cfg, moved, Delete, key, text, Suspension, source, k);
      }
    }
  }

  // ---- bulk status updates ----

  /** Some listed object of this key gets an entry. */
  ghost predicate Picked(cs: seq<StatusChange>, pick: StatusChange -> bool, k: Key) {
    exists c :: c in cs && pick(c) && c.key == k
  }

  lemma {:induction false} MirroredAfterSelected(cfg: Config, s: Session, cs: seq<StatusChange>, pick: StatusChange -> bool,
                                                 op: Operation, origin: Origin, source: string, k: Key, text: string)
    requires Journaled(cfg, s, source) && k.source == source
    requires forall c | c in cs && c.key == k :: c.text == text
    ensures var after := RecordSelected(cfg, s, cs, pick, op, origin);
            && Journaled(cfg, after, source) && after.db == s.db.(journal := after.db.journal)
            && Mirrored(after, source, k)
            == if !Picked(cs, pick, k) then Mirrored(s, source, k) else if op == AddOrUpdate then Some(text) else None
  {
    if cs != [] {
      var init, c := cs[..|cs| - 1], cs[|cs| - 1];
      assert cs == init + [c];
      assert Picked(cs, pick, k) <==> Picked(init, pick, k) || (pick(c) && c.key == k);
      MirroredAfterSelected(cfg, s, init, pick, op, origin, source, k, text);
      if pick(c) {
        MirroredAfterRecord(cfg, RecordSelected(cfg, s, init, pick, op, origin), op, c.key, c.text, origin, source, k);
      }
    }
  }

  lemma {:induction false} OtherSourcesUntouched(cfg: Config, s: Session, cs: seq<StatusChange>, pick: StatusChange -> bool,
                                                 op: Operation, origin: Origin, source: string, k: Key)
    requires Journaled(cfg, s, source) && k.source != source
    ensures var after := RecordSelected(cfg, s, cs, pick, op, origin);
            Journaled(cfg, after, source) && Mirrored(after, source, k) == Mirrored(s, source, k)
  {
    if cs != [] {
      var init, c := cs[..|cs| - 1], cs[|cs| - 1];
      OtherSourcesUntouched(cfg, s, init, pick, op, origin, source, k);
      if pick(c) {
        MirroredAfterRecord(cfg, RecordSelected(cfg, s, init, pick, op, origin), op, c.key, c.text, origin, source, k);
      }
    }
  }

  /** One update journals additions, then deletions: the last word on a key is the deletion. */
  lemma MirroredAfterUpdate(cfg: Config, s: Session, adds: seq<StatusChange>, addPick: StatusChange -> bool,
                            dels: seq<StatusChange>, delPick: StatusChange -> bool,
                            origin: Origin, source: string, table: Table, k: Key)
    requires Journaled(cfg, s, source)
    requires forall c | c in adds + dels :: c.key in table && c.text == table[c.key].text
    ensures var added := RecordSelected(cfg, s, adds, addPick, AddOrUpdate, origin);
            var after := RecordSelected(cfg, added, dels, delPick, Delete, origin);
            Mirrored(after, source, k)
            == if k.source != source then Mirrored(s, source, k)
               else if Picked(dels, delPick, k) then None
               else if Picked(adds, addPick, k) && k in table then Some(table[k].text)
               else Mirrored(s, source, k)
  {
    var added := RecordSelected(cfg, s, adds, addPick, AddOrUpdate, origin);
    if k.source != source {
      OtherSourcesUntouched(cfg, s, adds, addPick, AddOrUpdate, origin, source, k);
      OtherSourcesUntouched(cfg, added, dels, delPick, Delete, origin, source, k);
    } else {
      var text := if k in table then table[k].text else "";
      assert forall c | c in adds :: c in adds + dels;
      assert forall c | c in dels :: c in adds + dels;
      MirroredAfterSelected(cfg, s, adds, addPick, AddOrUpdate, origin, source, k, text);
      MirroredAfterSelected(cfg, added, dels, delPick, Delete, origin, source, k, text);
    }
  }

  lemma {:induction false} SelectedKeepsTable(cfg: Config, s: Session, cs: seq<StatusChange>, pick: StatusChange -> bool,
                                              op: Operation, origin: Origin)
    ensures RecordSelected(cfg, s, cs, pick, op, origin).db.table == s.db.table
  {
    if cs != [] {
      SelectedKeepsTable(cfg, s, cs[..|cs| - 1], pick, op, origin);
    }
  }

  /** What the validators deliver: each listed object described as it is, with its new status. */
  predicate TruthfulRpki(table: Table, cs: seq<StatusChange>, status: RpkiStatus) {
    forall c | c in cs :: && c.key in table && c.text == table[c.key].text && c.was == table[c.key].statuses
                          && c.now == c.was.(rpki := status)
  }

  predicate TruthfulScope(table: Table, cs: seq<StatusChange>, status: ScopeFilterStatus) {
    forall c | c in cs :: && c.key in table && c.text == table[c.key].text && c.was == table[c.key].statuses
                          && c.now == c.was.(scope := status)
  }

  predicate TruthfulPref(table: Table, cs: seq<StatusChange>, status: RoutePreferenceStatus) {
    forall c | c in cs :: && c.key in table && c.text == table[c.key].text
                          && c.now == table[c.key].statuses.(pref := status)
  }

  predicate RpkiListsOk(table: Table, valid: seq<StatusChange>, invalid: seq<StatusChange>, notFound: seq<StatusChange>) {
    && TruthfulRpki(table, valid, Valid) && TruthfulRpki(table, invalid, Invalid)
    && TruthfulRpki(table, notFound, NotFound) && KeysOf(invalid) !! KeysOf(valid) + KeysOf(notFound)
  }

  lemma RpkiSync(cfg: Config, s: Session, valid: seq<StatusChange>, invalid: seq<StatusChange>,
                 notFound: seq<StatusChange>, source: string)
    requires Journaled(cfg, s, source) && InSync(s.db, source)
    requires RpkiListsOk(s.db.table, valid, invalid, notFound)
    ensures InSync(UpdateRpki(cfg, s, valid, invalid, notFound).db, source)
  {
    var table, after := s.db.table, UpdateRpki(cfg, s, valid, invalid, notFound);
    var table' := RpkiTable(table, valid, invalid, notFound);
    var updated := WithTable(s, table');
    SelectedKeepsTable(cfg, updated, valid + notFound, Appeared, AddOrUpdate, RpkiOrigin);
    SelectedKeepsTable(cfg, RecordSelected(cfg, updated, valid + notFound, Appeared, AddOrUpdate, RpkiOrigin),
                       invalid, Disappeared, Delete, RpkiOrigin);
    InSyncPointwise(s, source);
    InSyncPointwise(after, source);
    forall k
      ensures Mirrored(after, source, k) == Shown(table', source, k)
    {
      assert Mirrored(s, source, k) == Shown(table, source, k);
      MirroredAfterUpdate(cfg, updated, valid + notFound, Appeared, invalid, Disappeared, RpkiOrigin, source, table, k);
      RpkiShown(table, valid, invalid, notFound, source, k);
    }
  }

  lemma RpkiShown(table: Table, valid: seq<StatusChange>, invalid: seq<StatusChange>, notFound: seq<StatusChange>,
                  source: string, k: Key)
    requires RpkiListsOk(table, valid, invalid, notFound)
    ensures Shown(RpkiTable(table, valid, invalid, notFound), source, k)
         == if k.source != source then Shown(table, source, k)
            else if Picked(invalid, Disappeared, k) then None
            else if Picked(valid + notFound, Appeared, k) && k in table then Some(table[k].text)
            else Shown(table, source, k)
  {
    if k in KeysOf(invalid) {
      var c :| c in invalid && c.key == k;
      assert k !in KeysOf(valid) && k !in KeysOf(notFound);
      assert Picked(invalid, Disappeared, k) <==> Disappeared(c);
    } else if k in KeysOf(valid) + KeysOf(notFound) {
      var c :| c in valid + notFound && c.key == k;
      assert Picked(valid + notFound, Appeared, k) <==> ObjectIsVisible(c.now) && !ObjectIsVisible(c.was);
    } else {
      assert !Picked(valid + notFound, Appeared, k);
    }
  }

  lemma PrefSync(cfg: Config, s: Session, visible: seq<StatusChange>, suppressed: seq<StatusChange>, source: string)
    requires Journaled(cfg, s, source) && InSync(s.db, source)
    requires TruthfulPref(s.db.table, visible, Visible) && TruthfulPref(s.db.table, suppressed, Suppressed)
    ensures InSync(UpdatePref(cfg, s, visible, suppressed).db, source)
  {
    var table, after := s.db.table, UpdatePref(cfg, s, visible, suppressed);
    InSyncPointwise(s, source);
    InSyncPointwise(after, source);
    forall k
      ensures Mirrored(after, source, k) == Shown(PrefTable(table, visible, suppressed), source, k)
    {
      assert Mirrored(s, source, k) == Shown(table, source, k);
      MirroredAfterUpdate(cfg, s, visible, OtherwiseVisible, suppressed, OtherwiseVisible, PrefOrigin, source, table, k);
      PrefShown(table, visible, suppressed, source, k);
    }
  }

  lemma PrefShown(table: Table, visible: seq<StatusChange>, suppressed: seq<StatusChange>, source: string, k: Key)
    requires TruthfulPref(table, visible, Visible) && TruthfulPref(table, suppressed, Suppressed)
    ensures Shown(PrefTable(table, visible, suppressed), source, k)
         == if k.source != source then Shown(table, source, k)
            else if Picked(suppressed, OtherwiseVisible, k) then None
            else if Picked(visible, OtherwiseVisible, k) && k in table then Some(table[k].text)
            else Shown(table, source, k)
  {
    if k in KeysOf(suppressed) {
      var c :| c in suppressed && c.key == k;
      assert Picked(suppressed, OtherwiseVisible, k) <==> OtherwiseVisible(c);
    }
    if k in KeysOf(visible) {
      var c :| c in visible && c.key == k;
      assert Picked(visible, OtherwiseVisible, k) <==> OtherwiseVisible(c);
    }
  }

  /** Each listed object is described as it is, and none is listed both as in and as out of scope. */
  predicate ScopeListsOk(table: Table, inScope: seq<StatusChange>, outAs: seq<StatusChange>, outPrefix: seq<StatusChange>) {
    && TruthfulScope(table, inScope, InScope) && TruthfulScope(table, outAs, OutScopeAs)
    && TruthfulScope(table, outPrefix, OutScopePrefix) && KeysOf(inScope) !! KeysOf(outAs) + KeysOf(outPrefix)
  }

  /** What the source should show: listed objects by their new scope status, all others as before. */
  function Intended(table: Table, inScope: seq<StatusChange>, outAs: seq<StatusChange>, outPrefix: seq<StatusChange>,
                    source: string, k: Key): Option<string>
  {
    if k in table && k in KeysOf(outAs) + KeysOf(outPrefix) then None
    else if k in table && k.source == source && k in KeysOf(inScope) then
      if ObjectIsVisible(table[k].statuses.(scope := InScope)) then Some(table[k].text) else None
    else Shown(table, source, k)
  }

  /** No row shares an rpsl_pk with a listed object of another list, or with a listed object while unlisted. */
  predicate ClosedUnderPk(table: Table, inScope: seq<StatusChange>, outAs: seq<StatusChange>, outPrefix: seq<StatusChange>) {
    forall k | k in table ::
      && (k.rpslPk in PksOf(inScope) ==> k in KeysOf(inScope))
      && (k.rpslPk in PksOf(outAs) + PksOf(outPrefix) ==> k in KeysOf(outAs) + KeysOf(outPrefix))
  }

  /** What the update, which matches on rpsl_pk alone, must not change by accident. A row that shares its rpsl_pk
      with an object going out of scope, and is not going out of scope itself, is hidden anyway; a row that only
      shares it with objects coming into scope is in scope already, or hidden anyway. */
  predicate SafeByPk(table: Table, inScope: seq<StatusChange>, outAs: seq<StatusChange>, outPrefix: seq<StatusChange>,
                     source: string)
  {
    forall k | k in table && k.source == source :: SafeRow(table[k].statuses, inScope, outAs, outPrefix, k)
  }

  predicate SafeRow(statuses: Statuses, inScope: seq<StatusChange>, outAs: seq<StatusChange>, outPrefix: seq<StatusChange>, k: Key) {
    if k.rpslPk in PksOf(outAs) + PksOf(outPrefix) then
      k in KeysOf(outAs) + KeysOf(outPrefix)
      || !ObjectIsVisible(if k in KeysOf(inScope) then statuses.(scope := InScope) else statuses)
    else if k.rpslPk in PksOf(inScope) then
      k in KeysOf(inScope) || statuses.scope == InScope || !ObjectIsVisible(statuses.(scope := InScope))
    else true
  }

  lemma KeyHasPk(cs: seq<StatusChange>, k: Key)
    requires k in KeysOf(cs)
    ensures k.rpslPk in PksOf(cs)
  {
  }

  /** A row shows what was intended for it if and only if it is safe. */
  lemma SafeRowExactly(table: Table, inScope: seq<StatusChange>, outAs: seq<StatusChange>, outPrefix: seq<StatusChange>,
                       source: string, k: Key)
    requires k in table && k.source == source && KeysOf(inScope) !! KeysOf(outAs) + KeysOf(outPrefix)
    ensures Shown(ScopeTable(table, inScope, outAs, outPrefix), source, k) == Intended(table, inScope, outAs, outPrefix, source, k)
        <==> SafeRow(table[k].statuses, inScope, outAs, outPrefix, k)
  {
    if k in KeysOf(inScope) { KeyHasPk(inScope, k); }
    if k in KeysOf(outAs) { KeyHasPk(outAs, k); }
    if k in KeysOf(outPrefix) { KeyHasPk(outPrefix, k); }
  }

  /** The scope filter update keeps the mirror exact if and only if each row is safe. */
  lemma ScopeSync(cfg: Config, s: Session, inScope: seq<StatusChange>, outAs: seq<StatusChange>,
                  outPrefix: seq<StatusChange>, source: string)
    requires Journaled(cfg, s, source) && InSync(s.db, source)
    requires ScopeListsOk(s.db.table, inScope, outAs, outPrefix)
    ensures InSync(UpdateScope(cfg, s, inScope, outAs, outPrefix).db, source)
        <==> SafeByPk(s.db.table, inScope, outAs, outPrefix, source)
  {
    var table := s.db.table;
    ScopeSyncByRows(cfg, s, inScope, outAs, outPrefix, source);
    forall k
      ensures Shown(ScopeTable(table, inScope, outAs, outPrefix), source, k) == Intended(table, inScope, outAs, outPrefix, source, k)
          <==> (k in table && k.source == source ==> SafeRow(table[k].statuses, inScope, outAs, outPrefix, k))
    {
      if k in table && k.source == source {
        SafeRowExactly(table, inScope, outAs, outPrefix, source, k);
      }
    }
  }

  /** The mirror always gets what was intended; the rows do when the update leaves each showing what was intended. */
  lemma ScopeSyncByRows(cfg: Config, s: Session, inScope: seq<StatusChange>, outAs: seq<StatusChange>,
                  outPrefix: seq<StatusChange>, source: string)
    requires Journaled(cfg, s, source) && InSync(s.db, source)
    requires ScopeListsOk(s.db.table, inScope, outAs, outPrefix)
    ensures InSync(UpdateScope(cfg, s, inScope, outAs, outPrefix).db, source)
        <==> forall k :: Shown(ScopeTable(s.db.table, inScope, outAs, outPrefix), source, k)
                      == Intended(s.db.table, inScope, outAs, outPrefix, source, k)
  {
    var table, after := s.db.table, UpdateScope(cfg, s, inScope, outAs, outPrefix);
    var updated := WithTable(s, ScopeTable(table, inScope, outAs, outPrefix));
    SelectedKeepsTable(cfg, updated, inScope, Appeared, AddOrUpdate, ScopeOrigin);
    SelectedKeepsTable(cfg, RecordSelected(cfg, updated, inScope, Appeared, AddOrUpdate, ScopeOrigin),
                       outAs + outPrefix, Disappeared, Delete, ScopeOrigin);
    InSyncPointwise(s, source);
    InSyncPointwise(after, source);
    forall k
      ensures Mirrored(after, source, k) == Intended(table, inScope, outAs, outPrefix, source, k)
    {
      assert Mirrored(s, source, k) == Shown(table, source, k);
      MirroredAfterUpdate(cfg, updated, inScope, Appeared, outAs + outPrefix, Disappeared, ScopeOrigin, source, table, k);
      PickedIsIntended(table, inScope, outAs, outPrefix, source, k);
    }
  }

  lemma PickedIsIntended(table: Table, inScope: seq<StatusChange>, outAs: seq<StatusChange>, outPrefix: seq<StatusChange>,
                         source: string, k: Key)
    requires ScopeListsOk(table, inScope, outAs, outPrefix)
    ensures Intended(table, inScope, outAs, outPrefix, source, k)
         == if k.source != source then Shown(table, source, k)
            else if Picked(outAs + outPrefix, Disappeared, k) then None
            else if Picked(inScope, Appeared, k) && k in table then Some(table[k].text)
            else Shown(table, source, k)
  {
    if k in KeysOf(inScope) {
      var c :| c in inScope && c.key == k;
      assert !Picked(outAs + outPrefix, Disappeared, k) by {
        forall d | d in outAs + outPrefix
          ensures d.key != k
        {
          assert d.key in KeysOf(outAs) + KeysOf(outPrefix);
        }
      }
      assert Picked(inScope, Appeared, k) <==> Appeared(c);
    } else if k in KeysOf(outAs) + KeysOf(outPrefix) {
      var c :| c in outAs + outPrefix && c.key == k;
      assert Picked(outAs + outPrefix, Disappeared, k) <==> ObjectIsVisible(c.was) && !ObjectIsVisible(c.now);
    } else {
      assert !Picked(outAs + outPrefix, Disappeared, k);
    }
  }

  /** With one source, or no excluded sources, the lists are closed under rpsl_pk, and the update is exact. */
  lemma ClosedListsSync(cfg: Config, s: Session, inScope: seq<StatusChange>, outAs: seq<StatusChange>,
                        outPrefix: seq<StatusChange>, source: string)
    requires Journaled(cfg, s, source) && InSync(s.db, source)
    requires ScopeListsOk(s.db.table, inScope, outAs, outPrefix) && ClosedUnderPk(s.db.table, inScope, outAs, outPrefix)
    ensures InSync(UpdateScope(cfg, s, inScope, outAs, outPrefix).db, source)
  {
    ScopeSync(cfg, s, inScope, outAs, outPrefix, source);
  }

  /** The failing case: a shown object of an excluded source loses visibility without a journal entry,
      because an object with the same rpsl_pk in another source goes out of scope. */
  lemma SharedPkBreaksSync(cfg: Config, s: Session, out: StatusChange, bystander: Key)
    requires Journaled(cfg, s, bystander.source) && InSync(s.db, bystander.source)
    requires TruthfulScope(s.db.table, [out], OutScopePrefix)
    requires bystander != out.key && bystander.rpslPk == out.key.rpslPk
    requires Shown(s.db.table, bystander.source, bystander).Some?
    ensures !InSync(UpdateScope(cfg, s, [], [], [out]).db, bystander.source)
  {
    ScopeSync(cfg, s, [], [], [out], bystander.source);
    assert out.key.rpslPk in PksOf([out]) by { assert [out][0] in [out]; }
    assert !SafeRow(s.db.table[bystander].statuses, [], [], [out], bystander);
  }

  // ---- whole runs ----

  datatype Event =
    | Do(call: Call)
    | Rpki(valid: seq<StatusChange>, invalid: seq<StatusChange>, notFound: seq<StatusChange>)
    | Scope(inScope: seq<StatusChange>, outAs: seq<StatusChange>, outPrefix: seq<StatusChange>)
    | Pref(visible: seq<StatusChange>, suppressed: seq<StatusChange>)

  function Step(cfg: Config, s: Session, e: Event): Session {
    match e
    case Do(call) => ImmediateStep(cfg, s, call)
    case Rpki(valid, invalid, notFound) => UpdateRpki(cfg, s, valid, invalid, notFound)
    case Scope(inScope, outAs, outPrefix) => UpdateScope(cfg, s, inScope, outAs, outPrefix)
    case Pref(visible, suppressed) => UpdatePref(cfg, s, visible, suppressed)
  }

  /** The lists of a status update describe the rows as they are, as the validators make them. */
  predicate ListsOk(table: Table, e: Event) {
    match e
    case Do(_) => true
    case Rpki(valid, invalid, notFound) => RpkiListsOk(table, valid, invalid, notFound)
    case Scope(inScope, outAs, outPrefix) => ScopeListsOk(table, inScope, outAs, outPrefix)
    case Pref(visible, suppressed) => TruthfulPref(table, visible, Visible) && TruthfulPref(table, suppressed, Suppressed)
  }

  /** No upsert hides a shown row, and no scope filter update reaches a shown row by accident. */
  predicate Safe(table: Table, e: Event, source: string) {
    match e
    case Do(UpsertCall(u, _)) => Shown(table, source, u.key).Some? ==> ObjectIsVisible(u.row.statuses)
    case Scope(inScope, outAs, outPrefix) => SafeByPk(table, inScope, outAs, outPrefix, source)
    case _ => true
  }

  /** What keeps one source exact. */
  predicate Allowed(s: Session, e: Event, source: string) {
    ListsOk(s.db.table, e) && Safe(s.db.table, e, source)
  }

  function Run(cfg: Config, s: Session, es: seq<Event>): Session {
    if es == [] then s else Step(cfg, Run(cfg, s, es[..|es| - 1]), es[|es| - 1])
  }

  predicate AllAllowed(cfg: Config, s: Session, es: seq<Event>, source: string) {
    es != [] ==>
      AllAllowed(cfg, s, es[..|es| - 1], source) && Allowed(Run(cfg, s, es[..|es| - 1]), es[|es| - 1], source)
  }

  predicate Exact(cfg: Config, s: Session, source: string) {
    Journaled(cfg, s, source) && InSync(s.db, source) && InSync(s.committed, source)
  }

  lemma {:induction false} SelectedKeepsRest(cfg: Config, s: Session, cs: seq<StatusChange>, pick: StatusChange -> bool,
                                             op: Operation, origin: Origin)
    ensures var after := RecordSelected(cfg, s, cs, pick, op, origin);
            after.committed == s.committed && after.journaling == s.journaling
  {
    if cs != [] {
      SelectedKeepsRest(cfg, s, cs[..|cs| - 1], pick, op, origin);
    }
  }

  /** One event keeps the source exact if and only if it is safe. */
  lemma StepExact(cfg: Config, s: Session, e: Event, source: string)
    requires Exact(cfg, s, source) && ListsOk(s.db.table, e)
    ensures Exact(cfg, Step(cfg, s, e), source) <==> Safe(s.db.table, e, source)
  {
    match e
    case Do(UpsertCall(u, _)) => UpsertSync(cfg, s, u, source);
    case Do(DeleteCall(k, origin, protect)) => DeleteSync(cfg, s, k, origin, protect, source);
    case Do(SuspendCall(k)) => SuspendSync(cfg, s, k, source);
    case Do(_) =>
    case Rpki(valid, invalid, notFound) =>
      RpkiSync(cfg, s, valid, invalid, notFound, source);
      var updated := WithTable(s, RpkiTable(s.db.table, valid, invalid, notFound));
      SelectedKeepsRest(cfg, updated, valid + notFound, Appeared, AddOrUpdate, RpkiOrigin);
      SelectedKeepsRest(cfg, RecordSelected(cfg, updated, valid + notFound, Appeared, AddOrUpdate, RpkiOrigin),
                        invalid, Disappeared, Delete, RpkiOrigin);
    case Scope(inScope, outAs, outPrefix) =>
      ScopeSync(cfg, s, inScope, outAs, outPrefix, source);
      var updated := WithTable(s, ScopeTable(s.db.table, inScope, outAs, outPrefix));
      SelectedKeepsRest(cfg, updated, inScope, Appeared, AddOrUpdate, ScopeOrigin);
      SelectedKeepsRest(cfg, RecordSelected(cfg, updated, inScope, Appeared, AddOrUpdate, ScopeOrigin),
                        outAs + outPrefix, Disappeared, Delete, ScopeOrigin);
    case Pref(visible, suppressed) =>
      PrefSync(cfg, s, visible, suppressed, source);
      SelectedKeepsRest(cfg, s, visible, OtherwiseVisible, AddOrUpdate, PrefOrigin);
      SelectedKeepsRest(cfg, RecordSelected(cfg, s, visible, OtherwiseVisible, AddOrUpdate, PrefOrigin),
                        suppressed, OtherwiseVisible, Delete, PrefOrigin);
  }

  /** Over any run of upserts, deletions, suspensions, queries, commits, rollbacks and status updates,
      replaying the journal of a source gives exactly its visible rows, before and after a commit. */
  lemma {:induction false} ReplayEqualsVisibility(cfg: Config, s: Session, es: seq<Event>, source: string)
    requires Exact(cfg, s, source) && AllAllowed(cfg, s, es, source)
    ensures Exact(cfg, Run(cfg, s, es), source)
  {
    if es != [] {
      ReplayEqualsVisibility(cfg, s, es[..|es| - 1], source);
      StepExact(cfg, Run(cfg, s, es[..|es| - 1]), es[|es| - 1], source);
    }
  }

  // ---- the handler ----

  /** The event leaves rows in the upsert buffer. */
  predicate Buffers(e: Event) {
    e.Do? && e.call.UpsertCall?
  }

  /** Status updates do not flush; each comes when the buffer is empty. */
  predicate UpdatesFindNoBuffer(es: seq<Event>, startsEmpty: bool) {
    forall i | 0 <= i < |es| && !es[i].Do? :: if i == 0 then startsEmpty else !Buffers(es[i - 1])
  }

  /** No upsert that is promised to be of a new row is of one that is there. */
  predicate AllGuaranteed(cfg: Config, s: Session, es: seq<Event>) {
    forall i | 0 <= i < |es| && es[i].Do? :: GuaranteeHolds(Run(cfg, s, es[..i]), es[i].call)
  }

  method PerformUpdate(handler: DatabaseHandler, e: Event)
    requires handler.Valid() && handler.rpslUpsertBuffer == [] && !e.Do?
    modifies handler`db, handler`newSerialsPerSource, handler`sourcesSeen
    ensures handler.Valid() && handler.Abs() == Step(handler.config, old(handler.Abs()), e)
  {
    match e {
      case Rpki(valid, invalid, notFound) => handler.UpdateRpkiStatus(valid, invalid, notFound);
      case Scope(inScope, outAs, outPrefix) => handler.UpdateScopefilterStatus(inScope, outAs, outPrefix);
      case Pref(visible, suppressed) => handler.UpdateRoutePreferenceStatus(visible, suppressed);
      case Do(_) => assert false;
    }
  }

  method PerformCall(handler: DatabaseHandler, call: Call)
    requires handler.Valid() && GuaranteeHolds(handler.Abs(), call)
    modifies handler
    ensures handler.Valid() && handler.Abs() == ImmediateStep(handler.config, old(handler.Abs()), call)
    ensures !call.UpsertCall? ==> handler.rpslUpsertBuffer == []
  {
    match call {
      case UpsertCall(u, guaranteed) => handler.UpsertRpslObject(u, guaranteed);
      case DeleteCall(k, origin, protect) => { var _ := handler.DeleteRpslObject(k, origin, protect); }
      case SuspendCall(k) => { var _ := handler.SuspendRpslObject(k); }
      case QueryCall => { var _ := handler.ExecuteQuery(); }
      case CommitCall => handler.Commit();
      case RollbackCall => handler.Rollback();
    }
  }

  lemma RunNextEvent(cfg: Config, s: Session, es: seq<Event>, i: nat)
    requires i < |es|
    ensures Run(cfg, s, es[..i + 1]) == Step(cfg, Run(cfg, s, es[..i]), es[i])
  {
    assert es[..i + 1][..i] == es[..i];
  }

  lemma BufferIsEmpty(es: seq<Event>, startsEmpty: bool, i: nat)
    requires UpdatesFindNoBuffer(es, startsEmpty) && i < |es| && !es[i].Do?
    ensures if i == 0 then startsEmpty else !Buffers(es[i - 1])
  {
  }

  /** Whatever a handler with its buffer is made to do, when all of it is allowed, the journal of the source
      with what is still buffered replays to exactly the visible rows. */
  method Perform(handler: DatabaseHandler, es: seq<Event>, ghost source: string)
    requires handler.Valid() && UpdatesFindNoBuffer(es, handler.rpslUpsertBuffer == [])
    requires AllGuaranteed(handler.config, handler.Abs(), es)
    modifies handler
    ensures handler.Valid() && handler.Abs() == Run(handler.config, old(handler.Abs()), es)
    ensures Exact(handler.config, old(handler.Abs()), source) && AllAllowed(handler.config, old(handler.Abs()), es, source)
            ==> Exact(handler.config, handler.Abs(), source)
  {
    ghost var start, startsEmpty := handler.Abs(), handler.rpslUpsertBuffer == [];
    assert es[..0] == [];
    for i := 0 to |es|
      invariant handler.Valid() && handler.Abs() == Run(handler.config, start, es[..i])
      invariant if i == 0 then startsEmpty == (handler.rpslUpsertBuffer == [])
                else !Buffers(es[i - 1]) ==> handler.rpslUpsertBuffer == []
    {
      RunNextEvent(handler.config, start, es, i);
      if es[i].Do? {
        assert GuaranteeHolds(Run(handler.config, start, es[..i]), es[i].call);
        PerformCall(handler, es[i].call);
      } else {
        BufferIsEmpty(es, startsEmpty, i);
        PerformUpdate(handler, es[i]);
      }
    }
    assert es[..|es|] == es;
    if Exact(handler.config, start, source) && AllAllowed(handler.config, start, es, source) {
      ReplayEqualsVisibility(handler.config, start, es, source);
    }
  }
}
