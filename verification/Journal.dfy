/** The object table and the journal of ADD/DEL operations, and the meaning of a journal:
    the mirror contents obtained by replaying it from an empty database. */
module Journal {

  /** The unique key of a row: (rpsl_pk, source, object_class). */
  datatype Key = Key(rpslPk: string, source: string, objectClass: string)

  datatype RpkiStatus = Valid | Invalid | NotFound
  datatype ScopeFilterStatus = InScope | OutScopeAs | OutScopePrefix
  datatype RoutePreferenceStatus = Visible | Suppressed

  datatype Statuses = Statuses(rpki: RpkiStatus, scope: ScopeFilterStatus, pref: RoutePreferenceStatus)
  datatype Row = Row(text: string, statuses: Statuses)

  datatype Operation = AddOrUpdate | Delete
  datatype Origin = Mirror | SyntheticNrtm | PseudoIrr | AuthChange | RpkiOrigin | ScopeOrigin | PrefOrigin | Suspension

  datatype Entry = Entry(key: Key, op: Operation, text: string, origin: Origin, serial: int)

  type Table = map<Key, Row>
  /** What a mirror holds: the text of every object it knows. */
  type Mirror = map<Key, string>

  predicate ObjectIsVisible(s: Statuses) {
    s.rpki != Invalid && s.scope == InScope && s.pref == Visible
  }

  /** The rows of one source that pass all three suppression filters. */
  function VisibleText(table: Table, source: string): Mirror {
    map k | k in table && k.source == source && ObjectIsVisible(table[k].statuses) :: table[k].text
  }

  function ApplyEntry(m: Mirror, e: Entry): Mirror {
    match e.op
    case AddOrUpdate => m[e.key := e.text]
    case Delete => m - {e.key}
  }

  function Apply(m: Mirror, entries: seq<Entry>): Mirror {
    if entries == [] then m
    else ApplyEntry(Apply(m, entries[..|entries| - 1]), entries[|entries| - 1])
  }

  function Replay(entries: seq<Entry>): Mirror {
    Apply(map[], entries)
  }

  /** The entries of one source, in journal order. */
  function OfSource(journal: seq<Entry>, source: string): seq<Entry> {
    if journal == [] then []
    else
      var rest := OfSource(journal[..|journal| - 1], source);
      var last := journal[|journal| - 1];
      if last.key.source == source then rest + [last] else rest
  }

  lemma {:induction false} OfSourceAppend(journal: seq<Entry>, more: seq<Entry>, source: string)
    ensures OfSource(journal + more, source) == OfSource(journal, source) + OfSource(more, source)
  {
    if more == [] {
      assert journal + more == journal;
    } else {
      var init := more[..|more| - 1];
      assert (journal + more)[..|journal + more| - 1] == journal + init;
      OfSourceAppend(journal, init, source);
    }
  }

  /** Replaying one more entry of the source is one more step; entries of other sources change nothing. */
  lemma ReplayAppend(journal: seq<Entry>, e: Entry, source: string)
    ensures Replay(OfSource(journal + [e], source))
         == if e.key.source == source then ApplyEntry(Replay(OfSource(journal, source)), e)
            else Replay(OfSource(journal, source))
  {
    assert (journal + [e])[..|journal|] == journal;
    var s := OfSource(journal, source);
    assert (s + [e])[..|s|] == s;
  }

  lemma {:induction false} ApplyConcat(m: Mirror, a: seq<Entry>, b: seq<Entry>)
    ensures Apply(m, a + b) == Apply(Apply(m, a), b)
  {
    if b == [] {
      assert a + b == a;
    } else {
      assert (a + b)[..|a + b| - 1] == a + b[..|b| - 1];
      ApplyConcat(m, a, b[..|b| - 1]);
    }
  }
}
