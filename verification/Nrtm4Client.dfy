/** The NRTMv4 client: which files of an Update Notification File it loads, and what it then holds. */
module Nrtm4Client {
  import opened Journal
  import opened Store
  import opened Nrtm4Server

  /** The stored status and data of one mirrored source. Version 0 stands for no known version. */
  datatype Client = Client(session: Option<nat>, version: nat, objects: Mirror)

  datatype Find = VersionError | NeedsSnapshot | NextVersion(version: nat)

  datatype Result<T> = Ok(value: T) | Failed

  /** `lastVersion` of 0 means: use the stored one. */
  function FindNext(c: Client, forceReload: bool, unf: Unf, lastVersion: nat): Find {
    var last := if lastVersion == 0 then c.version else lastVersion;
    if lastVersion == 0 && (forceReload || c.session.None? || last == 0 || c.session != Some(unf.session)) then NeedsSnapshot
    else if last > unf.version then VersionError
    else if unf.deltas != [] && unf.deltas[0].version > last + 1 then NeedsSnapshot
    else NextVersion(last + 1)
  }

  /** The entries of all deltas from a version on. */
  function EntriesFrom(deltas: seq<Delta>, version: nat): seq<Entry> {
    if deltas == [] then []
    else
      var last := deltas[|deltas| - 1];
      EntriesFrom(deltas[..|deltas| - 1], version) + (if last.version < version then [] else last.entries)
  }

  /** An empty delta file is an error. */
  predicate DeltasLoadable(deltas: seq<Delta>, version: nat) {
    forall d | d in deltas && d.version >= version :: d.entries != []
  }

  /** Deltas are loaded when the newest one is at or past the next version. */
  function LoadDeltas(c: Client, unf: Unf, next: nat): Result<Client> {
    if unf.deltas != [] && next <= unf.deltas[|unf.deltas| - 1].version then
      if DeltasLoadable(unf.deltas, next)
      then Ok(Client(Some(unf.session), unf.version, Apply(c.objects, EntriesFrom(unf.deltas, next))))
      else Failed
    else Ok(Client(Some(unf.session), unf.version, c.objects))
  }

  function RunClient(c: Client, unf: Unf, forceReload: bool, forceDeltas: bool): Result<Client> {
    match FindNext(c, forceReload, unf, 0)
    case VersionError => Failed
    case NextVersion(next) => LoadDeltas(c, unf, next)
    case NeedsSnapshot =>
      var loaded := c.(objects := Loaded(unf.snapshot.items));
      match FindNext(c, forceReload, unf, unf.snapshot.version)
      case VersionError => Failed
      case NextVersion(next) =>
        if forceDeltas then LoadDeltas(loaded, unf, next)
        else Ok(Client(Some(unf.session), unf.snapshot.version, Loaded(unf.snapshot.items)))
      case NeedsSnapshot =>
        // comparing the missing next version with the newest delta raises a TypeError
        if forceDeltas then Failed
        else Ok(Client(Some(unf.session), unf.snapshot.version, Loaded(unf.snapshot.items)))
  }

  // ---- what a run does, told by the stored status and the file ----

  /** Nothing that is stored can be continued: a forced reload, no known version, or another session. */
  predicate StartsOver(c: Client, forceReload: bool, unf: Unf) {
    forceReload || c.version == 0 || c.session != Some(unf.session)
  }

  /** The delta after a version is no longer listed, although newer ones are. */
  predicate OutOfReach(version: nat, unf: Unf) {
    unf.deltas != [] && version + 1 < unf.deltas[0].version
  }

  /** The source takes a reload from the snapshot. */
  predicate Reloads(c: Client, forceReload: bool, unf: Unf) {
    StartsOver(c, forceReload, unf) || (c.version <= unf.version && OutOfReach(c.version, unf))
  }

  lemma {:induction false} NoEntriesPastLast(deltas: seq<Delta>, next: nat)
    requires ConsecutiveVersions(deltas) && (deltas != [] ==> deltas[|deltas| - 1].version < next)
    ensures EntriesFrom(deltas, next) == [] && DeltasLoadable(deltas, next)
  {
    if deltas != [] {
      NoEntriesPastLast(deltas[..|deltas| - 1], next);
    }
  }

  /** A file of the own session that is older than what is held is refused, unless a reload is forced. */
  lemma OlderFileFails(c: Client, unf: Unf, forceReload: bool, forceDeltas: bool)
    requires !StartsOver(c, forceReload, unf)
    ensures unf.version < c.version ==> RunClient(c, unf, forceReload, forceDeltas) == Failed
  {
  }

  /** Loading the deltas of a file from a version on: none of those may be empty. */
  lemma LoadsExactly(c: Client, unf: Unf, next: nat)
    requires unf.VersionsConsistent()
    ensures LoadDeltas(c, unf, next)
         == if DeltasLoadable(unf.deltas, next)
            then Ok(Client(Some(unf.session), unf.version, Apply(c.objects, EntriesFrom(unf.deltas, next)))) else Failed
  {
    if unf.deltas == [] || unf.deltas[|unf.deltas| - 1].version < next {
      NoEntriesPastLast(unf.deltas, next);
    }
  }

  lemma FindsExactly(c: Client, forceReload: bool, unf: Unf)
    ensures FindNext(c, forceReload, unf, 0)
         == if Reloads(c, forceReload, unf) then NeedsSnapshot
            else if unf.version < c.version then VersionError else NextVersion(c.version + 1)
  {
  }

  /** A reload holds the snapshot under its version; with forced deltas, the deltas after it under the file's version. */
  lemma ReloadExactly(c: Client, unf: Unf, forceReload: bool, forceDeltas: bool)
    requires Reloads(c, forceReload, unf) && unf.VersionsConsistent()
    ensures var r, start := RunClient(c, unf, forceReload, forceDeltas), unf.snapshot.version;
            if !forceDeltas then
              && (r.Ok? <==> start <= unf.version)
              && (r.Ok? ==> r.value == Client(Some(unf.session), start, Loaded(unf.snapshot.items)))
            else
              && (r.Ok? <==> 0 < start <= unf.version && !OutOfReach(start, unf) && DeltasLoadable(unf.deltas, start + 1))
              && (r.Ok? ==> r.value == Client(Some(unf.session), unf.version,
                                              Apply(Loaded(unf.snapshot.items), EntriesFrom(unf.deltas, start + 1))))
  {
    FindsExactly(c, forceReload, unf);
    LoadsExactly(c.(objects := Loaded(unf.snapshot.items)), unf, unf.snapshot.version + 1);
  }

  /** Otherwise the deltas from the next version on are applied to what is held. */
  lemma ContinueExactly(c: Client, unf: Unf, forceReload: bool, forceDeltas: bool)
    requires !Reloads(c, forceReload, unf) && c.version <= unf.version && unf.VersionsConsistent()
    ensures var r := RunClient(c, unf, forceReload, forceDeltas);
            && (r.Ok? <==> DeltasLoadable(unf.deltas, c.version + 1))
            && (r.Ok? ==> r.value == Client(Some(unf.session), unf.version,
                                            Apply(c.objects, EntriesFrom(unf.deltas, c.version + 1))))
  {
    FindsExactly(c, forceReload, unf);
    LoadsExactly(c, unf, c.version + 1);
  }

  /** In its own session, without a forced reload, a client goes back to an earlier version if and only if
      the deltas it needs are gone and the snapshot is older than what it holds. */
  lemma GoesBackExactly(c: Client, unf: Unf, forceDeltas: bool)
    requires !StartsOver(c, false, unf) && unf.VersionsConsistent() && RunClient(c, unf, false, forceDeltas).Ok?
    ensures RunClient(c, unf, false, forceDeltas).value.version < c.version
        <==> OutOfReach(c.version, unf) && !forceDeltas && unf.snapshot.version < c.version
  {
    OlderFileFails(c, unf, false, forceDeltas);
    if Reloads(c, false, unf) {
      ReloadExactly(c, unf, false, forceDeltas);
    } else {
      ContinueExactly(c, unf, false, forceDeltas);
    }
  }

  lemma EntriesNext(deltas: seq<Delta>, version: nat, i: nat)
    requires i < |deltas|
    ensures EntriesFrom(deltas[..i + 1], version)
         == EntriesFrom(deltas[..i], version) + (if deltas[i].version < version then [] else deltas[i].entries)
  {
    assert deltas[..i + 1][..i] == deltas[..i];
  }

  /** It happens: deltas 2 to 4 have expired, the snapshot is of version 1, and the client is at version 3. */
  lemma GoesBackExample(objects: Mirror, snapshot: Snapshot, d: Delta)
    requires snapshot.version == 1
    ensures var c, unf := Client(Some(0), 3, objects), Unf(0, 6, snapshot, [d.(version := 5), d.(version := 6)]);
            unf.VersionsConsistent() && RunClient(c, unf, false, false) == Ok(Client(Some(0), 1, Loaded(snapshot.items)))
  {
    var c, unf := Client(Some(0), 3, objects), Unf(0, 6, snapshot, [d.(version := 5), d.(version := 6)]);
    assert unf.deltas[0].version == 5 && unf.deltas[1].version == 6;
    ReloadExactly(c, unf, false, false);
  }

  /** One more delta of a list. */
  lemma LoadNext(start: Mirror, deltas: seq<Delta>, next: nat, i: nat)
    requires i < |deltas| && DeltasLoadable(deltas[..i], next)
    ensures Apply(start, EntriesFrom(deltas[..i + 1], next))
         == if deltas[i].version < next then Apply(start, EntriesFrom(deltas[..i], next))
            else Apply(Apply(start, EntriesFrom(deltas[..i], next)), deltas[i].entries)
    ensures DeltasLoadable(deltas[..i + 1], next) <==> deltas[i].version < next || deltas[i].entries != []
    ensures DeltasLoadable(deltas, next) ==> deltas[i].version < next || deltas[i].entries != []
  {
    EntriesNext(deltas, next, i);
    assert deltas[..i + 1] == deltas[..i] + [deltas[i]] && deltas[i] in deltas;
    if deltas[i].version < next {
      assert EntriesFrom(deltas[..i], next) + [] == EntriesFrom(deltas[..i], next);
    } else {
      ApplyConcat(start, EntriesFrom(deltas[..i], next), deltas[i].entries);
    }
  }

  class NRTM4Client {
    var client: Client
    const forceReload: bool

    constructor (client: Client, forceReload: bool)
      ensures this.client == client && this.forceReload == forceReload
    {
      this.client, this.forceReload := client, forceReload;
    }

    /** Replaces everything the source holds by the rows of the snapshot file. */
    method LoadSnapshot(items: seq<Item>)
      modifies this
      ensures client == old(client).(objects := Loaded(items))
    {
      client := client.(objects := map[]);
      for i := 0 to |items|
        invariant client == old(client).(objects := Loaded(items[..i]))
      {
        assert items[..i + 1][..i] == items[..i];
        client := client.(objects := client.objects[items[i].key := items[i].text]);
      }
      assert items[..|items|] == items;
    }

    method ProcessItems(items: seq<Entry>)
      modifies this
      ensures client == old(client).(objects := Apply(old(client).objects, items))
    {
      for i := 0 to |items|
        invariant client == old(client).(objects := Apply(old(client).objects, items[..i]))
      {
        assert items[..i + 1][..i] == items[..i];
        client := client.(objects := ApplyEntry(client.objects, items[i]));
      }
      assert items[..|items|] == items;
    }

    /** Applies every item of every delta from the next version on, in order. */
    method ApplyDeltas(deltas: seq<Delta>, next: nat) returns (ok: bool)
      modifies this
      ensures ok <==> DeltasLoadable(deltas, next)
      ensures ok ==> client == old(client).(objects := Apply(old(client).objects, EntriesFrom(deltas, next)))
    {
      ghost var start := client.objects;
      for i := 0 to |deltas|
        invariant client == old(client).(objects := Apply(start, EntriesFrom(deltas[..i], next)))
        invariant DeltasLoadable(deltas[..i], next)
      {
        LoadNext(start, deltas, next, i);
        if deltas[i].version < next {
          continue;
        }
        var items := deltas[i].entries;
        if items == [] { return false; }
        ProcessItems(items);
      }
      assert deltas[..|deltas|] == deltas;
      ok := true;
    }

    /** One run of the client; a failed run is rolled back by its caller. */
    method Run(unf: Unf, forceDeltas: bool) returns (ok: bool)
      modifies this
      ensures ok <==> RunClient(old(client), unf, forceReload, forceDeltas).Ok?
      ensures ok ==> client == RunClient(old(client), unf, forceReload, forceDeltas).value
      ensures !StartsOver(old(client), forceReload, unf) && unf.version < old(client).version
              ==> !ok && client == old(client)
      ensures ok && Reloads(old(client), forceReload, unf) && !forceDeltas
              ==> client == Client(Some(unf.session), unf.snapshot.version, Loaded(unf.snapshot.items))
    {
      var find := FindNext(client, forceReload, unf, 0);
      if find.VersionError? { return false; }
      var hasLoadedSnapshot := find.NeedsSnapshot?;
      if hasLoadedSnapshot {
        LoadSnapshot(unf.snapshot.items);
        find := FindNext(client, forceReload, unf, unf.snapshot.version);
        FindIgnoresObjects(old(client), client, forceReload, unf, unf.snapshot.version);
        if find.VersionError? { return false; }
      }
      var deltasDeferred := hasLoadedSnapshot && !forceDeltas;
      if !deltasDeferred {
        if find.NeedsSnapshot? { return false; }
        if unf.deltas != [] && find.version <= unf.deltas[|unf.deltas| - 1].version {
          var loaded := ApplyDeltas(unf.deltas, find.version);
          if !loaded { return false; }
        }
      }
      client := Client(Some(unf.session), if deltasDeferred then unf.snapshot.version else unf.version, client.objects);
      ok := true;
    }
  }

  lemma FindIgnoresObjects(c: Client, c': Client, forceReload: bool, unf: Unf, lastVersion: nat)
    requires c' == c.(objects := c'.objects)
    ensures FindNext(c, forceReload, unf, lastVersion) == FindNext(c', forceReload, unf, lastVersion)
  {
  }
}
