/** The versioned, partially failing seed refresh
    (crates/storage-sqlite/src/seed.rs). Hashing and JSON parsing are unknown
    functions; the remote side of one refresh is a `Remote` value. Foreign keys
    are enforced, so what an entry can do depends on what is stored when it is
    visited. */
module Seed {
  import opened Common
  import opened SeedRows

  datatype Entry = Entry(file: string, sha256: string)

  datatype Manifest = Manifest(version: nat, entries: map<string, Entry>)

  /** One refresh's surroundings: the manifest, what each file fetches to, the
      row of an entry at which the database fails for a reason of its own (if
      any), whether storing an entry's hash fails, and the texts the run would
      record. */
  datatype Remote = Remote(
    manifest: Manifest, fetch: string -> Option<string>, stops: string -> Option<nat>, hashFails: string -> bool,
    url: string, now: int, nowText: string, errorText: string)

  /** The metadata table: the version, one hash per entry name, and the notes. */
  datatype Meta = Meta(
    version: nat, hashes: map<string, string>,
    lastError: string, lastRefreshAt: string, source: string, remoteUrl: string)

  datatype Tables = Tables(
    providers: References, models: References, channels: Channels, mappings: SeedRows.Mappings)

  datatype State = State(meta: Meta, db: Tables)

  datatype Codec = Codec(
    sha256: string -> string,
    providers: string -> Option<seq<Reference>>, models: string -> Option<seq<Reference>>,
    channels: string -> Option<seq<SeedChannel>>, mappings: string -> Option<seq<SeedMapping>>)

  datatype Kind = Providers | Models | Channels | Mappings

  /** Both spellings of the mappings entry are accepted. */
  function KindOf(name: string): Option<Kind> {
    if name == "providers" then Some(Providers)
    else if name == "models" then Some(Models)
    else if name == "channels" then Some(Kind.Channels)
    else if name == "modelMappings" || name == "model_mappings" then Some(Kind.Mappings)
    else None
  }

  // ---------------------------------------------------------------------
  // Applying one entry
  // ---------------------------------------------------------------------

  /** The keys that a foreign key may refer to. */
  datatype Keys = Keys(providers: set<string>, channels: set<string>)

  function KeysOf(db: Tables): Keys {
    Keys(db.providers.Keys, db.channels.Keys)
  }

  /** How many rows an entry has; none for an unknown name or unparsable body. */
  function TotalRows(codec: Codec, name: string, json: string): Option<nat> {
    match KindOf(name)
    case None => None
    case Some(Providers) => if codec.providers(json).Some? then Some(|codec.providers(json).value|) else None
    case Some(Models) => if codec.models(json).Some? then Some(|codec.models(json).value|) else None
    case Some(Channels) => if codec.channels(json).Some? then Some(|codec.channels(json).value|) else None
    case Some(Mappings) => if codec.mappings(json).Some? then Some(|codec.mappings(json).value|) else None
  }

  /** How many of its rows go in, against the foreign keys `keys`: up to the
      first that fails. */
  function AppliedRows(codec: Codec, db: Tables, keys: Keys, name: string, json: string, stop: Option<nat>, now: int): nat {
    match KindOf(name)
    case None => 0
    case Some(Providers) =>
      if codec.providers(json).None? then 0
      else InsertCount(db.providers, None, codec.providers(json).value, stop, now, 0)
    case Some(Models) =>
      if codec.models(json).None? then 0
      else InsertCount(db.models, Some(keys.providers), codec.models(json).value, stop, now, 0)
    case Some(Channels) =>
      if codec.channels(json).None? then 0 else ChannelCount(codec.channels(json).value, stop)
    case Some(Mappings) =>
      if codec.mappings(json).None? then 0
      else MappingCount(keys.channels, codec.mappings(json).value, stop, 0)
  }

  function Take<T>(rows: seq<T>, n: nat): seq<T> {
    if n <= |rows| then rows[..n] else rows
  }

  /** The tables with the first `n` rows of an entry applied. */
  function WithRows(codec: Codec, db: Tables, name: string, json: string, n: nat, now: int): Tables {
    match KindOf(name)
    case None => db
    case Some(Providers) =>
      if codec.providers(json).None? then db
      else db.(providers := InsertAll(db.providers, Take(codec.providers(json).value, n), now))
    case Some(Models) =>
      if codec.models(json).None? then db
      else db.(models := InsertAll(db.models, Take(codec.models(json).value, n), now))
    case Some(Channels) =>
      if codec.channels(json).None? then db
      else db.(channels := UpsertChannels(db.channels, Take(codec.channels(json).value, n), now))
    case Some(Mappings) =>
      if codec.mappings(json).None? then db
      else db.(mappings := UpsertMappings(db.mappings, Take(codec.mappings(json).value, n)))
  }

  function Upserted(codec: Codec, db: Tables, name: string, json: string, stop: Option<nat>, now: int): Tables {
    WithRows(codec, db, name, json, AppliedRows(codec, db, KeysOf(db), name, json, stop, now), now)
  }

  /** Whether an entry is applied to its last row. */
  predicate Upserts(codec: Codec, db: Tables, name: string, json: string, stop: Option<nat>, now: int) {
    TotalRows(codec, name, json) == Some(AppliedRows(codec, db, KeysOf(db), name, json, stop, now))
  }

  // ---------------------------------------------------------------------
  // One refresh
  // ---------------------------------------------------------------------

  /** What an entry's file fetches to, if its hash is the manifest's. */
  function Body(codec: Codec, remote: Remote, name: string): Option<string> {
    if name !in remote.manifest.entries then None
    else
      var entry := remote.manifest.entries[name];
      var body := remote.fetch(entry.file);
      if body.Some? && codec.sha256(body.value) == entry.sha256 then body else None
  }

  /** The rows of entry `name` that a visit applies. */
  function EntryRows(codec: Codec, db: Tables, keys: Keys, remote: Remote, name: string): nat {
    match Body(codec, remote, name)
    case None => 0
    case Some(json) => AppliedRows(codec, db, keys, name, json, remote.stops(name), remote.now)
  }

  function AppliedEntry(codec: Codec, db: Tables, remote: Remote, name: string): Tables {
    match Body(codec, remote, name)
    case None => db
    case Some(json) => Upserted(codec, db, name, json, remote.stops(name), remote.now)
  }

  /** Whether fetching, checking, applying and recording entry `name` succeeds. */
  predicate Succeeds(codec: Codec, db: Tables, remote: Remote, name: string) {
    && Body(codec, remote, name).Some?
    && Upserts(codec, db, name, Body(codec, remote, name).value, remote.stops(name), remote.now)
    && !remote.hashFails(name)
  }

  /** The entries whose stored hash differs from the manifest's. */
  function Pending(meta: Meta, m: Manifest): set<string> {
    set name | name in m.entries && !(name in meta.hashes && meta.hashes[name] == m.entries[name].sha256)
  }

  function WithHash(meta: Meta, m: Manifest, name: string): Meta
    requires name in m.entries
  {
    meta.(hashes := meta.hashes[name := m.entries[name].sha256])
  }

  /** One entry: skipped when its stored hash is the manifest's; otherwise
      fetched, applied as far as the database lets it, and its hash stored only
      when all of that succeeded. */
  function Visit(codec: Codec, s: State, remote: Remote, name: string): State {
    if name !in Pending(s.meta, remote.manifest) then s
    else
      State(if Succeeds(codec, s.db, remote, name) then WithHash(s.meta, remote.manifest, name) else s.meta,
            AppliedEntry(codec, s.db, remote, name))
  }

  function VisitAll(codec: Codec, s: State, remote: Remote, order: seq<string>): State {
    if order == [] then s
    else Visit(codec, VisitAll(codec, s, remote, order[..|order| - 1]), remote, order[|order| - 1])
  }

  predicate Distinct(names: seq<string>) {
    forall i, j :: 0 <= i < j < |names| ==> names[i] != names[j]
  }

  /** The manifest's entries are a hash map: they come in some order. */
  ghost predicate IsOrder(order: seq<string>, m: Manifest) {
    Distinct(order) && forall name :: name in order <==> name in m.entries
  }

  /** What is left after one refresh that visits the entries in `order`. */
  function Refreshed(codec: Codec, s: State, remote: Remote, order: seq<string>): State {
    var m := remote.manifest;
    if m.version <= s.meta.version then s
    else
      var s' := VisitAll(codec, s, remote, order);
      if Pending(s'.meta, m) == {}
      then s'.(meta := Meta(m.version, s'.meta.hashes, "", remote.nowText, "remote", remote.url))
      else s'.(meta := s'.meta.(lastError := remote.errorText))
  }

  function Filter(names: seq<string>, keep: set<string>): seq<string> {
    if names == [] then []
    else
      var n := |names| - 1;
      Filter(names[..n], keep) + (if names[n] in keep then [names[n]] else [])
  }

  /** The names a refresh fetches: none behind the version gate. */
  function FetchedNames(meta: Meta, m: Manifest, order: seq<string>): seq<string> {
    if m.version <= meta.version then [] else Filter(order, Pending(meta, m))
  }

  // ---------------------------------------------------------------------
  // First start: the embedded files
  // ---------------------------------------------------------------------

  /** The embedded files; the version is that of the embedded manifest, if it
      can be parsed. */
  datatype Embedded = Embedded(
    providers: string, models: string, channels: string, mappings: string, version: Option<nat>)

  /** The next entry, unless an earlier one failed. */
  function Then(codec: Codec, sofar: (Tables, bool), name: string, json: string, stops: string -> Option<nat>, now: int)
    : (Tables, bool)
  {
    if !sofar.1 then sofar
    else (Upserted(codec, sofar.0, name, json, stops(name), now), Upserts(codec, sofar.0, name, json, stops(name), now))
  }

  /** Parents come before the entries that refer to them. */
  function AppliedAll(codec: Codec, db: Tables, e: Embedded, stops: string -> Option<nat>, now: int): (Tables, bool) {
    var providers := Then(codec, (db, true), "providers", e.providers, stops, now);
    var models := Then(codec, providers, "models", e.models, stops, now);
    var channels := Then(codec, models, "channels", e.channels, stops, now);
    Then(codec, channels, "model_mappings", e.mappings, stops, now)
  }

  function EmbeddedHashes(codec: Codec, e: Embedded): map<string, string> {
    map["providers" := codec.sha256(e.providers), "models" := codec.sha256(e.models),
        "channels" := codec.sha256(e.channels), "model_mappings" := codec.sha256(e.mappings)]
  }

  /** Whether a first start reports success. */
  predicate InitSucceeds(codec: Codec, s: State, e: Embedded, stops: string -> Option<nat>, now: int) {
    s.meta.version > 0 || (AppliedAll(codec, s.db, e, stops, now).1 && e.version.Some?)
  }

  /** What is left after a first start: hashes and source as soon as every
      entry was applied, the version only if the manifest parses. */
  function Initialized(codec: Codec, s: State, e: Embedded, stops: string -> Option<nat>, now: int): State {
    if s.meta.version > 0 then s
    else
      var (db, ok) := AppliedAll(codec, s.db, e, stops, now);
      if !ok then s.(db := db)
      else
        var hashed := s.meta.(hashes := s.meta.hashes + EmbeddedHashes(codec, e), source := "embedded");
        State(if e.version.Some? then hashed.(version := e.version.value) else hashed, db)
  }

  // ---------------------------------------------------------------------
  // The operations
  // ---------------------------------------------------------------------

  class SeedOps {
    const codec: Codec
    var meta: Meta
    var db: Tables
    /** The names fetched from remotes, in order. */
    ghost var fetched: seq<string>

    function View(): State
      reads this
    {
      State(meta, db)
    }

    constructor (codec: Codec, meta: Meta, db: Tables)
      ensures this.codec == codec && View() == State(meta, db) && fetched == []
    {
      this.codec := codec;
      this.meta := meta;
      this.db := db;
      fetched := [];
    }

    method InsertRows(t: References, parents: Option<set<string>>, rows: seq<Reference>, stop: Option<nat>, now: int)
      returns (r: References, ok: bool)
      ensures var n := InsertCount(t, parents, rows, stop, now, 0);
              r == InsertAll(t, rows[..n], now) && ok == (n == |rows|)
    {
      hide InsertAll;
      r := t;
      NoRows(t, now);
      for i := 0 to |rows|
        invariant r == InsertAll(t, rows[..i], now)
        invariant forall j :: 0 <= j < i ==> !InsertFails(t, parents, rows, stop, now, j)
      {
        if stop == Some(i) || Orphan(r, parents, rows[i]) {
          assert InsertFails(t, parents, rows, stop, now, i);
          return r, false;
        }
        InsertOneMore(t, rows, i, now);
        r := InsertOrIgnore(r, rows[i], now);
      }
      ok := true;
    }

    method UpsertChannelRows(t: Channels, rows: seq<SeedChannel>, stop: Option<nat>, now: int) returns (r: Channels, ok: bool)
      ensures var n := ChannelCount(rows, stop);
              r == UpsertChannels(t, rows[..n], now) && ok == (n == |rows|)
    {
      r := t;
      for i := 0 to |rows|
        invariant r == UpsertChannels(t, rows[..i], now) && (stop.Some? ==> stop.value >= i)
      {
        if stop == Some(i) {
          return r, false;
        }
        assert rows[..i + 1][..i] == rows[..i];
        r := UpsertChannel(r, rows[i], now);
      }
      ok := true;
    }

    method UpsertMappingRows(t: SeedRows.Mappings, channels: set<string>, rows: seq<SeedMapping>, stop: Option<nat>)
      returns (r: SeedRows.Mappings, ok: bool)
      ensures var n := MappingCount(channels, rows, stop, 0);
              r == UpsertMappings(t, rows[..n]) && ok == (n == |rows|)
    {
      r := t;
      for i := 0 to |rows|
        invariant r == UpsertMappings(t, rows[..i])
        invariant forall j :: 0 <= j < i ==> !MappingFails(channels, rows, stop, j)
      {
        if stop == Some(i) || rows[i].row.channelId !in channels {
          assert MappingFails(channels, rows, stop, i);
          return r, false;
        }
        assert rows[..i + 1][..i] == rows[..i];
        r := r[rows[i].id := rows[i].row];
      }
      ok := true;
    }

    method UpsertEntry(name: string, json: string, stop: Option<nat>, now: int) returns (ok: bool)
      modifies this`db
      ensures db == Upserted(codec, old(db), name, json, stop, now)
      ensures ok == Upserts(codec, old(db), name, json, stop, now)
    {
      hide InsertAll, UpsertChannels, UpsertMappings, InsertCount, MappingCount, ChannelCount;
      match KindOf(name) {
        case None => ok := false;
        case Some(Providers) =>
          var rows := codec.providers(json);
          if rows.None? { return false; }
          var t;
          t, ok := InsertRows(db.providers, None, rows.value, stop, now);
          db := db.(providers := t);
        case Some(Models) =>
          var rows := codec.models(json);
          if rows.None? { return false; }
          var t;
          t, ok := InsertRows(db.models, Some(db.providers.Keys), rows.value, stop, now);
          db := db.(models := t);
        case Some(Channels) =>
          var rows := codec.channels(json);
          if rows.None? { return false; }
          var t;
          t, ok := UpsertChannelRows(db.channels, rows.value, stop, now);
          db := db.(channels := t);
        case Some(Mappings) =>
          var rows := codec.mappings(json);
          if rows.None? { return false; }
          var t;
          t, ok := UpsertMappingRows(db.mappings, db.channels.Keys, rows.value, stop);
          db := db.(mappings := t);
      }
    }

    /** The first start. A version above zero is left alone. */
    method SeedInit(e: Embedded, stops: string -> Option<nat>, now: int) returns (ok: bool)
      modifies this`db, this`meta
      ensures View() == Initialized(codec, old(View()), e, stops, now)
      ensures ok == InitSucceeds(codec, old(View()), e, stops, now)
    {
      hide AppliedAll;
      if meta.version > 0 {
        return true;
      }
      ok := ApplyAllEntries(e, stops, now);
      if !ok {
        return;
      }
      if e.version.None? {
        return false;
      }
      meta := meta.(version := e.version.value);
    }

    method ApplyAllEntries(e: Embedded, stops: string -> Option<nat>, now: int) returns (ok: bool)
      modifies this`db, this`meta
      ensures (db, ok) == AppliedAll(codec, old(db), e, stops, now)
      ensures meta == if ok then old(meta).(hashes := old(meta).hashes + EmbeddedHashes(codec, e), source := "embedded")
                      else old(meta)
    {
      hide Upserts, Upserted;
      ok := UpsertEntry("providers", e.providers, stops("providers"), now);
      if !ok { return; }
      ok := UpsertEntry("models", e.models, stops("models"), now);
      if !ok { return; }
      ok := UpsertEntry("channels", e.channels, stops("channels"), now);
      if !ok { return; }
      ok := UpsertEntry("model_mappings", e.mappings, stops("model_mappings"), now);
      if !ok { return; }
      meta := meta.(hashes := meta.hashes + EmbeddedHashes(codec, e));
      meta := meta.(source := "embedded");
    }

    /** Fetch, verify the hash, apply, and only then store the hash. */
    method FetchAndApplyEntry(remote: Remote, name: string) returns (ok: bool)
      requires name in remote.manifest.entries
      modifies this`db, this`meta, this`fetched
      ensures fetched == old(fetched) + [name]
      ensures ok == Succeeds(codec, old(db), remote, name)
      ensures meta == if ok then WithHash(old(meta), remote.manifest, name) else old(meta)
      ensures db == AppliedEntry(codec, old(db), remote, name)
    {
      hide Upserts, Upserted;
      var entry := remote.manifest.entries[name];
      fetched := fetched + [name];
      var body := remote.fetch(entry.file);
      if body.None? || codec.sha256(body.value) != entry.sha256 {
        return false;
      }
      ok := UpsertEntry(name, body.value, remote.stops(name), remote.now);
      if !ok || remote.hashFails(name) {
        return false;
      }
      meta := meta.(hashes := meta.hashes[name := entry.sha256]);
    }

    method VisitEntry(remote: Remote, name: string) returns (ok: bool)
      requires name in remote.manifest.entries
      modifies this
      ensures ok == (name !in Pending(meta, remote.manifest))
      ensures View() == Visit(codec, old(View()), remote, name)
      ensures fetched == old(fetched) + (if name in Pending(old(meta), remote.manifest) then [name] else [])
    {
      hide Succeeds, AppliedEntry;
      if name in meta.hashes && meta.hashes[name] == remote.manifest.entries[name].sha256 {
        return true;
      }
      ok := FetchAndApplyEntry(remote, name);
    }

    /** One refresh. A manifest that is not newer changes nothing and fetches
        nothing; otherwise the pending entries are fetched, each once, in the
        order in which the entries happen to come. */
    method SeedRefresh(remote: Remote) returns (ghost order: seq<string>)
      modifies this
      ensures IsOrder(order, remote.manifest)
      ensures View() == Refreshed(codec, old(View()), remote, order)
      ensures fetched == old(fetched) + FetchedNames(old(meta), remote.manifest, order)
    {
      hide VisitAll, Pending, Filter, IsOrder;
      var m := remote.manifest;
      if m.version <= meta.version {
        order := SomeOrder(m);
        return;
      }
      var failed;
      failed, order := VisitEntries(remote);
      if !failed {
        meta := Meta(m.version, meta.hashes, "", remote.nowText, "remote", remote.url);
      } else {
        meta := meta.(lastError := remote.errorText);
      }
    }

    /** The loop over the manifest's entries. */
    method VisitEntries(remote: Remote) returns (failed: bool, ghost order: seq<string>)
      modifies this
      ensures IsOrder(order, remote.manifest)
      ensures View() == VisitAll(codec, old(View()), remote, order)
      ensures failed == (Pending(meta, remote.manifest) != {})
      ensures fetched == old(fetched) + Filter(order, Pending(old(meta), remote.manifest))
    {
      hide VisitAll, Visit, Pending, Filter, Distinct;
      var m := remote.manifest;
      var todo := m.entries.Keys;
      failed, order := false, [];
      Start(codec, View(), remote, Pending(meta, m));
      while todo != {}
        invariant todo <= m.entries.Keys
        invariant Distinct(order) && forall name :: name in order <==> name in m.entries && name !in todo
        invariant View() == VisitAll(codec, old(View()), remote, order)
        invariant failed == SomePending(order, meta, m)
        invariant fetched == old(fetched) + Filter(order, Pending(old(meta), m))
        decreases todo
      {
        var name :| name in todo;
        Advance(codec, old(View()), remote, order, name);
        var ok := VisitEntry(remote, name);
        order := order + [name];
        failed := failed || !ok;
        todo := todo - {name};
      }
      AllVisited(order, meta, m);
    }
  }

  lemma SomeOrder(m: Manifest) returns (order: seq<string>)
    ensures IsOrder(order, m)
  {
    var todo := m.entries.Keys;
    order := [];
    while todo != {}
      invariant todo <= m.entries.Keys && Distinct(order)
      invariant forall name :: name in order <==> name in m.entries && name !in todo
      decreases todo
    {
      var name :| name in todo;
      todo, order := todo - {name}, order + [name];
    }
  }

  /** Some visited entry is still pending. */
  ghost predicate SomePending(order: seq<string>, meta: Meta, m: Manifest) {
    exists name :: name in order && name in Pending(meta, m)
  }

  lemma Start(codec: Codec, s: State, remote: Remote, keep: set<string>)
    ensures VisitAll(codec, s, remote, []) == s && Filter([], keep) == [] && Distinct([])
    ensures !SomePending([], s.meta, remote.manifest)
  {}

  /** A visit touches no hash but its own. */
  lemma VisitKeepsOthers(codec: Codec, s: State, remote: Remote, name: string, other: string)
    ensures var m := remote.manifest;
            && (other != name ==>
                  (other in Pending(Visit(codec, s, remote, name).meta, m) <==> other in Pending(s.meta, m)))
            && (other in Pending(Visit(codec, s, remote, name).meta, m) ==> other in Pending(s.meta, m))
  {
    hide Succeeds, AppliedEntry;
  }

  /** So an entry not yet visited is as pending as at the start. */
  lemma {:induction false} NotYetVisited(codec: Codec, s: State, remote: Remote, order: seq<string>, name: string)
    ensures name in Pending(VisitAll(codec, s, remote, order).meta, remote.manifest) ==> name in Pending(s.meta, remote.manifest)
    ensures name !in order ==>
              (name in Pending(VisitAll(codec, s, remote, order).meta, remote.manifest) <==> name in Pending(s.meta, remote.manifest))
  {
    hide Visit, Pending;
    if order != [] {
      var n := |order| - 1;
      NotYetVisited(codec, s, remote, order[..n], name);
      VisitKeepsOthers(codec, VisitAll(codec, s, remote, order[..n]), remote, order[n], name);
    }
  }

  lemma Advance(codec: Codec, s: State, remote: Remote, order: seq<string>, name: string)
    requires Distinct(order) && name !in order
    ensures var before, m := VisitAll(codec, s, remote, order), remote.manifest;
            var after := VisitAll(codec, s, remote, order + [name]);
            && Distinct(order + [name])
            && after == Visit(codec, before, remote, name)
            && (name in Pending(before.meta, m) <==> name in Pending(s.meta, m))
            && Filter(order + [name], Pending(s.meta, m))
               == Filter(order, Pending(s.meta, m)) + (if name in Pending(s.meta, m) then [name] else [])
            && SomePending(order + [name], after.meta, m)
               == (SomePending(order, before.meta, m) || name in Pending(after.meta, m))
  {
    hide Visit, Pending;
    var before, m := VisitAll(codec, s, remote, order), remote.manifest;
    assert (order + [name])[..|order|] == order;
    NotYetVisited(codec, s, remote, order, name);
    var after := VisitAll(codec, s, remote, order + [name]);
    forall other | other in order
      ensures other in Pending(after.meta, m) <==> other in Pending(before.meta, m)
    {
      VisitKeepsOthers(codec, before, remote, name, other);
    }
  }

  lemma AllVisited(order: seq<string>, meta: Meta, m: Manifest)
    requires Distinct(order) && forall name :: name in order <==> name in m.entries
    ensures IsOrder(order, m) && (SomePending(order, meta, m) <==> Pending(meta, m) != {})
  {
    if Pending(meta, m) != {} {
      var name :| name in Pending(meta, m);
      assert name in order;
    }
  }

  // ---------------------------------------------------------------------
  // What no refresh does to the tables
  // ---------------------------------------------------------------------

  /** Nothing is deleted and nobody else's columns change. */
  ghost predicate TablesKept(before: Tables, after: Tables) {
    && (forall id :: id in before.providers ==> id in after.providers && after.providers[id] == before.providers[id])
    && (forall id :: id in before.models ==> id in after.models && after.models[id] == before.models[id])
    && (forall id :: id in before.channels ==> id in after.channels && after.channels[id].own == before.channels[id].own)
    && (forall id :: id in before.mappings ==> id in after.mappings)
  }

  lemma UpsertKeepsTables(codec: Codec, db: Tables, name: string, json: string, n: nat, now: int)
    ensures TablesKept(db, WithRows(codec, db, name, json, n, now))
  {
    hide InsertAll, UpsertChannels, UpsertMappings, Take;
    match KindOf(name) {
      case None =>
      case Some(Providers) =>
        if codec.providers(json).Some? {
          InsertAllKeepsRows(db.providers, Take(codec.providers(json).value, n), now);
        }
      case Some(Models) =>
        if codec.models(json).Some? {
          InsertAllKeepsRows(db.models, Take(codec.models(json).value, n), now);
        }
      case Some(Channels) =>
        if codec.channels(json).Some? {
          UpsertChannelsKeepRows(db.channels, Take(codec.channels(json).value, n), now);
        }
      case Some(Mappings) =>
        if codec.mappings(json).Some? {
          UpsertMappingsKeepRows(db.mappings, Take(codec.mappings(json).value, n));
        }
    }
  }

  lemma UpsertChannelsKeepRows(t: Channels, rows: seq<SeedChannel>, now: int)
    ensures forall id :: id in t ==>
              id in UpsertChannels(t, rows, now) && UpsertChannels(t, rows, now)[id].own == t[id].own
  {
    forall id | id in t
      ensures id in UpsertChannels(t, rows, now) && UpsertChannels(t, rows, now)[id].own == t[id].own
    {
      OperatorColumnsSurvive(t, rows, now, id);
    }
  }

  lemma UpsertMappingsKeepRows(t: SeedRows.Mappings, rows: seq<SeedMapping>)
    ensures forall id :: id in t ==> id in UpsertMappings(t, rows)
  {
    forall id | id in t
      ensures id in UpsertMappings(t, rows)
    {
      MappingAfterUpserts(t, rows, id);
    }
  }

  lemma KeptTwice(a: Tables, b: Tables, c: Tables)
    ensures TablesKept(a, a)
    ensures TablesKept(a, b) && TablesKept(b, c) ==> TablesKept(a, c)
  {}

  lemma EntryKeepsTables(codec: Codec, db: Tables, remote: Remote, name: string)
    ensures TablesKept(db, AppliedEntry(codec, db, remote, name))
  {
    hide TablesKept, WithRows, AppliedRows;
    KeptTwice(db, db, db);
    if Body(codec, remote, name).Some? {
      var json := Body(codec, remote, name).value;
      UpsertKeepsTables(codec, db, name, json,
                        AppliedRows(codec, db, KeysOf(db), name, json, remote.stops(name), remote.now), remote.now);
    }
  }

  /** No refresh deletes a row or changes a column of the operator, whatever it fetched
      and wherever its entries stopped. */
  lemma {:induction false} RefreshKeepsTables(codec: Codec, s: State, remote: Remote, order: seq<string>)
    ensures TablesKept(s.db, VisitAll(codec, s, remote, order).db)
    ensures TablesKept(s.db, Refreshed(codec, s, remote, order).db)
  {
    hide TablesKept, AppliedEntry, Succeeds, Pending;
    KeptTwice(s.db, s.db, s.db);
    if order != [] {
      var n := |order| - 1;
      var before := VisitAll(codec, s, remote, order[..n]);
      RefreshKeepsTables(codec, s, remote, order[..n]);
      EntryKeepsTables(codec, before.db, remote, order[n]);
      KeptTwice(s.db, before.db, AppliedEntry(codec, before.db, remote, order[n]));
    }
  }

  /** The first start deletes nothing either, wherever it stops. */
  lemma InitKeepsTables(codec: Codec, s: State, e: Embedded, stops: string -> Option<nat>, now: int)
    ensures TablesKept(s.db, Initialized(codec, s, e, stops, now).db)
  {
    hide Upserted, Upserts, TablesKept;
    var db := s.db;
    var providers := Then(codec, (db, true), "providers", e.providers, stops, now);
    var models := Then(codec, providers, "models", e.models, stops, now);
    var channels := Then(codec, models, "channels", e.channels, stops, now);
    KeptTwice(db, db, db);
    ThenKeepsTables(codec, db, (db, true), "providers", e.providers, stops, now);
    ThenKeepsTables(codec, db, providers, "models", e.models, stops, now);
    ThenKeepsTables(codec, db, models, "channels", e.channels, stops, now);
    ThenKeepsTables(codec, db, channels, "model_mappings", e.mappings, stops, now);
  }

  lemma ThenKeepsTables(codec: Codec, db: Tables, sofar: (Tables, bool), name: string, json: string,
                        stops: string -> Option<nat>, now: int)
    requires TablesKept(db, sofar.0)
    ensures TablesKept(db, Then(codec, sofar, name, json, stops, now).0)
  {
    hide AppliedRows, WithRows, TablesKept;
    UpsertKeepsTables(codec, sofar.0, name, json,
                      AppliedRows(codec, sofar.0, KeysOf(sofar.0), name, json, stops(name), now), now);
    KeptTwice(db, sofar.0, Then(codec, sofar, name, json, stops, now).0);
  }

  /** `after` differs from `before` in the table of one kind only. */
  ghost predicate OnlyChanges(kind: Option<Kind>, before: Tables, after: Tables) {
    && (kind != Some(Providers) ==> after.providers == before.providers)
    && (kind != Some(Models) ==> after.models == before.models)
    && (kind != Some(Kind.Channels) ==> after.channels == before.channels)
    && (kind != Some(Kind.Mappings) ==> after.mappings == before.mappings)
  }

  lemma RowsOnlyChange(codec: Codec, db: Tables, name: string, json: string, n: nat, now: int)
    ensures OnlyChanges(KindOf(name), db, WithRows(codec, db, name, json, n, now))
  {
    hide KindOf, InsertAll, UpsertChannels, UpsertMappings, Take;
  }

  lemma EntryOnlyChanges(codec: Codec, db: Tables, remote: Remote, name: string)
    ensures OnlyChanges(KindOf(name), db, AppliedEntry(codec, db, remote, name))
  {
    hide KindOf, WithRows, AppliedRows;
    if Body(codec, remote, name).Some? {
      var json := Body(codec, remote, name).value;
      RowsOnlyChange(codec, db, name, json,
                     AppliedRows(codec, db, KeysOf(db), name, json, remote.stops(name), remote.now), remote.now);
    }
  }

  /** Every model refers to a stored provider and every mapping to a stored channel. */
  ghost predicate ReferencesHold(db: Tables) {
    AllHaveParents(db.models, db.providers.Keys) && AllHaveChannels(db.mappings, db.channels.Keys)
  }

  lemma EntryKeepsReferences(codec: Codec, db: Tables, remote: Remote, name: string)
    requires ReferencesHold(db)
    ensures ReferencesHold(AppliedEntry(codec, db, remote, name))
  {
    hide InsertAll, UpsertChannels, UpsertMappings, InsertCount, MappingCount, ChannelCount;
    EntryKeepsTables(codec, db, remote, name);
    EntryOnlyChanges(codec, db, remote, name);
    if Body(codec, remote, name).Some? {
      var json := Body(codec, remote, name).value;
      var n := AppliedRows(codec, db, KeysOf(db), name, json, remote.stops(name), remote.now);
      if KindOf(name) == Some(Models) && codec.models(json).Some? {
        InsertedHaveParents(db.models, db.providers.Keys, codec.models(json).value, remote.stops(name), remote.now, n);
      } else if KindOf(name) == Some(Kind.Mappings) && codec.mappings(json).Some? {
        MappedHaveChannels(db.mappings, db.channels.Keys, codec.mappings(json).value, remote.stops(name), n);
      }
    }
  }

  /** A refresh keeps the foreign keys, in any order of visits, however far
      each entry gets. */
  lemma {:induction false} RefreshKeepsReferences(codec: Codec, s: State, remote: Remote, order: seq<string>)
    requires ReferencesHold(s.db)
    ensures ReferencesHold(VisitAll(codec, s, remote, order).db)
    ensures ReferencesHold(Refreshed(codec, s, remote, order).db)
  {
    hide ReferencesHold, AppliedEntry, Succeeds, Pending;
    if order != [] {
      var n := |order| - 1;
      RefreshKeepsReferences(codec, s, remote, order[..n]);
      EntryKeepsReferences(codec, VisitAll(codec, s, remote, order[..n]).db, remote, order[n]);
    }
  }
}
