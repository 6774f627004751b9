/** Foreign keys make one refresh depend on the order in which the manifest's
    entries come; with a working network two refreshes make up for any order
    (crates/storage-sqlite/src/seed.rs, migrations/001_init.sql). */
module SeedConvergence {
  import opened Common
  import opened SeedRows
  import opened Seed
  import opened SeedRuns

  /** Nothing but a foreign key can fail: every entry is of a known kind and
      parses, fetches intact, and the database and its metadata accept writes. */
  ghost predicate Serves(codec: Codec, remote: Remote, m: Manifest, bodies: map<string, string>) {
    && remote.manifest == m
    && forall name :: name in m.entries ==>
         && name in bodies && Body(codec, remote, name) == Some(bodies[name])
         && TotalRows(codec, name, bodies[name]).Some?
         && remote.stops(name) == None && !remote.hashFails(name)
  }

  /** No row of the entry is an orphan, were `keys` the rows it may refer to. */
  ghost predicate Resolvable(codec: Codec, db: Tables, keys: Keys, name: string, json: string) {
    match KindOf(name)
    case Some(Models) =>
      codec.models(json).Some? ==>
        var rows := codec.models(json).value;
        forall i :: 0 <= i < |rows| ==> !Orphan(InsertAll(db.models, rows[..i], 0), Some(keys.providers), rows[i])
    case Some(Mappings) =>
      codec.mappings(json).Some? ==>
        forall row :: row in codec.mappings(json).value ==> row.row.channelId in keys.channels
    case _ => true
  }

  /** The keys there will be once the providers and channels entries that are
      pending have gone through. */
  function KeysToCome(codec: Codec, s: State, m: Manifest, bodies: map<string, string>): Keys {
    Keys(if "providers" in Pending(s.meta, m) && "providers" in bodies && codec.providers(bodies["providers"]).Some?
         then InsertAll(s.db.providers, codec.providers(bodies["providers"]).value, 0).Keys
         else s.db.providers.Keys,
         if "channels" in Pending(s.meta, m) && "channels" in bodies && codec.channels(bodies["channels"]).Some?
         then UpsertChannels(s.db.channels, codec.channels(bodies["channels"]).value, 0).Keys
         else s.db.channels.Keys)
  }

  /** An entry is ready if it goes in as things stand, and supplied if it will
      once its parents have. */
  ghost predicate Ready(codec: Codec, s: State, bodies: map<string, string>, name: string)
    requires name in bodies
  {
    Resolvable(codec, s.db, KeysOf(s.db), name, bodies[name])
  }

  ghost predicate Supplied(codec: Codec, s: State, m: Manifest, bodies: map<string, string>, name: string)
    requires name in bodies
  {
    Resolvable(codec, s.db, KeysToCome(codec, s, m, bodies), name, bodies[name])
  }

  predicate Within(a: Keys, b: Keys) {
    a.providers <= b.providers && a.channels <= b.channels
  }

  lemma {:induction false} InsertAllTimeless(t: References, rows: seq<Reference>, now: int)
    ensures SameNames(InsertAll(t, rows, now), InsertAll(t, rows, 0))
  {
    if rows != [] {
      InsertAllTimeless(t, rows[..|rows| - 1], now);
      InsertByNames(InsertAll(t, rows[..|rows| - 1], now), InsertAll(t, rows[..|rows| - 1], 0), rows[|rows| - 1], now, 0);
    }
  }

  lemma OrphanTimeless(t: References, parents: Option<set<string>>, rows: seq<Reference>, now: int, i: nat)
    requires i < |rows|
    ensures Orphan(InsertAll(t, rows[..i], now), parents, rows[i]) == Orphan(InsertAll(t, rows[..i], 0), parents, rows[i])
  {
    InsertAllTimeless(t, rows[..i], now);
    TakenByNames(InsertAll(t, rows[..i], now), InsertAll(t, rows[..i], 0), rows[i]);
  }

  /** With everything else working, a visit succeeds exactly when the entry is
      ready. */
  lemma SucceedsIffReady(codec: Codec, s: State, remote: Remote, m: Manifest, bodies: map<string, string>, name: string)
    requires Serves(codec, remote, m, bodies) && name in m.entries
    ensures Succeeds(codec, s.db, remote, name) <==> Ready(codec, s, bodies, name)
  {
    hide InsertAll, Orphan;
    var json := bodies[name];
    match KindOf(name) {
      case Some(Providers) =>
        if codec.providers(json).Some? {
          ProvidersReady(s.db.providers, codec.providers(json).value, remote.now);
        }
      case Some(Models) =>
        if codec.models(json).Some? {
          ModelsReady(s.db.models, s.db.providers.Keys, codec.models(json).value, remote.now);
        }
      case Some(Mappings) =>
        if codec.mappings(json).Some? {
          MappingsReady(s.db.channels.Keys, codec.mappings(json).value);
        }
      case Some(Channels) =>
      case None =>
    }
  }

  lemma ProvidersReady(t: References, rows: seq<Reference>, now: int)
    ensures InsertCount(t, None, rows, None, now, 0) == |rows|
  {
    hide InsertAll;
  }

  lemma ModelsReady(t: References, providers: set<string>, rows: seq<Reference>, now: int)
    ensures InsertCount(t, Some(providers), rows, None, now, 0) == |rows| <==>
            forall i :: 0 <= i < |rows| ==> !Orphan(InsertAll(t, rows[..i], 0), Some(providers), rows[i])
  {
    hide InsertAll, Orphan;
    var n := InsertCount(t, Some(providers), rows, None, now, 0);
    forall i | 0 <= i < |rows|
      ensures InsertFails(t, Some(providers), rows, None, now, i) == Orphan(InsertAll(t, rows[..i], 0), Some(providers), rows[i])
    {
      OrphanTimeless(t, Some(providers), rows, now, i);
    }
  }

  lemma MappingsReady(channels: set<string>, rows: seq<SeedMapping>)
    ensures MappingCount(channels, rows, None, 0) == |rows| <==>
            forall row :: row in rows ==> row.row.channelId in channels
  {
    var n := MappingCount(channels, rows, None, 0);
    if n == |rows| {
      forall i | 0 <= i < |rows| ensures rows[i].row.channelId in channels {
        assert !MappingFails(channels, rows, None, i);
      }
    }
  }

  lemma MoreKeysResolve(codec: Codec, db: Tables, keys: Keys, more: Keys, name: string, json: string)
    requires Within(keys, more) && Resolvable(codec, db, keys, name, json)
    ensures Resolvable(codec, db, more, name, json)
  {
    hide InsertAll, Taken;
  }

  // ---------------------------------------------------------------------
  // What one visit does to readiness
  // ---------------------------------------------------------------------

  lemma InsertKeysTimeless(t: References, rows: seq<Reference>, now: int)
    ensures InsertAll(t, rows, now).Keys == InsertAll(t, rows, 0).Keys >= t.Keys
  {
    InsertAllTimeless(t, rows, now);
    InsertAllKeepsRows(t, rows, 0);
  }

  lemma UpsertKeysTimeless(t: Channels, rows: seq<SeedChannel>, now: int)
    ensures UpsertChannels(t, rows, now).Keys == UpsertChannels(t, rows, 0).Keys >= t.Keys
  {
    forall id
      ensures id in UpsertChannels(t, rows, now) <==> id in UpsertChannels(t, rows, 0)
      ensures id in t ==> id in UpsertChannels(t, rows, 0)
    {
      ChannelAfterUpserts(t, rows, now, id);
      ChannelAfterUpserts(t, rows, 0, id);
    }
  }

  lemma KeysGrow(codec: Codec, s: State, m: Manifest, bodies: map<string, string>)
    ensures Within(KeysOf(s.db), KeysToCome(codec, s, m, bodies))
  {
    hide InsertAll, UpsertChannels, Pending;
    if "providers" in bodies && codec.providers(bodies["providers"]).Some? {
      InsertKeysTimeless(s.db.providers, codec.providers(bodies["providers"]).value, 0);
    }
    if "channels" in bodies && codec.channels(bodies["channels"]).Some? {
      UpsertKeysTimeless(s.db.channels, codec.channels(bodies["channels"]).value, 0);
    }
  }

  /** Where a visit leaves the parents' keys. */
  lemma KeysAfterEntry(codec: Codec, s: State, remote: Remote, m: Manifest, bodies: map<string, string>, name: string)
    requires Serves(codec, remote, m, bodies) && name in Pending(s.meta, m)
    ensures var keys, come := KeysOf(AppliedEntry(codec, s.db, remote, name)), KeysToCome(codec, s, m, bodies);
            && keys.providers == (if name == "providers" then come.providers else s.db.providers.Keys)
            && keys.channels == (if name == "channels" then come.channels else s.db.channels.Keys)
  {
    hide InsertAll, UpsertChannels, UpsertMappings;
    EntryOnlyChanges(codec, s.db, remote, name);
    var json := bodies[name];
    if name == "providers" {
      var rows := codec.providers(json).value;
      ProvidersReady(s.db.providers, rows, remote.now);
      InsertKeysTimeless(s.db.providers, rows, remote.now);
      assert Take(rows, |rows|) == rows;
    } else if name == "channels" {
      var rows := codec.channels(json).value;
      UpsertKeysTimeless(s.db.channels, rows, remote.now);
      assert Take(rows, |rows|) == rows;
    }
  }

  /** A visit brings keys that were to come, and none else. */
  lemma KeysToComeStay(codec: Codec, s: State, remote: Remote, m: Manifest, bodies: map<string, string>, name: string)
    requires Serves(codec, remote, m, bodies)
    ensures KeysToCome(codec, Visit(codec, s, remote, name), m, bodies) == KeysToCome(codec, s, m, bodies)
    ensures Within(KeysOf(s.db), KeysOf(Visit(codec, s, remote, name).db))
  {
    hide InsertAll, UpsertChannels, AppliedEntry, Succeeds, Pending, Resolvable;
    if name in Pending(s.meta, m) {
      KeysGrow(codec, s, m, bodies);
      KeysAfterEntry(codec, s, remote, m, bodies, name);
      EntryOnlyChanges(codec, s.db, remote, name);
      PendingNames(s.meta, m, name);
      SucceedsIffReady(codec, s, remote, m, bodies, name);
      VisitSucceeds(codec, s, remote, name);
      VisitKeepsOthers(codec, s, remote, name, "providers");
      VisitKeepsOthers(codec, s, remote, name, "channels");
      ParentsReady(codec, s, bodies, name);
    }
  }

  lemma PendingNames(meta: Meta, m: Manifest, name: string)
    requires name in Pending(meta, m)
    ensures name in m.entries
  {}

  lemma VisitSucceeds(codec: Codec, s: State, remote: Remote, name: string)
    requires name in Pending(s.meta, remote.manifest)
    ensures name in Pending(Visit(codec, s, remote, name).meta, remote.manifest) <==> !Succeeds(codec, s.db, remote, name)
  {
    hide Succeeds, AppliedEntry;
  }

  lemma ParentsReady(codec: Codec, s: State, bodies: map<string, string>, name: string)
    requires name in bodies
    ensures name == "providers" || name == "channels" ==> Ready(codec, s, bodies, name)
  {}

  /** A visit changes the models table by a prefix of its rows, none of them an
      orphan then; what remains is as resolvable as before. */
  lemma ModelsResume(t: References, parents: set<string>, more: set<string>, rows: seq<Reference>, now: int)
    requires parents <= more
    ensures var k := InsertCount(t, Some(parents), rows, None, now, 0);
            var t' := InsertAll(t, rows[..k], now);
            (forall i :: 0 <= i < |rows| ==> !Orphan(InsertAll(t', rows[..i], 0), Some(more), rows[i])) <==>
            (forall i :: 0 <= i < |rows| ==> !Orphan(InsertAll(t, rows[..i], 0), Some(more), rows[i]))
  {
    hide InsertAll;
    var k := InsertCount(t, Some(parents), rows, None, now, 0);
    var t' := InsertAll(t, rows[..k], now);
    forall i | 0 <= i < |rows|
      ensures Orphan(InsertAll(t', rows[..i], 0), Some(more), rows[i]) <==>
              Orphan(InsertAll(t, rows[..i], 0), Some(more), rows[i])
    {
      OrphansAfterResume(t, Some(more), rows, k, now, 0, i);
      OrphanTimeless(t, Some(more), rows, now, i);
      if i < k {
        assert !InsertFails(t, Some(parents), rows, None, now, i);
      }
    }
  }

  lemma StillResolvable(codec: Codec, s: State, remote: Remote, m: Manifest, bodies: map<string, string>,
                        keys: Keys, name: string, other: string)
    requires Serves(codec, remote, m, bodies) && other in bodies && Within(KeysOf(s.db), keys)
    ensures Resolvable(codec, Visit(codec, s, remote, name).db, keys, other, bodies[other]) <==>
            Resolvable(codec, s.db, keys, other, bodies[other])
  {
    hide InsertAll, UpsertChannels, UpsertMappings, Orphan, Succeeds, Pending;
    if name in Pending(s.meta, m) {
      PendingNames(s.meta, m, name);
      EntryOnlyChanges(codec, s.db, remote, name);
      if name == "models" && other == "models" {
        ModelsResume(s.db.models, s.db.providers.Keys, keys.providers, codec.models(bodies[name]).value, remote.now);
      }
    }
  }

  /** Whether an entry is supplied never changes; once ready it stays ready. */
  lemma SuppliedStays(codec: Codec, s: State, remote: Remote, m: Manifest, bodies: map<string, string>, name: string, other: string)
    requires Serves(codec, remote, m, bodies) && other in bodies
    ensures var s' := Visit(codec, s, remote, name);
            && (Supplied(codec, s', m, bodies, other) <==> Supplied(codec, s, m, bodies, other))
            && (Ready(codec, s, bodies, other) ==> Ready(codec, s', bodies, other))
            && (Ready(codec, s, bodies, other) ==> Supplied(codec, s, m, bodies, other))
  {
    hide Resolvable, Visit, Serves, KeysToCome;
    var s' := Visit(codec, s, remote, name);
    KeysToComeStay(codec, s, remote, m, bodies, name);
    KeysGrow(codec, s, m, bodies);
    StillResolvable(codec, s, remote, m, bodies, KeysToCome(codec, s, m, bodies), name, other);
    StillResolvable(codec, s, remote, m, bodies, KeysOf(s'.db), name, other);
    if Ready(codec, s, bodies, other) {
      MoreKeysResolve(codec, s.db, KeysOf(s.db), KeysOf(s'.db), other, bodies[other]);
      MoreKeysResolve(codec, s.db, KeysOf(s.db), KeysToCome(codec, s, m, bodies), other, bodies[other]);
    }
  }

  lemma {:induction false} SuppliedStaysOverVisits(codec: Codec, s: State, remote: Remote, m: Manifest, bodies: map<string, string>,
                                                   order: seq<string>, other: string)
    requires Serves(codec, remote, m, bodies) && other in bodies
    ensures var s' := VisitAll(codec, s, remote, order);
            && (Supplied(codec, s', m, bodies, other) <==> Supplied(codec, s, m, bodies, other))
            && (Ready(codec, s, bodies, other) ==> Ready(codec, s', bodies, other))
            && (Ready(codec, s', bodies, other) ==> Supplied(codec, s, m, bodies, other))
  {
    hide Supplied, Ready, Visit, Serves;
    if order != [] {
      var n := |order| - 1;
      SuppliedStaysOverVisits(codec, s, remote, m, bodies, order[..n], other);
      SuppliedStays(codec, VisitAll(codec, s, remote, order[..n]), remote, m, bodies, order[n], other);
    }
    SuppliedStays(codec, VisitAll(codec, s, remote, order), remote, m, bodies, other, other);
  }

  /** With its parents through, a supplied entry is ready. */
  lemma SuppliedIsReady(codec: Codec, s: State, m: Manifest, bodies: map<string, string>, name: string)
    requires name in bodies && "providers" !in Pending(s.meta, m) && "channels" !in Pending(s.meta, m)
    ensures Ready(codec, s, bodies, name) <==> Supplied(codec, s, m, bodies, name)
  {
    hide Resolvable, Pending;
  }

  // ---------------------------------------------------------------------
  // One refresh, and two
  // ---------------------------------------------------------------------

  /** What succeeds in a refresh was supplied; what was ready succeeds. */
  lemma {:induction false} WhatSucceeds(codec: Codec, s: State, remote: Remote, m: Manifest, bodies: map<string, string>,
                                        order: seq<string>, name: string)
    requires Serves(codec, remote, m, bodies) && name in m.entries
    ensures SucceededIn(codec, s, remote, order, name) ==> Supplied(codec, s, m, bodies, name)
    ensures name in order && Ready(codec, s, bodies, name) ==> SucceededIn(codec, s, remote, order, name)
  {
    hide Supplied, Ready, VisitAll, Succeeds;
    if order != [] {
      var n := |order| - 1;
      var before := VisitAll(codec, s, remote, order[..n]);
      WhatSucceeds(codec, s, remote, m, bodies, order[..n], name);
      SuppliedStaysOverVisits(codec, s, remote, m, bodies, order[..n], name);
      SucceedsIffReady(codec, before, remote, m, bodies, name);
      assert order == order[..n] + [order[n]];
    }
  }

  /** A refresh in a given order reaches the version exactly when every pending
      entry's visit succeeds. */
  lemma ReachesVersionIff(codec: Codec, s: State, remote: Remote, m: Manifest, order: seq<string>)
    requires remote.manifest == m && IsOrder(order, m) && m.version > s.meta.version
    ensures Refreshed(codec, s, remote, order).meta.version == m.version <==>
            forall name :: name in Pending(s.meta, m) ==> SucceededIn(codec, s, remote, order, name)
  {
    hide SucceededIn, Pending, Refreshed;
    OneMoreAttempt(codec, s, Attempt(remote, order), m);
  }

  /** A sure hit at the first refresh: whatever order the entries come in, it
      reaches the version, exactly when every pending entry is ready as things
      stand, without rows that another entry has yet to supply. */
  lemma OneRefreshSufficesIff(codec: Codec, s: State, remote: Remote, m: Manifest, bodies: map<string, string>)
    requires Serves(codec, remote, m, bodies) && m.version > s.meta.version
    ensures (forall order :: IsOrder(order, m) ==> Refreshed(codec, s, remote, order).meta.version == m.version) <==>
            (forall name :: name in Pending(s.meta, m) ==> name in bodies && Ready(codec, s, bodies, name))
  {
    hide Ready, Refreshed, SucceededIn, Pending, IsOrder;
    if forall name :: name in Pending(s.meta, m) ==> name in bodies && Ready(codec, s, bodies, name) {
      forall order | IsOrder(order, m)
        ensures Refreshed(codec, s, remote, order).meta.version == m.version
      {
        ReachesVersionIff(codec, s, remote, m, order);
        forall name | name in Pending(s.meta, m)
          ensures SucceededIn(codec, s, remote, order, name)
        {
          InOrder(order, s.meta, m, name);
          WhatSucceeds(codec, s, remote, m, bodies, order, name);
        }
      }
    } else {
      var name :| name in Pending(s.meta, m) && !(name in bodies && Ready(codec, s, bodies, name));
      PendingNames(s.meta, m, name);
      var order := OrderFrom(m, name);
      ReachesVersionIff(codec, s, remote, m, order);
      FirstVisit(codec, s, remote, order, name);
      SucceedsIffReady(codec, s, remote, m, bodies, name);
    }
  }

  lemma InOrder(order: seq<string>, meta: Meta, m: Manifest, name: string)
    requires IsOrder(order, m) && name in Pending(meta, m)
    ensures name in order && name in m.entries
  {}

  /** An order that starts with `first`. */
  lemma OrderFrom(m: Manifest, first: string) returns (order: seq<string>)
    requires first in m.entries
    ensures IsOrder(order, m) && order != [] && order[0] == first
  {
    var todo := m.entries.Keys - {first};
    order := [first];
    while todo != {}
      invariant todo <= m.entries.Keys && order != [] && order[0] == first && Distinct(order)
      invariant forall name :: name in order <==> name in m.entries && name !in todo
      decreases todo
    {
      var name :| name in todo;
      todo, order := todo - {name}, order + [name];
    }
  }

  lemma {:induction false} FirstVisit(codec: Codec, s: State, remote: Remote, order: seq<string>, name: string)
    requires order != [] && order[0] == name && Distinct(order)
    ensures SucceededIn(codec, s, remote, order, name) <==> Succeeds(codec, s.db, remote, name)
  {
    hide Succeeds, Visit;
    var n := |order| - 1;
    if n > 0 {
      FirstVisit(codec, s, remote, order[..n], name);
    } else {
      NotVisitedNotDone(codec, s, remote, [], name);
    }
  }

  // ---------------------------------------------------------------------
  // Runs
  // ---------------------------------------------------------------------

  ghost predicate AllServe(codec: Codec, attempts: seq<Attempt>, m: Manifest, bodies: map<string, string>) {
    forall i :: 0 <= i < |attempts| ==>
      Serves(codec, attempts[i].remote, m, bodies) && IsOrder(attempts[i].order, m)
  }

  lemma SuppliedByHashes(codec: Codec, s: State, s': State, m: Manifest, bodies: map<string, string>, name: string)
    requires s'.db == s.db && s'.meta.hashes == s.meta.hashes && name in bodies
    ensures Supplied(codec, s', m, bodies, name) <==> Supplied(codec, s, m, bodies, name)
  {
    hide Resolvable, Pending;
    SameHashesSamePending(s'.meta, s.meta, m);
  }

  lemma SuppliedOverRefresh(codec: Codec, s: State, remote: Remote, m: Manifest, bodies: map<string, string>,
                            order: seq<string>, name: string)
    requires Serves(codec, remote, m, bodies) && name in bodies
    ensures Supplied(codec, Refreshed(codec, s, remote, order), m, bodies, name) <==> Supplied(codec, s, m, bodies, name)
  {
    hide Supplied, VisitAll, Pending, Body, TotalRows;
    if m.version > s.meta.version {
      SuppliedStaysOverVisits(codec, s, remote, m, bodies, order, name);
      SuppliedByHashes(codec, VisitAll(codec, s, remote, order), Refreshed(codec, s, remote, order), m, bodies, name);
    }
  }

  lemma {:induction false} SuppliedOverRun(codec: Codec, s: State, attempts: seq<Attempt>, m: Manifest,
                                           bodies: map<string, string>, name: string)
    requires AllServe(codec, attempts, m, bodies) && name in bodies
    ensures Supplied(codec, Run(codec, s, attempts), m, bodies, name) <==> Supplied(codec, s, m, bodies, name)
  {
    hide Supplied, Refreshed, Serves;
    if attempts != [] {
      var n := |attempts| - 1;
      SuppliedOverRun(codec, s, attempts[..n], m, bodies, name);
      SuppliedOverRefresh(codec, Run(codec, s, attempts[..n]), attempts[n].remote, m, bodies, attempts[n].order, name);
    }
  }

  /** After one refresh the parents are through, whatever else failed. */
  lemma ParentsThrough(codec: Codec, s: State, remote: Remote, m: Manifest, bodies: map<string, string>,
                       order: seq<string>, name: string)
    requires Serves(codec, remote, m, bodies) && IsOrder(order, m) && m.version > s.meta.version
    requires name == "providers" || name == "channels"
    ensures name !in Pending(Refreshed(codec, s, remote, order).meta, m)
  {
    hide Refreshed, Pending, SucceededIn, Ready;
    var before, after := Pending(s.meta, m), Pending(Refreshed(codec, s, remote, order).meta, m);
    PendingAfter(codec, s, remote, order, name);
    if name in before {
      InOrder(order, s.meta, m, name);
      ParentsReady(codec, s, bodies, name);
      WhatSucceeds(codec, s, remote, m, bodies, order, name);
    }
  }

  /** An entry that is supplied at the start succeeds in the first refresh or
      in the second. */
  lemma SuppliedSucceedsByTwo(codec: Codec, s: State, attempts: seq<Attempt>, m: Manifest, bodies: map<string, string>, name: string)
    requires |attempts| >= 2 && AllServe(codec, attempts, m, bodies) && m.version > s.meta.version
    requires name in Pending(s.meta, m) && name in bodies && Supplied(codec, s, m, bodies, name)
    ensures EventuallySucceeds(codec, s, attempts, name)
  {
    hide Refreshed, Pending, SucceededIn, Supplied, Ready, Serves, IsOrder;
    var first, second := attempts[0], attempts[1];
    assert attempts[..0] == [] && attempts[..1][..0] == [];
    var s1 := Refreshed(codec, s, first.remote, first.order);
    assert Run(codec, s, attempts[..0]) == s && Run(codec, s, attempts[..1]) == s1;
    InOrder(first.order, s.meta, m, name);
    InOrder(second.order, s.meta, m, name);
    if !SucceededIn(codec, s, first.remote, first.order, name) {
      ParentsThrough(codec, s, first.remote, m, bodies, first.order, "providers");
      ParentsThrough(codec, s, first.remote, m, bodies, first.order, "channels");
      SuppliedOverRefresh(codec, s, first.remote, m, bodies, first.order, name);
      SuppliedIsReady(codec, s1, m, bodies, name);
      WhatSucceeds(codec, s1, second.remote, m, bodies, second.order, name);
      assert SucceedsIn(codec, s, attempts, 1, name);
    } else {
      assert SucceedsIn(codec, s, attempts, 0, name);
    }
  }

  /** With nothing but foreign keys in the way, two refreshes of one manifest
      reach its version in any orders, and so do more, exactly when every row
      of the pending entries refers to one that is stored or that the
      manifest's own parents entry will store. Otherwise no number does. */
  lemma TwoRefreshesConvergeIff(codec: Codec, s: State, attempts: seq<Attempt>, m: Manifest, bodies: map<string, string>)
    requires |attempts| >= 2 && AllServe(codec, attempts, m, bodies) && m.version > s.meta.version
    ensures Run(codec, s, attempts).meta.version == m.version <==>
            forall name :: name in Pending(s.meta, m) ==> name in bodies && Supplied(codec, s, m, bodies, name)
  {
    hide Pending, Run, Supplied, SucceededIn;
    AllServeIsRetries(codec, attempts, m, bodies);
    RetriesConvergeIff(codec, s, attempts, m);
    forall name | name in Pending(s.meta, m)
      ensures name in bodies
      ensures EventuallySucceeds(codec, s, attempts, name) <==> Supplied(codec, s, m, bodies, name)
    {
      PendingNames(s.meta, m, name);
      assert Serves(codec, attempts[0].remote, m, bodies);
      if Supplied(codec, s, m, bodies, name) {
        SuppliedSucceedsByTwo(codec, s, attempts, m, bodies, name);
      }
      if EventuallySucceeds(codec, s, attempts, name) {
        SuccessWasSupplied(codec, s, attempts, m, bodies, name);
      }
    }
  }

  lemma AllServeIsRetries(codec: Codec, attempts: seq<Attempt>, m: Manifest, bodies: map<string, string>)
    requires AllServe(codec, attempts, m, bodies)
    ensures Retries(attempts, m)
  {}

  lemma SuccessWasSupplied(codec: Codec, s: State, attempts: seq<Attempt>, m: Manifest, bodies: map<string, string>, name: string)
    requires AllServe(codec, attempts, m, bodies) && EventuallySucceeds(codec, s, attempts, name)
    requires name in bodies && name in m.entries
    ensures Supplied(codec, s, m, bodies, name)
  {
    hide Supplied, SucceededIn, Run, Serves, IsOrder;
    var i: nat :| i < |attempts| && SucceedsIn(codec, s, attempts, i, name);
    WhatSucceeds(codec, Run(codec, s, attempts[..i]), attempts[i].remote, m, bodies, attempts[i].order, name);
    SuppliedOverRun(codec, s, attempts[..i], m, bodies, name);
  }

  // ---------------------------------------------------------------------
  // The first start
  // ---------------------------------------------------------------------

  /** The rows of the four embedded files. */
  datatype Lists = Lists(
    providers: seq<Reference>, models: seq<Reference>, channels: seq<SeedChannel>, mappings: seq<SeedMapping>)

  ghost predicate ParsesTo(codec: Codec, e: Embedded, lists: Lists) {
    && codec.providers(e.providers) == Some(lists.providers) && codec.models(e.models) == Some(lists.models)
    && codec.channels(e.channels) == Some(lists.channels) && codec.mappings(e.mappings) == Some(lists.mappings)
  }

  /** What the four lists make of some tables. */
  function AllApplied(db: Tables, lists: Lists, now: int): Tables {
    Tables(InsertAll(db.providers, lists.providers, now), InsertAll(db.models, lists.models, now),
           UpsertChannels(db.channels, lists.channels, now), UpsertMappings(db.mappings, lists.mappings))
  }

  /** Every model that would be inserted has its provider, and every mapping its
      channel, among the rows stored by then. */
  ghost predicate Fits(db: Tables, lists: Lists, now: int) {
    && (forall i :: 0 <= i < |lists.models| ==>
          || Taken(InsertAll(db.models, lists.models[..i], now), lists.models[i])
          || lists.models[i].parent in InsertAll(db.providers, lists.providers, now))
    && (forall row :: row in lists.mappings ==> row.row.channelId in UpsertChannels(db.channels, lists.channels, now))
  }

  lemma ModelsFit(t: References, providers: set<string>, rows: seq<Reference>, now: int)
    ensures InsertCount(t, Some(providers), rows, None, now, 0) == |rows| <==>
            forall i :: 0 <= i < |rows| ==> Taken(InsertAll(t, rows[..i], now), rows[i]) || rows[i].parent in providers
  {
    hide InsertAll, Taken;
    var n := InsertCount(t, Some(providers), rows, None, now, 0);
    assert forall i :: 0 <= i < |rows| ==>
        (InsertFails(t, Some(providers), rows, None, now, i) <==>
         !(Taken(InsertAll(t, rows[..i], now), rows[i]) || rows[i].parent in providers));
  }

  /** One entry of a first start, when it is applied to the end. */
  lemma EntryFits(codec: Codec, db: Tables, name: string, json: string, now: int)
    requires TotalRows(codec, name, json).Some?
    ensures name == "providers" ==>
              && Upserts(codec, db, name, json, None, now)
              && Upserted(codec, db, name, json, None, now) == db.(providers := InsertAll(db.providers, codec.providers(json).value, now))
    ensures name == "models" && Upserts(codec, db, name, json, None, now) ==>
              Upserted(codec, db, name, json, None, now) == db.(models := InsertAll(db.models, codec.models(json).value, now))
    ensures name == "channels" ==>
              && Upserts(codec, db, name, json, None, now)
              && Upserted(codec, db, name, json, None, now) == db.(channels := UpsertChannels(db.channels, codec.channels(json).value, now))
    ensures name == "model_mappings" && Upserts(codec, db, name, json, None, now) ==>
              Upserted(codec, db, name, json, None, now) == db.(mappings := UpsertMappings(db.mappings, codec.mappings(json).value))
  {
    hide InsertAll, UpsertChannels, UpsertMappings, InsertCount, MappingCount;
    if name == "providers" {
      ProvidersReady(db.providers, codec.providers(json).value, now);
      TakeAll(codec.providers(json).value);
    } else if name == "models" {
      TakeAll(codec.models(json).value);
    } else if name == "channels" {
      TakeAll(codec.channels(json).value);
    } else if name == "model_mappings" {
      TakeAll(codec.mappings(json).value);
    }
  }

  lemma TakeAll<T>(rows: seq<T>)
    ensures Take(rows, |rows|) == rows
  {}

  lemma AppliedAllIffFits(codec: Codec, db: Tables, e: Embedded, stops: string -> Option<nat>, now: int, lists: Lists)
    requires ParsesTo(codec, e, lists) && forall name :: stops(name) == None
    ensures var (db', ok) := AppliedAll(codec, db, e, stops, now);
            (ok <==> Fits(db, lists, now)) && (ok ==> db' == AllApplied(db, lists, now))
  {
    hide Upserted, Upserts, InsertAll, UpsertChannels, UpsertMappings, Taken;
    var db1 := db.(providers := InsertAll(db.providers, lists.providers, now));
    EntryFits(codec, db, "providers", e.providers, now);
    ModelsUpsertIff(codec, db1, e.models, now);
    EntryFits(codec, db1, "models", e.models, now);
    if Upserts(codec, db1, "models", e.models, None, now) {
      var db2 := db1.(models := InsertAll(db1.models, lists.models, now));
      EntryFits(codec, db2, "channels", e.channels, now);
      var db3 := db2.(channels := UpsertChannels(db2.channels, lists.channels, now));
      MappingsUpsertIff(codec, db3, e.mappings, now);
      EntryFits(codec, db3, "model_mappings", e.mappings, now);
    }
  }

  lemma ModelsUpsertIff(codec: Codec, db: Tables, json: string, now: int)
    requires codec.models(json).Some?
    ensures Upserts(codec, db, "models", json, None, now) <==>
            var rows := codec.models(json).value;
            forall i :: 0 <= i < |rows| ==>
              Taken(InsertAll(db.models, rows[..i], now), rows[i]) || rows[i].parent in db.providers
  {
    hide InsertAll, Taken, InsertCount;
    ModelsFit(db.models, db.providers.Keys, codec.models(json).value, now);
  }

  lemma MappingsUpsertIff(codec: Codec, db: Tables, json: string, now: int)
    requires codec.mappings(json).Some?
    ensures Upserts(codec, db, "model_mappings", json, None, now) <==>
            forall row :: row in codec.mappings(json).value ==> row.row.channelId in db.channels
  {
    hide MappingCount;
    MappingsReady(db.channels.Keys, codec.mappings(json).value);
  }

  /** A first start whose files parse and which the database does not stop
      otherwise succeeds exactly when the files fit the tables; then the tables
      are those of the four lists and all four hashes are recorded. Else no
      hash, source or version is. */
  lemma FirstStartSucceedsIff(codec: Codec, s: State, e: Embedded, stops: string -> Option<nat>, now: int, lists: Lists)
    requires s.meta.version == 0 && e.version.Some? && ParsesTo(codec, e, lists) && forall name :: stops(name) == None
    ensures InitSucceeds(codec, s, e, stops, now) <==> Fits(s.db, lists, now)
    ensures var s' := Initialized(codec, s, e, stops, now);
            if Fits(s.db, lists, now) then
              && s'.db == AllApplied(s.db, lists, now)
              && s'.meta == s.meta.(
                   version := e.version.value, source := "embedded",
                   hashes := s.meta.hashes["providers" := codec.sha256(e.providers)]["models" := codec.sha256(e.models)]
                               ["channels" := codec.sha256(e.channels)]["model_mappings" := codec.sha256(e.mappings)])
            else s'.meta == s.meta
  {
    hide AppliedAll, Fits, AllApplied, ParsesTo, EmbeddedHashes;
    AppliedAllIffFits(codec, s.db, e, stops, now, lists);
    FourHashes(s.meta.hashes, codec, e);
  }

  lemma FourHashes(hashes: map<string, string>, codec: Codec, e: Embedded)
    ensures hashes + EmbeddedHashes(codec, e) ==
            hashes["providers" := codec.sha256(e.providers)]["models" := codec.sha256(e.models)]
                  ["channels" := codec.sha256(e.channels)]["model_mappings" := codec.sha256(e.mappings)]
  {}

  const EMPTY: Tables := Tables(map[], map[], map[], map[])

  /** On an empty database the files must fit each other: every mapping's
      channel is in the channels file, and every model that is not passed over
      has a provider that the providers file stores. */
  lemma FirstStartOnEmptyIff(codec: Codec, meta: Meta, e: Embedded, stops: string -> Option<nat>, now: int, lists: Lists)
    requires meta.version == 0 && e.version.Some? && ParsesTo(codec, e, lists) && forall name :: stops(name) == None
    ensures InitSucceeds(codec, State(meta, EMPTY), e, stops, now) <==>
            && (forall i :: 0 <= i < |lists.models| ==>
                  || Taken(InsertAll(map[], lists.models[..i], now), lists.models[i])
                  || lists.models[i].parent in InsertAll(map[], lists.providers, now))
            && (forall row :: row in lists.mappings ==> exists c :: c in lists.channels && c.id == row.row.channelId)
  {
    hide Initialized, InsertAll, UpsertChannels, Taken, InitSucceeds, ParsesTo;
    FirstStartSucceedsIff(codec, State(meta, EMPTY), e, stops, now, lists);
    forall row | row in lists.mappings
      ensures row.row.channelId in UpsertChannels(map[], lists.channels, now) <==>
              exists c :: c in lists.channels && c.id == row.row.channelId
    {
      ChannelAfterUpserts(map[], lists.channels, now, row.row.channelId);
    }
  }
}
