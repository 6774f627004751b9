/** When the order in which a refresh meets the manifest's entries matters
    (crates/storage-sqlite/src/seed.rs:283-300; the entries are a hash map,
    crates/storage/src/types.rs:452). */
module SeedOrder {
  import opened Common
  import opened SeedRows
  import opened Seed
  import opened SeedRuns
  import opened SeedConvergence

  /** The rows that each fetched entry applied in the course of the visits. */
  function RowsApplied(codec: Codec, s: State, remote: Remote, order: seq<string>): map<string, nat> {
    if order == [] then map[]
    else
      var n := |order| - 1;
      var before, sofar := VisitAll(codec, s, remote, order[..n]), RowsApplied(codec, s, remote, order[..n]);
      if order[n] in Pending(before.meta, remote.manifest)
      then sofar[order[n] := EntryRows(codec, before.db, KeysOf(before.db), remote, order[n])]
      else sofar
  }

  /** Nobody can tell which of two orders was taken: neither from what is
      stored nor from how far each entry got. */
  ghost predicate SameOutcome(codec: Codec, s: State, remote: Remote, order: seq<string>, order': seq<string>) {
    && VisitAll(codec, s, remote, order) == VisitAll(codec, s, remote, order')
    && RowsApplied(codec, s, remote, order) == RowsApplied(codec, s, remote, order')
  }

  /** As things stand the entry would stop at a row whose parent is missing
      and is among the rows that the pending parents entry supplies. */
  predicate Waits(codec: Codec, s: State, remote: Remote, name: string) {
    && name in Pending(s.meta, remote.manifest) && Body(codec, remote, name).Some?
    && var json, n := Body(codec, remote, name).value, EntryRows(codec, s.db, KeysOf(s.db), remote, name);
       match KindOf(name)
       case Some(Models) =>
         && codec.models(json).Some? && n < |codec.models(json).value| && remote.stops(name) != Some(n)
         && "providers" in Pending(s.meta, remote.manifest)
         && codec.models(json).value[n].parent in AppliedEntry(codec, s.db, remote, "providers").providers
       case Some(Mappings) =>
         && codec.mappings(json).Some? && n < |codec.mappings(json).value| && remote.stops(name) != Some(n)
         && "channels" in Pending(s.meta, remote.manifest)
         && codec.mappings(json).value[n].row.channelId in AppliedEntry(codec, s.db, remote, "channels").channels
       case _ => false
  }

  /** The rows of a pending mappings entry that go in as things stand. */
  function Segment(codec: Codec, s: State, remote: Remote, name: string): seq<SeedMapping> {
    if name !in Pending(s.meta, remote.manifest) || Body(codec, remote, name).None? then []
    else
      var rows := codec.mappings(Body(codec, remote, name).value);
      if rows.None? then []
      else Take(rows.value, EntryRows(codec, s.db, KeysOf(s.db), remote, name))
  }

  // ---------------------------------------------------------------------
  // What an entry finds when it is visited
  // ---------------------------------------------------------------------

  /** The foreign keys once the entries of `visited` are through. */
  function KeysIn(codec: Codec, s: State, remote: Remote, visited: seq<string>): Keys {
    Keys(if "providers" in visited && "providers" in Pending(s.meta, remote.manifest)
         then AppliedEntry(codec, s.db, remote, "providers").providers.Keys else s.db.providers.Keys,
         if "channels" in visited && "channels" in Pending(s.meta, remote.manifest)
         then AppliedEntry(codec, s.db, remote, "channels").channels.Keys else s.db.channels.Keys)
  }

  /** The table that entry `name` writes is the same in both; a mappings table
      plays no part in how far an entry gets. */
  ghost predicate SameTable(name: string, a: Tables, b: Tables) {
    && (name == "providers" ==> b.providers == a.providers)
    && (name == "models" ==> b.models == a.models)
    && (name == "channels" ==> b.channels == a.channels)
  }

  /** How far an entry gets depends on its own table and its foreign keys. */
  lemma RowsByKeys(codec: Codec, db: Tables, db': Tables, keys: Keys, remote: Remote, name: string)
    requires SameTable(name, db, db')
    ensures EntryRows(codec, db', keys, remote, name) == EntryRows(codec, db, keys, remote, name)
  {
    hide InsertCount, MappingCount, ChannelCount;
  }

  /** What an entry makes of its table depends on that table and on how far it
      gets, and so does whether it succeeds. */
  lemma TableByRows(codec: Codec, db: Tables, db': Tables, remote: Remote, name: string)
    requires SameTable(name, db, db')
    requires EntryRows(codec, db', KeysOf(db'), remote, name) == EntryRows(codec, db, KeysOf(db), remote, name)
    ensures SameTable(name, AppliedEntry(codec, db, remote, name), AppliedEntry(codec, db', remote, name))
    ensures Succeeds(codec, db', remote, name) <==> Succeeds(codec, db, remote, name)
  {
    hide AppliedRows, WithRows, SameTable;
    if Body(codec, remote, name).Some? {
      WithSameRows(codec, db, db', name, Body(codec, remote, name).value,
                   EntryRows(codec, db, KeysOf(db), remote, name), remote.now);
    }
  }

  lemma WithSameRows(codec: Codec, db: Tables, db': Tables, name: string, json: string, n: nat, now: int)
    requires SameTable(name, db, db')
    ensures SameTable(name, WithRows(codec, db, name, json, n, now), WithRows(codec, db', name, json, n, now))
  {
    hide KindOf, InsertAll, UpsertChannels, UpsertMappings, Take;
    KindNames(name);
    var a, a' := WithRows(codec, db, name, json, n, now), WithRows(codec, db', name, json, n, now);
    assert name != "providers" && name != "models" && name != "channels" ==> SameTable(name, a, a');
    match KindOf(name) {
      case Some(Providers) =>
      case Some(Models) =>
      case Some(Channels) =>
      case _ =>
    }
  }

  lemma KindNames(name: string)
    ensures KindOf(name) == Some(Providers) <==> name == "providers"
    ensures KindOf(name) == Some(Models) <==> name == "models"
    ensures KindOf(name) == Some(Kind.Channels) <==> name == "channels"
    ensures KindOf(name) == Some(Kind.Mappings) <==> name == "modelMappings" || name == "model_mappings"
  {}

  /** Parents have no parents. */
  lemma ParentsByTable(codec: Codec, db: Tables, keys: Keys, keys': Keys, remote: Remote, name: string)
    requires name == "providers" || name == "channels"
    ensures EntryRows(codec, db, keys, remote, name) == EntryRows(codec, db, keys', remote, name)
  {
    hide InsertCount, ChannelCount;
  }

  lemma {:induction false} TablesWhenVisited(codec: Codec, s: State, remote: Remote, visited: seq<string>)
    requires Distinct(visited)
    ensures var db := VisitAll(codec, s, remote, visited).db;
            && KeysOf(db) == KeysIn(codec, s, remote, visited)
            && forall name :: name !in visited ==> SameTable(name, s.db, db)
  {
    hide AppliedEntry, Pending, Succeeds;
    if visited != [] {
      var n := |visited| - 1;
      var front, name := visited[..n], visited[n];
      var before := VisitAll(codec, s, remote, front);
      assert visited == front + [name] && name !in front;
      TablesWhenVisited(codec, s, remote, front);
      NotYetVisited(codec, s, remote, front, name);
      EntryOnlyChanges(codec, before.db, remote, name);
      if name == "providers" || name == "channels" {
        RowsByKeys(codec, s.db, before.db, KeysOf(before.db), remote, name);
        ParentsByTable(codec, s.db, KeysOf(before.db), KeysOf(s.db), remote, name);
        TableByRows(codec, s.db, before.db, remote, name);
      }
    }
  }

  /** How far a visit gets, wherever it comes. */
  lemma RowsWhenVisited(codec: Codec, s: State, remote: Remote, visited: seq<string>, name: string)
    requires Distinct(visited) && name !in visited
    ensures var db := VisitAll(codec, s, remote, visited).db;
            EntryRows(codec, db, KeysOf(db), remote, name)
            == EntryRows(codec, s.db, KeysIn(codec, s, remote, visited), remote, name)
  {
    hide EntryRows, VisitAll;
    TablesWhenVisited(codec, s, remote, visited);
    RowsByKeys(codec, s.db, VisitAll(codec, s, remote, visited).db, KeysIn(codec, s, remote, visited), remote, name);
  }

  // ---------------------------------------------------------------------
  // Waiting is what makes the difference
  // ---------------------------------------------------------------------

  lemma MoreParents(t: References, parents: set<string>, more: set<string>, rows: seq<Reference>, stop: Option<nat>, now: int)
    requires parents <= more
    ensures var n := InsertCount(t, Some(parents), rows, stop, now, 0);
            InsertCount(t, Some(more), rows, stop, now, 0) != n <==>
            n < |rows| && stop != Some(n) && rows[n].parent in more
  {
    hide InsertAll, Taken;
    var n := InsertCount(t, Some(parents), rows, stop, now, 0);
    assert forall i :: 0 <= i < |rows| && InsertFails(t, Some(more), rows, stop, now, i) ==>
        InsertFails(t, Some(parents), rows, stop, now, i);
    if n < |rows| {
      assert InsertFails(t, Some(parents), rows, stop, now, n);
      assert InsertFails(t, Some(more), rows, stop, now, n) <==> !(stop != Some(n) && rows[n].parent in more);
    }
  }

  lemma MoreChannels(channels: set<string>, more: set<string>, rows: seq<SeedMapping>, stop: Option<nat>)
    requires channels <= more
    ensures var n := MappingCount(channels, rows, stop, 0);
            MappingCount(more, rows, stop, 0) != n <==>
            n < |rows| && stop != Some(n) && rows[n].row.channelId in more
  {
    var n := MappingCount(channels, rows, stop, 0);
    assert forall i :: 0 <= i < |rows| && MappingFails(more, rows, stop, i) ==> MappingFails(channels, rows, stop, i);
    if n < |rows| {
      assert MappingFails(channels, rows, stop, n);
      assert MappingFails(more, rows, stop, n) <==> !(stop != Some(n) && rows[n].row.channelId in more);
    }
  }

  lemma KeysInGrow(codec: Codec, s: State, remote: Remote, visited: seq<string>)
    ensures Within(KeysOf(s.db), KeysIn(codec, s, remote, visited))
  {
    hide AppliedEntry, TablesKept;
    EntryKeepsKeys(codec, s.db, remote, "providers");
    EntryKeepsKeys(codec, s.db, remote, "channels");
  }

  lemma EntryKeepsKeys(codec: Codec, db: Tables, remote: Remote, name: string)
    ensures Within(KeysOf(db), KeysOf(AppliedEntry(codec, db, remote, name)))
  {
    hide AppliedEntry;
    EntryKeepsTables(codec, db, remote, name);
  }

  function SupplierOf(name: string): string {
    if name == "models" then "providers" else "channels"
  }

  /** An entry that waits gets further once its supplier was visited; any other
      gets as far as it would now. */
  lemma WaitsIff(codec: Codec, s: State, remote: Remote, visited: seq<string>, name: string)
    requires name in Pending(s.meta, remote.manifest)
    ensures EntryRows(codec, s.db, KeysIn(codec, s, remote, visited), remote, name)
            != EntryRows(codec, s.db, KeysOf(s.db), remote, name) <==>
            Waits(codec, s, remote, name) && SupplierOf(name) in visited
  {
    hide InsertCount, MappingCount, ChannelCount, AppliedEntry, Pending;
    KeysInGrow(codec, s, remote, visited);
    var keys := KeysIn(codec, s, remote, visited);
    if Body(codec, remote, name).Some? {
      var json := Body(codec, remote, name).value;
      match KindOf(name) {
        case Some(Models) =>
          if codec.models(json).Some? {
            MoreParents(s.db.models, s.db.providers.Keys, keys.providers, codec.models(json).value, remote.stops(name), remote.now);
            StoredParents(s.db.models, s.db.providers.Keys, codec.models(json).value, remote.stops(name), remote.now);
          }
        case Some(Mappings) =>
          if codec.mappings(json).Some? {
            MoreChannels(s.db.channels.Keys, keys.channels, codec.mappings(json).value, remote.stops(name));
            StoredChannels(s.db.channels.Keys, codec.mappings(json).value, remote.stops(name));
          }
        case _ =>
      }
    }
  }

  /** Where an insert stops for its foreign key, the parent is not stored. */
  lemma StoredParents(t: References, parents: set<string>, rows: seq<Reference>, stop: Option<nat>, now: int)
    ensures var n := InsertCount(t, Some(parents), rows, stop, now, 0);
            n < |rows| && stop != Some(n) ==> rows[n].parent !in parents
  {
    hide InsertAll, Taken;
  }

  lemma StoredChannels(channels: set<string>, rows: seq<SeedMapping>, stop: Option<nat>)
    ensures var n := MappingCount(channels, rows, stop, 0);
            n < |rows| && stop != Some(n) ==> rows[n].row.channelId !in channels
  {}

  // ---------------------------------------------------------------------
  // With nothing waiting: the result of any order, in closed form
  // ---------------------------------------------------------------------

  ghost predicate NoneWaits(codec: Codec, s: State, remote: Remote) {
    forall name :: name in Pending(s.meta, remote.manifest) ==> !Waits(codec, s, remote, name)
  }

  lemma VisitAsNow(codec: Codec, s: State, remote: Remote, visited: seq<string>, name: string)
    requires NoneWaits(codec, s, remote) && Distinct(visited) && name !in visited
    requires name in Pending(s.meta, remote.manifest)
    ensures var db := VisitAll(codec, s, remote, visited).db;
            && EntryRows(codec, db, KeysOf(db), remote, name) == EntryRows(codec, s.db, KeysOf(s.db), remote, name)
            && SameTable(name, AppliedEntry(codec, s.db, remote, name), AppliedEntry(codec, db, remote, name))
            && (Succeeds(codec, db, remote, name) <==> Succeeds(codec, s.db, remote, name))
  {
    hide EntryRows, VisitAll, AppliedEntry, Succeeds, Waits, KeysIn, SameTable, Pending;
    RowsWhenVisited(codec, s, remote, visited, name);
    WaitsIff(codec, s, remote, visited, name);
    TablesWhenVisited(codec, s, remote, visited);
    TableByRows(codec, s.db, VisitAll(codec, s, remote, visited).db, remote, name);
  }

  /** The rows of the mappings entries, in the order of the visits. */
  function Segments(codec: Codec, s: State, remote: Remote, order: seq<string>): seq<SeedMapping> {
    if order == [] then []
    else
      var n := |order| - 1;
      Segments(codec, s, remote, order[..n])
      + (if KindOf(order[n]) == Some(Kind.Mappings) then Segment(codec, s, remote, order[n]) else [])
  }

  /** What the entry alone, visited now, would leave. */
  function Alone(codec: Codec, s: State, remote: Remote, order: seq<string>, name: string): Tables {
    if name in order && name in Pending(s.meta, remote.manifest) then AppliedEntry(codec, s.db, remote, name) else s.db
  }

  function Done(codec: Codec, s: State, remote: Remote, order: seq<string>): set<string> {
    set name | name in Pending(s.meta, remote.manifest) && name in order && Succeeds(codec, s.db, remote, name)
  }

  function HashesWith(meta: Meta, m: Manifest, done: set<string>): map<string, string> {
    meta.hashes + map name | name in m.entries && name in done :: m.entries[name].sha256
  }

  function Settled(codec: Codec, s: State, remote: Remote, order: seq<string>): State {
    State(s.meta.(hashes := HashesWith(s.meta, remote.manifest, Done(codec, s, remote, order))),
          Tables(Alone(codec, s, remote, order, "providers").providers, Alone(codec, s, remote, order, "models").models,
                 Alone(codec, s, remote, order, "channels").channels,
                 UpsertMappings(s.db.mappings, Segments(codec, s, remote, order))))
  }

  lemma {:induction false} SettlesInAnyOrder(codec: Codec, s: State, remote: Remote, order: seq<string>)
    requires NoneWaits(codec, s, remote) && Distinct(order)
    ensures VisitAll(codec, s, remote, order) == Settled(codec, s, remote, order)
  {
    hide AppliedEntry, Succeeds, Pending, NoneWaits, UpsertMappings, Segments, Done, HashesWith, SameTable, Alone;
    if order == [] {
      NothingDone(codec, s, remote);
    } else {
      var n := |order| - 1;
      var front, name := order[..n], order[n];
      assert order == front + [name] && name !in front;
      SettlesInAnyOrder(codec, s, remote, front);
      NotYetVisited(codec, s, remote, front, name);
      HashStep(codec, s, remote, front, name);
      TableStep(codec, s, remote, front, name);
    }
  }

  lemma NothingDone(codec: Codec, s: State, remote: Remote)
    ensures Settled(codec, s, remote, []) == s
  {
    hide Succeeds, Pending;
    assert Done(codec, s, remote, []) == {};
  }

  lemma HashStep(codec: Codec, s: State, remote: Remote, front: seq<string>, name: string)
    requires NoneWaits(codec, s, remote) && Distinct(front) && name !in front
    requires VisitAll(codec, s, remote, front) == Settled(codec, s, remote, front)
    ensures Visit(codec, Settled(codec, s, remote, front), remote, name).meta == Settled(codec, s, remote, front + [name]).meta
  {
    hide AppliedEntry, Succeeds, NoneWaits, VisitAll, UpsertMappings, Segments, Alone, Done, HashesWith, Pending;
    NotYetVisited(codec, s, remote, front, name);
    DoneStep(codec, s, remote, front, name);
    if name in Pending(s.meta, remote.manifest) {
      PendingNames(s.meta, remote.manifest, name);
      VisitAsNow(codec, s, remote, front, name);
      HashesStep(s.meta, remote.manifest, Done(codec, s, remote, front), name);
    }
  }

  lemma DoneStep(codec: Codec, s: State, remote: Remote, front: seq<string>, name: string)
    ensures Done(codec, s, remote, front + [name]) ==
            if name in Pending(s.meta, remote.manifest) && Succeeds(codec, s.db, remote, name)
            then Done(codec, s, remote, front) + {name} else Done(codec, s, remote, front)
  {
    hide Succeeds, Pending;
  }

  lemma HashesStep(meta: Meta, m: Manifest, done: set<string>, name: string)
    requires name in m.entries
    ensures HashesWith(meta, m, done + {name}) == HashesWith(meta, m, done)[name := m.entries[name].sha256]
  {}

  lemma TableStep(codec: Codec, s: State, remote: Remote, front: seq<string>, name: string)
    requires NoneWaits(codec, s, remote) && Distinct(front) && name !in front
    requires VisitAll(codec, s, remote, front) == Settled(codec, s, remote, front)
    ensures Visit(codec, Settled(codec, s, remote, front), remote, name).db == Settled(codec, s, remote, front + [name]).db
  {
    hide AppliedEntry, Succeeds, NoneWaits, VisitAll, UpsertMappings, Done, HashesWith, Pending, Segment;
    var before := Settled(codec, s, remote, front);
    NotYetVisited(codec, s, remote, front, name);
    KindNames(name);
    assert (front + [name])[..|front|] == front;
    if name in Pending(s.meta, remote.manifest) {
      VisitAsNow(codec, s, remote, front, name);
      EntryOnlyChanges(codec, before.db, remote, name);
      MappingsStep(codec, s, remote, before.db, name);
      UpsertMappingsAppend(s.db.mappings, Segments(codec, s, remote, front), Segment(codec, s, remote, name));
    } else {
      NoSegment(codec, s, remote, name);
    }
    assert Segments(codec, s, remote, front) + [] == Segments(codec, s, remote, front);
  }

  lemma NoSegment(codec: Codec, s: State, remote: Remote, name: string)
    requires name !in Pending(s.meta, remote.manifest)
    ensures Segment(codec, s, remote, name) == []
  {}

  lemma MappingsStep(codec: Codec, s: State, remote: Remote, db: Tables, name: string)
    requires name in Pending(s.meta, remote.manifest)
    requires EntryRows(codec, db, KeysOf(db), remote, name) == EntryRows(codec, s.db, KeysOf(s.db), remote, name)
    ensures KindOf(name) == Some(Kind.Mappings) ==>
              AppliedEntry(codec, db, remote, name).mappings == UpsertMappings(db.mappings, Segment(codec, s, remote, name))
  {
    hide AppliedRows, Pending, Take;
    NoMappings(db.mappings);
  }

  lemma NoMappings(t: SeedRows.Mappings)
    ensures UpsertMappings(t, []) == t
  {}

  lemma {:induction false} RowsSettle(codec: Codec, s: State, remote: Remote, order: seq<string>)
    requires NoneWaits(codec, s, remote) && Distinct(order)
    ensures RowsApplied(codec, s, remote, order) ==
            map name | name in Pending(s.meta, remote.manifest) && name in order ::
              EntryRows(codec, s.db, KeysOf(s.db), remote, name)
  {
    hide VisitAll, EntryRows, NoneWaits, Pending;
    if order != [] {
      var n := |order| - 1;
      var front, name := order[..n], order[n];
      assert order == front + [name] && name !in front;
      RowsSettle(codec, s, remote, front);
      NotYetVisited(codec, s, remote, front, name);
      if name in Pending(s.meta, remote.manifest) {
        VisitAsNow(codec, s, remote, front, name);
      }
    }
  }

  /** The two mappings entries contribute in the order in which they come. */
  lemma {:induction false} SegmentsOf(codec: Codec, s: State, remote: Remote, order: seq<string>)
    requires Distinct(order)
    ensures var a, b := "modelMappings", "model_mappings";
            var x, y, all := Segment(codec, s, remote, a), Segment(codec, s, remote, b), Segments(codec, s, remote, order);
            && (a !in order && b !in order ==> all == [])
            && (a in order && b !in order ==> all == x)
            && (a !in order && b in order ==> all == y)
            && (a in order && b in order ==>
                  && (all == x + y || all == y + x)
                  && (order[0] == a ==> all == x + y)
                  && (order[0] == b ==> all == y + x))
  {
    hide Segment;
    if order != [] {
      var n := |order| - 1;
      var front, name := order[..n], order[n];
      assert order == front + [name] && name !in front;
      SegmentsOf(codec, s, remote, front);
      KindNames(name);
      assert Segments(codec, s, remote, front) + [] == Segments(codec, s, remote, front);
    }
  }

  // ---------------------------------------------------------------------
  // The order matters exactly when
  // ---------------------------------------------------------------------

  /** The mappings entry comes twice, under both names, and they disagree. */
  ghost predicate Disagree(codec: Codec, s: State, remote: Remote) {
    Conflict(Segment(codec, s, remote, "modelMappings"), Segment(codec, s, remote, "model_mappings"))
  }

  lemma SameOutcomeIfQuiet(codec: Codec, s: State, remote: Remote, order: seq<string>, order': seq<string>)
    requires NoneWaits(codec, s, remote) && !Disagree(codec, s, remote)
    requires IsOrder(order, remote.manifest) && IsOrder(order', remote.manifest)
    ensures SameOutcome(codec, s, remote, order, order')
  {
    hide VisitAll, RowsApplied, AppliedEntry, Succeeds, EntryRows, NoneWaits, UpsertMappings, Segments, Segment, Pending, Conflict;
    assert forall name :: name in order <==> name in order';
    SettlesInAnyOrder(codec, s, remote, order);
    SettlesInAnyOrder(codec, s, remote, order');
    RowsSettle(codec, s, remote, order);
    RowsSettle(codec, s, remote, order');
    SegmentsOf(codec, s, remote, order);
    SegmentsOf(codec, s, remote, order');
    UpsertsCommuteIff(s.db.mappings, Segment(codec, s, remote, "modelMappings"), Segment(codec, s, remote, "model_mappings"));
    assert Done(codec, s, remote, order) == Done(codec, s, remote, order');
  }

  /** How far an entry gets when it comes first, and when another does. */
  lemma {:induction false} RowsInOrder(codec: Codec, s: State, remote: Remote, order: seq<string>, name: string)
    requires Distinct(order) && name in order && name in Pending(s.meta, remote.manifest)
    ensures name in RowsApplied(codec, s, remote, order)
    ensures order[0] == name ==>
              RowsApplied(codec, s, remote, order)[name] == EntryRows(codec, s.db, KeysOf(s.db), remote, name)
    ensures Waits(codec, s, remote, name) && order[0] == SupplierOf(name) != name ==>
              RowsApplied(codec, s, remote, order)[name] != EntryRows(codec, s.db, KeysOf(s.db), remote, name)
  {
    hide VisitAll, EntryRows, Waits, KeysIn, Pending;
    var n := |order| - 1;
    var front, last := order[..n], order[n];
    assert order == front + [last] && last !in front;
    NotYetVisited(codec, s, remote, front, last);
    if last == name {
      RowsWhenVisited(codec, s, remote, front, name);
      WaitsIff(codec, s, remote, front, name);
      if order[0] == name {
        assert front == [];
      } else {
        assert order[0] in front;
      }
    } else {
      RowsInOrder(codec, s, remote, front, name);
    }
  }

  lemma WaitingMatters(codec: Codec, s: State, remote: Remote, name: string) returns (order: seq<string>, order': seq<string>)
    requires Waits(codec, s, remote, name)
    ensures IsOrder(order, remote.manifest) && IsOrder(order', remote.manifest)
    ensures !SameOutcome(codec, s, remote, order, order')
  {
    hide VisitAll, EntryRows, RowsApplied, AppliedEntry;
    var m := remote.manifest;
    KindNames(name);
    PendingNames(s.meta, m, name);
    PendingNames(s.meta, m, SupplierOf(name));
    order := OrderFrom(m, name);
    order' := OrderFrom(m, SupplierOf(name));
    InOrder(order', s.meta, m, name);
    RowsInOrder(codec, s, remote, order, name);
    RowsInOrder(codec, s, remote, order', name);
  }

  lemma DisagreementMatters(codec: Codec, s: State, remote: Remote) returns (order: seq<string>, order': seq<string>)
    requires NoneWaits(codec, s, remote) && Disagree(codec, s, remote)
    ensures IsOrder(order, remote.manifest) && IsOrder(order', remote.manifest)
    ensures !SameOutcome(codec, s, remote, order, order')
  {
    hide VisitAll, EntryRows, RowsApplied, AppliedEntry, Succeeds, NoneWaits, UpsertMappings, Segments, LastRow, Pending;
    var m, a, b := remote.manifest, "modelMappings", "model_mappings";
    NoSegmentIfDone(codec, s, remote, a);
    NoSegmentIfDone(codec, s, remote, b);
    PendingNames(s.meta, m, a);
    PendingNames(s.meta, m, b);
    order := OrderFrom(m, a);
    order' := OrderFrom(m, b);
    SettlesInAnyOrder(codec, s, remote, order);
    SettlesInAnyOrder(codec, s, remote, order');
    SegmentsOf(codec, s, remote, order);
    SegmentsOf(codec, s, remote, order');
    UpsertsCommuteIff(s.db.mappings, Segment(codec, s, remote, a), Segment(codec, s, remote, b));
  }

  lemma NoSegmentIfDone(codec: Codec, s: State, remote: Remote, name: string)
    ensures Segment(codec, s, remote, name) != [] ==> name in Pending(s.meta, remote.manifest)
  {}

  /** The order of the visits cannot be told from the result exactly when no
      pending entry waits for rows that another supplies and no two mappings
      entries disagree. */
  lemma OrderIrrelevantIff(codec: Codec, s: State, remote: Remote)
    ensures (forall order, order' :: IsOrder(order, remote.manifest) && IsOrder(order', remote.manifest) ==>
               SameOutcome(codec, s, remote, order, order')) <==>
            (forall name :: name in Pending(s.meta, remote.manifest) ==> !Waits(codec, s, remote, name))
            && !Disagree(codec, s, remote)
  {
    hide SameOutcome, IsOrder, Waits, Pending, Disagree;
    if NoneWaits(codec, s, remote) && !Disagree(codec, s, remote) {
      forall order, order' | IsOrder(order, remote.manifest) && IsOrder(order', remote.manifest)
        ensures SameOutcome(codec, s, remote, order, order')
      {
        SameOutcomeIfQuiet(codec, s, remote, order, order');
      }
    } else if NoneWaits(codec, s, remote) {
      var order, order' := DisagreementMatters(codec, s, remote);
    } else {
      var name :| name in Pending(s.meta, remote.manifest) && Waits(codec, s, remote, name);
      var order, order' := WaitingMatters(codec, s, remote, name);
    }
  }
}
