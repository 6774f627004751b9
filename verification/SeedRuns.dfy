/** What the refresh protocol guarantees over any run of refreshes. */
module SeedRuns {
  import opened Common
  import opened SeedRows
  import opened Seed

  /** One refresh of a run, with the order in which its entries happened to come. */
  datatype Attempt = Attempt(remote: Remote, order: seq<string>)

  ghost predicate Possible(attempts: seq<Attempt>) {
    forall i :: 0 <= i < |attempts| ==> IsOrder(attempts[i].order, attempts[i].remote.manifest)
  }

  function Run(codec: Codec, s: State, attempts: seq<Attempt>): State {
    if attempts == [] then s
    else
      var n := |attempts| - 1;
      Refreshed(codec, Run(codec, s, attempts[..n]), attempts[n].remote, attempts[n].order)
  }

  /** All entries of the manifest have their hashes stored. */
  ghost predicate Matches(meta: Meta, m: Manifest) {
    forall name :: name in m.entries ==> name in meta.hashes && meta.hashes[name] == m.entries[name].sha256
  }

  lemma NothingPending(meta: Meta, m: Manifest)
    ensures Pending(meta, m) == {} <==> Matches(meta, m)
  {
    if Pending(meta, m) == {} {
      forall name | name in m.entries
        ensures name in meta.hashes && meta.hashes[name] == m.entries[name].sha256
      {
        assert name !in Pending(meta, m);
      }
    }
  }

  lemma SameHashesSamePending(a: Meta, b: Meta, m: Manifest)
    requires a.hashes == b.hashes
    ensures Pending(a, m) == Pending(b, m)
  {}

  /** Whether the visit to `name` in the course of these visits succeeded. */
  predicate SucceededIn(codec: Codec, s: State, remote: Remote, order: seq<string>, name: string) {
    && order != []
    && var n := |order| - 1;
       || SucceededIn(codec, s, remote, order[..n], name)
       || (order[n] == name && Succeeds(codec, VisitAll(codec, s, remote, order[..n]).db, remote, name))
  }

  lemma {:induction false} NotVisitedNotDone(codec: Codec, s: State, remote: Remote, order: seq<string>, name: string)
    requires name !in order
    ensures !SucceededIn(codec, s, remote, order, name)
  {
    if order != [] {
      NotVisitedNotDone(codec, s, remote, order[..|order| - 1], name);
    }
  }

  /** What is pending after some visits is what was pending and did not succeed. */
  lemma {:induction false} PendingAfterVisits(codec: Codec, s: State, remote: Remote, order: seq<string>, name: string)
    requires Distinct(order)
    ensures name in Pending(VisitAll(codec, s, remote, order).meta, remote.manifest) <==>
            name in Pending(s.meta, remote.manifest) && !SucceededIn(codec, s, remote, order, name)
  {
    hide Succeeds, AppliedEntry;
    if order != [] {
      var n := |order| - 1;
      var front, last := order[..n], order[n];
      PendingAfterVisits(codec, s, remote, front, name);
      VisitKeepsOthers(codec, VisitAll(codec, s, remote, front), remote, last, name);
      if last == name {
        NotVisitedNotDone(codec, s, remote, front, name);
      }
    }
  }

  /** After a refresh what is pending is what was pending and did not succeed,
      however the entries were ordered and whatever they needed of each other. */
  lemma PendingAfter(codec: Codec, s: State, remote: Remote, order: seq<string>, name: string)
    requires Distinct(order) && remote.manifest.version > s.meta.version
    ensures name in Pending(Refreshed(codec, s, remote, order).meta, remote.manifest) <==>
            name in Pending(s.meta, remote.manifest) && !SucceededIn(codec, s, remote, order, name)
  {
    hide VisitAll, SucceededIn, Pending;
    PendingAfterVisits(codec, s, remote, order, name);
    SameHashesSamePending(Refreshed(codec, s, remote, order).meta, VisitAll(codec, s, remote, order).meta, remote.manifest);
  }

  /** Visits leave everything of the metadata but the hashes. */
  lemma {:induction false} VisitsKeepNotes(codec: Codec, s: State, remote: Remote, order: seq<string>)
    ensures VisitAll(codec, s, remote, order).meta == s.meta.(hashes := VisitAll(codec, s, remote, order).meta.hashes)
  {
    hide Succeeds, AppliedEntry;
    if order != [] {
      VisitsKeepNotes(codec, s, remote, order[..|order| - 1]);
    }
  }

  /** One refresh either keeps the version or raises it to the manifest's, and
      it does the latter exactly when the manifest is newer and every entry's
      stored hash then equals the manifest's. */
  lemma {:induction false} VersionRisesIff(codec: Codec, s: State, remote: Remote, order: seq<string>)
    ensures var s', m := Refreshed(codec, s, remote, order), remote.manifest;
            && (s'.meta.version == s.meta.version || s'.meta.version == m.version)
            && s'.meta.version >= s.meta.version
            && (s'.meta.version != s.meta.version <==> m.version > s.meta.version && Matches(s'.meta, m))
  {
    hide VisitAll, Matches, Pending;
    var s', m := Refreshed(codec, s, remote, order), remote.manifest;
    if m.version > s.meta.version {
      VisitsKeepNotes(codec, s, remote, order);
      SameHashesSamePending(s'.meta, VisitAll(codec, s, remote, order).meta, m);
      NothingPending(s'.meta, m);
    }
  }

  /** What a refresh notes: on success where and when it came from and no error;
      on failure the errors, and nothing else but hashes; behind the version
      gate nothing. */
  lemma {:induction false} RefreshNotes(codec: Codec, s: State, remote: Remote, order: seq<string>)
    ensures var before, after := s.meta, Refreshed(codec, s, remote, order).meta;
            if remote.manifest.version <= before.version then after == before
            else if after.version == before.version
            then after == before.(hashes := after.hashes, lastError := remote.errorText)
            else && after.lastError == "" && after.lastRefreshAt == remote.nowText
                 && after.source == "remote" && after.remoteUrl == remote.url
  {
    hide VisitAll, Pending;
    VisitsKeepNotes(codec, s, remote, order);
  }

  /** A body that cannot be fetched or whose hash is not the manifest's changes
      nothing; one that matches is what gets applied. */
  lemma OnlyVerifiedBodies(codec: Codec, s: State, remote: Remote, name: string)
    requires name in remote.manifest.entries
    ensures var entry := remote.manifest.entries[name];
            var body := remote.fetch(entry.file);
            if body.None? || codec.sha256(body.value) != entry.sha256 then Visit(codec, s, remote, name) == s
            else name in Pending(s.meta, remote.manifest) ==>
              Visit(codec, s, remote, name).db == Upserted(codec, s.db, name, body.value, remote.stops(name), remote.now)
  {
    hide Upserted, Upserts;
  }

  /** An entry whose hash cannot be written, or at one of whose rows the database
      fails, is not recorded, and no row from that one on is applied. */
  lemma FailuresAreNotRecorded(codec: Codec, s: State, remote: Remote, name: string, total: nat, stop: nat)
    requires Body(codec, remote, name).Some? && TotalRows(codec, name, Body(codec, remote, name).value) == Some(total)
    ensures remote.hashFails(name) ==> Visit(codec, s, remote, name).meta == s.meta
    ensures remote.stops(name) == Some(stop) && stop < total ==>
              Visit(codec, s, remote, name).meta == s.meta && EntryRows(codec, s.db, KeysOf(s.db), remote, name) <= stop
  {
    hide InsertAll, Taken;
    var json := Body(codec, remote, name).value;
    if remote.stops(name) == Some(stop) && stop < total {
      match KindOf(name) {
        case Some(Providers) => StopsThere(s.db.providers, None, codec.providers(json).value, stop, remote.now);
        case Some(Models) => StopsThere(s.db.models, Some(s.db.providers.Keys), codec.models(json).value, stop, remote.now);
        case Some(Channels) =>
        case Some(Mappings) =>
          assert MappingFails(s.db.channels.Keys, codec.mappings(json).value, Some(stop), stop);
        case None =>
      }
    }
  }

  lemma StopsThere(t: References, parents: Option<set<string>>, rows: seq<Reference>, stop: nat, now: int)
    requires stop < |rows|
    ensures InsertCount(t, parents, rows, Some(stop), now, 0) <= stop
  {
    hide InsertAll, Taken;
    assert InsertFails(t, parents, rows, Some(stop), now, stop);
  }

  /** Over any run of refreshes, with any manifests, failures and orders, the
      version never goes down; and where it stands above its start, it is the
      version of some manifest of the run whose every entry matched when it
      was reached. */
  lemma {:induction false} VersionIsEarned(codec: Codec, s: State, attempts: seq<Attempt>)
    ensures var v := Run(codec, s, attempts).meta.version;
            && v >= s.meta.version
            && (v > s.meta.version ==>
                  exists i :: && 0 <= i < |attempts| && attempts[i].remote.manifest.version == v
                              && Matches(Run(codec, s, attempts[..i + 1]).meta, attempts[i].remote.manifest))
  {
    hide Refreshed, Matches;
    if attempts != [] {
      var n := |attempts| - 1;
      var front := attempts[..n];
      var before, after := Run(codec, s, front), Run(codec, s, attempts);
      VersionIsEarned(codec, s, front);
      VersionRisesIff(codec, before, attempts[n].remote, attempts[n].order);
      if after.meta.version > before.meta.version {
        assert attempts[..n + 1] == attempts;
        assert Matches(Run(codec, s, attempts[..n + 1]).meta, attempts[n].remote.manifest);
      } else if before.meta.version > s.meta.version {
        var i :| && 0 <= i < |front| && front[i].remote.manifest.version == before.meta.version
                 && Matches(Run(codec, s, front[..i + 1]).meta, front[i].remote.manifest);
        assert attempts[..i + 1] == front[..i + 1] && attempts[i] == front[i];
      }
    }
  }

  /** A failed refresh keeps the version and what it did achieve: exactly the
      entries that did not succeed are left to fetch. */
  lemma FailedRefreshKeepsProgress(codec: Codec, s: State, remote: Remote, order: seq<string>)
    requires IsOrder(order, remote.manifest) && remote.manifest.version > s.meta.version
    requires exists name :: name in Pending(s.meta, remote.manifest) && !SucceededIn(codec, s, remote, order, name)
    ensures var s' := Refreshed(codec, s, remote, order);
            && s'.meta.version == s.meta.version
            && (forall name :: name in Pending(s'.meta, remote.manifest) <==>
                  name in Pending(s.meta, remote.manifest) && !SucceededIn(codec, s, remote, order, name))
  {
    hide VisitAll, SucceededIn, Refreshed, Pending, Matches;
    forall name
      ensures name in Pending(Refreshed(codec, s, remote, order).meta, remote.manifest) <==>
              name in Pending(s.meta, remote.manifest) && !SucceededIn(codec, s, remote, order, name)
    {
      PendingAfter(codec, s, remote, order, name);
    }
    VersionRisesIff(codec, s, remote, order);
    NothingPending(Refreshed(codec, s, remote, order).meta, remote.manifest);
  }

  /** After a success, repeating the manifest (whatever the network does then)
      changes nothing and fetches nothing. */
  lemma RepeatIsNoOp(codec: Codec, s: State, remote: Remote, order: seq<string>, again: Remote, order': seq<string>)
    requires again.manifest == remote.manifest
    requires Refreshed(codec, s, remote, order).meta.version == remote.manifest.version
    ensures var s' := Refreshed(codec, s, remote, order);
            Refreshed(codec, s', again, order') == s' && FetchedNames(s'.meta, again.manifest, order') == []
  {}

  // ---------------------------------------------------------------------
  // The first refresh after the first start
  // ---------------------------------------------------------------------

  lemma {:induction false} FilterKeeps(names: seq<string>, keep: set<string>, name: string)
    ensures name in Filter(names, keep) <==> name in names && name in keep
  {
    if names != [] {
      var n := |names| - 1;
      FilterKeeps(names[..n], keep, name);
      assert names == names[..n] + [names[n]];
    }
  }

  /** A refresh fetches the pending entries, unless its version is not newer. */
  lemma FetchedIff(meta: Meta, m: Manifest, order: seq<string>, name: string)
    requires IsOrder(order, m)
    ensures name in FetchedNames(meta, m, order) <==> m.version > meta.version && name in Pending(meta, m)
  {
    FilterKeeps(order, Pending(meta, m), name);
  }

  /** After a complete first start, the first refresh fetches, of a newer
      manifest, the entries that differ from the embedded files; an entry that
      the first start does not name is fetched unless its hash was there before. */
  lemma FetchedAfterInitIff(codec: Codec, s: State, e: Embedded, stops: string -> Option<nat>, now: int,
                            m: Manifest, order: seq<string>, name: string)
    requires s.meta.version == 0 && AppliedAll(codec, s.db, e, stops, now).1 && IsOrder(order, m)
    ensures var meta := Initialized(codec, s, e, stops, now).meta;
            name in FetchedNames(meta, m, order) <==>
            && m.version > meta.version
            && name in m.entries
            && (if name in EmbeddedHashes(codec, e) then EmbeddedHashes(codec, e)[name] != m.entries[name].sha256
                else name in Pending(s.meta, m))
  {
    hide AppliedAll;
    FetchedIff(Initialized(codec, s, e, stops, now).meta, m, order, name);
    assert EmbeddedHashes(codec, e).Keys == {"providers", "models", "channels", "model_mappings"};
  }

  /** The first start files the mappings' hash under one of their two accepted
      names only: a manifest with the very same mappings has them fetched again
      exactly when it uses the other name and is newer. */
  lemma MappingsFetchedAgainIff(codec: Codec, s: State, e: Embedded, stops: string -> Option<nat>, now: int,
                                m: Manifest, order: seq<string>, name: string)
    requires s.meta.version == 0 && s.meta.hashes == map[] && AppliedAll(codec, s.db, e, stops, now).1
    requires IsOrder(order, m)
    requires name in m.entries && KindOf(name) == Some(Kind.Mappings) && m.entries[name].sha256 == codec.sha256(e.mappings)
    ensures var meta := Initialized(codec, s, e, stops, now).meta;
            name in FetchedNames(meta, m, order) <==> name == "modelMappings" && m.version > meta.version
  {
    hide AppliedAll, Initialized, FetchedNames;
    FetchedAfterInitIff(codec, s, e, stops, now, m, order, name);
  }

  // ---------------------------------------------------------------------
  // Convergence of retries
  // ---------------------------------------------------------------------

  ghost predicate Retries(attempts: seq<Attempt>, m: Manifest) {
    Possible(attempts) && forall i :: 0 <= i < |attempts| ==> attempts[i].remote.manifest == m
  }

  /** `name` succeeds in attempt `i`, in the state that attempt finds. */
  predicate SucceedsIn(codec: Codec, s: State, attempts: seq<Attempt>, i: nat, name: string)
    requires i < |attempts|
  {
    SucceededIn(codec, Run(codec, s, attempts[..i]), attempts[i].remote, attempts[i].order, name)
  }

  ghost predicate EventuallySucceeds(codec: Codec, s: State, attempts: seq<Attempt>, name: string) {
    exists i: nat :: i < |attempts| && SucceedsIn(codec, s, attempts, i, name)
  }

  /** Retrying one manifest reaches its version exactly when every entry that
      differed at the start succeeds in at least one of the attempts: no
      attempt need succeed as a whole. */
  lemma {:induction false} RetriesConvergeIff(codec: Codec, s: State, attempts: seq<Attempt>, m: Manifest)
    requires attempts != [] && m.version > s.meta.version && Retries(attempts, m)
    ensures Run(codec, s, attempts).meta.version == m.version <==>
            forall name :: name in Pending(s.meta, m) ==> EventuallySucceeds(codec, s, attempts, name)
  {
    hide Run, Pending;
    RetryInvariant(codec, s, attempts, m);
  }

  /** What is pending after some attempts is what was pending and succeeded in
      none of them; the version is the manifest's exactly when that is nothing. */
  lemma {:induction false} RetryInvariant(codec: Codec, s: State, attempts: seq<Attempt>, m: Manifest)
    requires m.version > s.meta.version && Retries(attempts, m)
    ensures var s' := Run(codec, s, attempts);
            && (forall name :: name in Pending(s'.meta, m) <==>
                  name in Pending(s.meta, m) && !EventuallySucceeds(codec, s, attempts, name))
            && (attempts == [] ==> s' == s)
            && (attempts != [] ==>
                  s'.meta.version == if Pending(s'.meta, m) == {} then m.version else s.meta.version)
  {
    hide SucceededIn, Pending, Refreshed;
    if attempts != [] {
      var n := |attempts| - 1;
      var front, last := attempts[..n], attempts[n];
      var before := Run(codec, s, front);
      RetryInvariant(codec, s, front, m);
      forall name
        ensures EventuallySucceeds(codec, s, attempts, name) <==>
                EventuallySucceeds(codec, s, front, name) || SucceededIn(codec, before, last.remote, last.order, name)
      {
        LastAttempt(codec, s, attempts, name);
      }
      OneMoreAttempt(codec, before, last, m);
    }
  }

  /** One attempt from any state of such a run. */
  lemma OneMoreAttempt(codec: Codec, s: State, a: Attempt, m: Manifest)
    requires IsOrder(a.order, m) && a.remote.manifest == m
    ensures var s' := Refreshed(codec, s, a.remote, a.order);
            if m.version <= s.meta.version then s' == s
            else
              && (forall name :: name in Pending(s'.meta, m) <==>
                    name in Pending(s.meta, m) && !SucceededIn(codec, s, a.remote, a.order, name))
              && s'.meta.version == if Pending(s'.meta, m) == {} then m.version else s.meta.version
  {
    hide SucceededIn, Pending, VisitAll, Matches;
    if m.version > s.meta.version {
      forall name
        ensures name in Pending(Refreshed(codec, s, a.remote, a.order).meta, m) <==>
                name in Pending(s.meta, m) && !SucceededIn(codec, s, a.remote, a.order, name)
      {
        PendingAfter(codec, s, a.remote, a.order, name);
      }
      VersionRisesIff(codec, s, a.remote, a.order);
      NothingPending(Refreshed(codec, s, a.remote, a.order).meta, m);
    }
  }

  lemma LastAttempt(codec: Codec, s: State, attempts: seq<Attempt>, name: string)
    requires attempts != []
    ensures var n := |attempts| - 1;
            EventuallySucceeds(codec, s, attempts, name) <==>
            || EventuallySucceeds(codec, s, attempts[..n], name)
            || SucceededIn(codec, Run(codec, s, attempts[..n]), attempts[n].remote, attempts[n].order, name)
  {
    hide SucceededIn, Run;
    var n := |attempts| - 1;
    var front := attempts[..n];
    forall i: nat | i < n
      ensures SucceedsIn(codec, s, attempts, i, name) == SucceedsIn(codec, s, front, i, name)
    {
      assert attempts[..i] == front[..i];
    }
    if SucceededIn(codec, Run(codec, s, front), attempts[n].remote, attempts[n].order, name) {
      assert SucceedsIn(codec, s, attempts, n, name);
    }
    if EventuallySucceeds(codec, s, front, name) {
      var i: nat :| i < n && SucceedsIn(codec, s, front, i, name);
      assert SucceedsIn(codec, s, attempts, i, name);
    }
  }
}
