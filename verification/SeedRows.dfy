/** What applying a seed entry does to its table
    (crates/storage-sqlite/src/seed.rs:405-521, migrations/001_init.sql). */
module SeedRows {
  import opened Common

  // ---------------------------------------------------------------------
  // Providers and models: INSERT OR IGNORE
  // ---------------------------------------------------------------------

  /** A provider or model row: its key, its UNIQUE name, the provider a model
      belongs to, its other columns. */
  datatype Reference = Reference(id: string, uniqueName: string, parent: string, details: string, createdAt: int)

  type References = map<string, Reference>

  /** The insert is ignored: the key or the unique name is taken. */
  predicate Taken(t: References, r: Reference) {
    r.id in t || exists id :: id in t && t[id].uniqueName == r.uniqueName
  }

  function InsertOrIgnore(t: References, r: Reference, now: int): References {
    if Taken(t, r) then t else t[r.id := r.(createdAt := if r.createdAt > now then r.createdAt else now)]
  }

  function InsertAll(t: References, rows: seq<Reference>, now: int): References {
    if rows == [] then t else InsertOrIgnore(InsertAll(t, rows[..|rows| - 1], now), rows[|rows| - 1], now)
  }

  /** Existing rows stay as they are, and every listed row finds its place
      taken afterwards. */
  lemma {:induction false} InsertAllKeepsRows(t: References, rows: seq<Reference>, now: int)
    ensures forall id :: id in t ==> id in InsertAll(t, rows, now) && InsertAll(t, rows, now)[id] == t[id]
    ensures forall r :: r in rows ==> Taken(InsertAll(t, rows, now), r)
  {
    if rows != [] {
      var n := |rows| - 1;
      var before, after, last := InsertAll(t, rows[..n], now), InsertAll(t, rows, now), rows[n];
      InsertAllKeepsRows(t, rows[..n], now);
      assert forall id :: id in before ==> id in after && after[id] == before[id];
      forall r | r in rows
        ensures Taken(after, r)
      {
        if r != last {
          assert r in rows[..n];
          if r.id !in before {
            var id :| id in before && before[id].uniqueName == r.uniqueName;
            assert after[id].uniqueName == r.uniqueName;
          }
        }
      }
    }
  }

  /** A row that is new is a listed one, column by column; only its creation
      time is moved up to now. No row before it had its key or unique name. */
  lemma {:induction false} NewRowIsListed(t: References, rows: seq<Reference>, now: int, id: string) returns (i: nat)
    requires id !in t && id in InsertAll(t, rows, now)
    ensures i < |rows| && rows[i].id == id && !Taken(InsertAll(t, rows[..i], now), rows[i])
    ensures var row := InsertAll(t, rows, now)[id];
            && row.uniqueName == rows[i].uniqueName && row.parent == rows[i].parent && row.details == rows[i].details
            && row.createdAt >= rows[i].createdAt && row.createdAt >= now
            && (row.createdAt == rows[i].createdAt || row.createdAt == now)
  {
    var n := |rows| - 1;
    if id in InsertAll(t, rows[..n], now) {
      i := NewRowIsListed(t, rows[..n], now, id);
      assert rows[..n][..i] == rows[..i];
    } else {
      i := n;
    }
  }

  lemma {:induction false} NothingLeftToInsert(t: References, rows: seq<Reference>, now: int)
    requires forall r :: r in rows ==> Taken(t, r)
    ensures InsertAll(t, rows, now) == t
  {
    if rows != [] {
      NothingLeftToInsert(t, rows[..|rows| - 1], now);
      assert rows[|rows| - 1] in rows;
    }
  }

  /** Applying a list again, at any later time, changes nothing at all. */
  lemma InsertAllIdempotent(t: References, rows: seq<Reference>, now: int, later: int)
    ensures InsertAll(InsertAll(t, rows, now), rows, later) == InsertAll(t, rows, now)
  {
    InsertAllKeepsRows(t, rows, now);
    NothingLeftToInsert(InsertAll(t, rows, now), rows, later);
  }

  /** The foreign key: a row that would be inserted must have its parent among
      `parents` (`None` for a table without one). An ignored row is not checked. */
  predicate Orphan(t: References, parents: Option<set<string>>, r: Reference) {
    parents.Some? && !Taken(t, r) && r.parent !in parents.value
  }

  /** The insert of row `i` fails: for its foreign key, or for whatever else
      stops the database there. */
  predicate InsertFails(t: References, parents: Option<set<string>>, rows: seq<Reference>, stop: Option<nat>, now: int, i: nat)
    requires i < |rows|
  {
    stop == Some(i) || Orphan(InsertAll(t, rows[..i], now), parents, rows[i])
  }

  /** How many rows go in, from row `i` on: up to the first that fails. */
  function InsertCount(t: References, parents: Option<set<string>>, rows: seq<Reference>, stop: Option<nat>, now: int, i: nat)
    : (n: nat)
    requires i <= |rows|
    ensures i <= n <= |rows|
    ensures forall j :: i <= j < n ==> !InsertFails(t, parents, rows, stop, now, j)
    ensures n < |rows| ==> InsertFails(t, parents, rows, stop, now, n)
    decreases |rows| - i
  {
    if i == |rows| || InsertFails(t, parents, rows, stop, now, i) then i
    else InsertCount(t, parents, rows, stop, now, i + 1)
  }

  /** Equal up to the columns no conflict looks at. */
  ghost predicate SameNames(t: References, u: References) {
    && t.Keys == u.Keys
    && forall id :: id in t ==> t[id].uniqueName == u[id].uniqueName
  }

  lemma TakenByNames(t: References, u: References, r: Reference)
    requires SameNames(t, u)
    ensures Taken(t, r) == Taken(u, r)
  {
    assert forall id :: id in t <==> id in u;
  }

  lemma InsertByNames(t: References, u: References, r: Reference, now: int, later: int)
    requires SameNames(t, u)
    ensures SameNames(InsertOrIgnore(t, r, now), InsertOrIgnore(u, r, later))
  {
    TakenByNames(t, u, r);
  }

  lemma NoRows(t: References, now: int)
    ensures InsertAll(t, [], now) == t
  {}

  lemma InsertOneMore(t: References, rows: seq<Reference>, i: nat, now: int)
    requires i < |rows|
    ensures InsertAll(t, rows[..i + 1], now) == InsertOrIgnore(InsertAll(t, rows[..i], now), rows[i], now)
  {
    assert rows[..i + 1][..i] == rows[..i];
  }

  lemma PrefixAgain(t: References, rows: seq<Reference>, k: nat, now: int, later: int, i: nat)
    requires i <= k <= |rows|
    ensures var t' := InsertAll(t, rows[..k], now); InsertAll(t', rows[..i], later) == t'
  {
    hide InsertAll, Taken;
    InsertAllKeepsRows(t, rows[..k], now);
    assert forall r :: r in rows[..i] ==> r in rows[..k];
    NothingLeftToInsert(InsertAll(t, rows[..k], now), rows[..i], later);
  }

  /** After a first attempt that inserted `k` rows, a second one passes them
      over and goes on as the first would have. */
  lemma {:induction false} InsertResumes(t: References, rows: seq<Reference>, k: nat, now: int, later: int, i: nat)
    requires k <= |rows| && i <= |rows|
    ensures var t' := InsertAll(t, rows[..k], now);
            SameNames(InsertAll(t', rows[..i], later), InsertAll(t, rows[..if i < k then k else i], now))
    decreases i
  {
    hide InsertAll, InsertOrIgnore;
    var t' := InsertAll(t, rows[..k], now);
    if i <= k {
      PrefixAgain(t, rows, k, now, later, i);
    } else {
      hide SameNames;
      InsertResumes(t, rows, k, now, later, i - 1);
      InsertOneMore(t', rows, i - 1, later);
      InsertOneMore(t, rows, i - 1, now);
      InsertByNames(InsertAll(t', rows[..i - 1], later), InsertAll(t, rows[..i - 1], now), rows[i - 1], later, now);
    }
  }

  /** So its foreign-key failures are those of the first from row `k` on. */
  lemma OrphansAfterResume(t: References, parents: Option<set<string>>, rows: seq<Reference>, k: nat, now: int, later: int, i: nat)
    requires k <= |rows| && i < |rows|
    ensures var t' := InsertAll(t, rows[..k], now);
            Orphan(InsertAll(t', rows[..i], later), parents, rows[i]) <==>
            k <= i && Orphan(InsertAll(t, rows[..i], now), parents, rows[i])
  {
    var t' := InsertAll(t, rows[..k], now);
    InsertResumes(t, rows, k, now, later, i);
    if i < k {
      InsertAllKeepsRows(t, rows[..k], now);
      assert rows[i] in rows[..k];
      TakenByNames(InsertAll(t', rows[..i], later), t', rows[i]);
    } else {
      TakenByNames(InsertAll(t', rows[..i], later), InsertAll(t, rows[..i], now), rows[i]);
    }
  }

  // ---------------------------------------------------------------------
  // Channels: upsert that leaves the operator's columns alone
  // ---------------------------------------------------------------------

  /** The columns a seed owns. */
  datatype SeedColumns = SeedColumns(
    name: string, protocol: string, protocols: string, isBuiltin: bool,
    billingType: string, monthlyQuota: Option<nat>, quotaPolicy: string, priority: nat)

  /** The columns it only sets when it creates a row, or never. */
  datatype OwnColumns = OwnColumns(
    apiKey: string, enabled: bool, createdAt: int,
    forceProtocol: Option<string>, healthStatus: string, cooldownUntil: Option<string>, consecutiveFailures: nat)

  datatype ChannelRow = ChannelRow(own: OwnColumns, seed: SeedColumns, updatedAt: int)

  datatype SeedChannel = SeedChannel(id: string, apiKey: string, enabled: bool, columns: SeedColumns)

  type Channels = map<string, ChannelRow>

  function NewOwn(c: SeedChannel, now: int): OwnColumns {
    OwnColumns(c.apiKey, c.enabled, now, None, "Healthy", None, 0)
  }

  function UpsertChannel(t: Channels, c: SeedChannel, now: int): Channels {
    t[c.id := ChannelRow(if c.id in t then t[c.id].own else NewOwn(c, now), c.columns, now)]
  }

  function UpsertChannels(t: Channels, rows: seq<SeedChannel>, now: int): Channels {
    if rows == [] then t else UpsertChannel(UpsertChannels(t, rows[..|rows| - 1], now), rows[|rows| - 1], now)
  }

  ghost predicate Mentions(rows: seq<SeedChannel>, id: string) {
    exists c :: c in rows && c.id == id
  }

  /** The first and the last entry for an id: duplicates are allowed. */
  function FirstFor(rows: seq<SeedChannel>, id: string): (c: SeedChannel)
    requires Mentions(rows, id)
    ensures c in rows && c.id == id
  {
    var n := |rows| - 1;
    assert rows == rows[..n] + [rows[n]];
    if exists c :: c in rows[..n] && c.id == id then FirstFor(rows[..n], id) else rows[n]
  }

  function LastFor(rows: seq<SeedChannel>, id: string): (c: SeedChannel)
    requires Mentions(rows, id)
    ensures c in rows && c.id == id
  {
    var n := |rows| - 1;
    assert rows == rows[..n] + [rows[n]];
    if rows[n].id == id then rows[n] else LastFor(rows[..n], id)
  }

  lemma {:induction false} FirstForIsFirst(rows: seq<SeedChannel>, id: string) returns (i: nat)
    requires Mentions(rows, id)
    ensures i < |rows| && rows[i] == FirstFor(rows, id) && forall j :: 0 <= j < i ==> rows[j].id != id
  {
    var n := |rows| - 1;
    assert rows == rows[..n] + [rows[n]];
    if exists c :: c in rows[..n] && c.id == id {
      i := FirstForIsFirst(rows[..n], id);
      assert forall j :: 0 <= j < n ==> rows[j] == rows[..n][j];
    } else {
      i := n;
      assert forall j :: 0 <= j < n ==> rows[j] in rows[..n];
    }
  }

  lemma {:induction false} LastForIsLast(rows: seq<SeedChannel>, id: string) returns (i: nat)
    requires Mentions(rows, id)
    ensures i < |rows| && rows[i] == LastFor(rows, id) && forall j :: i < j < |rows| ==> rows[j].id != id
  {
    var n := |rows| - 1;
    assert rows == rows[..n] + [rows[n]];
    if rows[n].id == id {
      i := n;
    } else {
      i := LastForIsLast(rows[..n], id);
    }
  }

  /** The row an id ends up with: seed columns of its last entry; the other
      columns those it had, or for a new row those of its first entry. */
  lemma {:induction false} ChannelAfterUpserts(t: Channels, rows: seq<SeedChannel>, now: int, id: string)
    ensures var t' := UpsertChannels(t, rows, now);
            && (id in t' <==> id in t || Mentions(rows, id))
            && (!Mentions(rows, id) && id in t ==> t'[id] == t[id])
            && (Mentions(rows, id) ==>
                  t'[id] == ChannelRow(if id in t then t[id].own else NewOwn(FirstFor(rows, id), now),
                                       LastFor(rows, id).columns, now))
  {
    if rows != [] {
      var n := |rows| - 1;
      ChannelAfterUpserts(t, rows[..n], now, id);
      assert rows == rows[..n] + [rows[n]];
      assert Mentions(rows, id) <==> Mentions(rows[..n], id) || rows[n].id == id;
    }
  }

  /** A channel that is new has the key and enabled flag of its first entry and
      starts out healthy; its seed columns are its last entry's. */
  lemma NewChannelColumns(t: Channels, rows: seq<SeedChannel>, now: int, id: string)
    requires id !in t && Mentions(rows, id)
    ensures id in UpsertChannels(t, rows, now)
    ensures var row, first, last := UpsertChannels(t, rows, now)[id], FirstFor(rows, id), LastFor(rows, id);
            && row.own.apiKey == first.apiKey && row.own.enabled == first.enabled && row.own.createdAt == now
            && row.own.forceProtocol == None && row.own.healthStatus == "Healthy" && row.own.cooldownUntil == None
            && row.own.consecutiveFailures == 0
            && row.seed == last.columns && row.updatedAt == now
  {
    ChannelAfterUpserts(t, rows, now, id);
  }

  /** No seed ever deletes a channel or touches its key, enabled flag, forced
      protocol, creation time or health columns. */
  lemma {:induction false} OperatorColumnsSurvive(t: Channels, rows: seq<SeedChannel>, now: int, id: string)
    requires id in t
    ensures id in UpsertChannels(t, rows, now) && UpsertChannels(t, rows, now)[id].own == t[id].own
  {
    ChannelAfterUpserts(t, rows, now, id);
  }

  function Untimed(t: Channels): map<string, (OwnColumns, SeedColumns)> {
    map id | id in t :: (t[id].own, t[id].seed)
  }

  /** Applying a list twice equals applying it once, up to update times. */
  lemma UpsertChannelsIdempotent(t: Channels, rows: seq<SeedChannel>, now: int, later: int)
    ensures Untimed(UpsertChannels(UpsertChannels(t, rows, now), rows, later)) == Untimed(UpsertChannels(t, rows, now))
  {
    var once := UpsertChannels(t, rows, now);
    var twice := UpsertChannels(once, rows, later);
    forall id
      ensures id in twice <==> id in once
      ensures id in once ==> twice[id].own == once[id].own && twice[id].seed == once[id].seed
    {
      ChannelAfterUpserts(t, rows, now, id);
      ChannelAfterUpserts(once, rows, later, id);
    }
  }

  // ---------------------------------------------------------------------
  // Model mappings: every column is the seed's
  // ---------------------------------------------------------------------

  /** A mapping's columns, one of which refers to its channel. */
  datatype MappingRow = MappingRow(channelId: string, columns: string)

  datatype SeedMapping = SeedMapping(id: string, row: MappingRow)

  type Mappings = map<string, MappingRow>

  function UpsertMappings(t: Mappings, rows: seq<SeedMapping>): Mappings {
    if rows == [] then t
    else UpsertMappings(t, rows[..|rows| - 1])[rows[|rows| - 1].id := rows[|rows| - 1].row]
  }

  ghost predicate Maps(rows: seq<SeedMapping>, id: string) {
    exists m :: m in rows && m.id == id
  }

  /** The columns of the last entry for an id. */
  function LastRow(rows: seq<SeedMapping>, id: string): MappingRow
    requires Maps(rows, id)
  {
    var n := |rows| - 1;
    assert rows == rows[..n] + [rows[n]];
    if rows[n].id == id then rows[n].row else LastRow(rows[..n], id)
  }

  lemma {:induction false} LastRowIsLast(rows: seq<SeedMapping>, id: string) returns (i: nat)
    requires Maps(rows, id)
    ensures i < |rows| && rows[i] == SeedMapping(id, LastRow(rows, id))
    ensures forall j :: i < j < |rows| ==> rows[j].id != id
  {
    var n := |rows| - 1;
    assert rows == rows[..n] + [rows[n]];
    if rows[n].id == id {
      i := n;
    } else {
      i := LastRowIsLast(rows[..n], id);
    }
  }

  /** The row an id ends up with: its last entry's, or what was there. */
  lemma {:induction false} MappingAfterUpserts(t: Mappings, rows: seq<SeedMapping>, id: string)
    ensures var t' := UpsertMappings(t, rows);
            && (id in t' <==> id in t || Maps(rows, id))
            && (Maps(rows, id) ==> t'[id] == LastRow(rows, id))
            && (!Maps(rows, id) && id in t ==> t'[id] == t[id])
  {
    if rows != [] {
      var n := |rows| - 1;
      MappingAfterUpserts(t, rows[..n], id);
      assert rows == rows[..n] + [rows[n]];
      assert Maps(rows, id) <==> Maps(rows[..n], id) || rows[n].id == id;
    }
  }

  lemma UpsertMappingsIdempotent(t: Mappings, rows: seq<SeedMapping>)
    ensures UpsertMappings(UpsertMappings(t, rows), rows) == UpsertMappings(t, rows)
  {
    var once := UpsertMappings(t, rows);
    forall id
      ensures id in UpsertMappings(once, rows) <==> id in once
      ensures id in once ==> UpsertMappings(once, rows)[id] == once[id]
    {
      MappingAfterUpserts(t, rows, id);
      MappingAfterUpserts(once, rows, id);
    }
  }

  /** Some id ends up differently in the two lists. */
  ghost predicate Conflict(a: seq<SeedMapping>, b: seq<SeedMapping>) {
    exists id :: Maps(a, id) && Maps(b, id) && LastRow(a, id) != LastRow(b, id)
  }

  lemma {:induction false} UpsertMappingsAppend(t: Mappings, a: seq<SeedMapping>, b: seq<SeedMapping>)
    ensures UpsertMappings(t, a + b) == UpsertMappings(UpsertMappings(t, a), b)
  {
    if b == [] {
      assert a + b == a;
    } else {
      var n := |b| - 1;
      UpsertMappingsAppend(t, a, b[..n]);
      assert (a + b)[..|a| + n] == a + b[..n];
    }
  }

  /** Two lists can be applied in either order exactly when no id conflicts. */
  lemma UpsertsCommuteIff(t: Mappings, a: seq<SeedMapping>, b: seq<SeedMapping>)
    ensures UpsertMappings(t, a + b) == UpsertMappings(t, b + a) <==> !Conflict(a, b)
  {
    hide UpsertMappings, LastRow;
    var ab, ba := UpsertMappings(t, a + b), UpsertMappings(t, b + a);
    UpsertMappingsAppend(t, a, b);
    UpsertMappingsAppend(t, b, a);
    forall id
      ensures id in ab <==> id in ba
      ensures id in ab && !(Maps(a, id) && Maps(b, id)) ==> ab[id] == ba[id]
      ensures Maps(a, id) && Maps(b, id) ==> id in ab && ab[id] == LastRow(b, id) && ba[id] == LastRow(a, id)
    {
      MappingAfterUpserts(t, a, id);
      MappingAfterUpserts(t, b, id);
      MappingAfterUpserts(UpsertMappings(t, a), b, id);
      MappingAfterUpserts(UpsertMappings(t, b), a, id);
    }
    if !Conflict(a, b) {
      assert forall id :: id in ab ==> ab[id] == ba[id];
    }
  }

  /** The upsert of row `i` fails: for its foreign key, or otherwise. */
  predicate MappingFails(channels: set<string>, rows: seq<SeedMapping>, stop: Option<nat>, i: nat)
    requires i < |rows|
  {
    stop == Some(i) || rows[i].row.channelId !in channels
  }

  function MappingCount(channels: set<string>, rows: seq<SeedMapping>, stop: Option<nat>, i: nat): (n: nat)
    requires i <= |rows|
    ensures i <= n <= |rows|
    ensures forall j :: i <= j < n ==> !MappingFails(channels, rows, stop, j)
    ensures n < |rows| ==> MappingFails(channels, rows, stop, n)
    decreases |rows| - i
  {
    if i == |rows| || MappingFails(channels, rows, stop, i) then i else MappingCount(channels, rows, stop, i + 1)
  }

  /** Channels have no foreign key. */
  function ChannelCount(rows: seq<SeedChannel>, stop: Option<nat>): (n: nat)
    ensures n <= |rows|
    ensures n < |rows| <==> stop.Some? && stop.value < |rows|
    ensures n < |rows| ==> stop == Some(n)
  {
    if stop.Some? && stop.value < |rows| then stop.value else |rows|
  }

  // ---------------------------------------------------------------------
  // Foreign keys hold
  // ---------------------------------------------------------------------

  ghost predicate AllHaveParents(t: References, parents: set<string>) {
    forall id :: id in t ==> t[id].parent in parents
  }

  lemma {:induction false} InsertedHaveParents(t: References, parents: set<string>, rows: seq<Reference>, stop: Option<nat>, now: int, n: nat)
    requires AllHaveParents(t, parents) && n <= InsertCount(t, Some(parents), rows, stop, now, 0)
    ensures AllHaveParents(InsertAll(t, rows[..n], now), parents)
  {
    hide InsertAll, InsertCount, Taken;
    if n == 0 {
      NoRows(t, now);
    } else {
      InsertedHaveParents(t, parents, rows, stop, now, n - 1);
      InsertOneMore(t, rows, n - 1, now);
      assert !InsertFails(t, Some(parents), rows, stop, now, n - 1);
    }
  }

  ghost predicate AllHaveChannels(t: Mappings, channels: set<string>) {
    forall id :: id in t ==> t[id].channelId in channels
  }

  lemma {:induction false} MappedHaveChannels(t: Mappings, channels: set<string>, rows: seq<SeedMapping>, stop: Option<nat>, n: nat)
    requires AllHaveChannels(t, channels) && n <= MappingCount(channels, rows, stop, 0)
    ensures AllHaveChannels(UpsertMappings(t, rows[..n]), channels)
  {
    if n > 0 {
      MappedHaveChannels(t, channels, rows, stop, n - 1);
      assert rows[..n][..n - 1] == rows[..n - 1];
      assert !MappingFails(channels, rows, stop, n - 1);
    }
  }
}
