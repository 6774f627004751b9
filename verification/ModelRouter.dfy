/** The model-routing middleware and the shared maps it updates
    (crates/model-router/src/lib.rs). */
module ModelRouter {
  import opened Common
  import opened ChannelTypes
  import opened Protocols
  import opened Selection

  // ---------------------------------------------------------------------
  // The shared maps
  // ---------------------------------------------------------------------

  /** Channel health, created on the first failure. */
  class HealthMap {
    var states: map<string, ChannelState>

    ghost predicate Valid()
      reads this
    {
      forall c, d :: c in states && d in states && c != d ==> states[c] != states[d]
    }

    ghost function View(): map<string, Standing>
      reads this, states.Values
    {
      map c | c in states :: states[c].View()
    }

    constructor ()
      ensures Valid() && View() == map[]
    {
      states := map[];
    }

    method Entry(key: string) returns (s: ChannelState)
      requires Valid()
      modifies this
      ensures Valid() && key in states && states[key] == s
      ensures fresh(states.Values - old(states.Values))
      ensures View() == old(View())[key := StandingOf(old(View()), key)]
      ensures s.View() == StandingOf(old(View()), key)
      ensures forall d :: d in states && d != key ==> states[d] != s
    {
      if key !in states {
        var created := new ChannelState();
        states := states[key := created];
      }
      s := states[key];
      assert s.View() == View()[key];
    }

    method Mark(key: string, e: HealthEvent, now: nat)
      requires Valid() && e != Success
      modifies this, states.Values
      ensures Valid() && fresh(states.Values - old(states.Values))
      ensures View() == AfterMark(old(View()), key, e, now)
    {
      var s := Entry(key);
      s.Apply(e, now);
      assert View() == AfterMark(old(View()), key, e, now);
    }

    method MarkHealthy(key: string)
      requires Valid()
      modifies states.Values
      ensures Valid() && states == old(states)
      ensures View() == AfterMark(old(View()), key, Success, 0)
    {
      if key in states {
        states[key].RecordSuccess();
      }
      assert View() == AfterMark(old(View()), key, Success, 0);
    }
  }

  function StandingOf(health: map<string, Standing>, key: string): Standing {
    if key in health then health[key] else NewStanding
  }

  /** A success never creates an entry. */
  function AfterMark(health: map<string, Standing>, key: string, e: HealthEvent, now: nat): map<string, Standing> {
    if e == Success && key !in health then health
    else health[key := AfterEvent(StandingOf(health, key), e, now)]
  }

  /** Monthly quota counters, created on first look. */
  class QuotaMap {
    var usages: map<string, QuotaUsage>

    ghost predicate Valid()
      reads this
    {
      forall c, d :: c in usages && d in usages && c != d ==> usages[c] != usages[d]
    }

    ghost function View(): map<string, Usage>
      reads this, usages.Values
    {
      map c | c in usages :: usages[c].View()
    }

    constructor ()
      ensures Valid() && View() == map[]
    {
      usages := map[];
    }

    method Entry(key: string, month: nat) returns (u: QuotaUsage)
      requires Valid()
      modifies this
      ensures Valid() && key in usages && usages[key] == u
      ensures fresh(usages.Values - old(usages.Values))
      ensures View() == WithEntry(old(View()), key, month)
      ensures u.View() == WithEntry(old(View()), key, month)[key]
      ensures forall d :: d in usages && d != key ==> usages[d] != u
    {
      if key !in usages {
        var created := new QuotaUsage(month);
        usages := usages[key := created];
      }
      u := usages[key];
      assert u.View() == View()[key];
    }

    method Record(key: string, tokens: nat, month: nat)
      requires Valid()
      modifies this, usages.Values
      ensures Valid() && fresh(usages.Values - old(usages.Values))
      ensures View() == AfterUsage(old(View()), key, tokens, month)
    {
      var u := Entry(key, month);
      u.RecordUsage(tokens, month);
      assert View() == AfterUsage(old(View()), key, tokens, month);
    }
  }

  function WithEntry(usage: map<string, Usage>, key: string, month: nat): map<string, Usage> {
    if key in usage then usage else usage[key := NewUsage(month)]
  }

  function AfterUsage(usage: map<string, Usage>, key: string, tokens: nat, month: nat): map<string, Usage> {
    var u := WithEntry(usage, key, month);
    u[key := AfterRecord(u[key], tokens, month)]
  }

  /** `after` is `before` with fresh counters added: nothing a reader of the
      quotas could tell apart. */
  ghost predicate OnlyFreshCountersAdded(before: map<string, Usage>, after: map<string, Usage>) {
    && (forall k :: k in before ==> k in after && after[k] == before[k])
    && (forall k :: k in after && k !in before ==> after[k] == NewUsage(after[k].monthKey))
  }

  // ---------------------------------------------------------------------
  // Candidates and their order
  // ---------------------------------------------------------------------

  /** All mappings of enabled channels for a client model, in list order. */
  function CandidatesOf(channels: seq<Channel>, clientName: string): seq<Candidate> {
    if channels == [] then []
    else
      var n := |channels| - 1;
      var front := CandidatesOf(channels[..n], clientName);
      if channels[n].enabled then front + MatchesOf(channels[n], channels[n].mappings, clientName) else front
  }

  function MatchesOf(ch: Channel, mappings: seq<Mapping>, clientName: string): seq<Candidate> {
    if mappings == [] then []
    else
      var n := |mappings| - 1;
      var front := MatchesOf(ch, mappings[..n], clientName);
      if mappings[n].clientName == clientName then front + [Candidate(ch, mappings[n])] else front
  }

  method FindCandidates(channels: seq<Channel>, clientName: string) returns (cands: seq<Candidate>)
    ensures cands == CandidatesOf(channels, clientName)
  {
    cands := [];
    for c := 0 to |channels|
      invariant cands == CandidatesOf(channels[..c], clientName)
    {
      var ch := channels[c];
      assert channels[..c + 1][..c] == channels[..c];
      if ch.enabled {
        ghost var before := cands;
        for k := 0 to |ch.mappings|
          invariant cands == before + MatchesOf(ch, ch.mappings[..k], clientName)
        {
          assert ch.mappings[..k + 1][..k] == ch.mappings[..k];
          if ch.mappings[k].clientName == clientName {
            cands := cands + [Candidate(ch, ch.mappings[k])];
          }
        }
        assert ch.mappings[..|ch.mappings|] == ch.mappings;
      }
    }
    assert channels[..|channels|] == channels;
  }

  /** A candidate is exactly a mapping for the model on an enabled channel. */
  lemma {:induction false} CandidatesExact(channels: seq<Channel>, clientName: string, c: Candidate)
    ensures c in CandidatesOf(channels, clientName) <==>
            && c.channel in channels && c.channel.enabled
            && c.mapping in c.channel.mappings && c.mapping.clientName == clientName
  {
    if channels != [] {
      var n := |channels| - 1;
      CandidatesExact(channels[..n], clientName, c);
      MatchesExact(channels[n], channels[n].mappings, clientName, c);
      assert channels == channels[..n] + [channels[n]];
    }
  }

  lemma {:induction false} MatchesExact(ch: Channel, mappings: seq<Mapping>, clientName: string, c: Candidate)
    ensures c in MatchesOf(ch, mappings, clientName) <==>
            c.channel == ch && c.mapping in mappings && c.mapping.clientName == clientName
  {
    if mappings != [] {
      var n := |mappings| - 1;
      MatchesExact(ch, mappings[..n], clientName, c);
      assert mappings == mappings[..n] + [mappings[n]];
    }
  }

  /** And in mapping order within a channel, one for each mapping for the model. */
  lemma {:induction false} MatchesInListOrder(ch: Channel, a: seq<Mapping>, b: seq<Mapping>, clientName: string)
    ensures MatchesOf(ch, a + b, clientName) == MatchesOf(ch, a, clientName) + MatchesOf(ch, b, clientName)
    ensures |b| == 1 ==> MatchesOf(ch, b, clientName) == if b[0].clientName == clientName then [Candidate(ch, b[0])] else []
  {
    if b == [] {
      assert a + b == a;
    } else {
      var n := |b| - 1;
      MatchesInListOrder(ch, a, b[..n], clientName);
      assert (a + b)[..|a| + n] == a + b[..n];
    }
  }

  /** Candidates stand in list order: those of a list of channels are those of
      its first part, then those of the rest. */
  lemma {:induction false} CandidatesInListOrder(a: seq<Channel>, b: seq<Channel>, clientName: string)
    ensures CandidatesOf(a + b, clientName) == CandidatesOf(a, clientName) + CandidatesOf(b, clientName)
  {
    hide MatchesOf, CandidatesOf;
    if b == [] {
      assert a + b == a;
      OneMoreChannel([], clientName);
    } else {
      var n := |b| - 1;
      CandidatesInListOrder(a, b[..n], clientName);
      assert (a + b)[..|a| + n] == a + b[..n];
      OneMoreChannel(a + b, clientName);
      OneMoreChannel(b, clientName);
    }
  }

  lemma OneMoreChannel(channels: seq<Channel>, clientName: string)
    ensures channels == [] ==> CandidatesOf(channels, clientName) == []
    ensures channels != [] ==>
              var n := |channels| - 1;
              CandidatesOf(channels, clientName) ==
              CandidatesOf(channels[..n], clientName)
              + (if channels[n].enabled then MatchesOf(channels[n], channels[n].mappings, clientName) else [])
  {}

  ghost predicate Ascending(idx: seq<nat>) {
    forall a, b :: 0 <= a < b < |idx| ==> idx[a] < idx[b]
  }

  ghost predicate Indices(cands: seq<Candidate>, idx: seq<nat>) {
    forall a :: 0 <= a < |idx| ==> idx[a] < |cands|
  }

  ghost predicate InOrder(cands: seq<Candidate>, idx: seq<nat>) {
    && Indices(cands, idx)
    && (forall a, b :: 0 <= a < b < |idx| ==> Ahead(cands, idx[a], idx[b]))
  }

  /** The indices of the flat-fee (or of the metered) candidates, in list order. */
  method Partition(cands: seq<Candidate>) returns (flat: seq<nat>, metered: seq<nat>)
    ensures Ascending(flat) && Indices(cands, flat)
    ensures Ascending(metered) && Indices(cands, metered)
    ensures forall i: nat :: i in flat <==> i < |cands| && cands[i].mapping.billing.FlatFee?
    ensures forall i: nat :: i in metered <==> i < |cands| && cands[i].mapping.billing.Metered?
  {
    flat, metered := [], [];
    for i := 0 to |cands|
      invariant Ascending(flat) && Ascending(metered)
      invariant forall a :: 0 <= a < |flat| ==> flat[a] < i
      invariant forall a :: 0 <= a < |metered| ==> metered[a] < i
      invariant forall k: nat :: k in flat <==> k < i && cands[k].mapping.billing.FlatFee?
      invariant forall k: nat :: k in metered <==> k < i && cands[k].mapping.billing.Metered?
    {
      if cands[i].mapping.billing.FlatFee? {
        flat := flat + [i];
      } else {
        metered := metered + [i];
      }
    }
  }

  /** A stable insertion: after every candidate of the same or higher priority. */
  function Insert(cands: seq<Candidate>, idx: seq<nat>, i: nat): (r: seq<nat>)
    requires i < |cands| && Indices(cands, idx)
    ensures Indices(cands, r) && forall k :: k in r <==> k == i || k in idx
  {
    if idx == [] then [i]
    else
      var n := |idx| - 1;
      assert idx == idx[..n] + [idx[n]];
      if cands[idx[n]].channel.priority >= cands[i].channel.priority
      then idx + [i]
      else Insert(cands, idx[..n], i) + [idx[n]]
  }

  lemma {:induction false} InsertKeepsOrder(cands: seq<Candidate>, idx: seq<nat>, i: nat)
    requires InOrder(cands, idx) && i < |cands|
    requires forall a :: 0 <= a < |idx| ==> idx[a] < i
    ensures InOrder(cands, Insert(cands, idx, i))
  {
    if idx != [] {
      var n := |idx| - 1;
      if cands[idx[n]].channel.priority >= cands[i].channel.priority {
        forall a | 0 <= a < |idx| ensures Ahead(cands, idx[a], i) {
          assert a < n ==> Ahead(cands, idx[a], idx[n]);
        }
        SnocInOrder(cands, idx, i);
      } else {
        InsertKeepsOrder(cands, idx[..n], i);
        var r := Insert(cands, idx[..n], i);
        InsertedBefore(cands, idx, i, r);
        SnocInOrder(cands, r, idx[n]);
      }
    }
  }

  lemma SnocInOrder(cands: seq<Candidate>, idx: seq<nat>, last: nat)
    requires InOrder(cands, idx) && last < |cands|
    requires forall a :: 0 <= a < |idx| ==> idx[a] < |cands| && Ahead(cands, idx[a], last)
    ensures InOrder(cands, idx + [last])
  {
    hide Ahead;
  }

  /** What stands before the last candidate still does when a candidate of
      higher priority joins it. */
  lemma InsertedBefore(cands: seq<Candidate>, idx: seq<nat>, i: nat, r: seq<nat>)
    requires InOrder(cands, idx) && idx != [] && i < |cands| && Indices(cands, r)
    requires Ahead(cands, i, idx[|idx| - 1])
    requires forall k :: k in r ==> k == i || k in idx[..|idx| - 1]
    ensures forall a :: 0 <= a < |r| ==> Ahead(cands, r[a], idx[|idx| - 1])
  {
    hide Ahead;
    var n := |idx| - 1;
    forall a | 0 <= a < |r|
      ensures Ahead(cands, r[a], idx[n])
    {
      assert r[a] in r;
      if r[a] != i {
        var b :| 0 <= b < n && idx[b] == r[a];
      }
    }
  }

  /** The stable sort by descending channel priority. */
  function ByPriority(cands: seq<Candidate>, idx: seq<nat>): (r: seq<nat>)
    requires Indices(cands, idx)
    ensures Indices(cands, r) && forall k :: k in r <==> k in idx
  {
    if idx == [] then []
    else
      var n := |idx| - 1;
      assert idx == idx[..n] + [idx[n]];
      Insert(cands, ByPriority(cands, idx[..n]), idx[n])
  }

  lemma {:induction false} ByPriorityOrders(cands: seq<Candidate>, idx: seq<nat>)
    requires Ascending(idx) && Indices(cands, idx)
    ensures InOrder(cands, ByPriority(cands, idx))
  {
    if idx != [] {
      var n := |idx| - 1;
      ByPriorityOrders(cands, idx[..n]);
      var sorted := ByPriority(cands, idx[..n]);
      forall a | 0 <= a < |sorted|
        ensures sorted[a] < idx[n]
      {
        assert sorted[a] in idx[..n];
      }
      InsertKeepsOrder(cands, sorted, idx[n]);
    }
  }

  // ---------------------------------------------------------------------
  // The middleware
  // ---------------------------------------------------------------------

  datatype Failure =
    | BadRequest
    | ChannelSelection(model: string)
    | Routing(error: RouteError)

  datatype ChannelConfig = ChannelConfig(
    url: string, apiKey: string, protocol: ApiFormat, name: string, rewritePath: Option<string>)

  datatype MappingInfo = MappingInfo(
    channelId: string, mappingId: string, clientName: string, upstreamName: string, isFlatFee: bool)

  datatype Routed = Routed(config: ChannelConfig, mapping: MappingInfo)

  /** The verdict of a response status on the channel that gave it; a client
      error other than 401 and 429 is not the channel's fault. */
  function Verdict(status: nat): Option<HealthEvent> {
    if 500 <= status <= 599 || status == 401 then Some(MarkUnhealthy)
    else if 400 <= status <= 499 && status != 429 then None
    else if status == 429 then Some(MarkRateLimited)
    else Some(Success)
  }

  function AfterStatus(health: map<string, Standing>, key: string, status: nat, now: nat): map<string, Standing> {
    match Verdict(status)
    case None => health
    case Some(e) => AfterMark(health, key, e, now)
  }

  /** What a request to `c` is routed to. */
  function RoutedTo(v: Snapshot, c: Candidate, detected: Option<ApiFormat>): Result<Routed, Failure> {
    match RouteRequest(c.channel.forceProtocol, detected, c.channel.protocols, c.mapping.allowedProtocols)
    case Err(e) => Err(Routing(e))
    case Ok(route) =>
      var key := if c.channel.id in v.keys then v.keys[c.channel.id] else c.channel.apiKey;
      Ok(Routed(
           ChannelConfig(route.url, key, route.target, c.channel.name, route.rewritePath),
           MappingInfo(c.channel.id, c.mapping.id, c.mapping.clientName, c.mapping.upstreamName,
                       c.mapping.billing.FlatFee?)))
  }

  class Router {
    var channels: seq<Channel>
    var channelApiKeys: map<string, string>
    const health: HealthMap
    const quotaUsage: QuotaMap

    ghost predicate Valid()
      reads this, health, quotaUsage
    {
      health.Valid() && quotaUsage.Valid()
    }

    ghost function View(): Snapshot
      reads this, health, health.states.Values, quotaUsage, quotaUsage.usages.Values
    {
      Snapshot(channels, channelApiKeys, health.View(), quotaUsage.View())
    }

    constructor (channels: seq<Channel>, keys: map<string, string>)
      ensures Valid() && View() == Snapshot(channels, keys, map[], map[])
    {
      this.channels := channels;
      this.channelApiKeys := keys;
      this.health := new HealthMap();
      this.quotaUsage := new QuotaMap();
    }

    method HasKey(channelId: string) returns (b: bool)
      ensures b == HasApiKey(View(), channelId)
    {
      if channelId in channelApiKeys {
        return channelApiKeys[channelId] != "";
      }
      b := exists ch :: ch in channels && ch.id == channelId && ch.apiKey != "";
    }

    method IsUsable(c: Candidate, now: nat) returns (b: bool)
      ensures b == Usable(View(), now, c)
    {
      b := HasKey(c.channel.id);
      if b && c.channel.id in health.states {
        assert health.View()[c.channel.id] == health.states[c.channel.id].View();
        b := health.states[c.channel.id].IsTryablePastCooldown(now);
      }
    }

    /** One flat-fee candidate: `Some` outcome when it settles the request. */
    method TryFlatFee(c: Candidate, now: nat, month: nat) returns (settled: bool, within: bool)
      requires Valid() && c.mapping.billing.FlatFee?
      modifies quotaUsage
      ensures Valid() && fresh(quotaUsage.usages.Values - old(quotaUsage.usages.Values))
      ensures OnlyFreshCountersAdded(old(View()).usage, View().usage)
      ensures View() == old(View()).(usage := View().usage)
      ensures settled == Decisive(old(View()), now, c)
      ensures settled ==> within == Within(old(View()), c)
    {
      var usable := IsUsable(c, now);
      if !usable {
        return false, false;
      }
      var u := quotaUsage.Entry(c.mapping.id, month);
      within := IsWithinQuota(u.View(), c.mapping.billing.quota);
      settled := within || c.mapping.billing.onExhausted == Block;
    }

    /** The first pass stops at the first decisive position `k`, if any, with
        the outcome `r`. It creates the quota counters it looks at. */
    method FlatFeePass(cands: seq<Candidate>, flat: seq<nat>, now: nat, month: nat) returns (k: nat, r: Option<nat>)
      requires Valid() && Indices(cands, flat)
      requires forall a :: 0 <= a < |flat| ==> cands[flat[a]].mapping.billing.FlatFee?
      modifies quotaUsage
      ensures Valid() && fresh(quotaUsage.usages.Values - old(quotaUsage.usages.Values))
      ensures OnlyFreshCountersAdded(old(View()).usage, View().usage)
      ensures View() == old(View()).(usage := View().usage)
      ensures k <= |flat| && forall a :: 0 <= a < k ==> !Decisive(old(View()), now, cands[flat[a]])
      ensures k < |flat| ==> && Decisive(old(View()), now, cands[flat[k]])
                             && r == if Within(old(View()), cands[flat[k]]) then Some(flat[k]) else None
    {
      hide Decisive, Within;
      ghost var v := View();
      k, r := 0, None;
      while k < |flat|
        invariant Valid() && fresh(quotaUsage.usages.Values - old(quotaUsage.usages.Values))
        invariant OnlyFreshCountersAdded(v.usage, View().usage)
        invariant View() == v.(usage := View().usage)
        invariant k <= |flat| && forall a :: 0 <= a < k ==> !Decisive(v, now, cands[flat[a]])
      {
        FreshCountersInvisible(v, View(), now, cands[flat[k]]);
        ghost var before := View().usage;
        var settled, within := TryFlatFee(cands[flat[k]], now, month);
        FreshCountersCompose(v.usage, before, View().usage);
        if settled {
          return k, if within then Some(flat[k]) else None;
        }
        k := k + 1;
      }
    }

    method MeteredPass(cands: seq<Candidate>, metered: seq<nat>, now: nat) returns (k: nat)
      requires Valid() && Indices(cands, metered)
      requires forall a :: 0 <= a < |metered| ==> cands[metered[a]].mapping.billing.Metered?
      ensures k <= |metered| && forall a :: 0 <= a < k ==> !UsableMetered(View(), now, cands[metered[a]])
      ensures k < |metered| ==> UsableMetered(View(), now, cands[metered[k]])
    {
      k := 0;
      while k < |metered|
        invariant k <= |metered| && forall a :: 0 <= a < k ==> !UsableMetered(View(), now, cands[metered[a]])
      {
        var usable := IsUsable(cands[metered[k]], now);
        if usable {
          return;
        }
        k := k + 1;
      }
    }

    method LastResortPass(cands: seq<Candidate>, now: nat) returns (r: Option<nat>)
      requires Valid()
      ensures r.None? ==> forall a :: 0 <= a < |cands| ==> !Usable(View(), now, cands[a])
      ensures r.Some? ==> FirstUsable(View(), now, cands, r.value)
    {
      for i := 0 to |cands|
        invariant forall a :: 0 <= a < i ==> !Usable(View(), now, cands[a])
      {
        var usable := IsUsable(cands[i], now);
        if usable {
          return Some(i);
        }
      }
      r := None;
    }

    /** The second and third passes, when no flat-fee candidate settled it. */
    method SelectBeyondFlatFee(cands: seq<Candidate>, metered: seq<nat>, now: nat) returns (r: Option<nat>)
      requires Valid() && InOrder(cands, metered)
      requires forall i: nat :: i in metered <==> i < |cands| && cands[i].mapping.billing.Metered?
      requires forall i: nat :: !LeadsDecisive(View(), now, cands, i)
      ensures Selects(View(), now, cands, r)
    {
      hide Usable, UsableMetered, LeadsDecisive, Ahead;
      assert forall a :: 0 <= a < |metered| ==> metered[a] in metered;
      var k := MeteredPass(cands, metered, now);
      if k < |metered| {
        MeteredFound(View(), now, cands, metered, k);
        return Some(metered[k]);
      }
      NoneMetered(View(), now, cands, metered);
      r := LastResortPass(cands, now);
    }

    /** The three passes, over candidates partitioned by billing and stably
        sorted by priority, pick what the declarative selection says. */
    method SelectChannel(cands: seq<Candidate>, now: nat, month: nat) returns (r: Option<nat>)
      requires Valid()
      modifies quotaUsage
      ensures Valid() && fresh(quotaUsage.usages.Values - old(quotaUsage.usages.Values))
      ensures Selects(old(View()), now, cands, r)
      ensures OnlyFreshCountersAdded(old(View()).usage, View().usage)
      ensures View() == old(View()).(usage := View().usage)
    {
      hide Decisive, Within, Selects, LeadsDecisive, Ascending, OnlyFreshCountersAdded, Ahead, ByPriority;
      ghost var v := View();
      var flat, metered := Partition(cands);
      ByPriorityOrders(cands, flat);
      ByPriorityOrders(cands, metered);
      flat, metered := ByPriority(cands, flat), ByPriority(cands, metered);
      assert forall a :: 0 <= a < |flat| ==> flat[a] in flat;

      var k, outcome := FlatFeePass(cands, flat, now, month);
      if k < |flat| {
        DecisiveFound(v, now, cands, flat, k, outcome);
        return outcome;
      }
      NoneDecisive(v, now, cands, flat);
      SelectionSameWithFreshCounters(v, View(), now, cands);
      r := SelectBeyondFlatFee(cands, metered, now);
    }

    method OnRequest(clientName: string, detected: Option<ApiFormat>, now: nat, month: nat)
      returns (r: Result<Routed, Failure>)
      requires Valid()
      modifies quotaUsage
      ensures Valid() && fresh(quotaUsage.usages.Values - old(quotaUsage.usages.Values))
      ensures RequestOutcome(old(View()), clientName, detected, now, r)
      ensures OnlyFreshCountersAdded(old(View()).usage, View().usage)
      ensures View() == old(View()).(usage := View().usage)
    {
      hide Selects, RoutedTo, CandidatesOf, OnlyFreshCountersAdded, RequestOutcome;
      ghost var v := View();
      NothingAdded(v.usage);
      if clientName == "" {
        Unanswerable(v, clientName, detected, now);
        return Err(BadRequest);
      }
      var cands := FindCandidates(channels, clientName);
      if cands == [] {
        NoCandidates(v, now);
        Answered(v, clientName, detected, now, None);
        return Err(ChannelSelection(clientName));
      }
      var choice := SelectChannel(cands, now, month);
      SelectionInRange(v, now, cands, choice);
      Answered(v, clientName, detected, now, choice);
      match choice {
        case None => r := Err(ChannelSelection(clientName));
        case Some(i) =>
          var routed := Resolve(cands[i], detected);
          SameRouting(v, View(), cands[i], detected);
          r := routed;
      }
    }

    method Resolve(c: Candidate, detected: Option<ApiFormat>) returns (r: Result<Routed, Failure>)
      ensures r == RoutedTo(View(), c, detected)
    {
      var route := RouteRequest(c.channel.forceProtocol, detected, c.channel.protocols, c.mapping.allowedProtocols);
      match route {
        case Err(e) => r := Err(Routing(e));
        case Ok(route) =>
          var key := if c.channel.id in channelApiKeys then channelApiKeys[c.channel.id] else c.channel.apiKey;
          r := Ok(Routed(
                    ChannelConfig(route.url, key, route.target, c.channel.name, route.rewritePath),
                    MappingInfo(c.channel.id, c.mapping.id, c.mapping.clientName, c.mapping.upstreamName,
                                c.mapping.billing.FlatFee?)));
      }
    }

    /** Quota is counted for the mapping, health for the channel's *name*. */
    method OnResponse(config: Option<ChannelConfig>, mapping: Option<MappingInfo>, status: nat, tokens: nat,
                      now: nat, month: nat)
      requires Valid()
      modifies health, health.states.Values, quotaUsage, quotaUsage.usages.Values
      ensures Valid()
      ensures fresh(health.states.Values - old(health.states.Values))
      ensures fresh(quotaUsage.usages.Values - old(quotaUsage.usages.Values))
      ensures View() == AfterResponse(old(View()), config, mapping, status, tokens, now, month)
    {
      hide AfterUsage, AfterStatus;
      if config.None? || config.value.name == "" {
        return;
      }
      var key := config.value.name;
      if mapping.Some? && mapping.value.isFlatFee {
        quotaUsage.Record(mapping.value.mappingId, tokens, month);
      }
      MarkStatus(key, status, now);
    }

    method MarkStatus(key: string, status: nat, now: nat)
      requires Valid()
      modifies health, health.states.Values
      ensures Valid() && fresh(health.states.Values - old(health.states.Values))
      ensures View() == old(View()).(health := AfterStatus(old(View()).health, key, status, now))
    {
      hide AfterMark;
      SuccessIsTimeless(health.View(), key, now);
      if 500 <= status <= 599 || status == 401 {
        health.Mark(key, MarkUnhealthy, now);
      } else if 400 <= status <= 499 && status != 429 {
      } else if status == 429 {
        health.Mark(key, MarkRateLimited, now);
      } else {
        health.MarkHealthy(key);
      }
    }
  }

  /** What a request may lead to: the chosen candidate's routing, or a failure. */
  ghost predicate RequestOutcome(v: Snapshot, clientName: string, detected: Option<ApiFormat>, now: nat,
                                 r: Result<Routed, Failure>)
  {
    if clientName == "" then r == Err(BadRequest)
    else
      var cands := CandidatesOf(v.channels, clientName);
      exists choice: Option<nat> ::
        && Selects(v, now, cands, choice)
        && (choice.Some? ==> choice.value < |cands|)
        && r == match choice
                case None => Err(ChannelSelection(clientName))
                case Some(i) => RoutedTo(v, cands[i], detected)
  }

  function AfterResponse(v: Snapshot, config: Option<ChannelConfig>, mapping: Option<MappingInfo>, status: nat,
                         tokens: nat, now: nat, month: nat): Snapshot
  {
    if config.None? || config.value.name == "" then v
    else v.(
         usage := if mapping.Some? && mapping.value.isFlatFee
                  then AfterUsage(v.usage, mapping.value.mappingId, tokens, month) else v.usage,
         health := AfterStatus(v.health, config.value.name, status, now))
  }

  lemma NothingAdded(usage: map<string, Usage>)
    ensures OnlyFreshCountersAdded(usage, usage)
  {}

  lemma Unanswerable(v: Snapshot, clientName: string, detected: Option<ApiFormat>, now: nat)
    requires clientName == ""
    ensures RequestOutcome(v, clientName, detected, now, Err(BadRequest))
  {}

  lemma Answered(v: Snapshot, clientName: string, detected: Option<ApiFormat>, now: nat, choice: Option<nat>)
    requires clientName != "" && Selects(v, now, CandidatesOf(v.channels, clientName), choice)
    requires choice.Some? ==> choice.value < |CandidatesOf(v.channels, clientName)|
    ensures RequestOutcome(v, clientName, detected, now,
                           match choice
                           case None => Err(ChannelSelection(clientName))
                           case Some(i) => RoutedTo(v, CandidatesOf(v.channels, clientName)[i], detected))
  {
    hide Selects, RoutedTo, CandidatesOf;
  }

  lemma SuccessIsTimeless(health: map<string, Standing>, key: string, now: nat)
    ensures AfterMark(health, key, Success, now) == AfterMark(health, key, Success, 0)
  {}

  lemma NoCandidates(v: Snapshot, now: nat)
    ensures Selects(v, now, [], None)
  {}

  lemma SelectionInRange(v: Snapshot, now: nat, cands: seq<Candidate>, choice: Option<nat>)
    requires Selects(v, now, cands, choice)
    ensures choice.Some? ==> choice.value < |cands|
  {}

  lemma SameRouting(v: Snapshot, w: Snapshot, c: Candidate, detected: Option<ApiFormat>)
    requires w == v.(usage := w.usage)
    ensures RoutedTo(v, c, detected) == RoutedTo(w, c, detected)
  {}

  /** A reader of the quotas cannot tell a missing counter from a fresh one. */
  lemma SelectionSameWithFreshCounters(v: Snapshot, w: Snapshot, now: nat, cands: seq<Candidate>)
    requires w == v.(usage := w.usage) && OnlyFreshCountersAdded(v.usage, w.usage)
    ensures forall i: nat :: LeadsDecisive(v, now, cands, i) == LeadsDecisive(w, now, cands, i)
    ensures forall r :: Selects(v, now, cands, r) == Selects(w, now, cands, r)
  {
    forall c
      ensures Decisive(v, now, c) == Decisive(w, now, c) && Within(v, c) == Within(w, c)
      ensures Usable(v, now, c) == Usable(w, now, c) && UsableMetered(v, now, c) == UsableMetered(w, now, c)
    {
      FreshCountersInvisible(v, w, now, c);
    }
    hide Decisive, Within, Usable, UsableMetered, Ahead, OnlyFreshCountersAdded;
    forall i: nat
      ensures LeadsDecisive(v, now, cands, i) == LeadsDecisive(w, now, cands, i)
      ensures LeadsMetered(v, now, cands, i) == LeadsMetered(w, now, cands, i)
      ensures FirstUsable(v, now, cands, i) == FirstUsable(w, now, cands, i)
    {}
    hide LeadsDecisive, LeadsMetered, FirstUsable;
  }

  lemma FreshCountersCompose(a: map<string, Usage>, b: map<string, Usage>, c: map<string, Usage>)
    requires OnlyFreshCountersAdded(a, b) && OnlyFreshCountersAdded(b, c)
    ensures OnlyFreshCountersAdded(a, c)
  {}

  lemma FreshCountersInvisible(v: Snapshot, w: Snapshot, now: nat, c: Candidate)
    requires w == v.(usage := w.usage) && OnlyFreshCountersAdded(v.usage, w.usage)
    ensures Decisive(v, now, c) == Decisive(w, now, c) && Within(v, c) == Within(w, c)
    ensures Usable(v, now, c) == Usable(w, now, c) && UsableMetered(v, now, c) == UsableMetered(w, now, c)
  {}

  lemma DecisiveFound(v: Snapshot, now: nat, cands: seq<Candidate>, flat: seq<nat>, k: nat, r: Option<nat>)
    requires forall i: nat :: i in flat <==> i < |cands| && cands[i].mapping.billing.FlatFee?
    requires InOrder(cands, flat) && k < |flat| && Decisive(v, now, cands[flat[k]])
    requires forall a :: 0 <= a < k ==> !Decisive(v, now, cands[flat[a]])
    requires r == if Within(v, cands[flat[k]]) then Some(flat[k]) else None
    ensures Selects(v, now, cands, r)
  {
    hide Within, Usable;
    forall j: nat | j < |cands| && j != flat[k] && Decisive(v, now, cands[j])
      ensures Ahead(cands, flat[k], j)
    {
      assert j in flat;
      var a :| 0 <= a < |flat| && flat[a] == j;
      assert a > k;
    }
    assert LeadsDecisive(v, now, cands, flat[k]);
  }

  lemma NoneDecisive(v: Snapshot, now: nat, cands: seq<Candidate>, flat: seq<nat>)
    requires forall i: nat :: i in flat <==> i < |cands| && cands[i].mapping.billing.FlatFee?
    requires InOrder(cands, flat)
    requires forall a :: 0 <= a < |flat| ==> !Decisive(v, now, cands[flat[a]])
    ensures forall i: nat :: !LeadsDecisive(v, now, cands, i)
  {
    forall i: nat | i < |cands| && cands[i].mapping.billing.FlatFee?
      ensures !Decisive(v, now, cands[i])
    {
      assert i in flat;
    }
  }

  lemma MeteredFound(v: Snapshot, now: nat, cands: seq<Candidate>, metered: seq<nat>, k: nat)
    requires forall i: nat :: i in metered <==> i < |cands| && cands[i].mapping.billing.Metered?
    requires InOrder(cands, metered) && k < |metered| && UsableMetered(v, now, cands[metered[k]])
    requires forall a :: 0 <= a < k ==> !UsableMetered(v, now, cands[metered[a]])
    ensures LeadsMetered(v, now, cands, metered[k])
  {
    hide Usable;
    forall j: nat | j < |cands| && j != metered[k] && UsableMetered(v, now, cands[j])
      ensures Ahead(cands, metered[k], j)
    {
      assert j in metered;
      var a :| 0 <= a < |metered| && metered[a] == j;
      assert a > k;
    }
  }

  lemma NoneMetered(v: Snapshot, now: nat, cands: seq<Candidate>, metered: seq<nat>)
    requires forall i: nat :: i in metered <==> i < |cands| && cands[i].mapping.billing.Metered?
    requires InOrder(cands, metered)
    requires forall a :: 0 <= a < |metered| ==> !UsableMetered(v, now, cands[metered[a]])
    ensures forall i: nat :: !LeadsMetered(v, now, cands, i)
  {
    forall i: nat | i < |cands| && cands[i].mapping.billing.Metered?
      ensures !UsableMetered(v, now, cands[i])
    {
      assert i in metered;
    }
  }
}
