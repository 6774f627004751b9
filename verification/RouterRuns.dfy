/** What routing guarantees over whole runs: monthly quotas under concurrent
    requests, and failover by channel health. */
module RouterRuns {
  import opened Common
  import opened ChannelTypes
  import opened Protocols
  import opened Selection
  import opened ModelRouter

  // ---------------------------------------------------------------------
  // One routed request
  // ---------------------------------------------------------------------

  ghost predicate DistinctIds(channels: seq<Channel>) {
    forall a, b :: a in channels && b in channels && a.id == b.id ==> a == b
  }

  /** The key in force: the operator's override, if there is one, even if empty. */
  function KeyInForce(v: Snapshot, ch: Channel): string {
    if ch.id in v.keys then v.keys[ch.id] else ch.apiKey
  }

  /** `routed` sends the request to the mapping of `c`, with the key in force,
      at the URL and path of the first entry of its channel for a protocol the
      mapping allows. */
  ghost predicate RoutesTo(v: Snapshot, routed: Routed, c: Candidate) {
    var name := ProtocolToStr(routed.config.protocol);
    && routed.config.name == c.channel.name
    && routed.mapping.channelId == c.channel.id && routed.mapping.mappingId == c.mapping.id
    && routed.mapping.isFlatFee == c.mapping.billing.FlatFee?
    && routed.mapping.upstreamName == c.mapping.upstreamName && routed.mapping.clientName == c.mapping.clientName
    && routed.config.apiKey == KeyInForce(v, c.channel)
    && (c.mapping.allowedProtocols == [] || name in c.mapping.allowedProtocols)
    && exists k: nat :: IsFirst(c.channel.protocols, [name], k)
                   && routed.config.url == c.channel.protocols[k].baseUrl != ""
                   && routed.config.rewritePath == c.channel.protocols[k].rewritePath
  }

  /** Whatever a request is routed to is a mapping for the requested model on an
      enabled channel that has a key and is past its cooldown; and where channel
      ids are distinct the key sent along is not empty. */
  lemma {:induction false} RoutedRequestIsSound(v: Snapshot, clientName: string, detected: Option<ApiFormat>, now: nat, routed: Routed)
    returns (c: Candidate)
    requires RequestOutcome(v, clientName, detected, now, Ok(routed))
    ensures c.channel in v.channels && c.channel.enabled
    ensures c.mapping in c.channel.mappings && c.mapping.clientName == clientName
    ensures Usable(v, now, c) && RoutesTo(v, routed, c)
    ensures DistinctIds(v.channels) ==> routed.config.apiKey != ""
  {
    hide Selects, CandidatesOf, RouteRequest, ProtocolToStr, IsFirst;
    var cands := CandidatesOf(v.channels, clientName);
    var choice: Option<nat> :|
      && Selects(v, now, cands, choice)
      && (choice.Some? ==> choice.value < |cands|)
      && Ok(routed) == match choice
              case None => Err(ChannelSelection(clientName))
              case Some(i) => RoutedTo(v, cands[i], detected);
    c := cands[choice.value];
    CandidatesExact(v.channels, clientName, c);
    ChosenCandidates(v, now, cands, choice.value);
    RoutingIsSound(c.channel.forceProtocol, detected, c.channel.protocols, c.mapping.allowedProtocols);
  }

  /** What a response touches: the health of the channel's name and, for a flat
      fee, the counter of its mapping, which grows by one request and the
      response's tokens; without a routed channel nothing. */
  lemma ResponseTouches(v: Snapshot, config: Option<ChannelConfig>, mapping: Option<MappingInfo>, status: nat, tokens: nat,
                        now: nat, month: nat)
    ensures var w := AfterResponse(v, config, mapping, status, tokens, now, month);
            && w.channels == v.channels && w.keys == v.keys
            && (config.None? || config.value.name == "" ==> w == v)
            && (forall key :: config.Some? && key != config.value.name ==> StandingOf(w.health, key) == StandingOf(v.health, key))
            && (mapping.None? || !mapping.value.isFlatFee ==> w.usage == v.usage)
            && (forall id :: mapping.Some? && id != mapping.value.mappingId ==> UsageOf(w.usage, id) == UsageOf(v.usage, id))
            && (config.Some? && config.value.name != "" && mapping.Some? && mapping.value.isFlatFee ==>
                  var id := mapping.value.mappingId;
                  && id in w.usage && w.usage[id].monthKey == month
                  && (id in v.usage && v.usage[id].monthKey == month ==>
                        && w.usage[id].requests == v.usage[id].requests + 1
                        && w.usage[id].tokens == v.usage[id].tokens + tokens)
                  && (id !in v.usage || v.usage[id].monthKey != month ==>
                        w.usage[id].requests == 1 && w.usage[id].tokens == tokens))
  {}

  // ---------------------------------------------------------------------
  // Quotas: select, record and abort are separate steps
  // ---------------------------------------------------------------------

  /** `inFlight` holds the mapping ids of flat-fee requests selected but not
      yet recorded. */
  datatype QuotaState = QuotaState(usage: map<string, Usage>, inFlight: multiset<string>)

  datatype QuotaStep =
    | Select(v: Snapshot, now: nat, cands: seq<Candidate>, choice: Option<nat>)
    | Record(mappingId: string, tokens: nat, month: nat)
    | Abort(aborted: string)

  function Started(step: QuotaStep): multiset<string>
    requires step.Select? && (step.choice.Some? ==> step.choice.value < |step.cands|)
  {
    if step.choice.Some? && step.cands[step.choice.value].mapping.billing.FlatFee?
    then multiset{step.cands[step.choice.value].mapping.id} else multiset{}
  }

  ghost predicate Next(s: QuotaState, step: QuotaStep, s': QuotaState) {
    match step
    case Select(v, now, cands, choice) =>
      && v.usage == s.usage
      && Selects(v, now, cands, choice)
      && (choice.Some? ==> choice.value < |cands|)
      && OnlyFreshCountersAdded(s.usage, s'.usage)
      && s'.inFlight == s.inFlight + Started(step)
    case Record(id, tokens, month) =>
      && id in s.inFlight
      && s'.usage == AfterUsage(s.usage, id, tokens, month)
      && s'.inFlight == s.inFlight - multiset{id}
    case Abort(id) =>
      && id in s.inFlight
      && s'.usage == s.usage
      && s'.inFlight == s.inFlight - multiset{id}
  }

  ghost predicate IsRun(states: seq<QuotaState>, steps: seq<QuotaStep>) {
    && |states| == |steps| + 1
    && forall i {:trigger steps[i]} :: 0 <= i < |steps| ==> Next(states[i], steps[i], states[i + 1])
  }

  /** Every candidate for mapping `m` carries `quota`, and an exhausted `m` is
      not wanted: it blocks, or some metered candidate is usable. */
  ghost predicate Guards(step: QuotaStep, m: string, quota: Quota) {
    step.Select? ==>
      forall c :: c in step.cands && c.mapping.id == m ==>
        && c.mapping.billing.FlatFee? && c.mapping.billing.quota == Some(quota)
        && (|| c.mapping.billing.onExhausted == Block
            || exists i :: 0 <= i < |step.cands| && UsableMetered(step.v, step.now, step.cands[i]))
  }

  ghost predicate Guarded(steps: seq<QuotaStep>, m: string, quota: Quota) {
    forall i :: 0 <= i < |steps| ==> Guards(steps[i], m, quota)
  }

  predicate Exhausted(s: QuotaState, m: string, quota: Quota) {
    !IsWithinQuota(UsageOf(s.usage, m), Some(quota))
  }

  /** A guarded selection starts a request on `m` only while `m` has quota. */
  lemma {:induction false} SelectionNeedsQuota(s: QuotaState, step: QuotaStep, s': QuotaState, m: string, quota: Quota)
    requires Next(s, step, s') && step.Select? && Guards(step, m, quota)
    ensures s'.inFlight[m] == s.inFlight[m] || (s'.inFlight[m] == s.inFlight[m] + 1 && !Exhausted(s, m, quota))
  {
    hide Selects;
    if step.choice.Some? {
      var c := step.cands[step.choice.value];
      assert c in step.cands;
      if c.mapping.id == m {
        ChosenCandidates(step.v, step.now, step.cands, step.choice.value);
        assert Within(step.v, c);
      }
    }
  }

  lemma FreshCountersCountNothing(before: map<string, Usage>, after: map<string, Usage>, m: string)
    requires OnlyFreshCountersAdded(before, after)
    ensures UsageOf(after, m).requests == UsageOf(before, m).requests
    ensures UsageOf(after, m).tokens == UsageOf(before, m).tokens
  {}

  /** One step keeps the request bound: a request in flight weighs as much as
      a recorded one. */
  lemma RequestBoundStep(s: QuotaState, step: QuotaStep, s': QuotaState, m: string, q: nat, k: nat)
    requires Next(s, step, s') && Guards(step, m, MaxRequests(q)) && q >= 1
    requires UsageOf(s.usage, m).requests + s.inFlight[m] <= q - 1 + k
    requires s.inFlight[m] <= k && s'.inFlight[m] <= k
    ensures UsageOf(s'.usage, m).requests + s'.inFlight[m] <= q - 1 + k
  {
    if step.Select? {
      SelectionNeedsQuota(s, step, s', m, MaxRequests(q));
      FreshCountersCountNothing(s.usage, s'.usage, m);
    }
  }

  /** A `MaxRequests` quota is overrun by less than the number of requests in
      flight, in every state of every run, across month changes. */
  lemma {:induction false} RequestQuotaHolds(states: seq<QuotaState>, steps: seq<QuotaStep>, m: string, q: nat, k: nat, n: nat)
    requires IsRun(states, steps) && Guarded(steps, m, MaxRequests(q)) && q >= 1
    requires states[0] == QuotaState(map[], multiset{})
    requires forall i :: 0 <= i < |states| ==> states[i].inFlight[m] <= k
    requires n < |states|
    ensures UsageOf(states[n].usage, m).requests + states[n].inFlight[m] <= q - 1 + k
    decreases n
  {
    if n > 0 {
      RequestQuotaHolds(states, steps, m, q, k, n - 1);
      assert Next(states[n - 1], steps[n - 1], states[n]);
      RequestBoundStep(states[n - 1], steps[n - 1], states[n], m, q, k);
    }
  }

  lemma TokenBoundStep(s: QuotaState, step: QuotaStep, s': QuotaState, m: string, q: nat, k: nat, most: nat)
    requires Next(s, step, s') && Guards(step, m, MaxTokens(q)) && q >= 1
    requires step.Record? && step.mappingId == m ==> step.tokens <= most
    requires UsageOf(s.usage, m).tokens + s.inFlight[m] * most <= q - 1 + k * most
    requires s.inFlight[m] <= k && s'.inFlight[m] <= k
    ensures UsageOf(s'.usage, m).tokens + s'.inFlight[m] * most <= q - 1 + k * most
  {
    if step.Select? {
      SelectionNeedsQuota(s, step, s', m, MaxTokens(q));
      FreshCountersCountNothing(s.usage, s'.usage, m);
      Weigh(s'.inFlight[m], k, most);
    } else {
      Weigh(s'.inFlight[m], s.inFlight[m], most);
      Weigh(s.inFlight[m], k, most);
      OneFewer(s.inFlight[m], most);
    }
  }

  lemma Weigh(a: nat, b: nat, most: nat)
    requires a <= b
    ensures a * most <= b * most
  {}

  lemma OneFewer(a: nat, most: nat)
    ensures (a - 1) * most == a * most - most
  {}

  /** With at most `most` tokens a response, a `MaxTokens` quota is overrun by
      less than what the requests in flight can still bring. */
  lemma {:induction false} TokenQuotaHolds(states: seq<QuotaState>, steps: seq<QuotaStep>, m: string, q: nat, k: nat, most: nat, n: nat)
    requires IsRun(states, steps) && Guarded(steps, m, MaxTokens(q)) && q >= 1
    requires states[0] == QuotaState(map[], multiset{})
    requires forall i :: 0 <= i < |states| ==> states[i].inFlight[m] <= k
    requires forall i :: 0 <= i < |steps| && steps[i].Record? && steps[i].mappingId == m ==> steps[i].tokens <= most
    requires n < |states|
    ensures UsageOf(states[n].usage, m).tokens + states[n].inFlight[m] * most <= q - 1 + k * most
    decreases n
  {
    if n > 0 {
      TokenQuotaHolds(states, steps, m, q, k, most, n - 1);
      assert Next(states[n - 1], steps[n - 1], states[n]);
      TokenBoundStep(states[n - 1], steps[n - 1], states[n], m, q, k, most);
    } else {
      Weigh(0, k, most);
    }
  }

  // ---------------------------------------------------------------------
  // What the counters count
  // ---------------------------------------------------------------------

  /** The step records a response for mapping `m`. */
  predicate Records(step: QuotaStep, m: string) {
    step.Record? && step.mappingId == m
  }

  /** The month of the last response recorded for `m`. */
  function LastMonth(steps: seq<QuotaStep>, m: string): Option<nat> {
    if steps == [] then None
    else if Records(steps[|steps| - 1], m) then Some(steps[|steps| - 1].month)
    else LastMonth(steps[..|steps| - 1], m)
  }

  /** The responses recorded for `m` since the last one of another month. */
  function RunLength(steps: seq<QuotaStep>, m: string, month: nat): nat {
    if steps == [] then 0
    else
      var front, last := steps[..|steps| - 1], steps[|steps| - 1];
      if !Records(last, m) then RunLength(front, m, month)
      else if last.month == month then RunLength(front, m, month) + 1
      else 0
  }

  function RunTokens(steps: seq<QuotaStep>, m: string, month: nat): nat {
    if steps == [] then 0
    else
      var front, last := steps[..|steps| - 1], steps[|steps| - 1];
      if !Records(last, m) then RunTokens(front, m, month)
      else if last.month == month then RunTokens(front, m, month) + last.tokens
      else 0
  }

  /** The counter of `m` says how many responses were recorded for it since the
      month last changed, and how many tokens these brought. */
  ghost predicate CountsRun(s: QuotaState, steps: seq<QuotaStep>, m: string) {
    match LastMonth(steps, m)
    case None => UsageOf(s.usage, m).requests == 0 && UsageOf(s.usage, m).tokens == 0
    case Some(month) =>
      && m in s.usage && s.usage[m].monthKey == month
      && s.usage[m].requests == RunLength(steps, m, month)
      && s.usage[m].tokens == RunTokens(steps, m, month)
  }

  lemma NoRunOfOtherMonth(steps: seq<QuotaStep>, m: string, month: nat)
    ensures LastMonth(steps, m) != Some(month) ==> RunLength(steps, m, month) == 0 && RunTokens(steps, m, month) == 0
  {}

  lemma {:induction false} CountersCountResponses(states: seq<QuotaState>, steps: seq<QuotaStep>, m: string, n: nat)
    requires IsRun(states, steps) && states[0] == QuotaState(map[], multiset{}) && n < |states|
    ensures CountsRun(states[n], steps[..n], m)
    decreases n
  {
    if n > 0 {
      var s, step, s' := states[n - 1], steps[n - 1], states[n];
      CountersCountResponses(states, steps, m, n - 1);
      assert Next(s, step, s');
      assert steps[..n][..n - 1] == steps[..n - 1];
      if step.Select? {
        FreshCountersCountNothing(s.usage, s'.usage, m);
      } else if Records(step, m) {
        NoRunOfOtherMonth(steps[..n - 1], m, step.month);
      }
    }
  }

  /** All responses recorded for `m` in a month. */
  function InMonth(steps: seq<QuotaStep>, m: string, month: nat): nat {
    if steps == [] then 0
    else
      var front, last := steps[..|steps| - 1], steps[|steps| - 1];
      InMonth(front, m, month) + (if Records(last, m) && last.month == month then 1 else 0)
  }

  function TokensInMonth(steps: seq<QuotaStep>, m: string, month: nat): nat {
    if steps == [] then 0
    else
      var front, last := steps[..|steps| - 1], steps[|steps| - 1];
      TokensInMonth(front, m, month) + (if Records(last, m) && last.month == month then last.tokens else 0)
  }

  /** Months only go forward. */
  ghost predicate Chronological(steps: seq<QuotaStep>, m: string) {
    forall i, j :: 0 <= i <= j < |steps| && Records(steps[i], m) && Records(steps[j], m) ==> steps[i].month <= steps[j].month
  }

  /** A month's responses are one run. */
  lemma {:induction false} MonthIsRun(steps: seq<QuotaStep>, m: string, month: nat)
    requires Chronological(steps, m)
    ensures LastMonth(steps, m).None? ==> InMonth(steps, m, month) == 0 && TokensInMonth(steps, m, month) == 0
    ensures LastMonth(steps, m).Some? && LastMonth(steps, m).value < month ==>
              InMonth(steps, m, month) == 0 && TokensInMonth(steps, m, month) == 0
    ensures LastMonth(steps, m) == Some(month) ==>
              && InMonth(steps, m, month) == RunLength(steps, m, month)
              && TokensInMonth(steps, m, month) == RunTokens(steps, m, month)
    ensures forall i :: 0 <= i < |steps| && Records(steps[i], m) ==>
              LastMonth(steps, m).Some? && steps[i].month <= LastMonth(steps, m).value
  {
    if steps != [] {
      var n := |steps| - 1;
      var front, last := steps[..n], steps[n];
      assert forall i :: 0 <= i < n ==> front[i] == steps[i];
      MonthIsRun(front, m, month);
      NoRunOfOtherMonth(front, m, month);
      if Records(last, m) && LastMonth(front, m).Some? {
        var i := LastRecord(front, m);
        assert steps[i].month <= steps[n].month;
      }
    }
  }

  lemma {:induction false} LastRecord(steps: seq<QuotaStep>, m: string) returns (i: nat)
    requires LastMonth(steps, m).Some?
    ensures i < |steps| && Records(steps[i], m) && LastMonth(steps, m) == Some(steps[i].month)
  {
    var n := |steps| - 1;
    if Records(steps[n], m) {
      i := n;
    } else {
      i := LastRecord(steps[..n], m);
    }
  }

  /** The monthly quota as a promise on responses: over any run with at most `k`
      requests in flight, no month sees more than Q - 1 + k of them recorded
      for a guarded mapping. */
  lemma {:induction false} MonthlyResponsesBounded(states: seq<QuotaState>, steps: seq<QuotaStep>, m: string, q: nat, k: nat,
                                                   month: nat, n: nat)
    requires IsRun(states, steps) && Guarded(steps, m, MaxRequests(q)) && q >= 1
    requires states[0] == QuotaState(map[], multiset{}) && Chronological(steps, m)
    requires forall i :: 0 <= i < |states| ==> states[i].inFlight[m] <= k
    requires n < |states|
    ensures InMonth(steps[..n], m, month) <= q - 1 + k
    decreases n
  {
    hide Guarded, Next;
    if n > 0 {
      MonthlyResponsesBounded(states, steps, m, q, k, month, n - 1);
      assert steps[..n][..n - 1] == steps[..n - 1];
      RequestQuotaHolds(states, steps, m, q, k, n);
      CountersCountResponses(states, steps, m, n);
      assert Chronological(steps[..n], m);
      MonthIsRun(steps[..n], m, month);
    }
  }

  lemma {:induction false} MonthlyTokensBounded(states: seq<QuotaState>, steps: seq<QuotaStep>, m: string, q: nat, k: nat,
                                                most: nat, month: nat, n: nat)
    requires IsRun(states, steps) && Guarded(steps, m, MaxTokens(q)) && q >= 1
    requires states[0] == QuotaState(map[], multiset{}) && Chronological(steps, m)
    requires forall i :: 0 <= i < |states| ==> states[i].inFlight[m] <= k
    requires forall i :: 0 <= i < |steps| && steps[i].Record? && steps[i].mappingId == m ==> steps[i].tokens <= most
    requires n < |states|
    ensures TokensInMonth(steps[..n], m, month) <= q - 1 + k * most
    decreases n
  {
    hide Guarded, Next;
    Weigh(0, k, most);
    if n > 0 {
      MonthlyTokensBounded(states, steps, m, q, k, most, month, n - 1);
      assert steps[..n][..n - 1] == steps[..n - 1];
      TokenQuotaHolds(states, steps, m, q, k, most, n);
      Weigh(0, states[n].inFlight[m], most);
      CountersCountResponses(states, steps, m, n);
      assert Chronological(steps[..n], m);
      MonthIsRun(steps[..n], m, month);
    }
  }

  /** A quota is called monthly, but only a recorded response resets it: once
      exhausted with nothing in flight, a guarded mapping is never selected
      again, whatever months go by. */
  lemma {:induction false} ExhaustedStaysExhausted(states: seq<QuotaState>, steps: seq<QuotaStep>, m: string, quota: Quota, n: nat)
    requires IsRun(states, steps) && Guarded(steps, m, quota) && n < |states|
    requires Exhausted(states[0], m, quota) && states[0].inFlight[m] == 0
    ensures Exhausted(states[n], m, quota) && states[n].inFlight[m] == 0
    decreases n
  {
    if n > 0 {
      ExhaustedStaysExhausted(states, steps, m, quota, n - 1);
      var s, step, s' := states[n - 1], steps[n - 1], states[n];
      assert Next(s, step, s');
      if step.Select? {
        SelectionNeedsQuota(s, step, s', m, quota);
        FreshCountersCountNothing(s.usage, s'.usage, m);
      }
    }
  }

  /** What does bring an exhausted mapping back: a response still in flight
      that is recorded in another month and does not use up the new quota. */
  lemma {:induction false} LateResponseResets(s: QuotaState, s': QuotaState, m: string, quota: Quota, tokens: nat, month: nat)
    requires Next(s, Record(m, tokens, month), s') && m in s.usage && Exhausted(s, m, quota)
    ensures !Exhausted(s', m, quota) <==>
            && month != s.usage[m].monthKey
            && (match quota case MaxRequests(q) => 1 < q case MaxTokens(q) => tokens < q case Unlimited => true)
  {}

  // ---------------------------------------------------------------------
  // Health: the map refines the latest signal for each key
  // ---------------------------------------------------------------------

  /** Responses mark a channel's name; admin probes mark or clear an id. */
  datatype Signal =
    | Answer(key: string, status: nat, at: nat)
    | Probe(key: string, healthy: bool, at: nat)

  function HealthRun(h: seq<Signal>): map<string, Standing> {
    if h == [] then map[]
    else
      var before, last := HealthRun(h[..|h| - 1]), h[|h| - 1];
      match last
      case Answer(key, status, at) => AfterStatus(before, key, status, at)
      case Probe(key, true, _) => before - {key}
      case Probe(key, false, at) => AfterMark(before, key, MarkUnhealthy, at)
  }

  /** When the latest decisive signal for `key` lets it be tried again: after 15
      minutes for a server error, a 401 or a failed probe, after 30 seconds for
      a 429, at once for a success. Other client errors decide nothing. */
  function BlockedUntil(h: seq<Signal>, key: string): nat {
    if h == [] then 0
    else
      var last := h[|h| - 1];
      if last.key != key then BlockedUntil(h[..|h| - 1], key)
      else match last
        case Answer(_, status, at) =>
          if 500 <= status <= 599 || status == 401 then at + 900 * SECOND
          else if status == 429 then at + 30 * SECOND
          else if 400 <= status <= 499 then BlockedUntil(h[..|h| - 1], key)
          else 0
        case Probe(_, healthy, at) => if healthy then 0 else at + 900 * SECOND
  }

  /** A key is tryable exactly from the moment its latest signal allows it,
      and at every later time. */
  lemma {:induction false} HealthIsLatestSignal(h: seq<Signal>, key: string, now: nat)
    requires forall i :: 0 <= i < |h| ==> h[i].at <= now
    ensures var s := StandingOf(HealthRun(h), key);
            && (IsTryable(s, now) <==> BlockedUntil(h, key) <= now)
            && (s.failures == 0 || s.failures == 1 || s.failures == 3)
  {
    if h != [] {
      HealthIsLatestSignal(h[..|h| - 1], key, now);
    }
  }

  /** Failover: whatever selection picks is past the block of the latest
      signal for its channel id. So, where names equal ids, a channel that
      answered 5xx or 401 is not used for 15 minutes (429: 30 seconds). */
  lemma {:induction false} SelectedChannelsAreNotBlocked(h: seq<Signal>, v: Snapshot, now: nat, cands: seq<Candidate>, i: nat)
    requires v.health == HealthRun(h) && (forall j :: 0 <= j < |h| ==> h[j].at <= now)
    requires Selects(v, now, cands, Some(i))
    ensures i < |cands| && BlockedUntil(h, cands[i].channel.id) <= now
  {
    ChosenCandidates(v, now, cands, i);
    HealthIsLatestSignal(h, cands[i].channel.id, now);
  }

  /** A keyed candidate whose block has passed is usable again. */
  lemma UnblockedMeansUsable(h: seq<Signal>, v: Snapshot, now: nat, c: Candidate)
    requires v.health == HealthRun(h) && (forall j :: 0 <= j < |h| ==> h[j].at <= now)
    ensures Usable(v, now, c) <==> HasApiKey(v, c.channel.id) && BlockedUntil(h, c.channel.id) <= now
  {
    HealthIsLatestSignal(h, c.channel.id, now);
  }

  /** Where channel ids are distinct, usable means: the key in force is not empty
      and the block of the latest signal has passed. */
  lemma UsableIff(h: seq<Signal>, v: Snapshot, now: nat, c: Candidate)
    requires v.health == HealthRun(h) && (forall j :: 0 <= j < |h| ==> h[j].at <= now)
    requires DistinctIds(v.channels) && c.channel in v.channels
    ensures Usable(v, now, c) <==> KeyInForce(v, c.channel) != "" && BlockedUntil(h, c.channel.id) <= now
  {
    UnblockedMeansUsable(h, v, now, c);
  }

  /** Responses are charged to the channel's name, selection asks for its id.
      A server error takes a healthy channel out of selection exactly when the
      two are equal: otherwise failover never happens. */
  lemma {:induction false} FailoverIffNameIsId(v: Snapshot, c: Candidate, config: ChannelConfig, mapping: Option<MappingInfo>,
                            status: nat, tokens: nat, at: nat, month: nat, now: nat)
    requires config.name == c.channel.name != ""
    requires 500 <= status <= 599 || status == 401
    requires IsHealthy(v, c.channel.id, at) && at <= now < at + 900 * SECOND
    ensures !IsHealthy(AfterResponse(v, Some(config), mapping, status, tokens, at, month), c.channel.id, now)
            <==> c.channel.name == c.channel.id
  {}
}
