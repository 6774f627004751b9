/** Channel selection stated declaratively: what the router promises to pick,
    without saying how (crates/model-router/src/lib.rs:253-388). */
module Selection {
  import opened Common
  import opened ChannelTypes
  import opened Protocols

  datatype Mapping = Mapping(
    id: string, clientName: string, upstreamName: string,
    billing: Billing, allowedProtocols: seq<string>)

  datatype Channel = Channel(
    id: string, name: string, apiKey: string, protocols: seq<ProtocolEntry>,
    enabled: bool, forceProtocol: Option<string>, priority: nat, mappings: seq<Mapping>)

  datatype Candidate = Candidate(channel: Channel, mapping: Mapping)

  /** What selection reads: the channel list, the key overrides, the health map
      (keyed by channel id) and the quota counters (keyed by mapping id). */
  datatype Snapshot = Snapshot(
    channels: seq<Channel>, keys: map<string, string>,
    health: map<string, Standing>, usage: map<string, Usage>)

  predicate HasApiKey(v: Snapshot, channelId: string) {
    if channelId in v.keys then v.keys[channelId] != ""
    else exists ch :: ch in v.channels && ch.id == channelId && ch.apiKey != ""
  }

  predicate IsHealthy(v: Snapshot, channelId: string, now: nat) {
    channelId in v.health ==> IsTryable(v.health[channelId], now)
  }

  predicate Usable(v: Snapshot, now: nat, c: Candidate) {
    HasApiKey(v, c.channel.id) && IsHealthy(v, c.channel.id, now)
  }

  function UsageOf(usage: map<string, Usage>, mappingId: string): Usage {
    if mappingId in usage then usage[mappingId] else NewUsage(0)
  }

  predicate Within(v: Snapshot, c: Candidate) {
    c.mapping.billing.FlatFee? ==> IsWithinQuota(UsageOf(v.usage, c.mapping.id), c.mapping.billing.quota)
  }

  /** A flat-fee candidate that settles the request: it can serve it, or it is
      exhausted and blocks it. */
  predicate Decisive(v: Snapshot, now: nat, c: Candidate) {
    && c.mapping.billing.FlatFee?
    && Usable(v, now, c)
    && (Within(v, c) || c.mapping.billing.onExhausted == Block)
  }

  predicate UsableMetered(v: Snapshot, now: nat, c: Candidate) {
    c.mapping.billing.Metered? && Usable(v, now, c)
  }

  /** Higher channel priority first, then list order. */
  predicate Ahead(cands: seq<Candidate>, i: nat, j: nat)
    requires i < |cands| && j < |cands|
  {
    || cands[i].channel.priority > cands[j].channel.priority
    || (cands[i].channel.priority == cands[j].channel.priority && i < j)
  }

  ghost predicate LeadsDecisive(v: Snapshot, now: nat, cands: seq<Candidate>, i: nat) {
    && i < |cands| && Decisive(v, now, cands[i])
    && forall j: nat :: j < |cands| && j != i && Decisive(v, now, cands[j]) ==> Ahead(cands, i, j)
  }

  ghost predicate LeadsMetered(v: Snapshot, now: nat, cands: seq<Candidate>, i: nat) {
    && i < |cands| && UsableMetered(v, now, cands[i])
    && forall j: nat :: j < |cands| && j != i && UsableMetered(v, now, cands[j]) ==> Ahead(cands, i, j)
  }

  ghost predicate FirstUsable(v: Snapshot, now: nat, cands: seq<Candidate>, i: nat) {
    && i < |cands| && Usable(v, now, cands[i])
    && forall j: nat :: j < i ==> !Usable(v, now, cands[j])
  }

  /** The selection, as an index into the candidates or a failure: the leading
      decisive flat-fee candidate settles it; without one the leading usable
      metered candidate serves; without one the first usable candidate. */
  ghost predicate Selects(v: Snapshot, now: nat, cands: seq<Candidate>, r: Option<nat>) {
    if exists i: nat :: LeadsDecisive(v, now, cands, i) then
      exists i: nat :: LeadsDecisive(v, now, cands, i) && r == if Within(v, cands[i]) then Some(i) else None
    else if exists i: nat :: LeadsMetered(v, now, cands, i) then
      r.Some? && LeadsMetered(v, now, cands, r.value)
    else if exists i: nat :: FirstUsable(v, now, cands, i) then
      r.Some? && FirstUsable(v, now, cands, r.value)
    else r == None
  }

  // ---------------------------------------------------------------------
  // The specification determines the choice, and says when there is none
  // ---------------------------------------------------------------------

  lemma {:induction false} SelectionIsUnique(v: Snapshot, now: nat, cands: seq<Candidate>, r: Option<nat>, r': Option<nat>)
    requires Selects(v, now, cands, r) && Selects(v, now, cands, r')
    ensures r == r'
  {
    hide Decisive, UsableMetered, Usable, Within;
  }

  lemma {:induction false} DecisiveLeaderExists(v: Snapshot, now: nat, cands: seq<Candidate>, n: nat) returns (i: nat)
    requires n <= |cands|
    requires exists j: nat :: j < n && Decisive(v, now, cands[j])
    ensures i < n && Decisive(v, now, cands[i])
    ensures forall j: nat :: j < n && j != i && Decisive(v, now, cands[j]) ==> Ahead(cands, i, j)
  {
    hide Decisive;
    i := n - 1;
    if exists j: nat :: j < n - 1 && Decisive(v, now, cands[j]) {
      var k := DecisiveLeaderExists(v, now, cands, n - 1);
      if !Decisive(v, now, cands[n - 1]) || Ahead(cands, k, n - 1) {
        i := k;
      }
    }
  }

  lemma {:induction false} MeteredLeaderExists(v: Snapshot, now: nat, cands: seq<Candidate>, n: nat) returns (i: nat)
    requires n <= |cands|
    requires exists j: nat :: j < n && UsableMetered(v, now, cands[j])
    ensures i < n && UsableMetered(v, now, cands[i])
    ensures forall j: nat :: j < n && j != i && UsableMetered(v, now, cands[j]) ==> Ahead(cands, i, j)
  {
    hide UsableMetered;
    i := n - 1;
    if exists j: nat :: j < n - 1 && UsableMetered(v, now, cands[j]) {
      var k := MeteredLeaderExists(v, now, cands, n - 1);
      if !UsableMetered(v, now, cands[n - 1]) || Ahead(cands, k, n - 1) {
        i := k;
      }
    }
  }

  lemma {:induction false} FirstUsableExists(v: Snapshot, now: nat, cands: seq<Candidate>, n: nat) returns (i: nat)
    requires n < |cands| && Usable(v, now, cands[n])
    ensures FirstUsable(v, now, cands, i)
  {
    hide Usable;
    i := n;
    if exists j: nat :: j < n && Usable(v, now, cands[j]) {
      var j: nat :| j < n && Usable(v, now, cands[j]);
      i := FirstUsableExists(v, now, cands, j);
    }
  }

  /** What can be chosen: always a candidate with a key and past its cooldown,
      and an exhausted one only as the last resort, when it falls back and no
      metered candidate is usable. */
  lemma ChosenCandidates(v: Snapshot, now: nat, cands: seq<Candidate>, i: nat)
    requires Selects(v, now, cands, Some(i))
    ensures i < |cands| && Usable(v, now, cands[i])
    ensures !Within(v, cands[i]) ==>
              && cands[i].mapping.billing.FlatFee?
              && cands[i].mapping.billing.onExhausted == FallbackToMetered
              && (forall j :: 0 <= j < |cands| ==> !UsableMetered(v, now, cands[j]))
              && (forall j :: 0 <= j < |cands| ==> !Decisive(v, now, cands[j]))
  {
    if !exists k: nat :: LeadsDecisive(v, now, cands, k) {
      if exists j: nat :: j < |cands| && Decisive(v, now, cands[j]) {
        var k := DecisiveLeaderExists(v, now, cands, |cands|);
        assert LeadsDecisive(v, now, cands, k);
      }
      if !exists k: nat :: LeadsMetered(v, now, cands, k) {
        if exists j: nat :: j < |cands| && UsableMetered(v, now, cands[j]) {
          var k := MeteredLeaderExists(v, now, cands, |cands|);
          assert LeadsMetered(v, now, cands, k);
        }
      }
    }
  }

  /** Selection fails exactly when no candidate is usable or the leading
      decisive candidate is an exhausted `Block` mapping. */
  lemma SelectionFailsIff(v: Snapshot, now: nat, cands: seq<Candidate>, r: Option<nat>)
    requires Selects(v, now, cands, r)
    ensures r == None <==>
            || (forall j :: 0 <= j < |cands| ==> !Usable(v, now, cands[j]))
            || (exists i: nat :: LeadsDecisive(v, now, cands, i) && !Within(v, cands[i]))
  {
    hide HasApiKey, IsHealthy, Within;
    if r == None {
      if exists j: nat :: j < |cands| && Usable(v, now, cands[j]) {
        var j: nat :| j < |cands| && Usable(v, now, cands[j]);
        var i := FirstUsableExists(v, now, cands, j);
      }
    } else if exists i: nat :: LeadsDecisive(v, now, cands, i) && !Within(v, cands[i]) {
      var i: nat :| LeadsDecisive(v, now, cands, i) && !Within(v, cands[i]);
      assert Selects(v, now, cands, None);
      SelectionIsUnique(v, now, cands, r, None);
    } else {
      ChosenCandidates(v, now, cands, r.value);
    }
  }

  // ---------------------------------------------------------------------
  // The same in terms of the counters
  // ---------------------------------------------------------------------

  /** The mapping's counter has reached its monthly limit, if it has one. */
  predicate Spent(v: Snapshot, c: Candidate) {
    match c.mapping.billing
    case FlatFee(Some(MaxRequests(limit)), _) =>
      limit <= if c.mapping.id in v.usage then v.usage[c.mapping.id].requests else 0
    case FlatFee(Some(MaxTokens(limit)), _) =>
      limit <= if c.mapping.id in v.usage then v.usage[c.mapping.id].tokens else 0
    case _ => false
  }

  /** A usable flat-fee candidate that can serve the request. */
  predicate Offers(v: Snapshot, now: nat, c: Candidate) {
    c.mapping.billing.FlatFee? && Usable(v, now, c) && !Spent(v, c)
  }

  /** A usable flat-fee candidate that is spent and blocks the request. */
  predicate Refuses(v: Snapshot, now: nat, c: Candidate) {
    c.mapping.billing.FlatFee? && Usable(v, now, c) && Spent(v, c) && c.mapping.billing.onExhausted == Block
  }

  /** The candidate is ahead of every other that offers or refuses. */
  ghost predicate LeadsFlat(v: Snapshot, now: nat, cands: seq<Candidate>, i: nat) {
    && i < |cands|
    && forall j: nat :: j < |cands| && j != i && (Offers(v, now, cands[j]) || Refuses(v, now, cands[j])) ==> Ahead(cands, i, j)
  }

  ghost predicate NoFlat(v: Snapshot, now: nat, cands: seq<Candidate>) {
    forall j: nat :: j < |cands| ==> !Offers(v, now, cands[j]) && !Refuses(v, now, cands[j])
  }

  /** What a caller is promised: a flat-fee candidate that leads all those that
      offer or refuse; without any of these the metered candidate that leads all
      usable ones; without these the first usable one, which is spent and falls
      back. Nothing when a refusing candidate leads, or none is usable. */
  ghost predicate Promised(v: Snapshot, now: nat, cands: seq<Candidate>, r: Option<nat>) {
    match r
    case None =>
      || (forall j: nat :: j < |cands| ==> !Usable(v, now, cands[j]))
      || (exists b: nat :: LeadsFlat(v, now, cands, b) && Refuses(v, now, cands[b]))
    case Some(i) =>
      && i < |cands| && Usable(v, now, cands[i])
      && (if Offers(v, now, cands[i]) then LeadsFlat(v, now, cands, i)
          else
            && NoFlat(v, now, cands)
            && (if cands[i].mapping.billing.Metered?
                then forall j: nat :: j < |cands| && j != i && cands[j].mapping.billing.Metered? && Usable(v, now, cands[j]) ==> Ahead(cands, i, j)
                else
                  && (forall j: nat :: j < |cands| && cands[j].mapping.billing.Metered? ==> !Usable(v, now, cands[j]))
                  && (forall j: nat :: j < i ==> !Usable(v, now, cands[j]))))
  }

  /** The selection is what is promised, and nothing else is. */
  lemma SelectsWhatIsPromised(v: Snapshot, now: nat, cands: seq<Candidate>, r: Option<nat>)
    ensures Selects(v, now, cands, r) <==> Promised(v, now, cands, r)
  {
    hide Decisive, Within, Usable, Spent, Ahead, UsableMetered, Offers, Refuses;
    forall i: nat | i < |cands|
      ensures Decisive(v, now, cands[i]) <==> Offers(v, now, cands[i]) || Refuses(v, now, cands[i])
      ensures Offers(v, now, cands[i]) <==> Decisive(v, now, cands[i]) && Within(v, cands[i])
      ensures Refuses(v, now, cands[i]) <==> Decisive(v, now, cands[i]) && !Within(v, cands[i])
      ensures UsableMetered(v, now, cands[i]) <==> cands[i].mapping.billing.Metered? && Usable(v, now, cands[i])
      ensures Decisive(v, now, cands[i]) ==> Usable(v, now, cands[i]) && cands[i].mapping.billing.FlatFee?
    {
      ByCounters(v, now, cands[i]);
    }
    if !NoFlat(v, now, cands) {
      var lead := DecisiveLeaderExists(v, now, cands, |cands|);
      assert LeadsDecisive(v, now, cands, lead);
      OneLeader(v, now, cands, lead);
    } else if exists j: nat :: j < |cands| && UsableMetered(v, now, cands[j]) {
      var lead := MeteredLeaderExists(v, now, cands, |cands|);
      assert LeadsMetered(v, now, cands, lead);
    } else if exists j: nat :: j < |cands| && Usable(v, now, cands[j]) {
      var j: nat :| j < |cands| && Usable(v, now, cands[j]);
      var first := FirstUsableExists(v, now, cands, j);
      assert FirstUsable(v, now, cands, first);
    }
  }

  lemma ByCounters(v: Snapshot, now: nat, c: Candidate)
    ensures Decisive(v, now, c) <==> Offers(v, now, c) || Refuses(v, now, c)
    ensures Offers(v, now, c) <==> Decisive(v, now, c) && Within(v, c)
    ensures Refuses(v, now, c) <==> Decisive(v, now, c) && !Within(v, c)
    ensures UsableMetered(v, now, c) <==> c.mapping.billing.Metered? && Usable(v, now, c)
    ensures Decisive(v, now, c) ==> Usable(v, now, c) && c.mapping.billing.FlatFee?
  {
    hide Usable;
  }

  lemma OneLeader(v: Snapshot, now: nat, cands: seq<Candidate>, lead: nat)
    requires LeadsDecisive(v, now, cands, lead)
    ensures forall i: nat :: LeadsDecisive(v, now, cands, i) <==> i == lead
  {
    hide Decisive;
  }

  /** A flat fee without a limit. */
  predicate Limitless(c: Candidate) {
    c.mapping.billing.FlatFee? && (c.mapping.billing.quota == None || c.mapping.billing.quota == Some(Unlimited))
  }

  /** Where a usable flat fee has no limit, nothing else is ever paid for: what
      is chosen is an unspent flat fee ahead of all of these, and a failure
      means that a spent blocking one is ahead of them all. */
  lemma LimitlessComesFirst(v: Snapshot, now: nat, cands: seq<Candidate>, r: Option<nat>, free: nat)
    requires Selects(v, now, cands, r)
    requires free < |cands| && Limitless(cands[free]) && Usable(v, now, cands[free])
    ensures r.Some? ==>
              && r.value < |cands| && cands[r.value].mapping.billing.FlatFee? && !Spent(v, cands[r.value])
              && (r.value == free || Ahead(cands, r.value, free))
    ensures r.None? ==>
              exists b: nat :: b < |cands| && Refuses(v, now, cands[b]) && Ahead(cands, b, free)
  {
    hide Selects, Usable;
    SelectsWhatIsPromised(v, now, cands, r);
    assert Offers(v, now, cands[free]);
  }
}
