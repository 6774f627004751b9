/** Billing, quota and health types of the model router
    (crates/model-router/src/types.rs). Time is in ticks of a nanosecond. */
module ChannelTypes {
  import opened Common

  const SECOND: nat := 1_000_000_000
  const RATE_LIMIT_COOLDOWN: nat := 30 * SECOND
  const BASE_COOLDOWN: nat := 60 * SECOND

  // ---------------------------------------------------------------------
  // Billing and quota
  // ---------------------------------------------------------------------

  datatype Quota = Unlimited | MaxRequests(perMonth: nat) | MaxTokens(perMonth: nat)

  datatype ExhaustedAction = FallbackToMetered | Block

  datatype Billing =
    | Metered(pricingJson: string)
    | FlatFee(quota: Option<Quota>, onExhausted: ExhaustedAction)

  datatype Usage = Usage(requests: nat, tokens: nat, monthKey: nat)

  function NewUsage(month: nat): Usage {
    Usage(0, 0, month)
  }

  function MaybeReset(u: Usage, month: nat): Usage {
    if month != u.monthKey then NewUsage(month) else u
  }

  function AfterRecord(u: Usage, tokens: nat, month: nat): Usage {
    var current := MaybeReset(u, month);
    current.(requests := current.requests + 1, tokens := current.tokens + tokens)
  }

  /** The test looks at the counters only, never at the month they belong to. */
  predicate IsWithinQuota(u: Usage, quota: Option<Quota>) {
    match quota
    case None => true
    case Some(Unlimited) => true
    case Some(MaxRequests(n)) => u.requests < n
    case Some(MaxTokens(n)) => u.tokens < n
  }

  /** The four shapes of a quota, by the counters. */
  lemma WithinQuotaByCounters(u: Usage, limit: nat)
    ensures IsWithinQuota(u, None) && IsWithinQuota(u, Some(Unlimited))
    ensures IsWithinQuota(u, Some(MaxRequests(limit))) <==> u.requests < limit
    ensures IsWithinQuota(u, Some(MaxTokens(limit))) <==> u.tokens < limit
  {}

  class QuotaUsage {
    var requestsThisMonth: nat
    var tokensThisMonth: nat
    var monthKey: nat

    function View(): Usage
      reads this
    {
      Usage(requestsThisMonth, tokensThisMonth, monthKey)
    }

    constructor (month: nat)
      ensures View() == NewUsage(month)
    {
      requestsThisMonth, tokensThisMonth, monthKey := 0, 0, month;
    }

    method RecordUsage(tokens: nat, month: nat)
      modifies this
      ensures View() == AfterRecord(old(View()), tokens, month)
    {
      if month != monthKey {
        requestsThisMonth, tokensThisMonth, monthKey := 0, 0, month;
      }
      requestsThisMonth := requestsThisMonth + 1;
      tokensThisMonth := tokensThisMonth + tokens;
    }
  }

  // ---------------------------------------------------------------------
  // Health
  // ---------------------------------------------------------------------

  datatype Health = Healthy | Unhealthy

  datatype Standing = Standing(health: Health, failedAt: Option<nat>, failures: nat)

  const NewStanding := Standing(Healthy, None, 0)

  function ExponentialCooldown(failures: nat, base: nat): nat {
    if failures <= 1 then base else if failures == 2 then base * 5 else base * 15
  }

  function EffectiveCooldown(failures: nat): nat {
    if failures <= 1 then RATE_LIMIT_COOLDOWN else ExponentialCooldown(failures, BASE_COOLDOWN)
  }

  predicate IsTryable(s: Standing, now: nat) {
    || s.health == Healthy
    || s.failedAt == None
    || Elapsed(s.failedAt.value, now) >= EffectiveCooldown(s.failures)
  }

  datatype HealthEvent = Failure | Success | MarkUnhealthy | MarkRateLimited

  function AfterEvent(s: Standing, e: HealthEvent, now: nat): Standing {
    match e
    case Success => NewStanding
    case MarkUnhealthy => Standing(Unhealthy, Some(now), 3)
    case MarkRateLimited => Standing(Unhealthy, Some(now), 1)
    case Failure =>
      if s.failures + 1 >= 3
      then Standing(Unhealthy, Some(now), s.failures + 1)
      else s.(failures := s.failures + 1)
  }

  class ChannelState {
    var health: Health
    var failedAt: Option<nat>
    var consecutiveFailures: nat

    function View(): Standing
      reads this
    {
      Standing(health, failedAt, consecutiveFailures)
    }

    constructor ()
      ensures View() == NewStanding
    {
      health, failedAt, consecutiveFailures := Healthy, None, 0;
    }

    method RecordFailure(now: nat)
      modifies this
      ensures View() == AfterEvent(old(View()), Failure, now)
    {
      consecutiveFailures := consecutiveFailures + 1;
      if consecutiveFailures >= 3 {
        health := Unhealthy;
        failedAt := Some(now);
      }
    }

    method RecordSuccess()
      modifies this
      ensures View() == NewStanding
    {
      consecutiveFailures := 0;
      health := Healthy;
      failedAt := None;
    }

    method MarkUnhealthy(now: nat)
      modifies this
      ensures View() == AfterEvent(old(View()), HealthEvent.MarkUnhealthy, now)
    {
      consecutiveFailures := 3;
      health := Unhealthy;
      failedAt := Some(now);
    }

    method MarkRateLimited(now: nat)
      modifies this
      ensures View() == AfterEvent(old(View()), HealthEvent.MarkRateLimited, now)
    {
      consecutiveFailures := 1;
      health := Unhealthy;
      failedAt := Some(now);
    }

    method Apply(e: HealthEvent, now: nat)
      modifies this
      ensures View() == AfterEvent(old(View()), e, now)
    {
      match e {
        case MarkUnhealthy => MarkUnhealthy(now);
        case MarkRateLimited => MarkRateLimited(now);
        case Failure => RecordFailure(now);
        case Success => RecordSuccess();
      }
    }

    method IsTryablePastCooldown(now: nat) returns (ok: bool)
      ensures ok == IsTryable(View(), now)
    {
      match health {
        case Healthy => ok := true;
        case Unhealthy =>
          var effective := if consecutiveFailures <= 1 then RATE_LIMIT_COOLDOWN
                           else ExponentialCooldown(consecutiveFailures, BASE_COOLDOWN);
          ok := failedAt == None || Elapsed(failedAt.value, now) >= effective;
      }
    }
  }

  // ---------------------------------------------------------------------
  // Every reachable channel state
  // ---------------------------------------------------------------------

  datatype Timed = Timed(event: HealthEvent, at: nat)

  function Replay(h: seq<Timed>): Standing {
    if h == [] then NewStanding
    else AfterEvent(Replay(h[..|h| - 1]), h[|h| - 1].event, h[|h| - 1].at)
  }

  lemma {:induction false} ReachableStandings(h: seq<Timed>)
    ensures var s := Replay(h);
            && (s.health == Healthy ==> s.failedAt == None && s.failures <= 2)
            && (s.health == Unhealthy ==> s.failedAt.Some? && s.failures >= 1)
  {
    if h != [] {
      ReachableStandings(h[..|h| - 1]);
    }
  }

  /** Whether a history took the channel out of use: by a mark since the last
      success, or by three plain failures since then. */
  ghost predicate BlockedBy(since: Option<HealthEvent>, failures: nat) {
    match since
    case Some(MarkUnhealthy) => true
    case Some(MarkRateLimited) => true
    case _ => failures >= 3
  }

  /** The plain failures that end the history. */
  function Tail(h: seq<Timed>): nat {
    if h == [] || !h[|h| - 1].event.Failure? then 0 else 1 + Tail(h[..|h| - 1])
  }

  /** The event other than a plain failure that the history last saw. */
  function Since(h: seq<Timed>): Option<HealthEvent> {
    if h == [] then None
    else if h[|h| - 1].event.Failure? then Since(h[..|h| - 1])
    else Some(h[|h| - 1].event)
  }

  /** The failure count is the weight of the last other event (three for a
      server error, one for a rate limit, none for a success or a fresh start)
      plus the plain failures since; the channel is out of use exactly when
      that event or those failures blocked it. */
  lemma {:induction false} StandingByWeight(h: seq<Timed>)
    ensures var weight := (match Since(h) case Some(MarkUnhealthy) => 3 case Some(MarkRateLimited) => 1 case _ => 0) + Tail(h);
            && Replay(h).failures == weight
            && (Replay(h).health == Unhealthy <==> BlockedBy(Since(h), Tail(h)))
  {
    if h != [] {
      StandingByWeight(h[..|h| - 1]);
    }
  }

  /** How long an unhealthy channel is left alone: 30 seconds after one failure,
      5 minutes after two, 15 minutes after three or more. */
  lemma CooldownBySchedule(failures: nat, failedAt: nat, now: nat)
    requires failedAt <= now
    ensures IsTryable(Standing(Unhealthy, Some(failedAt), failures), now) <==>
            now - failedAt >= (if failures <= 1 then 30 else if failures == 2 then 300 else 900) * 1_000_000_000
  {}

  /** Once tryable, a channel stays tryable until the next event. */
  lemma {:induction false} TryableIsMonotone(s: Standing, now: nat, later: nat)
    requires now <= later && IsTryable(s, now)
    ensures IsTryable(s, later)
  {}
}
