/** What the circuit breaker guarantees over whole runs. */
module CircuitBreakerRuns {
  import opened Common
  import opened CircuitBreaker

  function Run(cfg: Config, h: seq<Event>): Circuits {
    if h == [] then map[] else Step(Run(cfg, h[..|h| - 1]), cfg, h[|h| - 1])
  }

  predicate Monotone(h: seq<Event>) {
    forall i, j :: 0 <= i <= j < |h| ==> h[i].at <= h[j].at
  }

  // ---------------------------------------------------------------------
  // The history predicate
  // ---------------------------------------------------------------------

  predicate IsResponse(e: Event, channel: string) {
    e.Response? && e.channel == channel
  }

  /** The length of the run of 5xx and 429 responses that ends the history of
      `channel`, whatever requests and other channels' events lie between. */
  function TrailingFailures(h: seq<Event>, channel: string): nat {
    if h == [] then 0
    else
      var (front, last) := (h[..|h| - 1], h[|h| - 1]);
      if !IsResponse(last, channel) then TrailingFailures(front, channel)
      else if 500 <= last.status <= 599 || last.status == 429 then TrailingFailures(front, channel) + 1
      else 0
  }

  function LastResponseAt(h: seq<Event>, channel: string): nat {
    if h == [] then 0
    else
      var (front, last) := (h[..|h| - 1], h[|h| - 1]);
      if IsResponse(last, channel) then last.at else LastResponseAt(front, channel)
  }

  /** Whether a request has come since the channel's last response, a cooldown or
      more after it. */
  predicate Probed(h: seq<Event>, channel: string, cooldown: nat) {
    h != []
    && var (front, last) := (h[..|h| - 1], h[|h| - 1]);
       if last.channel != channel then Probed(front, channel, cooldown)
       else if last.Response? then false
       else Probed(front, channel, cooldown) || Elapsed(LastResponseAt(front, channel), last.at) >= cooldown
  }

  /** A zero threshold trips on the first failure, like a threshold of one. */
  function Trip(cfg: Config): nat {
    if cfg.failureThreshold == 0 then 1 else cfg.failureThreshold
  }

  predicate Tripped(cfg: Config, h: seq<Event>, channel: string, now: nat) {
    && TrailingFailures(h, channel) >= Trip(cfg)
    && Elapsed(LastResponseAt(h, channel), now) < cfg.cooldown
  }

  /** How a circuit stands for the history that led to it; `clock` is the time
      of the latest event. */
  ghost predicate Represents(c: Circuit, cfg: Config, failures: nat, last: nat, clock: nat, probed: bool) {
    && c.failureCount == failures
    && (failures < Trip(cfg) ==> c.state == Closed && c.openedAt == None)
    && (failures >= Trip(cfg) ==>
          && c.state == (if probed then HalfOpen else Open)
          && c.openedAt == Some(last)
          && (c.state == HalfOpen ==> Elapsed(last, clock) >= cfg.cooldown))
  }

  function Clock(h: seq<Event>): nat {
    if h == [] then 0 else h[|h| - 1].at
  }

  lemma {:induction false} CircuitRepresentsHistory(cfg: Config, h: seq<Event>, channel: string)
    requires Monotone(h) && channel != ""
    ensures LastResponseAt(h, channel) <= Clock(h)
    ensures Represents(CircuitFor(Run(cfg, h), channel), cfg,
                       TrailingFailures(h, channel), LastResponseAt(h, channel), Clock(h), Probed(h, channel, cfg.cooldown))
  {
    if h != [] {
      var front := h[..|h| - 1];
      assert front != [] ==> front[|front| - 1] == h[|h| - 2];
      CircuitRepresentsHistory(cfg, front, channel);
    }
  }

  /** The breaker refines the history predicate: under any interleaving of
      requests and responses on any channels, a request is rejected exactly
      when its channel's trailing run of 5xx and 429 responses reaches the
      threshold and the cooldown has not elapsed since the last of them. */
  lemma RejectsExactlyWhenTripped(cfg: Config, h: seq<Event>, channel: string, now: nat)
    requires Monotone(h) && channel != "" && Clock(h) <= now
    ensures !Admitted(Run(cfg, h), cfg, channel, now) <==> Tripped(cfg, h, channel, now)
  {
    CircuitRepresentsHistory(cfg, h, channel);
  }

  /** A request without a selected channel is always let through, and neither it
      nor its response changes any circuit. */
  lemma UnselectedPass(cfg: Config, h: seq<Event>, e: Event)
    requires e.channel == ""
    ensures Run(cfg, h + [e]) == Run(cfg, h) && Admitted(Run(cfg, h), cfg, e.channel, e.at)
  {
    assert (h + [e])[..|h|] == h;
  }

  /** Past the cooldown the half-open circuit admits any number of requests
      before the first answer arrives: there is no single probe. */
  lemma {:induction false} HalfOpenAdmitsEveryRequest(cfg: Config, h: seq<Event>, channel: string, probes: nat, now: nat)
    requires Monotone(h) && channel != "" && Clock(h) <= now
    requires Admitted(Run(cfg, h), cfg, channel, now)
    ensures var h' := h + seq(probes, _ => Request(channel, now));
            Admitted(Run(cfg, h'), cfg, channel, now)
  {
    var h' := h + seq(probes, _ => Request(channel, now));
    RequestsDoNotCount(h, channel, probes, now);
    RejectsExactlyWhenTripped(cfg, h, channel, now);
    RejectsExactlyWhenTripped(cfg, h', channel, now);
  }

  lemma {:induction false} RequestsDoNotCount(h: seq<Event>, channel: string, probes: nat, now: nat)
    ensures var h' := h + seq(probes, _ => Request(channel, now));
            && TrailingFailures(h', channel) == TrailingFailures(h, channel)
            && LastResponseAt(h', channel) == LastResponseAt(h, channel)
  {
    var h' := h + seq(probes, _ => Request(channel, now));
    if probes == 0 {
      assert h' == h;
    } else {
      RequestsDoNotCount(h, channel, probes - 1, now);
      assert h'[..|h'| - 1] == h + seq(probes - 1, _ => Request(channel, now));
    }
  }

  // ---------------------------------------------------------------------
  // Load on a dead upstream
  // ---------------------------------------------------------------------

  /** A client that tries at `at` and, when admitted, gets a retryable answer
      at `answered` before it tries again. */
  datatype Try = Try(at: nat, answered: nat)

  predicate Sequential(tries: seq<Try>) {
    && (forall i :: 0 <= i < |tries| ==> tries[i].at <= tries[i].answered)
    && (forall i :: 0 <= i < |tries| - 1 ==> tries[i].answered <= tries[i + 1].at)
  }

  function AfterTry(c: Circuit, cfg: Config, t: Try): Circuit {
    var asked := AfterRequest(c, t.at, cfg.cooldown);
    if Allows(c, t.at, cfg.cooldown) then AfterFailure(asked, cfg.failureThreshold, t.answered) else asked
  }

  function DeadCircuit(cfg: Config, tries: seq<Try>): Circuit {
    if tries == [] then NewCircuit
    else AfterTry(DeadCircuit(cfg, tries[..|tries| - 1]), cfg, tries[|tries| - 1])
  }

  function DeadAdmissions(cfg: Config, tries: seq<Try>): nat {
    if tries == [] then 0
    else
      var front := tries[..|tries| - 1];
      DeadAdmissions(cfg, front)
      + (if Allows(DeadCircuit(cfg, front), tries[|tries| - 1].at, cfg.cooldown) then 1 else 0)
  }

  /** The events of such a client, as the middleware sees them. */
  function EventsOf(cfg: Config, tries: seq<Try>, channel: string, status: nat): seq<Event> {
    if tries == [] then []
    else
      var front, t := tries[..|tries| - 1], tries[|tries| - 1];
      EventsOf(cfg, front, channel, status) + [Request(channel, t.at)]
      + (if Allows(DeadCircuit(cfg, front), t.at, cfg.cooldown) then [Response(channel, t.answered, status)] else [])
  }

  /** The client's circuit is the middleware's circuit for its channel. */
  lemma {:induction false} DeadCircuitIsTheMiddlewares(cfg: Config, tries: seq<Try>, channel: string, status: nat)
    requires channel != "" && (500 <= status <= 599 || status == 429)
    ensures CircuitFor(Run(cfg, EventsOf(cfg, tries, channel, status)), channel) == DeadCircuit(cfg, tries)
  {
    hide Allows, AfterRequest, AfterFailure;
    if tries != [] {
      var front, t := tries[..|tries| - 1], tries[|tries| - 1];
      DeadCircuitIsTheMiddlewares(cfg, front, channel, status);
      var h := EventsOf(cfg, front, channel, status);
      var asked := h + [Request(channel, t.at)];
      assert asked[..|asked| - 1] == h;
      var answered := asked + [Response(channel, t.answered, status)];
      assert answered[..|answered| - 1] == asked;
      assert asked + [] == asked;
    }
  }

  lemma FrontSequential(tries: seq<Try>)
    requires Sequential(tries) && tries != []
    ensures Sequential(tries[..|tries| - 1])
  {
    var front := tries[..|tries| - 1];
    assert forall i :: 0 <= i < |front| ==> front[i] == tries[i];
  }

  /** How the circuit stands after `n` admissions: each after the first `Trip`
      ones waited a whole cooldown after the failure before it. `first` is the
      time of the first try, `at` and `answered` are those of the last. */
  ghost predicate Paced(cfg: Config, c: Circuit, n: nat, first: nat, at: nat, answered: nat) {
    && c.failureCount == n
    && (n < Trip(cfg) ==> c == Circuit(Closed, n, None))
    && (n >= Trip(cfg) ==>
          && c.state != Closed && c.openedAt.Some?
          && first + (n - Trip(cfg)) * cfg.cooldown <= c.openedAt.value <= answered
          && (c.state == HalfOpen ==> Elapsed(c.openedAt.value, at) >= cfg.cooldown))
  }

  lemma OneMoreTry(cfg: Config, c: Circuit, n: nat, first: nat, at: nat, answered: nat, t: Try)
    requires Paced(cfg, c, n, first, at, answered)
    requires answered <= t.at <= t.answered && first <= t.at && at <= t.at
    ensures Paced(cfg, AfterTry(c, cfg, t), n + (if Allows(c, t.at, cfg.cooldown) then 1 else 0), first, t.at, t.answered)
  {
    OneMoreCooldown(n - Trip(cfg), cfg.cooldown);
  }

  lemma {:induction false} DeadInvariant(cfg: Config, tries: seq<Try>)
    requires Sequential(tries)
    ensures tries == [] ==> DeadCircuit(cfg, tries) == NewCircuit && DeadAdmissions(cfg, tries) == 0
    ensures tries != [] ==>
              Paced(cfg, DeadCircuit(cfg, tries), DeadAdmissions(cfg, tries),
                    tries[0].at, tries[|tries| - 1].at, tries[|tries| - 1].answered)
  {
    hide Paced, Allows, AfterTry;
    if tries != [] {
      var k := |tries| - 1;
      var front, t := tries[..k], tries[k];
      FrontSequential(tries);
      DeadInvariant(cfg, front);
      InOrder(tries, 0, k);
      if front == [] {
        NotYetTried(cfg, t.at);
        OneMoreTry(cfg, NewCircuit, 0, t.at, t.at, t.at, t);
      } else {
        InOrder(tries, k - 1, k);
        OneMoreTry(cfg, DeadCircuit(cfg, front), DeadAdmissions(cfg, front), tries[0].at, tries[k - 1].at, tries[k - 1].answered, t);
      }
    }
  }

  lemma NotYetTried(cfg: Config, at: nat)
    ensures Paced(cfg, NewCircuit, 0, at, at, at)
  {}

  lemma OneMoreCooldown(k: int, cooldown: nat)
    ensures (k + 1) * cooldown == k * cooldown + cooldown
  {}

  lemma {:induction false} InOrder(tries: seq<Try>, i: nat, j: nat)
    requires Sequential(tries) && i <= j < |tries|
    ensures tries[i].at <= tries[j].at
    decreases j
  {
    if i < j {
      InOrder(tries, i, j - 1);
    }
  }

  /** A dead upstream sees at most `Trip + T / cooldown` requests in the time
      `T` from the first attempt to the last. */
  lemma {:induction false} LoadOnDeadUpstream(cfg: Config, tries: seq<Try>)
    requires Sequential(tries) && cfg.cooldown > 0 && tries != []
    ensures DeadAdmissions(cfg, tries) <= Trip(cfg) + (tries[|tries| - 1].at - tries[0].at) / cfg.cooldown
  {
    hide Sequential, Allows;
    var k := |tries| - 1;
    var front, elapsed := tries[..k], tries[k].at - tries[0].at;
    FrontSequential(tries);
    InOrder(tries, 0, k);
    if Allows(DeadCircuit(cfg, front), tries[k].at, cfg.cooldown) {
      AdmissionWaits(cfg, tries);
      AdmissionsFit(DeadAdmissions(cfg, front), Trip(cfg), cfg.cooldown, elapsed);
    } else if front != [] {
      LoadOnDeadUpstream(cfg, front);
      InOrder(tries, 0, k - 1);
      InOrder(tries, k - 1, k);
      DivideMonotone(tries[k - 1].at - tries[0].at, elapsed, cfg.cooldown);
    }
  }

  lemma AdmissionWaits(cfg: Config, tries: seq<Try>)
    requires Sequential(tries) && cfg.cooldown > 0 && tries != []
    requires Allows(DeadCircuit(cfg, tries[..|tries| - 1]), tries[|tries| - 1].at, cfg.cooldown)
    ensures var n := DeadAdmissions(cfg, tries[..|tries| - 1]);
            n >= Trip(cfg) ==>
              (n - Trip(cfg)) * cfg.cooldown + cfg.cooldown <= tries[|tries| - 1].at - tries[0].at
  {
    hide DeadCircuit, DeadAdmissions;
    var front := tries[..|tries| - 1];
    FrontSequential(tries);
    DeadInvariant(cfg, front);
  }

  lemma AdmissionsFit(n: nat, trip: nat, cooldown: nat, elapsed: nat)
    requires cooldown > 0
    requires n >= trip ==> (n - trip) * cooldown + cooldown <= elapsed
    ensures n + 1 <= trip + elapsed / cooldown
  {
    if n >= trip {
      OneMoreCooldown(n - trip, cooldown);
      Divide(n + 1 - trip, cooldown, elapsed);
    } else {
      Divide(0, cooldown, elapsed);
    }
  }

  lemma Divide(m: nat, d: nat, t: nat)
    requires d > 0 && m * d <= t
    ensures m <= t / d
  {
    var q := t / d;
    assert t < q * d + d;
    if m >= q + 1 {
      MultiplyMonotone(q + 1, m, d);
    }
  }

  lemma MultiplyMonotone(a: nat, b: nat, d: nat)
    requires a <= b
    ensures a * d <= b * d
  {}

  lemma DivideMonotone(a: nat, b: nat, d: nat)
    requires d > 0 && a <= b
    ensures a / d <= b / d
  {
    assert (a / d) * d <= b;
    Divide(a / d, d, b);
  }
}
