/** Three-state circuit breaker, one circuit per channel
    (crates/resilience/src/circuit_breaker.rs). */
module CircuitBreaker {
  import opened Common

  datatype State = Closed | Open | HalfOpen

  datatype Circuit = Circuit(state: State, failureCount: nat, openedAt: Option<nat>)

  const NewCircuit := Circuit(Closed, 0, None)

  datatype Config = Config(failureThreshold: nat, cooldown: nat)

  predicate CooledDown(c: Circuit, now: nat, cooldown: nat) {
    c.openedAt.Some? && Elapsed(c.openedAt.value, now) >= cooldown
  }

  predicate Allows(c: Circuit, now: nat, cooldown: nat) {
    c.state != Open || CooledDown(c, now, cooldown)
  }

  function AfterRequest(c: Circuit, now: nat, cooldown: nat): Circuit {
    if c.state == Open && CooledDown(c, now, cooldown) then c.(state := HalfOpen) else c
  }

  function AfterFailure(c: Circuit, threshold: nat, now: nat): Circuit {
    var counted := c.(failureCount := c.failureCount + 1);
    if counted.failureCount >= threshold then counted.(state := Open, openedAt := Some(now)) else counted
  }

  predicate IsRetryable(status: nat) {
    500 <= status <= 599 || status == 429
  }

  function AfterResponse(c: Circuit, status: nat, threshold: nat, now: nat): Circuit {
    if IsRetryable(status) then AfterFailure(c, threshold, now) else NewCircuit
  }

  class ChannelCircuit {
    var state: State
    var failureCount: nat
    var openedAt: Option<nat>

    function View(): Circuit
      reads this
    {
      Circuit(state, failureCount, openedAt)
    }

    constructor ()
      ensures View() == NewCircuit
    {
      state, failureCount, openedAt := Closed, 0, None;
    }

    /** Every request of the half-open state is let through, not just one. */
    method AllowRequest(now: nat, cooldown: nat) returns (ok: bool)
      modifies this
      ensures ok == Allows(old(View()), now, cooldown)
      ensures View() == AfterRequest(old(View()), now, cooldown)
    {
      match state {
        case Closed => ok := true;
        case HalfOpen => ok := true;
        case Open =>
          if openedAt.Some? && Elapsed(openedAt.value, now) >= cooldown {
            state := HalfOpen;
            return true;
          }
          ok := false;
      }
    }

    method RecordSuccess()
      modifies this
      ensures View() == NewCircuit
    {
      state, failureCount, openedAt := Closed, 0, None;
    }

    method RecordFailure(threshold: nat, now: nat)
      modifies this
      ensures View() == AfterFailure(old(View()), threshold, now)
    {
      failureCount := failureCount + 1;
      if failureCount >= threshold {
        state := Open;
        openedAt := Some(now);
      }
    }
  }

  // ---------------------------------------------------------------------
  // The middleware
  // ---------------------------------------------------------------------

  datatype Event =
    | Request(channel: string, at: nat)
    | Response(channel: string, at: nat, status: nat)

  type Circuits = map<string, Circuit>

  function CircuitFor(cs: Circuits, channel: string): Circuit {
    if channel in cs then cs[channel] else NewCircuit
  }

  /** The circuits after one event. A request or response with no selected
      channel has an empty name and touches nothing. */
  function Step(cs: Circuits, cfg: Config, e: Event): Circuits {
    if e.channel == "" then cs
    else
      var c := CircuitFor(cs, e.channel);
      match e
      case Request(ch, at) => cs[ch := AfterRequest(c, at, cfg.cooldown)]
      case Response(ch, at, status) => cs[ch := AfterResponse(c, status, cfg.failureThreshold, at)]
  }

  /** Whether a request is let through (a rejection is `CircuitOpen`). */
  predicate Admitted(cs: Circuits, cfg: Config, channel: string, at: nat) {
    channel == "" || Allows(CircuitFor(cs, channel), at, cfg.cooldown)
  }

  class Middleware {
    var circuits: map<string, ChannelCircuit>
    const config: Config

    ghost predicate Valid()
      reads this
    {
      forall c, d :: c in circuits && d in circuits && c != d ==> circuits[c] != circuits[d]
    }

    ghost function View(): Circuits
      reads this, circuits.Values
    {
      map c | c in circuits :: circuits[c].View()
    }

    constructor (cfg: Config)
      ensures Valid() && config == cfg && View() == map[]
    {
      circuits := map[];
      config := cfg;
    }

    method EntryFor(channel: string) returns (c: ChannelCircuit)
      requires Valid()
      modifies this
      ensures Valid() && channel in circuits && circuits[channel] == c
      ensures fresh(circuits.Values - old(circuits.Values))
      ensures View() == old(View())[channel := CircuitFor(old(View()), channel)]
      ensures forall d :: d in circuits && d != channel ==> circuits[d] != c
    {
      if channel !in circuits {
        var created := new ChannelCircuit();
        circuits := circuits[channel := created];
      }
      c := circuits[channel];
    }

    method OnRequest(channel: string, now: nat) returns (r: Result<(), string>)
      requires Valid()
      modifies this, circuits.Values
      ensures Valid()
      ensures View() == Step(old(View()), config, Request(channel, now))
      ensures r == (if Admitted(old(View()), config, channel, now) then Ok(()) else Err(channel))
    {
      if channel == "" {
        return Ok(());
      }
      var circuit := EntryFor(channel);
      assert circuit.View() == View()[channel];
      var ok := circuit.AllowRequest(now, config.cooldown);
      assert View() == Step(old(View()), config, Request(channel, now));
      r := if ok then Ok(()) else Err(channel);
    }

    method OnResponse(channel: string, status: nat, now: nat)
      requires Valid()
      modifies this, circuits.Values
      ensures Valid()
      ensures View() == Step(old(View()), config, Response(channel, now, status))
    {
      if channel == "" {
        return;
      }
      var circuit := EntryFor(channel);
      assert circuit.View() == View()[channel];
      if IsRetryable(status) {
        circuit.RecordFailure(config.failureThreshold, now);
      } else {
        circuit.RecordSuccess();
      }
      assert View() == Step(old(View()), config, Response(channel, now, status));
    }
  }
}
