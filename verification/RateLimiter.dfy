/** Token-bucket rate limiting, one bucket per channel
    (crates/resilience/src/rate_limiter.rs). Floats are modelled as reals. */
module RateLimiter {
  import opened Common

  /** Tokens per second. A zero window makes the program divide by zero: the
      rate is then infinite or not a number, and either way `min` fills the
      bucket at every refill. */
  datatype Rate = PerSecond(r: real) | Unbounded

  datatype Bucket = Bucket(capacity: nat, tokens: real, rate: Rate, lastRefill: real)

  datatype Config = Config(maxRequests: nat, window: real)

  predicate ValidConfig(cfg: Config) {
    cfg.window >= 0.0
  }

  function RateOf(cfg: Config): Rate
    requires ValidConfig(cfg)
  {
    if cfg.window == 0.0 then Unbounded else PerSecond(cfg.maxRequests as real / cfg.window)
  }

  function Fresh(cfg: Config, now: real): Bucket
    requires ValidConfig(cfg)
  {
    Bucket(cfg.maxRequests, cfg.maxRequests as real, RateOf(cfg), now)
  }

  function Min(a: real, b: real): real {
    if a <= b then a else b
  }

  function SecondsSince(since: real, now: real): real {
    if since <= now then now - since else 0.0
  }

  /** The token count after a refill at `now`. */
  function Level(b: Bucket, now: real): real {
    match b.rate
    case Unbounded => b.capacity as real
    case PerSecond(r) => Min(b.tokens + SecondsSince(b.lastRefill, now) * r, b.capacity as real)
  }

  function Refilled(b: Bucket, now: real): Bucket {
    b.(tokens := Level(b, now), lastRefill := now)
  }

  predicate Admits(b: Bucket, now: real) {
    Level(b, now) >= 1.0
  }

  function Consumed(b: Bucket, now: real): Bucket {
    var full := Refilled(b, now);
    if Admits(b, now) then full.(tokens := full.tokens - 1.0) else full
  }

  class TokenBucket {
    const capacity: nat
    const rate: Rate
    var tokens: real
    var lastRefill: real

    function View(): Bucket
      reads this
    {
      Bucket(capacity, tokens, rate, lastRefill)
    }

    constructor (cfg: Config, now: real)
      requires ValidConfig(cfg)
      ensures View() == Fresh(cfg, now)
    {
      capacity := cfg.maxRequests;
      rate := RateOf(cfg);
      tokens := cfg.maxRequests as real;
      lastRefill := now;
    }

    method Refill(now: real)
      modifies this
      ensures View() == Refilled(old(View()), now)
    {
      var elapsed := SecondsSince(lastRefill, now);
      match rate {
        case PerSecond(r) =>
          var added := elapsed * r;
          tokens := Min(tokens + added, capacity as real);
        case Unbounded =>
          tokens := capacity as real;
      }
      lastRefill := now;
    }

    method TryConsume(now: real) returns (ok: bool)
      modifies this
      ensures ok == Admits(old(View()), now)
      ensures View() == Consumed(old(View()), now)
    {
      Refill(now);
      if tokens >= 1.0 {
        tokens := tokens - 1.0;
        ok := true;
      } else {
        ok := false;
      }
    }
  }

  // ---------------------------------------------------------------------
  // The middleware: a map of buckets filled on first use
  // ---------------------------------------------------------------------

  type Buckets = map<string, Bucket>

  function BucketFor(bs: Buckets, cfg: Config, channel: string, now: real): Bucket
    requires ValidConfig(cfg)
  {
    if channel in bs then bs[channel] else Fresh(cfg, now)
  }

  datatype Attempt = Attempt(channel: string, at: real)

  function Step(bs: Buckets, cfg: Config, a: Attempt): (Buckets, bool)
    requires ValidConfig(cfg)
  {
    if a.channel == "" then (bs, true)
    else
      var b := BucketFor(bs, cfg, a.channel, a.at);
      (bs[a.channel := Consumed(b, a.at)], Admits(b, a.at))
  }

  class Middleware {
    var buckets: map<string, TokenBucket>
    const config: Config

    ghost predicate Valid()
      reads this
    {
      && ValidConfig(config)
      && (forall c, d :: c in buckets && d in buckets && c != d ==> buckets[c] != buckets[d])
    }

    ghost function View(): Buckets
      reads this, buckets.Values
    {
      map c | c in buckets :: buckets[c].View()
    }

    constructor (cfg: Config)
      requires ValidConfig(cfg)
      ensures Valid() && config == cfg && View() == map[]
    {
      buckets := map[];
      config := cfg;
    }

    /** A rejection carries the configured window as its retry-after. */
    method CheckRateLimit(channel: string, now: real) returns (r: Result<(), real>)
      requires Valid()
      modifies this, buckets.Values
      ensures Valid() && fresh(buckets.Values - old(buckets.Values))
      ensures var b := BucketFor(old(View()), config, channel, now);
              && View() == old(View())[channel := Consumed(b, now)]
              && r == (if Admits(b, now) then Ok(()) else Err(config.window))
    {
      if channel !in buckets {
        var b := new TokenBucket(config, now);
        buckets := buckets[channel := b];
      }
      var bucket := buckets[channel];
      assert forall c :: c in buckets && c != channel ==> buckets[c] != bucket;
      var ok := bucket.TryConsume(now);
      r := if ok then Ok(()) else Err(config.window);
    }

    /** A request with no selected channel is let through untouched. */
    method OnRequest(channel: string, now: real) returns (r: Result<(), real>)
      requires Valid()
      modifies this, buckets.Values
      ensures Valid()
      ensures var (bs, ok) := Step(old(View()), config, Attempt(channel, now));
              View() == bs && r == (if ok then Ok(()) else Err(config.window))
    {
      if channel != "" {
        r := CheckRateLimit(channel, now);
      } else {
        r := Ok(());
      }
    }
  }
}
