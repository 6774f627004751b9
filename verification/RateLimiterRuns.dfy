/** What the token bucket guarantees over whole runs. */
module RateLimiterRuns {
  import opened RateLimiter

  predicate Monotone(ts: seq<real>) {
    forall i, j :: 0 <= i <= j < |ts| ==> ts[i] <= ts[j]
  }

  function Outcomes(b: Bucket, ts: seq<real>): (oks: seq<bool>)
    ensures |oks| == |ts|
    decreases |ts|
  {
    if ts == [] then [] else [Admits(b, ts[0])] + Outcomes(Consumed(b, ts[0]), ts[1..])
  }

  /** How many of `oks[i..j]` are admissions. */
  function Admitted(oks: seq<bool>, i: nat, j: nat): (n: nat)
    requires i <= j <= |oks|
    ensures n <= j - i
    decreases j - i
  {
    if i == j then 0 else (if oks[i] then 1 else 0) + Admitted(oks, i + 1, j)
  }

  /** The declarative limiter: attempt `n` has room iff adding it breaks the
      budget of no window that ends at it. `credit[i]` is what the rate has
      accrued by attempt `i`. */
  ghost predicate HasRoom(credit: seq<real>, oks: seq<bool>, capacity: nat, n: nat)
    requires n < |credit| == |oks|
  {
    forall i {:trigger Admitted(oks, i, n)} :: 0 <= i <= n ==>
      Admitted(oks, i, n) as real + 1.0 <= capacity as real + (credit[n] - credit[i])
  }

  /** `oks` is the sliding-window limiter that admits whenever it may. */
  ghost predicate Greedy(credit: seq<real>, oks: seq<bool>, capacity: nat) {
    && |oks| == |credit|
    && forall n {:trigger HasRoom(credit, oks, capacity, n)} :: 0 <= n < |oks| ==> (oks[n] <==> HasRoom(credit, oks, capacity, n))
  }

  /** What a rate of `r` tokens a second has accrued by each time. */
  function Credits(r: real, ts: seq<real>): (cs: seq<real>)
    ensures |cs| == |ts|
  {
    if ts == [] then [] else [ts[0] * r] + Credits(r, ts[1..])
  }

  lemma {:induction false} CreditAt(r: real, ts: seq<real>, i: nat)
    requires i < |ts|
    ensures Credits(r, ts)[i] == ts[i] * r
  {
    if i > 0 {
      CreditAt(r, ts[1..], i - 1);
    }
  }

  lemma {:induction false} AdmittedShift(a: bool, oks: seq<bool>, i: nat, j: nat)
    requires i <= j <= |oks|
    ensures Admitted([a] + oks, i + 1, j + 1) == Admitted(oks, i, j)
    decreases j - i
  {
    if i < j {
      AdmittedShift(a, oks, i + 1, j);
    }
  }

  lemma {:induction false} AdmittedSnoc(oks: seq<bool>, i: nat, j: nat)
    requires i <= j < |oks|
    ensures Admitted(oks, i, j + 1) == Admitted(oks, i, j) + (if oks[j] then 1 else 0)
    decreases j - i
  {
    if i < j {
      AdmittedSnoc(oks, i + 1, j);
    }
  }

  lemma {:induction false} AdmittedAgree(a: seq<bool>, b: seq<bool>, i: nat, j: nat)
    requires i <= j <= |a| && |a| == |b|
    requires forall k :: i <= k < j ==> a[k] == b[k]
    ensures Admitted(a, i, j) == Admitted(b, i, j)
    decreases j - i
  {
    if i < j {
      AdmittedAgree(a, b, i + 1, j);
    }
  }

  // ---------------------------------------------------------------------
  // Arithmetic of the rate
  // ---------------------------------------------------------------------

  lemma Distribute(a: real, b: real, r: real)
    ensures (a - b) * r == a * r - b * r
  {}

  lemma Scale(a: real, b: real, r: real)
    requires a <= b && r >= 0.0
    ensures a * r <= b * r
  {}

  function PerSecondRate(cfg: Config): real
    requires cfg.window > 0.0
  {
    RateOf(cfg).r
  }

  lemma RateNotNegative(cfg: Config)
    requires cfg.window > 0.0
    ensures PerSecondRate(cfg) >= 0.0
  {}

  lemma WindowRefillsAll(cfg: Config)
    requires cfg.window > 0.0
    ensures cfg.window * PerSecondRate(cfg) == cfg.maxRequests as real
  {}

  /** Credit accrues linearly between two attempts. */
  lemma LevelByCredit(b: Bucket, now: real)
    requires b.rate.PerSecond? && b.lastRefill <= now
    ensures Level(b, now) == Min(b.tokens + (now * b.rate.r - b.lastRefill * b.rate.r), b.capacity as real)
  {
    Distribute(now, b.lastRefill, b.rate.r);
  }

  // ---------------------------------------------------------------------
  // The bucket is the greedy sliding-window limiter
  // ---------------------------------------------------------------------

  /** The budget left by the bucket's own level at the first attempt. */
  ghost predicate HasLevel(credit: seq<real>, oks: seq<bool>, level: real, n: nat)
    requires n < |credit| == |oks|
  {
    Admitted(oks, 0, n) as real + 1.0 <= level + (credit[n] - credit[0])
  }

  /** A bucket driven by credit alone: `level` is what it holds at the first
      attempt. */
  function Metered(level: real, capacity: nat, credit: seq<real>): (oks: seq<bool>)
    ensures |oks| == |credit|
    decreases |credit|
  {
    if credit == [] then []
    else if |credit| == 1 then [level >= 1.0]
    else
      var left := if level >= 1.0 then level - 1.0 else level;
      [level >= 1.0]
      + Metered(Min(left + (credit[1] - credit[0]), capacity as real), capacity, credit[1..])
  }

  /** Seconds matter only through the credit they accrue. */
  lemma {:induction false} OutcomesByCredit(b: Bucket, ts: seq<real>)
    requires ts != [] && Monotone(ts)
    requires b.rate.PerSecond? && b.lastRefill <= ts[0]
    ensures Outcomes(b, ts) == Metered(Level(b, ts[0]), b.capacity, Credits(b.rate.r, ts))
    decreases |ts|
  {
    hide Level, Credits;
    var credit := Credits(b.rate.r, ts);
    CreditsTail(b.rate.r, ts);
    if |ts| > 1 {
      StepByCredit(b, ts[0], ts[1]);
      CreditAt(b.rate.r, ts, 0);
      CreditAt(b.rate.r, ts, 1);
      OutcomesByCredit(Consumed(b, ts[0]), ts[1..]);
      var left := if Admits(b, ts[0]) then Level(b, ts[0]) - 1.0 else Level(b, ts[0]);
      assert Level(Consumed(b, ts[0]), ts[1]) == Min(left + (credit[1] - credit[0]), b.capacity as real);
    } else {
      assert Outcomes(b, ts) == [Admits(b, ts[0])];
    }
  }

  lemma CreditsTail(r: real, ts: seq<real>)
    requires ts != []
    ensures Credits(r, ts)[1..] == Credits(r, ts[1..])
  {}

  lemma StepByCredit(b: Bucket, t: real, u: real)
    requires b.rate.PerSecond? && b.lastRefill <= t <= u
    ensures var left := if Admits(b, t) then Level(b, t) - 1.0 else Level(b, t);
            Level(Consumed(b, t), u) == Min(left + (u * b.rate.r - t * b.rate.r), b.capacity as real)
  {
    LevelByCredit(Consumed(b, t), u);
  }

  /** A bucket in any state admits exactly when both its level and every
      window allow it. */
  lemma {:induction false} MeteredExact(level: real, capacity: nat, credit: seq<real>, n: nat)
    requires n < |credit| && level <= capacity as real
    ensures var oks := Metered(level, capacity, credit);
            oks[n] <==> HasRoom(credit, oks, capacity, n) && HasLevel(credit, oks, level, n)
    decreases n
  {
    var oks := Metered(level, capacity, credit);
    if n > 0 {
      var used := if level >= 1.0 then 1 else 0;
      var level1 := Min(level - used as real + (credit[1] - credit[0]), capacity as real);
      var oks1, credit1 := Metered(level1, capacity, credit[1..]), credit[1..];
      assert oks == [oks[0]] + oks1;
      MeteredExact(level1, capacity, credit1, n - 1);
      AdmittedShift(oks[0], oks1, 0, n - 1);
      assert Admitted(oks, 0, n) == used + Admitted(oks1, 0, n - 1);
      WindowsShift(credit, oks, capacity, n);
      assert oks[1..] == oks1;
    }
  }

  /** The windows of a run that end at `n` are its first window and those of
      its tail. */
  lemma WindowsShift(credit: seq<real>, oks: seq<bool>, capacity: nat, n: nat)
    requires 0 < n < |credit| == |oks|
    ensures HasRoom(credit, oks, capacity, n) <==>
            && HasRoom(credit[1..], oks[1..], capacity, n - 1)
            && HasLevel(credit, oks, capacity as real, n)
  {
    var credit1, oks1 := credit[1..], oks[1..];
    assert oks == [oks[0]] + oks1;
    forall i | 0 <= i <= n - 1
      ensures Admitted(oks1, i, n - 1) == Admitted(oks, i + 1, n)
      ensures credit1[i] == credit[i + 1]
    {
      AdmittedShift(oks[0], oks1, i, n - 1);
    }
    if HasRoom(credit1, oks1, capacity, n - 1) && HasLevel(credit, oks, capacity as real, n) {
      forall i | 0 <= i <= n
        ensures Admitted(oks, i, n) as real + 1.0 <= capacity as real + (credit[n] - credit[i])
      {
        if i > 0 {
          assert Admitted(oks1, i - 1, n - 1) as real + 1.0 <= capacity as real + (credit1[n - 1] - credit1[i - 1]);
        }
      }
    }
  }

  /** A new bucket is exactly the greedy sliding-window limiter, and that
      limiter is unique: the token count refines the history predicate. */
  lemma BucketIsSlidingWindow(cfg: Config, ts: seq<real>, oks: seq<bool>)
    requires cfg.window > 0.0 && Monotone(ts) && ts != []
    ensures oks == Outcomes(Fresh(cfg, ts[0]), ts) <==>
            Greedy(Credits(PerSecondRate(cfg), ts), oks, cfg.maxRequests)
  {
    var b := Fresh(cfg, ts[0]);
    LevelByCredit(b, ts[0]);
    OutcomesByCredit(b, ts);
    MeteredIsGreedy(cfg.maxRequests, Credits(PerSecondRate(cfg), ts), oks);
  }

  lemma MeteredIsGreedy(capacity: nat, credit: seq<real>, oks: seq<bool>)
    ensures oks == Metered(capacity as real, capacity, credit) <==> Greedy(credit, oks, capacity)
  {
    var own := Metered(capacity as real, capacity, credit);
    forall n | 0 <= n < |credit|
      ensures own[n] <==> HasRoom(credit, own, capacity, n)
    {
      MeteredExact(capacity as real, capacity, credit, n);
      assert HasRoom(credit, own, capacity, n) ==> HasLevel(credit, own, capacity as real, n);
    }
    if Greedy(credit, oks, capacity) {
      GreedyUnique(credit, oks, own, capacity, |credit|);
    }
  }

  lemma {:induction false} GreedyUnique(credit: seq<real>, a: seq<bool>, b: seq<bool>, capacity: nat, n: nat)
    requires Greedy(credit, a, capacity) && Greedy(credit, b, capacity) && n <= |credit|
    ensures forall k :: 0 <= k < n ==> a[k] == b[k]
    ensures n == |credit| ==> a == b
  {
    if n > 0 {
      var m := n - 1;
      GreedyUnique(credit, a, b, capacity, m);
      forall i | 0 <= i <= m
        ensures Admitted(a, i, m) == Admitted(b, i, m)
      {
        AdmittedAgree(a, b, i, m);
      }
      assert HasRoom(credit, a, capacity, m) == HasRoom(credit, b, capacity, m);
    }
  }

  /** No window holds more than the capacity and what accrues in it. */
  lemma {:induction false} WindowBound(credit: seq<real>, oks: seq<bool>, capacity: nat, i: nat, j: nat)
    requires Monotone(credit) && Greedy(credit, oks, capacity) && i <= j < |credit|
    ensures Admitted(oks, i, j + 1) as real <= capacity as real + (credit[j] - credit[i])
    decreases j
  {
    AdmittedSnoc(oks, i, j);
    if oks[j] {
      assert HasRoom(credit, oks, capacity, j);
    } else if i < j {
      WindowBound(credit, oks, capacity, i, j - 1);
    } else {
      assert Admitted(oks, i, j) == 0;
    }
  }

  /** The rate limit as documented: between two attempts at times s <= t, a
      new bucket admits at most `max + (max / window) * (t - s)`. */
  lemma {:induction false} RateLimitHolds(cfg: Config, r: real, ts: seq<real>, i: nat, j: nat)
    requires cfg.window > 0.0 && r == PerSecondRate(cfg)
    requires Monotone(ts) && i <= j < |ts|
    ensures Admitted(Outcomes(Fresh(cfg, ts[0]), ts), i, j + 1) as real
            <= cfg.maxRequests as real + (ts[j] - ts[i]) * r
  {
    RateNotNegative(cfg);
    var oks := Outcomes(Fresh(cfg, ts[0]), ts);
    BucketIsSlidingWindow(cfg, ts, oks);
    WindowBoundInSeconds(r, ts, oks, cfg.maxRequests, i, j);
  }

  lemma WindowBoundInSeconds(r: real, ts: seq<real>, oks: seq<bool>, capacity: nat, i: nat, j: nat)
    requires r >= 0.0 && Monotone(ts) && Greedy(Credits(r, ts), oks, capacity) && i <= j < |ts|
    ensures Admitted(oks, i, j + 1) as real <= capacity as real + (ts[j] - ts[i]) * r
  {
    CreditsMonotone(r, ts);
    WindowBound(Credits(r, ts), oks, capacity, i, j);
    CreditAt(r, ts, i);
    CreditAt(r, ts, j);
    Distribute(ts[j], ts[i], r);
  }

  lemma CreditsMonotone(r: real, ts: seq<real>)
    requires r >= 0.0 && Monotone(ts)
    ensures Monotone(Credits(r, ts))
  {
    hide Credits;
    forall a, b | 0 <= a <= b < |ts|
      ensures Credits(r, ts)[a] <= Credits(r, ts)[b]
    {
      CreditOrder(r, ts, a, b);
    }
  }

  lemma CreditOrder(r: real, ts: seq<real>, a: nat, b: nat)
    requires r >= 0.0 && a < |ts| && b < |ts| && ts[a] <= ts[b]
    ensures Credits(r, ts)[a] <= Credits(r, ts)[b]
  {
    hide Credits;
    CreditAt(r, ts, a);
    CreditAt(r, ts, b);
    Scale(ts[a], ts[b], r);
    assert Credits(r, ts)[a] == ts[a] * r <= ts[b] * r == Credits(r, ts)[b];
  }

  /** Tokens stay within [0, capacity]. */
  lemma TokensStayInRange(b: Bucket, now: real)
    requires 0.0 <= b.tokens <= b.capacity as real
    requires b.rate.PerSecond? ==> b.rate.r >= 0.0
    ensures var c := Consumed(b, now);
            0.0 <= c.tokens <= c.capacity as real && c.capacity == b.capacity && c.rate == b.rate
  {
    if b.rate.PerSecond? {
      Scale(0.0, SecondsSince(b.lastRefill, now), b.rate.r);
    }
  }

  // ---------------------------------------------------------------------
  // Rejected attempts leave no trace
  // ---------------------------------------------------------------------

  /** Lazy refills compose. */
  lemma {:induction false} RefillsCompose(b: Bucket, s: real, t: real)
    requires b.lastRefill <= s <= t
    requires b.rate.PerSecond? ==> b.rate.r >= 0.0
    ensures Refilled(Refilled(b, s), t) == Refilled(b, t)
  {
    if b.rate.PerSecond? {
      LevelByCredit(b, s);
      LevelByCredit(b, t);
      LevelByCredit(Refilled(b, s), t);
      Scale(s, t, b.rate.r);
    }
  }

  function Kept<T>(xs: seq<T>, keep: seq<bool>): (ys: seq<T>)
    requires |xs| == |keep|
  {
    if xs == [] then [] else (if keep[0] then [xs[0]] else []) + Kept(xs[1..], keep[1..])
  }

  /** Deleting any set of rejected attempts leaves every other outcome as it
      was. `b` has seen the deleted attempts, `b'` has not. */
  lemma {:induction false} RejectionsInvisible(b: Bucket, b': Bucket, ts: seq<real>, keep: seq<bool>)
    requires |keep| == |ts| && Monotone(ts)
    requires b.rate.PerSecond? ==> b.rate.r >= 0.0
    requires ts != [] ==> b'.lastRefill <= b.lastRefill <= ts[0]
    requires b == b' || b == Refilled(b', b.lastRefill)
    requires forall i :: 0 <= i < |ts| && Outcomes(b, ts)[i] ==> keep[i]
    ensures Outcomes(b', Kept(ts, keep)) == Kept(Outcomes(b, ts), keep)
    decreases |ts|
  {
    if ts != [] {
      var t, rest, keep1 := ts[0], ts[1..], keep[1..];
      var b1 := Consumed(b, t);
      var oks := Outcomes(b, ts);
      RefillsCompose(b', b.lastRefill, t);
      assert b1 == Consumed(b', t) && oks[0] == Admits(b', t);
      assert oks[1..] == Outcomes(b1, rest);
      forall i | 0 <= i < |rest| && Outcomes(b1, rest)[i]
        ensures keep1[i]
      {
        assert oks[i + 1];
      }
      if keep[0] {
        RejectionsInvisible(b1, b1, rest, keep1);
        assert Kept(ts, keep)[1..] == Kept(rest, keep1);
      } else {
        RejectionsInvisible(b1, b', rest, keep1);
        assert Kept(ts, keep) == Kept(rest, keep1);
        assert Kept(oks, keep) == Kept(oks[1..], keep1);
      }
    }
  }

  /** The bucket after a run of attempts. */
  function After(b: Bucket, ts: seq<real>): Bucket {
    if ts == [] then b else Consumed(After(b, ts[..|ts| - 1]), ts[|ts| - 1])
  }

  /** In every run of a new bucket its tokens stay within [0, capacity]. */
  lemma {:induction false} TokensAlwaysInRange(cfg: Config, start: real, ts: seq<real>)
    requires ValidConfig(cfg)
    ensures var b := After(Fresh(cfg, start), ts);
            && 0.0 <= b.tokens <= cfg.maxRequests as real
            && b.capacity == cfg.maxRequests && b.rate == RateOf(cfg)
            && b.lastRefill == if ts == [] then start else ts[|ts| - 1]
  {
    if cfg.window > 0.0 {
      RateNotNegative(cfg);
    }
    if ts != [] {
      TokensAlwaysInRange(cfg, start, ts[..|ts| - 1]);
      TokensStayInRange(After(Fresh(cfg, start), ts[..|ts| - 1]), ts[|ts| - 1]);
    }
  }

  lemma {:induction false} OutcomeAfter(b: Bucket, ts: seq<real>, last: real)
    ensures Outcomes(b, ts + [last])[|ts|] == Admits(After(b, ts), last)
    decreases |ts|
  {
    if ts == [] {
      assert ts + [last] == [last];
    } else {
      assert (ts + [last])[1..] == ts[1..] + [last];
      OutcomeAfter(Consumed(b, ts[0]), ts[1..], last);
      AfterFirst(b, ts);
    }
  }

  lemma {:induction false} AfterFirst(b: Bucket, ts: seq<real>)
    requires ts != []
    ensures After(b, ts) == After(Consumed(b, ts[0]), ts[1..])
  {
    if |ts| > 1 {
      AfterFirst(b, ts[..|ts| - 1]);
      assert ts[1..][..|ts| - 2] == ts[..|ts| - 1][1..];
    }
  }

  /** A rejection advertises `retry_after` = the window. A retry that waits at
      least so long, with no traffic in between, is admitted exactly when the
      limit allows any request at all: with a limit of zero the advice is
      never right. */
  lemma {:induction false} RetryAfterWindowSucceedsIff(cfg: Config, ts: seq<real>, later: real)
    requires cfg.window > 0.0 && ts != [] && Monotone(ts)
    requires ts[|ts| - 1] + cfg.window <= later
    ensures Outcomes(Fresh(cfg, ts[0]), ts + [later])[|ts|] <==> cfg.maxRequests >= 1
  {
    hide Outcomes, After, RateOf, Fresh;
    var b := After(Fresh(cfg, ts[0]), ts);
    OutcomeAfter(Fresh(cfg, ts[0]), ts, later);
    TokensAlwaysInRange(cfg, ts[0], ts);
    WaitFills(cfg, b, later);
  }

  lemma WaitFills(cfg: Config, b: Bucket, later: real)
    requires cfg.window > 0.0 && b.rate == RateOf(cfg) && b.capacity == cfg.maxRequests && b.tokens >= 0.0
    requires b.lastRefill + cfg.window <= later
    ensures Level(b, later) == cfg.maxRequests as real
  {
    WindowRefillsAll(cfg);
    RateNotNegative(cfg);
    var waited, r := SecondsSince(b.lastRefill, later), b.rate.r;
    Scale(cfg.window, waited, r);
    hide SecondsSince, RateOf;
    assert Level(b, later) == Min(b.tokens + waited * r, b.capacity as real);
  }

  /** A zero window admits everything, or nothing when no request is allowed. */
  lemma {:induction false} ZeroWindow(b: Bucket, ts: seq<real>)
    requires b.rate == Unbounded
    ensures forall i :: 0 <= i < |ts| ==> (Outcomes(b, ts)[i] <==> b.capacity >= 1)
    decreases |ts|
  {
    if ts != [] {
      ZeroWindow(Consumed(b, ts[0]), ts[1..]);
    }
  }

  // ---------------------------------------------------------------------
  // Runs of the middleware
  // ---------------------------------------------------------------------

  function Run(bs: Buckets, cfg: Config, attempts: seq<Attempt>): (oks: seq<bool>)
    requires ValidConfig(cfg)
    ensures |oks| == |attempts|
    decreases |attempts|
  {
    if attempts == [] then []
    else
      var (bs', ok) := Step(bs, cfg, attempts[0]);
      [ok] + Run(bs', cfg, attempts[1..])
  }

  /** A request without a selected channel is always let through, and the rest
      of the run is as if it had not been there. */
  lemma {:induction false} UnselectedPass(bs: Buckets, cfg: Config, attempts: seq<Attempt>, i: nat)
    requires ValidConfig(cfg) && i < |attempts| && attempts[i].channel == ""
    ensures Run(bs, cfg, attempts)[i]
    ensures Run(bs, cfg, attempts)[..i] + Run(bs, cfg, attempts)[i + 1..] == Run(bs, cfg, attempts[..i] + attempts[i + 1..])
    decreases |attempts|
  {
    hide BucketFor, Consumed, Admits;
    if i == 0 {
      assert attempts[..0] + attempts[1..] == attempts[1..];
    } else {
      var bs', rest := Step(bs, cfg, attempts[0]).0, attempts[1..];
      var without := attempts[..i] + attempts[i + 1..];
      UnselectedPass(bs', cfg, rest, i - 1);
      assert without[0] == attempts[0] && without[1..] == rest[..i - 1] + rest[i..];
      var all, tail := Run(bs, cfg, attempts), Run(bs', cfg, rest);
      assert all == [all[0]] + tail;
      assert all[..i] + all[i + 1..] == [all[0]] + (tail[..i - 1] + tail[i..]);
    }
  }

  function On(attempts: seq<Attempt>, channel: string): (mine: seq<bool>)
    ensures |mine| == |attempts|
  {
    seq(|attempts|, i requires 0 <= i < |attempts| => attempts[i].channel == channel)
  }

  function Times(attempts: seq<Attempt>): (ts: seq<real>)
    ensures |ts| == |attempts|
  {
    seq(|attempts|, i requires 0 <= i < |attempts| => attempts[i].at)
  }

  /** The times of the attempts on one channel. */
  function TimesOn(attempts: seq<Attempt>, channel: string): seq<real> {
    Kept(Times(attempts), On(attempts, channel))
  }

  /** A channel's outcomes are those of its own bucket on its own attempts:
      no traffic on another channel can be seen. */
  lemma {:induction false} ChannelsAreIsolated(bs: Buckets, cfg: Config, attempts: seq<Attempt>, channel: string)
    requires ValidConfig(cfg) && channel != "" && TimesOn(attempts, channel) != []
    ensures Kept(Run(bs, cfg, attempts), On(attempts, channel))
            == Outcomes(BucketFor(bs, cfg, channel, TimesOn(attempts, channel)[0]), TimesOn(attempts, channel))
    decreases |attempts|
  {
    var a, rest := attempts[0], attempts[1..];
    var bs' := Step(bs, cfg, a).0;
    assert On(attempts, channel)[1..] == On(rest, channel);
    assert Times(attempts)[1..] == Times(rest);
    assert Run(bs, cfg, attempts)[1..] == Run(bs', cfg, rest);
    if a.channel == channel {
      assert TimesOn(attempts, channel)[1..] == TimesOn(rest, channel);
      if TimesOn(rest, channel) == [] {
        NothingKept(Times(rest), Run(bs', cfg, rest), On(rest, channel));
      } else {
        ChannelsAreIsolated(bs', cfg, rest, channel);
      }
    } else {
      assert TimesOn(attempts, channel) == TimesOn(rest, channel);
      assert Kept(Run(bs, cfg, attempts), On(attempts, channel)) == Kept(Run(bs', cfg, rest), On(rest, channel));
      ChannelsAreIsolated(bs', cfg, rest, channel);
    }
  }

  lemma {:induction false} NothingKept<S, T>(xs: seq<S>, ys: seq<T>, keep: seq<bool>)
    requires |xs| == |ys| == |keep| && Kept(xs, keep) == []
    ensures Kept(ys, keep) == []
  {
    if xs != [] {
      NothingKept(xs[1..], ys[1..], keep[1..]);
    }
  }

  lemma {:induction false} KeptMonotone(ts: seq<real>, keep: seq<bool>)
    requires |ts| == |keep| && Monotone(ts)
    ensures Monotone(Kept(ts, keep))
    ensures forall x :: x in Kept(ts, keep) ==> x in ts
  {
    if ts != [] {
      KeptMonotone(ts[1..], keep[1..]);
      var rest, all := Kept(ts[1..], keep[1..]), Kept(ts, keep);
      forall x | x in rest
        ensures x in ts && ts[0] <= x
      {
        assert x in ts[1..];
      }
      assert all == rest || all == [ts[0]] + rest;
      hide Kept;
      forall i, j | 0 <= i <= j < |all|
        ensures all[i] <= all[j]
      {
        if all != rest && i == 0 && j > 0 {
          assert all[j] in rest;
        }
      }
    }
  }

  /** The whole limiter, from start-up: on every channel the admissions are
      those of the greedy sliding-window limiter over that channel's attempts. */
  lemma LimiterIsSlidingWindowPerChannel(cfg: Config, attempts: seq<Attempt>, channel: string)
    requires cfg.window > 0.0 && channel != "" && Monotone(Times(attempts))
    ensures Greedy(Credits(PerSecondRate(cfg), TimesOn(attempts, channel)),
                   Kept(Run(map[], cfg, attempts), On(attempts, channel)), cfg.maxRequests)
  {
    var ts, oks := TimesOn(attempts, channel), Kept(Run(map[], cfg, attempts), On(attempts, channel));
    KeptMonotone(Times(attempts), On(attempts, channel));
    if ts == [] {
      NothingKept(Times(attempts), Run(map[], cfg, attempts), On(attempts, channel));
    } else {
      ChannelsAreIsolated(map[], cfg, attempts, channel);
      BucketIsSlidingWindow(cfg, ts, oks);
    }
  }
}
