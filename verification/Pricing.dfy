/** Cost of a request under the pricing formulas (crates/cost/src/lib.rs:459-569),
    with reals for floats. */
module Pricing {
  import opened Common

  datatype Usage = Usage(input: nat, output: nat, cacheWrite: nat, cacheRead: nat, thinking: nat)

  /** Prices per million tokens; a missing one counts as zero. */
  datatype Rates = Rates(
    input: real, output: real, cacheWrite: Option<real>, cacheRead: Option<real>, thinking: Option<real>)

  datatype TierPrice = Token(rates: Rates) | PerItem(perUnit: real)

  /** `None` means no upper bound. */
  datatype Tier = Tier(upTo: Option<nat>, price: TierPrice)

  datatype Dimension = Tokens | Duration | Images

  datatype Formula =
    | PerToken(rates: Rates, currency: string)
    | Credits(inputRate: Option<real>, outputRate: Option<real>, perRequest: Option<real>)
    | CharBased(perMillionChars: real, outputMultiplier: Option<real>)
    | PerUnit(metric: Dimension, perUnit: real, unitCurrency: string)
    | Tiered(dimension: Dimension, tiers: seq<Tier>, tierCurrency: string)

  function OrElse(r: Option<real>, default: real): real {
    if r.Some? then r.value else default
  }

  function Millions(tokens: nat): real {
    tokens as real / 1_000_000.0
  }

  function PerTokenCost(u: Usage, r: Rates): real {
    Millions(u.input) * r.input + Millions(u.output) * r.output
    + Millions(u.cacheWrite) * OrElse(r.cacheWrite, 0.0)
    + Millions(u.cacheRead) * OrElse(r.cacheRead, 0.0)
    + Millions(u.thinking) * OrElse(r.thinking, 0.0)
  }

  predicate Covers(t: Tier, total: nat) {
    t.upTo == None || total <= t.upTo.value
  }

  /** The index of the first tier that covers `total`, or the number of tiers. */
  function TierFor(tiers: seq<Tier>, total: nat): (i: nat)
    ensures i <= |tiers|
    ensures i < |tiers| ==> Covers(tiers[i], total)
    ensures forall j :: 0 <= j < i ==> !Covers(tiers[j], total)
  {
    if tiers == [] || Covers(tiers[0], total) then 0
    else
      var i := 1 + TierFor(tiers[1..], total);
      assert forall j :: 1 <= j < i ==> tiers[j] == tiers[1..][j - 1];
      i
  }

  /** Cache and thinking tokens do not count towards the tier. */
  function Total(u: Usage): nat {
    u.input + u.output
  }

  function TieredCost(u: Usage, tiers: seq<Tier>): real {
    var i := TierFor(tiers, Total(u));
    if i < |tiers| && tiers[i].price.Token? then PerTokenCost(u, tiers[i].price.rates) else 0.0
  }

  function CalcCost(u: Usage, f: Formula): (real, string) {
    match f
    case PerToken(rates, currency) => (PerTokenCost(u, rates), currency)
    case Credits(input, output, perRequest) =>
      (Millions(u.input) * OrElse(input, 0.0) + Millions(u.output) * OrElse(output, 0.0) + OrElse(perRequest, 0.0),
       "credits")
    case CharBased(price, multiplier) =>
      ((u.input as real * 0.75 + u.output as real * 0.75 * OrElse(multiplier, 1.0)) / 1_000_000.0 * price, "CNY")
    case PerUnit(_, perUnit, currency) => (perUnit, currency)
    case Tiered(Tokens, tiers, currency) => (TieredCost(u, tiers), currency)
    case Tiered(_, _, currency) => (0.0, currency)
  }

  function Add(u: Usage, v: Usage): Usage {
    Usage(u.input + v.input, u.output + v.output, u.cacheWrite + v.cacheWrite, u.cacheRead + v.cacheRead,
          u.thinking + v.thinking)
  }

  lemma SplitTerm(a: nat, b: nat, r: real)
    ensures Millions(a + b) * r == Millions(a) * r + Millions(b) * r
  {
    assert Millions(a + b) == Millions(a) + Millions(b);
  }

  /** Per-token cost is additive in usage. */
  lemma {:induction false} PerTokenAdditive(u: Usage, v: Usage, r: Rates)
    ensures PerTokenCost(Add(u, v), r) == PerTokenCost(u, r) + PerTokenCost(v, r)
  {
    hide Millions, OrElse;
    SplitTerm(u.input, v.input, r.input);
    SplitTerm(u.output, v.output, r.output);
    SplitTerm(u.cacheWrite, v.cacheWrite, OrElse(r.cacheWrite, 0.0));
    SplitTerm(u.cacheRead, v.cacheRead, OrElse(r.cacheRead, 0.0));
    SplitTerm(u.thinking, v.thinking, OrElse(r.thinking, 0.0));
  }

  /** A million tokens of one kind cost that kind's rate; with additivity this
      determines the per-token cost of every usage. */
  lemma MillionCostsItsRate(r: Rates)
    ensures PerTokenCost(Usage(1_000_000, 0, 0, 0, 0), r) == r.input
    ensures PerTokenCost(Usage(0, 1_000_000, 0, 0, 0), r) == r.output
    ensures PerTokenCost(Usage(0, 0, 1_000_000, 0, 0), r) == OrElse(r.cacheWrite, 0.0)
    ensures PerTokenCost(Usage(0, 0, 0, 1_000_000, 0), r) == OrElse(r.cacheRead, 0.0)
    ensures PerTokenCost(Usage(0, 0, 0, 0, 1_000_000), r) == OrElse(r.thinking, 0.0)
  {}

  /** What a million tokens, or a request, costs by each untiered formula, and in
      which unit; tiers of any dimension but tokens cost nothing. */
  lemma UnitPrices(f: Formula)
    ensures var input, output, none := CalcCost(Usage(1_000_000, 0, 0, 0, 0), f), CalcCost(Usage(0, 1_000_000, 0, 0, 0), f),
                                       CalcCost(Usage(0, 0, 0, 0, 0), f);
            match f
            case PerToken(rates, currency) =>
              && input == (rates.input, currency) && output == (rates.output, currency) && none == (0.0, currency)
              && CalcCost(Usage(0, 0, 1_000_000, 0, 0), f) == (OrElse(rates.cacheWrite, 0.0), currency)
              && CalcCost(Usage(0, 0, 0, 1_000_000, 0), f) == (OrElse(rates.cacheRead, 0.0), currency)
              && CalcCost(Usage(0, 0, 0, 0, 1_000_000), f) == (OrElse(rates.thinking, 0.0), currency)
            case Credits(inputRate, outputRate, perRequest) =>
              && input == (OrElse(inputRate, 0.0) + OrElse(perRequest, 0.0), "credits")
              && output == (OrElse(outputRate, 0.0) + OrElse(perRequest, 0.0), "credits")
              && none == (OrElse(perRequest, 0.0), "credits")
            case CharBased(_, _) => input.1 == output.1 == none.1 == "CNY"
            case PerUnit(_, perUnit, currency) => input == output == none == (perUnit, currency)
            case Tiered(dimension, _, currency) => dimension != Tokens ==> input == output == none == (0.0, currency)
  {
    match f {
      case PerToken(rates, _) => MillionCostsItsRate(rates);
      case _ =>
    }
  }

  /** By characters a token counts as three quarters of one, an output token
      that times the multiplier, which defaults to one. */
  lemma CharPrices(price: real, multiplier: Option<real>)
    ensures var f := CharBased(price, multiplier);
            && CalcCost(Usage(1_000_000, 0, 0, 0, 0), f).0 == 0.75 * price
            && CalcCost(Usage(0, 1_000_000, 0, 0, 0), f).0 == 0.75 * OrElse(multiplier, 1.0) * price
            && CalcCost(Usage(0, 0, 0, 0, 0), f).0 == 0.0
  {
    var m := OrElse(multiplier, 1.0);
    CharTerm(1_000_000, 0, m);
    CharTerm(0, 1_000_000, m);
    CharTerm(0, 0, m);
  }

  lemma CharTerm(input: nat, output: nat, m: real)
    requires (input == 0 || input == 1_000_000) && (output == 0 || output == 1_000_000) && (input == 0 || output == 0)
    ensures (input as real * 0.75 + output as real * 0.75 * m) / 1_000_000.0 ==
            (if input > 0 then 0.75 else if output > 0 then 0.75 * m else 0.0)
  {
    if output > 0 {
      assert output as real * 0.75 * m == 1_000_000.0 * (0.75 * m);
    } else {
      assert output as real * 0.75 * m == 0.0;
    }
  }

  /** Tiered by tokens, a usage costs what its tier's own formula charges: that
      of the first tier whose bound its input and output tokens do not exceed;
      nothing if that tier is priced by the item, or if there is none. */
  lemma TieredIsItsTier(u: Usage, tiers: seq<Tier>, currency: string, i: nat)
    requires i <= |tiers| && forall j :: 0 <= j < i ==> tiers[j].upTo.Some? && tiers[j].upTo.value < u.input + u.output
    requires i < |tiers| ==> tiers[i].upTo.None? || u.input + u.output <= tiers[i].upTo.value
    ensures CalcCost(u, Tiered(Tokens, tiers, currency)) ==
            if i < |tiers| && tiers[i].price.Token? then CalcCost(u, PerToken(tiers[i].price.rates, currency)) else (0.0, currency)
  {
    hide PerTokenCost;
    assert TierFor(tiers, Total(u)) == i;
  }

  // ---------------------------------------------------------------------
  // Tiers
  // ---------------------------------------------------------------------

  /** No rate of `a` is above that of `b`. */
  predicate AtMost(a: Rates, b: Rates) {
    && a.input <= b.input && a.output <= b.output
    && OrElse(a.cacheWrite, 0.0) <= OrElse(b.cacheWrite, 0.0)
    && OrElse(a.cacheRead, 0.0) <= OrElse(b.cacheRead, 0.0)
    && OrElse(a.thinking, 0.0) <= OrElse(b.thinking, 0.0)
  }

  const FREE: Rates := Rates(0.0, 0.0, None, None, None)

  /** A schedule of token prices that never rise with volume. */
  predicate VolumeDiscount(tiers: seq<Tier>) {
    && (forall i :: 0 <= i < |tiers| ==> tiers[i].price.Token? && AtMost(FREE, tiers[i].price.rates))
    && (forall i, j :: 0 <= i <= j < |tiers| ==> AtMost(tiers[j].price.rates, tiers[i].price.rates))
  }

  /** More tokens never select an earlier tier, in any order of bounds. */
  lemma {:induction false} TierMonotone(tiers: seq<Tier>, a: nat, b: nat)
    requires a <= b
    ensures TierFor(tiers, a) <= TierFor(tiers, b)
  {}

  lemma TermAtMost(tokens: nat, a: real, b: real)
    requires a <= b
    ensures Millions(tokens) * a <= Millions(tokens) * b
  {
    assert Millions(tokens) >= 0.0;
  }

  lemma CheaperRatesCostLess(u: Usage, a: Rates, b: Rates)
    requires AtMost(a, b)
    ensures PerTokenCost(u, a) <= PerTokenCost(u, b)
  {
    hide Millions, OrElse;
    TermAtMost(u.input, a.input, b.input);
    TermAtMost(u.output, a.output, b.output);
    TermAtMost(u.cacheWrite, OrElse(a.cacheWrite, 0.0), OrElse(b.cacheWrite, 0.0));
    TermAtMost(u.cacheRead, OrElse(a.cacheRead, 0.0), OrElse(b.cacheRead, 0.0));
    TermAtMost(u.thinking, OrElse(a.thinking, 0.0), OrElse(b.thinking, 0.0));
  }

  lemma FreeCostsNothing(u: Usage)
    ensures PerTokenCost(u, FREE) == 0.0
  {}

  /** In a volume-discount schedule a usage costs at least what it would at the
      rates of any tier from its own on. */
  lemma CostAtLaterTier(u: Usage, tiers: seq<Tier>, k: nat)
    requires VolumeDiscount(tiers) && TierFor(tiers, Total(u)) <= k < |tiers|
    ensures PerTokenCost(u, tiers[k].price.rates) <= TieredCost(u, tiers)
  {
    hide PerTokenCost, AtMost;
    CheaperRatesCostLess(u, tiers[k].price.rates, tiers[TierFor(tiers, Total(u))].price.rates);
  }

  lemma TieredNotNegative(u: Usage, tiers: seq<Tier>)
    requires VolumeDiscount(tiers)
    ensures TieredCost(u, tiers) >= 0.0
  {
    hide PerTokenCost, AtMost;
    var i := TierFor(tiers, Total(u));
    if i < |tiers| {
      CheaperRatesCostLess(u, FREE, tiers[i].price.rates);
      FreeCostsNothing(u);
    }
  }

  /** Volume-discount pricing is subadditive: splitting a request in two never
      makes it cheaper. */
  lemma {:induction false} TieredSubadditive(u: Usage, v: Usage, tiers: seq<Tier>)
    requires VolumeDiscount(tiers)
    ensures TieredCost(Add(u, v), tiers) <= TieredCost(u, tiers) + TieredCost(v, tiers)
  {
    hide PerTokenCost, AtMost;
    var k := TierFor(tiers, Total(Add(u, v)));
    TieredNotNegative(u, tiers);
    TieredNotNegative(v, tiers);
    if k < |tiers| {
      TierMonotone(tiers, Total(u), Total(Add(u, v)));
      TierMonotone(tiers, Total(v), Total(Add(u, v)));
      CostAtLaterTier(u, tiers, k);
      CostAtLaterTier(v, tiers, k);
      PerTokenAdditive(u, v, tiers[k].price.rates);
    }
  }

  /** Every formula but the tiered one charges two requests what it charges
      their sum, plus its per-request part once more. */
  lemma {:induction false} FlatFormulasAdditive(u: Usage, v: Usage, f: Formula)
    requires !f.Tiered?
    ensures var fixed := (match f case Credits(_, _, p) => OrElse(p, 0.0) case PerUnit(_, p, _) => p case _ => 0.0);
            CalcCost(Add(u, v), f).0 == CalcCost(u, f).0 + CalcCost(v, f).0 - fixed
  {
    hide PerTokenCost, TieredCost, Millions, OrElse;
    match f {
      case PerToken(rates, _) => PerTokenAdditive(u, v, rates);
      case Credits(input, output, _) =>
        SplitTerm(u.input, v.input, OrElse(input, 0.0));
        SplitTerm(u.output, v.output, OrElse(output, 0.0));
      case CharBased(price, multiplier) => CharsAdditive(u, v, price, OrElse(multiplier, 1.0));
      case PerUnit(_, _, _) =>
    }
  }

  lemma CharsAdditive(u: Usage, v: Usage, price: real, m: real)
    ensures ((u.input + v.input) as real * 0.75 + (u.output + v.output) as real * 0.75 * m) / 1_000_000.0 * price
            == (u.input as real * 0.75 + u.output as real * 0.75 * m) / 1_000_000.0 * price
               + (v.input as real * 0.75 + v.output as real * 0.75 * m) / 1_000_000.0 * price
  {
    var a, b := u.input as real * 0.75 + u.output as real * 0.75 * m, v.input as real * 0.75 + v.output as real * 0.75 * m;
    assert (u.input + v.input) as real * 0.75 + (u.output + v.output) as real * 0.75 * m == a + b;
    assert (a + b) / 1_000_000.0 * price == a / 1_000_000.0 * price + b / 1_000_000.0 * price;
  }

  // ---------------------------------------------------------------------
  // When splitting a request can pay
  // ---------------------------------------------------------------------

  ghost predicate Subadditive(tiers: seq<Tier>) {
    forall u, v :: TieredCost(Add(u, v), tiers) <= TieredCost(u, tiers) + TieredCost(v, tiers)
  }

  /** The first tier without a bound is `l`: it takes whatever the tiers before
      it do not, and no tier after it is ever chosen. */
  ghost predicate EndsIn(tiers: seq<Tier>, l: nat) {
    && l < |tiers| && tiers[l].upTo == None && tiers[l].price.Token?
    && forall i :: 0 <= i < l ==> tiers[i].upTo.Some?
  }

  /** A number of tokens that no tier before `l` covers. */
  function Beyond(tiers: seq<Tier>, l: nat): (total: nat)
    requires l <= |tiers|
    ensures forall i :: 0 <= i < l && tiers[i].upTo.Some? ==> tiers[i].upTo.value < total
  {
    if l == 0 then 0
    else
      var total := Beyond(tiers, l - 1);
      if tiers[l - 1].upTo.Some? && tiers[l - 1].upTo.value >= total then tiers[l - 1].upTo.value + 1 else total
  }

  lemma LastTierFrom(tiers: seq<Tier>, l: nat, total: nat)
    requires EndsIn(tiers, l) && total >= Beyond(tiers, l)
    ensures TierFor(tiers, total) == l
  {}

  /** Where a schedule is subadditive, any usage costs at its own tier at least
      what it would at the rates of the last. */
  lemma SubadditiveAtLast(tiers: seq<Tier>, l: nat, u: Usage)
    requires Subadditive(tiers) && EndsIn(tiers, l)
    ensures PerTokenCost(u, tiers[l].price.rates) <= TieredCost(u, tiers)
  {
    hide PerTokenCost;
    var v := Usage(Beyond(tiers, l), 0, 0, 0, 0);
    LastTierFrom(tiers, l, Total(v));
    LastTierFrom(tiers, l, Total(Add(u, v)));
    PerTokenAdditive(u, v, tiers[l].price.rates);
    assert TieredCost(Add(u, v), tiers) <= TieredCost(u, tiers) + TieredCost(v, tiers);
  }

  /** What `k` million tokens cost. */
  function Times(k: nat, rate: real): real {
    k as real * rate
  }

  /** Usages of some input tokens and `k` million of another kind. */
  lemma ManyTokens(total: nat, k: nat, r: Rates)
    ensures PerTokenCost(Usage(total, 0, k * 1_000_000, 0, 0), r) == Millions(total) * r.input + Times(k, OrElse(r.cacheWrite, 0.0))
    ensures PerTokenCost(Usage(total, 0, 0, k * 1_000_000, 0), r) == Millions(total) * r.input + Times(k, OrElse(r.cacheRead, 0.0))
    ensures PerTokenCost(Usage(total, 0, 0, 0, k * 1_000_000), r) == Millions(total) * r.input + Times(k, OrElse(r.thinking, 0.0))
  {
    hide OrElse;
    assert Millions(k * 1_000_000) == k as real && Millions(0) == 0.0;
  }

  lemma OneKind(total: nat, r: Rates)
    ensures PerTokenCost(Usage(total, 0, 0, 0, 0), r) == Millions(total) * r.input
    ensures PerTokenCost(Usage(0, total, 0, 0, 0), r) == Millions(total) * r.output
  {
    hide OrElse;
    assert Millions(0) == 0.0;
  }

  /** A cost that grows with `k` at a higher rate overtakes in the end. */
  lemma NoOvertaking(c: real, a: real, b: real)
    requires c >= 0.0 && forall k: nat :: Times(k, a) <= c + Times(k, b)
    ensures a <= b
  {
    if a > b {
      var d := a - b;
      var k: nat := (c / d).Floor + 1;
      assert Times(k, a) <= c + Times(k, b);
      assert Times(k, a) - Times(k, b) == k as real * d;
      Grow(c / d, k as real, d);
    }
  }

  lemma Grow(x: real, y: real, d: real)
    requires d > 0.0 && x < y
    ensures x * d < y * d
  {}

  lemma PositiveFactor(m: real, a: real, b: real)
    requires m > 0.0 && m * a <= m * b
    ensures a <= b
  {
    if b < a {
      Grow(b, a, m);
    }
  }

  /** Subadditivity forces the rates of the last tier to be at most those of
      every tier that some positive number of tokens selects. */
  lemma SubadditiveForcesLastRates(tiers: seq<Tier>, l: nat, total: nat)
    requires Subadditive(tiers) && EndsIn(tiers, l) && total >= 1
    requires var i := TierFor(tiers, total); i < |tiers| && tiers[i].price.Token?
    ensures AtMost(tiers[l].price.rates, tiers[TierFor(tiers, total)].price.rates)
  {
    hide PerTokenCost, OrElse, Millions, Subadditive, Times, TieredCost, InputGap;
    var last, own := tiers[l].price.rates, tiers[TierFor(tiers, total)].price.rates;
    MainRatesAtLast(tiers, l, total);
    var c := InputGap(total, last, own);
    forall k: nat
      ensures Times(k, OrElse(last.cacheWrite, 0.0)) <= c + Times(k, OrElse(own.cacheWrite, 0.0))
      ensures Times(k, OrElse(last.cacheRead, 0.0)) <= c + Times(k, OrElse(own.cacheRead, 0.0))
      ensures Times(k, OrElse(last.thinking, 0.0)) <= c + Times(k, OrElse(own.thinking, 0.0))
    {
      ManyAtLast(tiers, l, total, k);
    }
    NoOvertaking(c, OrElse(last.cacheWrite, 0.0), OrElse(own.cacheWrite, 0.0));
    NoOvertaking(c, OrElse(last.cacheRead, 0.0), OrElse(own.cacheRead, 0.0));
    NoOvertaking(c, OrElse(last.thinking, 0.0), OrElse(own.thinking, 0.0));
  }

  lemma MainRatesAtLast(tiers: seq<Tier>, l: nat, total: nat)
    requires Subadditive(tiers) && EndsIn(tiers, l) && total >= 1
    requires var i := TierFor(tiers, total); i < |tiers| && tiers[i].price.Token?
    ensures var last, own := tiers[l].price.rates, tiers[TierFor(tiers, total)].price.rates;
            last.input <= own.input && last.output <= own.output && InputGap(total, last, own) >= 0.0
  {
    hide PerTokenCost, Millions, Subadditive;
    var last, own := tiers[l].price.rates, tiers[TierFor(tiers, total)].price.rates;
    PositiveMillions(total);
    OneKind(total, last);
    OneKind(total, own);
    SubadditiveAtLast(tiers, l, Usage(total, 0, 0, 0, 0));
    SubadditiveAtLast(tiers, l, Usage(0, total, 0, 0, 0));
    PositiveFactor(Millions(total), last.input, own.input);
    PositiveFactor(Millions(total), last.output, own.output);
  }

  /** What the input tokens cost more at `own` than at `last`. */
  function InputGap(total: nat, last: Rates, own: Rates): real {
    Millions(total) * own.input - Millions(total) * last.input
  }

  lemma ManyAtLast(tiers: seq<Tier>, l: nat, total: nat, k: nat)
    requires Subadditive(tiers) && EndsIn(tiers, l)
    requires var i := TierFor(tiers, total); i < |tiers| && tiers[i].price.Token?
    ensures var last, own := tiers[l].price.rates, tiers[TierFor(tiers, total)].price.rates;
            var c := InputGap(total, last, own);
            && Times(k, OrElse(last.cacheWrite, 0.0)) <= c + Times(k, OrElse(own.cacheWrite, 0.0))
            && Times(k, OrElse(last.cacheRead, 0.0)) <= c + Times(k, OrElse(own.cacheRead, 0.0))
            && Times(k, OrElse(last.thinking, 0.0)) <= c + Times(k, OrElse(own.thinking, 0.0))
  {
    hide PerTokenCost, OrElse, Millions, Subadditive, Times;
    ManyTokens(total, k, tiers[l].price.rates);
    ManyTokens(total, k, tiers[TierFor(tiers, total)].price.rates);
    SubadditiveAtLast(tiers, l, Usage(total, 0, k * 1_000_000, 0, 0));
    SubadditiveAtLast(tiers, l, Usage(total, 0, 0, k * 1_000_000, 0));
    SubadditiveAtLast(tiers, l, Usage(total, 0, 0, 0, k * 1_000_000));
  }

  lemma PositiveMillions(total: nat)
    requires total >= 1
    ensures Millions(total) > 0.0
  {}

  /** A schedule of two token tiers never rewards splitting a request exactly
      when no rate of the second is above that of the first. */
  lemma TwoTierSubadditiveIff(bound: nat, first: Rates, second: Rates)
    requires bound >= 1
    ensures Subadditive([Tier(Some(bound), Token(first)), Tier(None, Token(second))]) <==> AtMost(second, first)
  {
    hide PerTokenCost, AtMost;
    var tiers := [Tier(Some(bound), Token(first)), Tier(None, Token(second))];
    TwoTiers(bound, first, second);
    if Subadditive(tiers) {
      SubadditiveForcesLastRates(tiers, 1, 1);
    }
    if AtMost(second, first) {
      forall u, v
        ensures TieredCost(Add(u, v), tiers) <= TieredCost(u, tiers) + TieredCost(v, tiers)
      {
        PerTokenAdditive(u, v, first);
        PerTokenAdditive(u, v, second);
        CheaperRatesCostLess(u, second, first);
        CheaperRatesCostLess(v, second, first);
      }
    }
  }

  lemma TwoTiers(bound: nat, first: Rates, second: Rates)
    ensures var tiers := [Tier(Some(bound), Token(first)), Tier(None, Token(second))];
            && EndsIn(tiers, 1)
            && (forall total: nat :: TierFor(tiers, total) == if total <= bound then 0 else 1)
            && (forall u :: TieredCost(u, tiers) == PerTokenCost(u, if Total(u) <= bound then first else second))
  {
    hide PerTokenCost;
    var tiers := [Tier(Some(bound), Token(first)), Tier(None, Token(second))];
    assert !tiers[0].upTo.None? && tiers[1].upTo.None?;
    forall total: nat
      ensures TierFor(tiers, total) == if total <= bound then 0 else 1
    {
      assert Covers(tiers[0], total) <==> total <= bound;
      assert Covers(tiers[1], total);
    }
  }

  /** A schedule on which splitting pays: with a dearer second tier one request of 20
      input tokens costs more than two of 10. */
  lemma {:induction false} RisingRatesAreNotSubadditive()
    ensures var tiers := [Tier(Some(10), Token(Rates(1.0, 0.0, None, None, None))),
                          Tier(None, Token(Rates(2.0, 0.0, None, None, None)))];
            var u := Usage(10, 0, 0, 0, 0);
            TieredCost(Add(u, u), tiers) > TieredCost(u, tiers) + TieredCost(u, tiers)
  {
    var cheap, dear := Tier(Some(10), Token(Rates(1.0, 0.0, None, None, None))),
                       Tier(None, Token(Rates(2.0, 0.0, None, None, None)));
    var tiers := [cheap, dear];
    assert !Covers(tiers[0], 20) && Covers(tiers[1], 20) && Covers(tiers[0], 10);
    assert TierFor(tiers, 20) == 1 && TierFor(tiers, 10) == 0;
  }
}
