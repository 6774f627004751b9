/** RFC 3339 timestamps as text, and why comparing the text compares the
    instants (crates/storage-sqlite/src/lib.rs, crates/cost/src/lib.rs:167).
    Rendering is taken as the program's date library does it: UTC, four-digit
    years, the shortest exact fraction of 0, 3, 6 or 9 digits, `+00:00`. */
module Timestamps {
  import opened Calendar

  const NANOS: nat := 1_000_000_000

  /** Nanoseconds since 0000-01-01T00:00:00Z. */
  type Instant = nat

  function DayOf(t: Instant): nat {
    t / NANOS / DAY
  }

  function SecondOfDay(t: Instant): nat {
    t / NANOS % DAY
  }

  /** Years 0000 to 9999, the ones that render with four digits. */
  predicate InRange(t: Instant) {
    DateOf(DayOf(t)).year <= 9999
  }

  // ---------------------------------------------------------------------
  // Text
  // ---------------------------------------------------------------------

  /** SQLite's BINARY collation on ASCII text. */
  predicate Less(a: string, b: string) {
    if b == [] then false
    else if a == [] then true
    else a[0] < b[0] || (a[0] == b[0] && Less(a[1..], b[1..]))
  }

  function Digit(n: nat): char
    requires n < 10
  {
    ('0' as int + n) as char
  }

  function Digits(n: nat, width: nat): (s: string)
    ensures |s| == width
  {
    if width == 0 then "" else Digits(n / 10, width - 1) + [Digit(n % 10)]
  }

  /** A fixed-width number and its separator, before the rest. */
  function Field(n: nat, width: nat, sep: char, rest: string): string {
    Digits(n, width) + [sep] + rest
  }

  function Fraction(nanos: nat): string {
    if nanos == 0 then ""
    else if nanos % 1_000_000 == 0 then "." + Digits(nanos / 1_000_000, 3)
    else if nanos % 1000 == 0 then "." + Digits(nanos / 1000, 6)
    else "." + Digits(nanos, 9)
  }

  const UTC: string := "+00:00"

  function Render(t: Instant): string {
    var d, s := DateOf(DayOf(t)), SecondOfDay(t);
    Field(d.year, 4, '-', Field(d.month, 2, '-', Field(d.day, 2, 'T',
      Field(s / 3600, 2, ':', Field(s / 60 % 60, 2, ':',
        Digits(s % 60, 2) + (Fraction(t % NANOS) + UTC))))))
  }

  // ---------------------------------------------------------------------
  // Order of fixed-width numbers
  // ---------------------------------------------------------------------

  lemma {:induction false} LessConcat(p: string, q: string, s: string, t: string)
    requires |p| == |q|
    ensures Less(p + s, q + t) <==> Less(p, q) || (p == q && Less(s, t))
  {
    if p == [] {
      assert p + s == s && q + t == t;
    } else {
      LessConcat(p[1..], q[1..], s, t);
      assert (p + s)[1..] == p[1..] + s && (q + t)[1..] == q[1..] + t;
      assert p == [p[0]] + p[1..] && q == [q[0]] + q[1..];
    }
  }

  lemma {:induction false} Irreflexive(p: string)
    ensures !Less(p, p)
  {
    if p != [] {
      Irreflexive(p[1..]);
    }
  }

  function Pow10(k: nat): nat {
    if k == 0 then 1 else 10 * Pow10(k - 1)
  }

  lemma {:induction false} DigitsOrder(a: nat, b: nat, width: nat)
    requires a < Pow10(width) && b < Pow10(width)
    ensures Less(Digits(a, width), Digits(b, width)) <==> a < b
    ensures Digits(a, width) == Digits(b, width) <==> a == b
  {
    if width > 0 {
      DigitsOrder(a / 10, b / 10, width - 1);
      var p, q, x, y := Digits(a / 10, width - 1), Digits(b / 10, width - 1), [Digit(a % 10)], [Digit(b % 10)];
      LessConcat(p, q, x, y);
      assert Less(x, y) <==> a % 10 < b % 10;
      assert Digits(a, width) == p + x && Digits(b, width) == q + y;
      assert (p + x)[..|p|] == p && (q + y)[..|p|] == q;
      assert (p + x)[|p|..] == x && (q + y)[|p|..] == y;
    }
  }

  lemma FieldOrder(a: nat, b: nat, width: nat, sep: char, r: string, s: string)
    requires a < Pow10(width) && b < Pow10(width)
    ensures Less(Field(a, width, sep, r), Field(b, width, sep, s)) <==> a < b || (a == b && Less(r, s))
  {
    DigitsOrder(a, b, width);
    LessConcat(Digits(a, width) + [sep], Digits(b, width) + [sep], r, s);
    LessConcat(Digits(a, width), Digits(b, width), [sep], [sep]);
    Irreflexive([sep]);
    assert (Digits(a, width) + [sep])[..width] == Digits(a, width);
    assert (Digits(b, width) + [sep])[..width] == Digits(b, width);
  }

  lemma Widths()
    ensures Pow10(2) == 100 && Pow10(3) == 1000 && Pow10(4) == 10_000
  {
    assert Pow10(1) == 10;
  }

  // ---------------------------------------------------------------------
  // Order of fractions with different digit counts
  // ---------------------------------------------------------------------

  lemma SplitDigits(n: nat, width: nat)
    ensures Digits(n, width + 3) == Digits(n / 1000, width) + Digits(n % 1000, 3)
  {
    assert n / 10 / 10 / 10 == n / 1000;
    assert n % 1000 / 10 / 10 == n / 10 / 10 % 10;
    assert n % 1000 / 10 % 10 == n / 10 % 10;
    assert n % 1000 % 10 == n % 10;
    assert Digits(n % 1000, 3) == [Digit(n / 10 / 10 % 10)] + [Digit(n / 10 % 10)] + [Digit(n % 10)] by {
      var m := n % 1000;
      assert Digits(m / 10 / 10, 1) == Digits(m / 10 / 10 / 10, 0) + [Digit(m / 10 / 10 % 10)];
      assert Digits(m / 10, 2) == Digits(m / 10 / 10, 1) + [Digit(m / 10 % 10)];
      assert Digits(m, 3) == Digits(m / 10, 2) + [Digit(m % 10)];
    }
    assert Digits(n, width + 3) == Digits(n / 10, width + 2) + [Digit(n % 10)];
    assert Digits(n / 10, width + 2) == Digits(n / 10 / 10, width + 1) + [Digit(n / 10 % 10)];
    assert Digits(n / 10 / 10, width + 1) == Digits(n / 10 / 10 / 10, width) + [Digit(n / 10 / 10 % 10)];
  }

  /** What follows the dot, in groups of three digits: the zone when nothing
      is left, one more group and the rest otherwise. */
  function Last3(v: nat): string {
    if v == 0 then UTC else Digits(v, 3) + UTC
  }

  function Last6(v: nat): string {
    if v == 0 then UTC else Digits(v / 1000, 3) + Last3(v % 1000)
  }

  function Last9(v: nat): string {
    if v == 0 then UTC else Digits(v / 1_000_000, 3) + Last6(v % 1_000_000)
  }

  lemma Groups(nanos: nat)
    requires nanos < NANOS
    ensures var g1, g2, r2 := nanos / 1_000_000, nanos % 1_000_000 / 1000, nanos % 1_000_000 % 1000;
            && nanos / 1000 / 1000 == g1 && nanos / 1000 % 1000 == g2 && nanos % 1000 == r2
            && (nanos % 1_000_000 == 0 <==> g2 == 0 && r2 == 0)
            && g1 < 1000 && g2 < 1000
  {
    var g1, g2, r2 := nanos / 1_000_000, nanos % 1_000_000 / 1000, nanos % 1_000_000 % 1000;
    assert nanos == 1000 * (1000 * g1 + g2) + r2;
  }

  /** A fraction is its leading dot and its groups of three. */
  lemma FractionIsGroups(nanos: nat)
    requires nanos < NANOS
    ensures Fraction(nanos) + UTC == if nanos == 0 then UTC else ['.'] + Last9(nanos)
  {
    hide Digits;
    var g1, r1 := nanos / 1_000_000, nanos % 1_000_000;
    var g2, r2 := r1 / 1000, r1 % 1000;
    Groups(nanos);
    if nanos > 0 {
      if r1 == 0 {
        assert Fraction(nanos) + UTC == ['.'] + (Digits(g1, 3) + UTC);
      } else if r2 == 0 {
        SplitDigits(nanos / 1000, 3);
        assert Fraction(nanos) + UTC == ['.'] + (Digits(g1, 3) + (Digits(g2, 3) + UTC));
      } else {
        SplitDigits(nanos, 6);
        SplitDigits(nanos / 1000, 3);
        assert Fraction(nanos) + UTC == ['.'] + (Digits(g1, 3) + (Digits(g2, 3) + (Digits(r2, 3) + UTC)));
      }
    }
  }

  /** One more group: the zone comes before any digit, equal groups leave the
      order to what follows. */
  lemma GroupOrder(x: nat, y: nat, s: string, t: string)
    requires x < 1000 && y < 1000
    ensures Less(Digits(x, 3) + s, Digits(y, 3) + t) <==> x < y || (x == y && Less(s, t))
    ensures Less(UTC, Digits(x, 3) + s) && !Less(Digits(x, 3) + s, UTC)
  {
    Widths();
    DigitsOrder(x, y, 3);
    LessConcat(Digits(x, 3), Digits(y, 3), s, t);
    LeadIsDigit(x, 3);
    assert (Digits(x, 3) + s)[0] == Digits(x, 3)[0] > UTC[0];
  }

  lemma {:induction false} LeadIsDigit(n: nat, width: nat)
    requires width > 0
    ensures '0' <= Digits(n, width)[0] <= '9'
  {
    if width > 1 {
      LeadIsDigit(n / 10, width - 1);
    }
  }

  lemma Last3Order(a: nat, b: nat)
    requires a < 1000 && b < 1000
    ensures Less(Last3(a), Last3(b)) <==> a < b
  {
    Irreflexive(UTC);
    GroupOrder(a, b, UTC, UTC);
    GroupOrder(b, a, UTC, UTC);
  }

  lemma Last6Order(a: nat, b: nat)
    requires a < 1_000_000 && b < 1_000_000
    ensures Less(Last6(a), Last6(b)) <==> a < b
  {
    hide Last3;
    Irreflexive(UTC);
    Last3Order(a % 1000, b % 1000);
    GroupOrder(a / 1000, b / 1000, Last3(a % 1000), Last3(b % 1000));
    GroupOrder(b / 1000, a / 1000, Last3(b % 1000), Last3(a % 1000));
  }

  /** More digits are a later time. */
  lemma Last9Order(a: nat, b: nat)
    requires a < NANOS && b < NANOS
    ensures Less(Last9(a), Last9(b)) <==> a < b
  {
    hide Last6;
    Irreflexive(UTC);
    Last6Order(a % 1_000_000, b % 1_000_000);
    GroupOrder(a / 1_000_000, b / 1_000_000, Last6(a % 1_000_000), Last6(b % 1_000_000));
    GroupOrder(b / 1_000_000, a / 1_000_000, Last6(b % 1_000_000), Last6(a % 1_000_000));
  }

  lemma {:induction false} FractionOrder(a: nat, b: nat)
    requires a < NANOS && b < NANOS
    ensures Less(Fraction(a) + UTC, Fraction(b) + UTC) <==> a < b
  {
    hide Last9, Fraction;
    FractionIsGroups(a);
    FractionIsGroups(b);
    Irreflexive(UTC);
    if a > 0 && b > 0 {
      Last9Order(a, b);
      LessConcat(['.'], ['.'], Last9(a), Last9(b));
      Irreflexive(['.']);
    }
  }

  // ---------------------------------------------------------------------
  // The theorem
  // ---------------------------------------------------------------------

  lemma ClockOrder(s: nat, t: nat)
    requires s < DAY && t < DAY
    ensures s < t <==> || s / 3600 < t / 3600
                       || (s / 3600 == t / 3600 && s / 60 % 60 < t / 60 % 60)
                       || (s / 3600 == t / 3600 && s / 60 % 60 == t / 60 % 60 && s % 60 < t % 60)
  {
    assert s == 3600 * (s / 3600) + 60 * (s / 60 % 60) + s % 60;
    assert t == 3600 * (t / 3600) + 60 * (t / 60 % 60) + t % 60;
  }

  /** The text after the date orders as the time of day. */
  lemma TimeTextOrder(s: nat, t: nat, m: nat, n: nat)
    requires s < DAY && t < DAY && m < NANOS && n < NANOS
    ensures Less(TimeText(s, m), TimeText(t, n)) <==> s < t || (s == t && m < n)
  {
    hide Fraction, Field, Digits, Less;
    Widths();
    var x, y := Fraction(m) + UTC, Fraction(n) + UTC;
    FractionOrder(m, n);
    DigitsOrder(s % 60, t % 60, 2);
    LessConcat(Digits(s % 60, 2), Digits(t % 60, 2), x, y);
    var u, v := Digits(s % 60, 2) + x, Digits(t % 60, 2) + y;
    FieldOrder(s / 60 % 60, t / 60 % 60, 2, ':', u, v);
    FieldOrder(s / 3600, t / 3600, 2, ':', Field(s / 60 % 60, 2, ':', u), Field(t / 60 % 60, 2, ':', v));
    ClockOrder(s, t);
    ClockOrder(t, s);
  }

  function TimeText(s: nat, nanos: nat): string {
    Field(s / 3600, 2, ':', Field(s / 60 % 60, 2, ':', Digits(s % 60, 2) + (Fraction(nanos) + UTC)))
  }

  /** Text order is time order, whatever the numbers of fractional digits. */
  lemma {:induction false} TextOrderIsTimeOrder(a: Instant, b: Instant)
    requires InRange(a) && InRange(b)
    ensures Less(Render(a), Render(b)) <==> a < b
  {
    hide Fraction, Field, Digits, Less, DateOf, TimeText;
    Widths();
    var x, y := TimeText(SecondOfDay(a), a % NANOS), TimeText(SecondOfDay(b), b % NANOS);
    var d, e := DateOf(DayOf(a)), DateOf(DayOf(b));
    TimeTextOrder(SecondOfDay(a), SecondOfDay(b), a % NANOS, b % NANOS);
    FieldOrder(d.day, e.day, 2, 'T', x, y);
    FieldOrder(d.month, e.month, 2, '-', Field(d.day, 2, 'T', x), Field(e.day, 2, 'T', y));
    FieldOrder(d.year, e.year, 4, '-',
               Field(d.month, 2, '-', Field(d.day, 2, 'T', x)), Field(e.month, 2, '-', Field(e.day, 2, 'T', y)));
    RenderIsDateAndTime(a);
    RenderIsDateAndTime(b);
    DateOrderIsDayOrder(DayOf(a), DayOf(b));
    InstantOrder(a, b);
  }

  /** Instants order by day, then second of the day, then fraction. */
  lemma InstantOrder(a: Instant, b: Instant)
    ensures a < b <==> || DayOf(a) < DayOf(b)
                       || (DayOf(a) == DayOf(b) && SecondOfDay(a) < SecondOfDay(b))
                       || (DayOf(a) == DayOf(b) && SecondOfDay(a) == SecondOfDay(b) && a % NANOS < b % NANOS)
  {
    assert a == NANOS * (DAY * DayOf(a) + SecondOfDay(a)) + a % NANOS;
    assert b == NANOS * (DAY * DayOf(b) + SecondOfDay(b)) + b % NANOS;
  }

  lemma RenderIsDateAndTime(t: Instant)
    ensures var d := DateOf(DayOf(t));
            Render(t) == Field(d.year, 4, '-', Field(d.month, 2, '-', Field(d.day, 2, 'T',
                               TimeText(SecondOfDay(t), t % NANOS))))
  {}

  /** The text of the epoch's day: its date, and then the time. */
  lemma OnEpochDay(s: nat, nanos: nat)
    requires s < DAY && nanos < NANOS
    ensures Render((EPOCH_DAY * DAY + s) * NANOS + nanos) == "1970-01-01T" + TimeText(s, nanos)
  {
    hide DateOf, TimeText, Digits, Fraction;
    var t := (EPOCH_DAY * DAY + s) * NANOS + nanos;
    assert DayOf(t) == EPOCH_DAY && SecondOfDay(t) == s && t % NANOS == nanos;
    EpochDay(EPOCH_DAY);
    RenderIsDateAndTime(t);
    YearDigits();
    TwoDigits(1);
    assert "1970" + ['-'] + ("01" + ['-'] + ("01" + ['T'] + TimeText(s, nanos))) == "1970-01-01T" + TimeText(s, nanos);
  }

  /** The text of the time 01:01:01, before its fraction and zone. */
  lemma TimeTextForm(nanos: nat)
    ensures TimeText(3_661, nanos) == "01:01:01" + (Fraction(nanos) + UTC)
  {
    hide Digits, Fraction;
    TwoDigits(1);
    var rest := Fraction(nanos) + UTC;
    assert "01" + [':'] + ("01" + [':'] + ("01" + rest)) == "01:01:01" + rest;
  }

  /** The shortest exact fraction of 0, 3, 6 or 9 digits, and the zone. */
  lemma FractionForms(nanos: nat)
    ensures nanos == 0 ==> Fraction(nanos) + UTC == "+00:00"
    ensures nanos > 0 && nanos % 1_000_000 == 0 ==> Fraction(nanos) + UTC == "." + Digits(nanos / 1_000_000, 3) + "+00:00"
    ensures nanos % 1_000_000 != 0 && nanos % 1000 == 0 ==> Fraction(nanos) + UTC == "." + Digits(nanos / 1000, 6) + "+00:00"
    ensures nanos % 1_000_000 != 0 && nanos % 1000 != 0 ==> Fraction(nanos) + UTC == "." + Digits(nanos, 9) + "+00:00"
  {
    hide Digits;
  }

  lemma TwoDigits(n: nat)
    requires n < 100
    ensures Digits(n, 2) == [Digit(n / 10)] + [Digit(n % 10)]
  {
    OneDigit(n / 10);
  }

  lemma OneDigit(n: nat)
    requires n < 10
    ensures Digits(n, 1) == [Digit(n)]
  {
    assert Digits(n / 10, 0) == "";
  }

  lemma YearDigits()
    ensures Digits(1970, 4) == "1970"
  {
    TwoDigits(19);
    assert Digits(197, 3) == Digits(19, 2) + ['7'];
  }

  /** Distinct instants have distinct texts. */
  lemma TextDeterminesTime(a: Instant, b: Instant)
    requires InRange(a) && InRange(b)
    ensures Render(a) == Render(b) <==> a == b
  {
    TextOrderIsTimeOrder(a, b);
    TextOrderIsTimeOrder(b, a);
    Irreflexive(Render(a));
  }
}
