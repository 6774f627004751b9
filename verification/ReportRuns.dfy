/** Exactly-once accounting of an append-only report file over whole runs of
    reads (crates/core/src/report.rs). */
module ReportRuns {
  import opened Common
  import opened ReportReader

  /** The contents seen by successive reads of one file that only grows. */
  ghost predicate Growing(views: seq<Bytes>, final: Bytes) {
    && (forall i :: 0 <= i < |views| ==> views[i] <= final)
    && (forall i, j :: 0 <= i <= j < |views| ==> |views[i]| <= |views[j]|)
  }

  /** The cursor and the entries counted after a run of reads. */
  function Cursor(parse: Parser, views: seq<Bytes>): nat {
    if views == [] then 0
    else NextCursor(parse, Cursor(parse, views[..|views| - 1]), views[|views| - 1])
  }

  function Counted(parse: Parser, views: seq<Bytes>): seq<Entry> {
    if views == [] then []
    else
      var front := views[..|views| - 1];
      Counted(parse, front) + Fresh(parse, Cursor(parse, front), views[|views| - 1])
  }

  /** Whether read `j` of the run counted something. */
  predicate Advances(parse: Parser, views: seq<Bytes>, j: nat)
    requires j < |views|
  {
    Fresh(parse, Cursor(parse, views[..j]), views[j]) != []
  }

  ghost predicate Sorted(es: seq<Entry>, lo: nat, hi: nat) {
    && (forall a :: 0 <= a < |es| ==> lo <= es[a].start < hi)
    && (forall a, b :: 0 <= a < b < |es| ==> es[a].start < es[b].start)
  }

  lemma {:induction false} EntriesSorted(parse: Parser, c: Bytes, i: nat, lo: nat, hi: nat)
    ensures Sorted(EntriesIn(parse, c, i, lo, hi), if i > lo then i else lo, hi)
    decreases |c| - i
  {
    hide EntriesIn, Line;
    if i < |c| && i < hi {
      Unfold(parse, c, i, lo, hi);
      EntriesSorted(parse, c, LineEnd(c, i) + 1, lo, hi);
    } else {
      NoneFrom(parse, c, i, lo, hi);
    }
  }

  lemma NoneFrom(parse: Parser, c: Bytes, i: nat, lo: nat, hi: nat)
    requires i >= |c| || i >= hi
    ensures EntriesIn(parse, c, i, lo, hi) == []
  {}

  lemma {:induction false} CursorInFile(parse: Parser, views: seq<Bytes>)
    requires forall i, j :: 0 <= i <= j < |views| ==> |views[i]| <= |views[j]|
    ensures views == [] ==> Cursor(parse, views) == 0
    ensures views != [] ==> Cursor(parse, views) <= |views[|views| - 1]|
  {
    if views != [] {
      CursorInFile(parse, views[..|views| - 1]);
    }
  }

  /** Whatever the appends tear apart, no line is counted twice: the counted
      entries come at strictly increasing offsets, all before the cursor. */
  lemma {:induction false} CountedAtMostOnce(parse: Parser, views: seq<Bytes>)
    requires forall i, j :: 0 <= i <= j < |views| ==> |views[i]| <= |views[j]|
    ensures Sorted(Counted(parse, views), 0, Cursor(parse, views))
  {
    if views != [] {
      var front, c := views[..|views| - 1], views[|views| - 1];
      CountedAtMostOnce(parse, front);
      CursorInFile(parse, front);
      EntriesSorted(parse, c, 0, Cursor(parse, front), |c|);
    }
  }

  // ---------------------------------------------------------------------
  // Torn lines: the exact condition
  // ---------------------------------------------------------------------

  /** The start of the last line. */
  function LastLine(c: Bytes, i: nat): (s: nat)
    requires i < |c|
    ensures i <= s < |c|
    decreases |c| - i
  {
    if LineEnd(c, i) + 1 >= |c| then i else LastLine(c, LineEnd(c, i) + 1)
  }

  /** The last line of `c` already reads as it does in `final`: it is
      terminated, or what is there parses alike. */
  predicate TailAgrees(parse: Parser, c: Bytes, final: Bytes)
    requires c <= final
  {
    c == [] || LastReadsAlike(parse, c, final, LastLine(c, 0))
  }

  lemma {:induction false} LineEndInPrefix(c: Bytes, final: Bytes, i: nat)
    requires c <= final && i <= |c|
    ensures LineEnd(c, i) < |c| ==> LineEnd(final, i) == LineEnd(c, i)
    ensures LineEnd(c, i) == |c| ==> LineEnd(final, i) >= |c|
    decreases |c| - i
  {
    if i < |c| && c[i] != NEWLINE {
      LineEndInPrefix(c, final, i + 1);
    }
  }

  /** The lines that start inside `c` read the same in `c` and in `final`
      exactly when the last of them does. */
  lemma {:induction false} PrefixReadsAlike(parse: Parser, c: Bytes, final: Bytes, i: nat, lo: nat)
    requires c <= final && i < |c| && lo <= LastLine(c, i)
    ensures EntriesIn(parse, c, i, lo, |c|) == EntriesIn(parse, final, i, lo, |c|) <==>
            LastReadsAlike(parse, c, final, LastLine(c, i))
    decreases |c| - i
  {
    hide EntriesIn, LineEnd;
    LineEndInPrefix(c, final, i);
    var next := LineEnd(c, i) + 1;
    if next < |c| {
      PrefixReadsAlike(parse, c, final, next, lo);
      SameFirstLine(parse, c, final, i, lo);
    } else {
      OnlyLastLine(parse, c, i, lo, |c|);
      OnlyLastLine(parse, final, i, lo, |c|);
      assert next == |c| ==> Line(c, i) == Line(final, i);
    }
  }

  predicate LastReadsAlike(parse: Parser, c: Bytes, final: Bytes, last: nat)
    requires last < |c| && c <= final
  {
    c[|c| - 1] == NEWLINE || parse(Line(c, last)) == parse(Line(final, last))
  }

  lemma SameFirstLine(parse: Parser, c: Bytes, final: Bytes, i: nat, lo: nat)
    requires c <= final && i < |c| && LineEnd(c, i) < |c| && LineEnd(final, i) == LineEnd(c, i)
    ensures var next := LineEnd(c, i) + 1;
            EntriesIn(parse, c, i, lo, |c|) == EntriesIn(parse, final, i, lo, |c|) <==>
            EntriesIn(parse, c, next, lo, |c|) == EntriesIn(parse, final, next, lo, |c|)
  {
    hide EntriesIn, LineEnd;
    assert Line(c, i) == Line(final, i);
    var next := LineEnd(c, i) + 1;
    var head := if i >= lo && parse(Line(c, i)).Some? then [Entry(i, parse(Line(c, i)).value)] else [];
    var a, b := EntriesIn(parse, c, next, lo, |c|), EntriesIn(parse, final, next, lo, |c|);
    Unfold(parse, c, i, lo, |c|);
    Unfold(parse, final, i, lo, |c|);
    assert a == (head + a)[|head|..] && b == (head + b)[|head|..];
  }

  lemma Unfold(parse: Parser, c: Bytes, i: nat, lo: nat, hi: nat)
    requires i < |c| && i < hi
    ensures EntriesIn(parse, c, i, lo, hi) ==
            (if i >= lo && parse(Line(c, i)).Some? then [Entry(i, parse(Line(c, i)).value)] else [])
            + EntriesIn(parse, c, LineEnd(c, i) + 1, lo, hi)
  {}

  lemma OnlyLastLine(parse: Parser, c: Bytes, i: nat, lo: nat, hi: nat)
    requires lo <= i < hi <= |c| && LineEnd(c, i) + 1 >= hi
    ensures EntriesIn(parse, c, i, lo, hi) ==
            if parse(Line(c, i)).Some? then [Entry(i, parse(Line(c, i)).value)] else []
  {
    assert EntriesIn(parse, c, LineEnd(c, i) + 1, lo, hi) == [];
  }

  lemma {:induction false} EntriesSplit(parse: Parser, c: Bytes, i: nat, a: nat, b: nat)
    requires a <= b
    ensures EntriesIn(parse, c, i, 0, b) == EntriesIn(parse, c, i, 0, a) + EntriesIn(parse, c, i, a, b)
    decreases |c| - i
  {
    hide EntriesIn, Line;
    if i >= a || i >= |c| {
      NoneBelow(parse, c, i, a, b);
      assert [] + EntriesIn(parse, c, i, a, b) == EntriesIn(parse, c, i, a, b);
    } else {
      Unfold(parse, c, i, 0, a);
      Unfold(parse, c, i, 0, b);
      Unfold(parse, c, i, a, b);
      EntriesSplit(parse, c, LineEnd(c, i) + 1, a, b);
    }
  }

  /** From a line at or beyond `a` on (or past the end), a lower bound of `a`
      is no bound. */
  lemma {:induction false} NoneBelow(parse: Parser, c: Bytes, i: nat, a: nat, b: nat)
    requires a <= i || |c| <= i
    ensures EntriesIn(parse, c, i, 0, a) == []
    ensures EntriesIn(parse, c, i, 0, b) == EntriesIn(parse, c, i, a, b)
    decreases |c| - i
  {
    if i < |c| {
      NoneBelow(parse, c, LineEnd(c, i) + 1, a, b);
    }
  }

  /** Two sorted parts below and above `m` are determined by their whole. */
  lemma PartsDetermined(a: seq<Entry>, b: seq<Entry>, a': seq<Entry>, b': seq<Entry>, m: nat, hi: nat)
    requires Sorted(a, 0, m) && Sorted(a', 0, m) && Sorted(b, m, hi) && Sorted(b', m, hi)
    ensures a + b == a' + b' <==> a == a' && b == b'
  {
    if a + b == a' + b' {
      var s := a + b;
      assert forall k :: 0 <= k < |s| ==> (s[k].start < m <==> k < |a|);
      assert forall k :: 0 <= k < |s| ==> (s[k].start < m <==> k < |a'|) by {
        assert s == a' + b';
      }
      assert |a| == |a'| by {
        var k := if |a| < |a'| then |a| else |a'|;
        assert k < |s| ==> (s[k].start < m <==> k < |a|) && (s[k].start < m <==> k < |a'|);
      }
      assert a == s[..|a|] && b == s[|a|..];
      assert a' == (a' + b')[..|a'|] && b' == (a' + b')[|a'|..];
    }
  }

  /** Every read that counted something saw its last line as it finally is. */
  ghost predicate NoTornCount(parse: Parser, views: seq<Bytes>, final: Bytes)
    requires Growing(views, final)
  {
    forall j :: 0 <= j < |views| && Advances(parse, views, j) ==> TailAgrees(parse, views[j], final)
  }

  lemma {:induction false} CountedIsPrefixIff(parse: Parser, views: seq<Bytes>, final: Bytes)
    requires Growing(views, final)
    ensures Counted(parse, views) == EntriesIn(parse, final, 0, 0, Cursor(parse, views)) <==>
            NoTornCount(parse, views, final)
  {
    hide EntriesIn, NoTornCount, TailAgrees;
    if views == [] {
      NoReads(parse, final);
    } else {
      var n := |views| - 1;
      var front, c := views[..n], views[n];
      FrontGrows(views, final);
      CountedIsPrefixIff(parse, front, final);
      NoTornCountSplit(parse, views, final);
      CursorInFile(parse, front);
      CountedAtMostOnce(parse, front);
      if Advances(parse, views, n) {
        AdvanceKeepsPrefixIff(parse, c, final, Cursor(parse, front), Counted(parse, front));
      }
    }
  }

  lemma NoReads(parse: Parser, final: Bytes)
    ensures EntriesIn(parse, final, 0, 0, 0) == [] && NoTornCount(parse, [], final)
  {}

  lemma NoTornCountSplit(parse: Parser, views: seq<Bytes>, final: Bytes)
    requires Growing(views, final) && views != []
    ensures var n := |views| - 1;
            && Growing(views[..n], final)
            && (NoTornCount(parse, views, final) <==>
                NoTornCount(parse, views[..n], final) && (Advances(parse, views, n) ==> TailAgrees(parse, views[n], final)))
  {
    hide Fresh, Cursor, TailAgrees;
    var n := |views| - 1;
    var front := views[..n];
    FrontGrows(views, final);
    forall j: nat | j < n
      ensures front[j] == views[j] && front[..j] == views[..j]
      ensures Advances(parse, front, j) == Advances(parse, views, j)
    {
      assert front[..j] == views[..j];
    }
    if NoTornCount(parse, front, final) && (Advances(parse, views, n) ==> TailAgrees(parse, views[n], final)) {
      forall j | 0 <= j < |views| && Advances(parse, views, j)
        ensures TailAgrees(parse, views[j], final)
      {
        if j < n {
          assert Advances(parse, front, j);
        }
      }
    }
    if NoTornCount(parse, views, final) {
      forall j | 0 <= j < n && Advances(parse, front, j)
        ensures TailAgrees(parse, front[j], final)
      {
        assert Advances(parse, views, j);
      }
    }
  }

  lemma AdvanceKeepsPrefixIff(parse: Parser, c: Bytes, final: Bytes, cursor: nat, before: seq<Entry>)
    requires c <= final && cursor <= |c| && Fresh(parse, cursor, c) != [] && Sorted(before, 0, cursor)
    ensures before + Fresh(parse, cursor, c) == EntriesIn(parse, final, 0, 0, |c|) <==>
            && before == EntriesIn(parse, final, 0, 0, cursor)
            && TailAgrees(parse, c, final)
  {
    hide EntriesIn, TailAgrees;
    StepCountsIff(parse, c, final, cursor);
    EntriesSorted(parse, final, 0, 0, cursor);
    EntriesSorted(parse, final, 0, cursor, |c|);
    EntriesSorted(parse, c, 0, cursor, |c|);
    EntriesSplit(parse, final, 0, cursor, |c|);
    PartsDetermined(before, Fresh(parse, cursor, c),
                    EntriesIn(parse, final, 0, 0, cursor), EntriesIn(parse, final, 0, cursor, |c|), cursor, |c|);
  }

  /** What an advancing read counts is what the final file has there, exactly
      when the read's last line agrees. */
  lemma StepCountsIff(parse: Parser, c: Bytes, final: Bytes, cursor: nat)
    requires c <= final && cursor <= |c| && Fresh(parse, cursor, c) != []
    ensures Fresh(parse, cursor, c) == EntriesIn(parse, final, 0, cursor, |c|) <==> TailAgrees(parse, c, final)
  {
    EntriesSorted(parse, c, 0, cursor, |c|);
    var e := Fresh(parse, cursor, c)[0];
    StartsUpToLast(parse, c, 0, cursor, e);
    PrefixReadsAlike(parse, c, final, 0, cursor);
  }

  lemma {:induction false} StartsUpToLast(parse: Parser, c: Bytes, i: nat, lo: nat, e: Entry)
    requires i < |c| && e in EntriesIn(parse, c, i, lo, |c|)
    ensures lo <= e.start <= LastLine(c, i)
    decreases |c| - i
  {
    hide EntriesIn, Line;
    Unfold(parse, c, i, lo, |c|);
    var next := LineEnd(c, i) + 1;
    if e in EntriesIn(parse, c, next, lo, |c|) {
      NoEntriesBeyond(parse, c, next, lo);
      StartsUpToLast(parse, c, next, lo, e);
    }
  }

  lemma NoEntriesBeyond(parse: Parser, c: Bytes, i: nat, lo: nat)
    ensures EntriesIn(parse, c, i, lo, |c|) != [] ==> i < |c|
  {}

  /** Exactly-once accounting: after a read of the final file, the entries
      counted over all reads are the entries of that file, each once and in
      order, if and only if no read that counted something ended in a line
      that would later read differently. */
  lemma {:induction false} CountedExactlyOnceIff(parse: Parser, views: seq<Bytes>, final: Bytes)
    requires Growing(views, final) && views != [] && views[|views| - 1] == final
    ensures Counted(parse, views) == AllEntries(parse, final) <==> NoTornCount(parse, views, final)
  {
    var n := |views| - 1;
    var cursor := Cursor(parse, views[..n]);
    CountedIsPrefixIff(parse, views, final);
    CursorInFile(parse, views[..n]);
    if !Advances(parse, views, n) {
      EntriesSplit(parse, final, 0, cursor, |final|);
    }
  }

  // ---------------------------------------------------------------------
  // Appends of whole lines
  // ---------------------------------------------------------------------

  predicate OnBoundary(c: Bytes) {
    c == [] || c[|c| - 1] == NEWLINE
  }

  /** When every append ends on a line boundary, every category's savings over
      all reads are those of all parsable lines present at the last read. */
  lemma WholeLinesAreAccounted(parse: Parser, views: seq<Bytes>, final: Bytes)
    requires Growing(views, final) && views != [] && views[|views| - 1] == final
    requires forall i :: 0 <= i < |views| ==> OnBoundary(views[i])
    ensures Counted(parse, views) == AllEntries(parse, final)
    ensures Saved(Counted(parse, views)) == Saved(AllEntries(parse, final))
    ensures forall op :: SavedBy(Counted(parse, views), op) == SavedBy(AllEntries(parse, final), op)
  {
    CountedExactlyOnceIff(parse, views, final);
  }

  /** What the reads of a run return. */
  function Results(parse: Parser, views: seq<Bytes>): seq<Option<Accumulator>> {
    if views == [] then []
    else
      var front := views[..|views| - 1];
      Results(parse, front) + [Returned(parse, Cursor(parse, front), views[|views| - 1])]
  }

  datatype Totals = Totals(total: nat, rtk: nat, response: nat, schema: nat)

  /** The sums of the returned fields; a read that returns nothing adds nothing. */
  function Handed(results: seq<Option<Accumulator>>): Totals {
    if results == [] then Totals(0, 0, 0, 0)
    else
      var sofar, last := Handed(results[..|results| - 1]), results[|results| - 1];
      if last.None? then sofar
      else
        Totals(sofar.total + last.value.totalSaved, sofar.rtk + last.value.rtkSaved,
               sofar.response + last.value.responseSaved, sofar.schema + last.value.schemaSaved)
  }

  /** The savings of some entries, by the program's operation names. */
  function SavingsOf(es: seq<Entry>): Totals {
    Totals(Saved(es), SavedBy(es, "rewrite-command"), SavedBy(es, "compress-response"), SavedBy(es, "compress-schema"))
  }

  lemma {:induction false} SavedAppend(a: seq<Entry>, b: seq<Entry>, op: string)
    ensures Saved(a + b) == Saved(a) + Saved(b)
    ensures SavedBy(a + b, op) == SavedBy(a, op) + SavedBy(b, op)
  {
    if b == [] {
      assert a + b == a;
    } else {
      SavedAppend(a, b[..|b| - 1], op);
      assert (a + b)[..|a + b| - 1] == a + b[..|b| - 1];
    }
  }

  lemma ReturnedSavings(parse: Parser, cursor: nat, c: Bytes)
    ensures var r, counted := Returned(parse, cursor, c), SavingsOf(Fresh(parse, cursor, c));
            if r.None? then counted == Totals(0, 0, 0, 0)
            else counted == Totals(r.value.totalSaved, r.value.rtkSaved, r.value.responseSaved, r.value.schemaSaved)
  {
    hide EntriesIn, FirstProject, FirstUser;
    NoReads(parse, c);
    assert c == [] ==> Fresh(parse, cursor, c) == [] by {
      NothingFresh(parse, cursor);
    }
  }

  lemma {:induction false} NoMetadata(es: seq<Entry>)
    ensures FirstProject(es).None? <==> forall e :: e in es ==> e.report.projectPath.None?
    ensures FirstUser(es).None? <==> forall e :: e in es ==> e.report.userName.None?
  {
    if es != [] {
      var n := |es| - 1;
      NoMetadata(es[..n]);
      assert es == es[..n] + [es[n]];
    }
  }

  /** A read returns nothing exactly when no line counts and none of the file's
      lines has a project or a user. */
  lemma ReturnsNothingIff(parse: Parser, cursor: nat, c: Bytes)
    ensures Returned(parse, cursor, c).None? <==>
            && Fresh(parse, cursor, c) == []
            && forall e :: e in AllEntries(parse, c) ==> e.report.projectPath.None? && e.report.userName.None?
  {
    hide EntriesIn, FirstProject, FirstUser, Accumulate;
    NoMetadata(AllEntries(parse, c));
    if c == [] {
      NothingFresh(parse, cursor);
      NoReads(parse, c);
    }
  }

  lemma NothingFresh(parse: Parser, cursor: nat)
    ensures Fresh(parse, cursor, []) == []
  {}

  /** The totals that the reads hand out add up to the savings of the entries
      counted, each category to its own. */
  lemma {:induction false} ReportedIsCounted(parse: Parser, views: seq<Bytes>)
    ensures Handed(Results(parse, views)) == SavingsOf(Counted(parse, views))
  {
    hide Returned, Saved, SavedBy, Fresh, SavingsOf, NextCursor;
    if views == [] {
      NoSavings();
    } else {
      var front, c := views[..|views| - 1], views[|views| - 1];
      var counted := Fresh(parse, Cursor(parse, front), c);
      ReportedIsCounted(parse, front);
      ReturnedSavings(parse, Cursor(parse, front), c);
      SavingsAppend(Counted(parse, front), counted);
      var results := Results(parse, views);
      assert results[..|results| - 1] == Results(parse, front);
    }
  }

  lemma NoSavings()
    ensures SavingsOf([]) == Totals(0, 0, 0, 0)
  {}

  lemma SavingsAppend(a: seq<Entry>, b: seq<Entry>)
    ensures var x, y := SavingsOf(a), SavingsOf(b);
            SavingsOf(a + b) == Totals(x.total + y.total, x.rtk + y.rtk, x.response + y.response, x.schema + y.schema)
  {
    hide Saved, SavedBy;
    SavedAppend(a, b, "rewrite-command");
    SavedAppend(a, b, "compress-response");
    SavedAppend(a, b, "compress-schema");
  }

  /** They add up to the savings in the file, in total and per category, when
      every append ends on a line boundary. */
  lemma ReportedSavingsAddUp(parse: Parser, views: seq<Bytes>, final: Bytes)
    requires Growing(views, final) && views != [] && views[|views| - 1] == final
    requires forall i :: 0 <= i < |views| ==> OnBoundary(views[i])
    ensures var sums := Handed(Results(parse, views));
            && sums.total == Saved(AllEntries(parse, final))
            && sums.rtk == SavedBy(AllEntries(parse, final), "rewrite-command")
            && sums.response == SavedBy(AllEntries(parse, final), "compress-response")
            && sums.schema == SavedBy(AllEntries(parse, final), "compress-schema")
  {
    hide Saved, SavedBy;
    WholeLinesAreAccounted(parse, views, final);
    ReportedIsCounted(parse, views);
  }

  /** A torn write can lose a line for good: once a read has counted something
      with the line still incomplete and unparsable, no later read counts it. */
  lemma {:induction false} TornLineIsLost(parse: Parser, views: seq<Bytes>, later: seq<Bytes>, final: Bytes)
    requires Growing(views + later, final) && views != []
    requires var c := views[|views| - 1];
             && Advances(parse, views, |views| - 1) && !OnBoundary(c)
             && parse(Line(c, LastLine(c, 0))).None?
    ensures forall e :: e in Counted(parse, views + later) ==>
              e.start != LastLine(views[|views| - 1], 0)
  {
    hide EntriesIn, Line, LastLine, NextCursor;
    var all := views + later;
    if later == [] {
      assert all == views;
      TornLineNotYetCounted(parse, views, final);
    } else {
      var front := later[..|later| - 1];
      assert all[..|all| - 1] == views + front;
      FrontGrows(all, final);
      TornLineIsLost(parse, views, front, final);
      CursorPasses(parse, views, front, final);
      CursorInFile(parse, views + front);
      var d := all[|all| - 1];
      EntriesSorted(parse, d, 0, Cursor(parse, views + front), |d|);
    }
  }

  lemma FrontGrows(all: seq<Bytes>, final: Bytes)
    requires Growing(all, final) && all != []
    ensures Growing(all[..|all| - 1], final)
  {}

  lemma TornLineNotYetCounted(parse: Parser, views: seq<Bytes>, final: Bytes)
    requires Growing(views, final) && views != []
    requires var c := views[|views| - 1];
             && Advances(parse, views, |views| - 1)
             && parse(Line(c, LastLine(c, 0))).None?
    ensures forall e :: e in Counted(parse, views) ==> e.start != LastLine(views[|views| - 1], 0)
  {
    var c, front := views[|views| - 1], views[..|views| - 1];
    FrontGrows(views, final);
    CursorInFile(parse, front);
    CountedAtMostOnce(parse, front);
    var cursor := Cursor(parse, front);
    StartsUpToLast(parse, c, 0, cursor, Fresh(parse, cursor, c)[0]);
    UnparsedNotIn(parse, c, 0, cursor, |c|, LastLine(c, 0));
  }

  lemma {:induction false} CursorPasses(parse: Parser, views: seq<Bytes>, later: seq<Bytes>, final: Bytes)
    requires Growing(views + later, final) && views != []
    requires Advances(parse, views, |views| - 1)
    ensures Cursor(parse, views + later) >= |views[|views| - 1]|
  {
    var all := views + later;
    if later == [] {
      assert all == views;
    } else {
      var front := later[..|later| - 1];
      assert all[..|all| - 1] == views + front;
      FrontGrows(all, final);
      CursorPasses(parse, views, front, final);
      CursorInFile(parse, views + front);
      assert |all[|views| - 1]| <= |all[|all| - 1]|;
    }
  }

  lemma {:induction false} UnparsedNotIn(parse: Parser, c: Bytes, i: nat, lo: nat, hi: nat, s: nat)
    requires s <= |c| && parse(Line(c, s)).None?
    ensures forall e :: e in EntriesIn(parse, c, i, lo, hi) ==> e.start != s
    decreases |c| - i
  {
    if i < |c| {
      UnparsedNotIn(parse, c, LineEnd(c, i) + 1, lo, hi, s);
    }
  }
}
