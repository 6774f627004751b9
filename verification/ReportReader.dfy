/** The incremental reader of tokenless report files
    (crates/core/src/report.rs). A read is one atomic step; the JSON parser
    (with the trimming before it) is an unknown function of a line's bytes. */
module ReportReader {
  import opened Common

  newtype Byte = b: int | 0 <= b < 256

  type Bytes = seq<Byte>

  const NEWLINE: Byte := 10

  datatype Report = Report(
    opType: string, savedTokens: nat, projectPath: Option<string>, userName: Option<string>, details: string)

  /** Blank and unparsable lines yield nothing. */
  type Parser = Bytes -> Option<Report>

  /** A parsed line with the byte offset at which it starts. */
  datatype Entry = Entry(start: nat, report: Report)

  /** The end of the line that contains offset `i`: its newline, or the end of
      the file. */
  function LineEnd(c: Bytes, i: nat): (e: nat)
    requires i <= |c|
    ensures i <= e <= |c|
    ensures forall k :: i <= k < e ==> c[k] != 10
    ensures e < |c| ==> c[e] == 10
    decreases |c| - i
  {
    if i == |c| || c[i] == NEWLINE then i else LineEnd(c, i + 1)
  }

  function Line(c: Bytes, i: nat): Bytes
    requires i <= |c|
  {
    c[i..LineEnd(c, i)]
  }

  /** The entries of the lines from the line start `i` on whose own start lies
      in [lo, hi). */
  function EntriesIn(parse: Parser, c: Bytes, i: nat, lo: nat, hi: nat): seq<Entry>
    decreases |c| - i
  {
    if i >= |c| || i >= hi then []
    else
      (if i >= lo && parse(Line(c, i)).Some? then [Entry(i, parse(Line(c, i)).value)] else [])
      + EntriesIn(parse, c, LineEnd(c, i) + 1, lo, hi)
  }

  function AllEntries(parse: Parser, c: Bytes): seq<Entry> {
    EntriesIn(parse, c, 0, 0, |c|)
  }

  function Saved(es: seq<Entry>): nat {
    if es == [] then 0 else Saved(es[..|es| - 1]) + es[|es| - 1].report.savedTokens
  }

  function SavedBy(es: seq<Entry>, opType: string): nat {
    if es == [] then 0
    else
      SavedBy(es[..|es| - 1], opType)
      + (if es[|es| - 1].report.opType == opType then es[|es| - 1].report.savedTokens else 0)
  }

  function FirstProject(es: seq<Entry>): Option<string> {
    if es == [] then None
    else if FirstProject(es[..|es| - 1]).Some? then FirstProject(es[..|es| - 1])
    else es[|es| - 1].report.projectPath
  }

  function FirstUser(es: seq<Entry>): Option<string> {
    if es == [] then None
    else if FirstUser(es[..|es| - 1]).Some? then FirstUser(es[..|es| - 1])
    else es[|es| - 1].report.userName
  }

  datatype Accumulator = Accumulator(
    totalSaved: nat, rtkSaved: nat, responseSaved: nat, schemaSaved: nat,
    breakdown: seq<Entry>, projectPath: Option<string>, userName: Option<string>)

  /** The savings of the new entries; the metadata of all. */
  function Accumulate(counted: seq<Entry>, all: seq<Entry>): Accumulator {
    Accumulator(
      Saved(counted), SavedBy(counted, "rewrite-command"), SavedBy(counted, "compress-response"),
      SavedBy(counted, "compress-schema"), counted, FirstProject(all), FirstUser(all))
  }

  /** The entries a read of `c` counts: those that start at the cursor or
      later, or all of them when the file is shorter than the cursor. */
  function Fresh(parse: Parser, cursor: nat, c: Bytes): seq<Entry> {
    EntriesIn(parse, c, 0, if cursor > |c| then 0 else cursor, |c|)
  }

  /** The cursor moves, to the end of the file, only when something counted. */
  function NextCursor(parse: Parser, cursor: nat, c: Bytes): nat {
    if Fresh(parse, cursor, c) != [] then |c|
    else if cursor > |c| then 0 else cursor
  }

  function Sanitize(sid: string): string {
    if sid == "" then ""
    else
      var c := sid[|sid| - 1];
      var front := Sanitize(sid[..|sid| - 1]);
      if IsSafe(c) then front + [c] else front
  }

  predicate IsSafe(c: char) {
    '0' <= c <= '9' || 'a' <= c <= 'z' || 'A' <= c <= 'Z' || c == '-' || c == '_'
  }

  function SafeName(sid: string): string {
    var s := Sanitize(sid);
    if |s| > 128 then s[..128] else s
  }

  /** The file name keeps the letters, digits, dashes and underscores of the
      session id, in order, and the first 128 of them. */
  lemma {:induction false} SanitizeKeepsSafe(a: string, b: string)
    ensures Sanitize(a + b) == Sanitize(a) + Sanitize(b)
    ensures |b| == 1 ==>
              var c := b[0];
              Sanitize(b) == if '0' <= c <= '9' || 'a' <= c <= 'z' || 'A' <= c <= 'Z' || c == '-' || c == '_' then b else ""
  {
    if b == "" {
      assert a + b == a;
    } else {
      var n := |b| - 1;
      SanitizeKeepsSafe(a, b[..n]);
      assert (a + b)[..|a| + n] == a + b[..n];
      assert |b| == 1 ==> b == [b[0]];
    }
  }

  lemma SafeNameIsFirst128(sid: string)
    ensures |SafeName(sid)| <= 128 && SafeName(sid) <= Sanitize(sid)
    ensures |SafeName(sid)| < 128 ==> SafeName(sid) == Sanitize(sid)
  {}

  /** What a read returns: nothing for an empty file, or when nothing is new and
      no line has metadata. */
  function Returned(parse: Parser, cursor: nat, c: Bytes): Option<Accumulator> {
    var counted, all := Fresh(parse, cursor, c), AllEntries(parse, c);
    if c == [] || (counted == [] && FirstProject(all).None? && FirstUser(all).None?) then None
    else Some(Accumulate(counted, all))
  }

  function CursorOf(cursors: map<string, nat>, key: string): nat {
    if key in cursors then cursors[key] else 0
  }

  class Reader {
    const parse: Parser
    const isUtf8: Bytes -> bool
    var cursors: map<string, nat>

    constructor (parse: Parser, isUtf8: Bytes -> bool)
      ensures this.parse == parse && this.isUtf8 == isUtf8 && cursors == map[]
    {
      this.parse := parse;
      this.isUtf8 := isUtf8;
      cursors := map[];
    }

    /** One read of the session's file among `files`. Without a usable name, or
        with a missing, undecodable or empty file, nothing happens. */
    method ConsumeReport(sessionId: string, files: map<string, Bytes>) returns (r: Option<Accumulator>)
      modifies this
      ensures var key := SafeName(sessionId);
              if key == "" || key !in files || !isUtf8(files[key]) || files[key] == [] then
                r == None && cursors == old(cursors)
              else
                var c, cursor := files[key], CursorOf(old(cursors), key);
                cursors == old(cursors)[key := NextCursor(parse, cursor, c)] && r == Returned(parse, cursor, c)
    {
      hide Accumulate, SafeName, FirstProject, FirstUser, EntriesIn;
      var key := SafeName(sessionId);
      if key == "" || key !in files || !isUtf8(files[key]) || files[key] == [] {
        return None;
      }
      var c := files[key];
      var startByte := CursorOf(cursors, key);
      if startByte > |c| {
        startByte := 0;
      }
      cursors := cursors[key := startByte];
      var acc, hasNewLines := ScanLines(c, startByte);
      AccumulatedMetadata(acc.breakdown, AllEntries(parse, c));
      if hasNewLines {
        cursors := cursors[key := |c|];
      }
      r := if !hasNewLines && acc.projectPath.None? && acc.userName.None? then None else Some(acc);
    }

    method ScanLines(c: Bytes, startByte: nat) returns (acc: Accumulator, hasNewLines: bool)
      requires startByte <= |c|
      ensures acc == Accumulate(Fresh(parse, startByte, c), AllEntries(parse, c))
      ensures acc.breakdown == Fresh(parse, startByte, c) && hasNewLines == (acc.breakdown != [])
    {
      hide Accumulate, AfterEntry, EntriesIn, Line;
      EmptyAccumulator();
      acc, hasNewLines := Accumulator(0, 0, 0, 0, [], None, None), false;
      ghost var all: seq<Entry> := [];
      var i := 0;
      while i < |c|
        invariant acc == Accumulate(acc.breakdown, all)
        invariant hasNewLines == (acc.breakdown != [])
        invariant acc.breakdown + EntriesIn(parse, c, i, startByte, |c|) == Fresh(parse, startByte, c)
        invariant all + EntriesIn(parse, c, i, 0, |c|) == AllEntries(parse, c)
      {
        EntriesStep(parse, c, i, startByte, acc.breakdown);
        EntriesStep(parse, c, i, 0, all);
        var parsed := parse(Line(c, i));
        if parsed.Some? {
          var e := Entry(i, parsed.value);
          StepAccumulates(acc, all, e, i >= startByte);
          all := all + [e];
          acc := AddEntry(acc, e, i >= startByte);
          hasNewLines := hasNewLines || i >= startByte;
        }
        i := LineEnd(c, i) + 1;
      }
      NoEntriesPastEnd(parse, c, i, startByte);
      NoEntriesPastEnd(parse, c, i, 0);
    }

    /** Metadata from the first line that has it, savings only from new lines. */
    method AddEntry(acc: Accumulator, e: Entry, isNew: bool) returns (r: Accumulator)
      ensures r == AfterEntry(acc, e, isNew)
    {
      r := acc;
      if r.projectPath.None? {
        r := r.(projectPath := e.report.projectPath);
      }
      if r.userName.None? {
        r := r.(userName := e.report.userName);
      }
      if isNew {
        r := CountEntry(r, e);
      }
    }
  }

  lemma EntriesStep(parse: Parser, c: Bytes, i: nat, lo: nat, before: seq<Entry>)
    requires i < |c|
    ensures before + EntriesIn(parse, c, i, lo, |c|)
            == before + (if i >= lo && parse(Line(c, i)).Some? then [Entry(i, parse(Line(c, i)).value)] else [])
               + EntriesIn(parse, c, LineEnd(c, i) + 1, lo, |c|)
  {}

  lemma NoEntriesPastEnd(parse: Parser, c: Bytes, i: nat, lo: nat)
    requires i >= |c|
    ensures forall before: seq<Entry> :: before + EntriesIn(parse, c, i, lo, |c|) == before
  {}

  function CountEntry(acc: Accumulator, e: Entry): Accumulator {
    var saved, op := e.report.savedTokens, e.report.opType;
    acc.(
    totalSaved := acc.totalSaved + saved,
    rtkSaved := acc.rtkSaved + (if op == "rewrite-command" then saved else 0),
    responseSaved := acc.responseSaved + (if op == "compress-response" then saved else 0),
    schemaSaved := acc.schemaSaved + (if op == "compress-schema" then saved else 0),
    breakdown := acc.breakdown + [e])
  }

  function AfterEntry(acc: Accumulator, e: Entry, isNew: bool): Accumulator {
    var withProject := if acc.projectPath.None? then acc.(projectPath := e.report.projectPath) else acc;
    var withUser := if acc.userName.None? then withProject.(userName := e.report.userName) else withProject;
    if isNew then CountEntry(withUser, e) else withUser
  }

  lemma StepAccumulates(acc: Accumulator, all: seq<Entry>, e: Entry, isNew: bool)
    requires acc == Accumulate(acc.breakdown, all)
    ensures AfterEntry(acc, e, isNew) == Accumulate(acc.breakdown + (if isNew then [e] else []), all + [e])
    ensures AfterEntry(acc, e, isNew).breakdown == acc.breakdown + (if isNew then [e] else [])
  {
    hide Saved, SavedBy, FirstProject, FirstUser;
    Snoc(all, e, "");
    Snoc(acc.breakdown, e, "rewrite-command");
    Snoc(acc.breakdown, e, "compress-response");
    Snoc(acc.breakdown, e, "compress-schema");
    assert acc.breakdown + [] == acc.breakdown;
  }

  lemma Snoc(es: seq<Entry>, e: Entry, op: string)
    ensures Saved(es + [e]) == Saved(es) + e.report.savedTokens
    ensures SavedBy(es + [e], op) == SavedBy(es, op) + (if e.report.opType == op then e.report.savedTokens else 0)
    ensures FirstProject(es + [e]) == if FirstProject(es).Some? then FirstProject(es) else e.report.projectPath
    ensures FirstUser(es + [e]) == if FirstUser(es).Some? then FirstUser(es) else e.report.userName
  {
    assert (es + [e])[..|es|] == es;
  }

  lemma EmptyAccumulator()
    ensures Accumulate([], []) == Accumulator(0, 0, 0, 0, [], None, None)
  {}

  lemma AccumulatedMetadata(counted: seq<Entry>, all: seq<Entry>)
    ensures Accumulate(counted, all).projectPath == FirstProject(all)
    ensures Accumulate(counted, all).userName == FirstUser(all)
  {}
}
