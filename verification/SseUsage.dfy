/** Token usage extracted from a server-sent-event body
    (crates/core/src/server.rs:727-833). The JSON parser is an unknown
    function of the text after `data: `. */
module SseUsage {
  import opened Common

  datatype Json =
    | Null
    | Bool(b: bool)
    | Number(n: real)
    | Str(s: string)
    | Array(items: seq<Json>)
    | Object(fields: map<string, Json>)

  type Parser = string -> Option<Json>

  // ---------------------------------------------------------------------
  // Lines
  // ---------------------------------------------------------------------

  /** Unicode white space. */
  predicate IsSpace(c: char) {
    var n := c as int;
    || 9 <= n <= 13 || n == 32 || n == 0x85 || n == 0xA0 || n == 0x1680 || 0x2000 <= n <= 0x200A
    || n == 0x2028 || n == 0x2029 || n == 0x202F || n == 0x205F || n == 0x3000
  }

  /** What the program trims: tabs, line ends and blanks of ASCII and beyond. */
  lemma Spaces()
    ensures IsSpace(' ') && IsSpace('\t') && IsSpace('\r') && IsSpace('\n')
    ensures IsSpace(0x0B as char) && IsSpace(0x0C as char) && IsSpace(0x85 as char) && IsSpace(0xA0 as char) && IsSpace(0x3000 as char)
    ensures forall c: char :: '!' <= c <= '~' ==> !IsSpace(c)
  {}

  function TrimEnd(s: string): (t: string)
    ensures t <= s
    ensures t == [] || !IsSpace(t[|t| - 1])
  {
    if s != [] && IsSpace(s[|s| - 1]) then TrimEnd(s[..|s| - 1]) else s
  }

  function LineLength(s: string): (n: nat)
    ensures n <= |s|
    ensures '\n' !in s[..n]
    ensures n < |s| ==> s[n] == '\n'
  {
    if s == [] || s[0] == '\n' then 0
    else
      var n := 1 + LineLength(s[1..]);
      assert s[..n] == [s[0]] + s[1..][..n - 1];
      n
  }

  function StripReturn(line: string): string {
    if line != [] && line[|line| - 1] == '\r' then line[..|line| - 1] else line
  }

  /** The lines of a text: separated by newlines, with a carriage return before
      the newline dropped; nothing after a final newline is no line. */
  function Lines(s: string): seq<string>
    decreases |s|
  {
    if s == [] then []
    else
      var n := LineLength(s);
      if n == |s| then [s] else [StripReturn(s[..n])] + Lines(s[n + 1..])
  }

  function Join(lines: seq<string>): string {
    if lines == [] then ""
    else if |lines| == 1 then lines[0]
    else lines[0] + ['\n'] + Join(lines[1..])
  }

  function StripPrefix(s: string, prefix: string): Option<string> {
    if prefix <= s then Some(s[|prefix|..]) else None
  }

  /** Trailing space goes; `data:` and `event:` get exactly the space they may
      lack. */
  function NormalizeLine(line: string): string {
    var t := TrimEnd(line);
    var data := StripPrefix(t, "data:");
    if data.Some? && !([' '] <= data.value) then "data: " + data.value
    else
      var event := StripPrefix(t, "event:");
      if event.Some? && !([' '] <= event.value) then "event: " + event.value else t
  }

  function NormalizeAll(lines: seq<string>): (r: seq<string>)
    ensures |r| == |lines|
  {
    if lines == [] then [] else [NormalizeLine(lines[0])] + NormalizeAll(lines[1..])
  }

  function NormalizeSseFormat(text: string): string {
    Join(NormalizeAll(Lines(text)))
  }

  // ---------------------------------------------------------------------
  // Usage objects of one event
  // ---------------------------------------------------------------------

  function Get(j: Json, key: string): Option<Json> {
    if j.Object? && key in j.fields then Some(j.fields[key]) else None
  }

  function Get2(j: Json, outer: string, inner: string): Option<Json> {
    match Get(j, outer)
    case None => None
    case Some(o) => Get(o, inner)
  }

  function Opt(j: Option<Json>): seq<Json> {
    if j.Some? then [j.value] else []
  }

  /** The usage values an event carries, in the order in which the branches of
      the scan look at them. */
  function UsagesOf(event: Json): seq<Json> {
    var ty, usage := Get(event, "type"), Get(event, "usage");
    (if ty == Some(Str("message_start")) then Opt(Get2(event, "message", "usage")) else [])
    + (if ty == Some(Str("message_delta")) then Opt(usage) else [])
    + (if ty == Some(Str("response.completed")) then Opt(Get2(event, "response", "usage")) else [])
    + (if Get(event, "choices").Some? then Opt(usage) else [])
    + (if Get(event, "choices").None? && ty.None? then Opt(usage) else [])
  }

  /** The event of one normalised line. */
  function EventOf(parse: Parser, line: string): Option<Json> {
    match StripPrefix(line, "data: ")
    case None => None
    case Some(data) => if data == "" || data == "[DONE]" then None else parse(data)
  }

  function UsagesOfLine(parse: Parser, line: string): seq<Json> {
    match EventOf(parse, line)
    case None => []
    case Some(event) => UsagesOf(event)
  }

  // ---------------------------------------------------------------------
  // Merging
  // ---------------------------------------------------------------------

  predicate IsPositive(v: Json) {
    v.Number? && v.n > 0.0
  }

  type Fields = map<string, Json>

  function Chosen(acc: Fields, usage: Fields, k: string): Json
    requires k in acc || k in usage
  {
    if k in usage && (IsPositive(usage[k]) || k !in acc) then usage[k] else acc[k]
  }

  /** A key is overwritten by a positive number and created by anything. */
  function Merge(acc: Fields, usage: Json): Fields {
    if !usage.Object? then acc
    else (map k | k in acc.Keys + usage.fields.Keys :: Chosen(acc, usage.fields, k))
  }

  function MergeAll(acc: Fields, usages: seq<Json>): Fields {
    if usages == [] then acc else Merge(MergeAll(acc, usages[..|usages| - 1]), usages[|usages| - 1])
  }

  method MergeUsageFields(acc: Fields, usage: Json) returns (r: Fields)
    ensures r == Merge(acc, usage)
  {
    r := acc;
    if !usage.Object? {
      return;
    }
    var todo := usage.fields.Keys;
    while todo != {}
      invariant todo <= usage.fields.Keys
      invariant r.Keys == acc.Keys + (usage.fields.Keys - todo)
      invariant forall k :: k in r ==>
                  r[k] == if k in usage.fields && k !in todo && (IsPositive(usage.fields[k]) || k !in acc)
                          then usage.fields[k] else if k in acc then acc[k] else r[k]
      decreases todo
    {
      var k :| k in todo;
      var v := usage.fields[k];
      if IsPositive(v) || k !in r {
        r := r[k := v];
      }
      todo := todo - {k};
    }
  }

  /** The scan: `None` stands for the null result. */
  method ExtractUsageFromSse(parse: Parser, body: Option<string>) returns (r: Option<Fields>)
    ensures r == (if body.None? then None else Extracted(parse, body.value))
  {
    if body.None? {
      return None;
    }
    var lines := Lines(NormalizeSseFormat(body.value));
    var merged: Fields := map[];
    for i := 0 to |lines|
      invariant merged == MergeAll(map[], UsagesOfLines(parse, lines[..i]))
    {
      merged := MergeLine(parse, lines[i], merged, UsagesOfLines(parse, lines[..i]));
      assert lines[..i + 1][..i] == lines[..i];
    }
    assert lines[..|lines|] == lines;
    r := if merged == map[] then None else Some(merged);
  }

  method MergeLine(parse: Parser, line: string, acc: Fields, ghost before: seq<Json>) returns (merged: Fields)
    requires acc == MergeAll(map[], before)
    ensures merged == MergeAll(map[], before + UsagesOfLine(parse, line))
  {
    hide Merge, UsagesOf, UsagesOfLine;
    var usages := UsagesOfLine(parse, line);
    merged := acc;
    assert before + usages[..0] == before;
    for k := 0 to |usages|
      invariant merged == MergeAll(map[], before + usages[..k])
    {
      merged := MergeUsageFields(merged, usages[k]);
      assert before + usages[..k + 1] == (before + usages[..k]) + [usages[k]];
      assert (before + usages[..k + 1])[..|before| + k] == before + usages[..k];
    }
    assert usages[..|usages|] == usages;
  }

  function UsagesOfLines(parse: Parser, lines: seq<string>): seq<Json> {
    if lines == [] then []
    else UsagesOfLines(parse, lines[..|lines| - 1]) + UsagesOfLine(parse, lines[|lines| - 1])
  }

  /** All usage values of a body, in order. */
  function UsagesOfText(parse: Parser, text: string): seq<Json> {
    UsagesOfLines(parse, Lines(NormalizeSseFormat(text)))
  }

  function Extracted(parse: Parser, text: string): Option<Fields> {
    var merged := MergeAll(map[], UsagesOfText(parse, text));
    if merged == map[] then None else Some(merged)
  }

  // ---------------------------------------------------------------------
  // The closed form
  // ---------------------------------------------------------------------

  /** The values seen for one key, in order. */
  function ValuesOf(usages: seq<Json>, key: string): seq<Json> {
    if usages == [] then []
    else ValuesOf(usages[..|usages| - 1], key) + Opt(Get(usages[|usages| - 1], key))
  }

  /** The last strictly positive number seen, or else the first value. */
  ghost predicate IsClosedForm(vs: seq<Json>, v: Json) {
    if exists i :: 0 <= i < |vs| && vs[i].Number? && vs[i].n > 0.0 then
      exists i :: && 0 <= i < |vs| && vs[i].Number? && vs[i].n > 0.0 && v == vs[i]
                  && (forall j :: i < j < |vs| && vs[j].Number? ==> vs[j].n <= 0.0)
    else vs != [] && v == vs[0]
  }

  /** Whatever the events, each key of the result holds the last strictly
      positive number seen for it, or the first value when there was none; a
      later zero never erases a count. The keys are exactly those seen. */
  lemma {:induction false} MergeClosedForm(usages: seq<Json>, key: string)
    ensures var r, vs := MergeAll(map[], usages), ValuesOf(usages, key);
            && (key in r <==> vs != [])
            && (key in r ==> IsClosedForm(vs, r[key]))
  {
    if usages != [] {
      var front, last := usages[..|usages| - 1], usages[|usages| - 1];
      MergeClosedForm(front, key);
      var vs, vs' := ValuesOf(front, key), ValuesOf(usages, key);
      var got := Get(last, key);
      if got.Some? {
        assert vs' == vs + [got.value];
        ClosedFormStep(vs, got.value);
      } else {
        assert vs' == vs;
      }
    }
  }

  lemma ClosedFormStep(vs: seq<Json>, w: Json)
    ensures IsPositive(w) || vs == [] ==> IsClosedForm(vs + [w], w)
    ensures forall v :: !IsPositive(w) && IsClosedForm(vs, v) ==> IsClosedForm(vs + [w], v)
  {
    var vs' := vs + [w];
    if IsPositive(w) {
      assert IsPositive(vs'[|vs|]);
    }
    forall v | !IsPositive(w) && IsClosedForm(vs, v)
      ensures IsClosedForm(vs', v)
    {
      if exists i :: 0 <= i < |vs| && IsPositive(vs[i]) {
        var i :| && 0 <= i < |vs| && IsPositive(vs[i]) && v == vs[i]
                 && (forall j :: i < j < |vs| ==> !IsPositive(vs[j]));
        assert IsPositive(vs'[i]) && v == vs'[i];
      } else {
        assert forall i :: 0 <= i < |vs'| ==> !IsPositive(vs'[i]);
      }
    }
  }

  // ---------------------------------------------------------------------
  // Spacing does not matter
  // ---------------------------------------------------------------------

  lemma TrimEndStable(s: string)
    requires s == [] || !IsSpace(s[|s| - 1])
    ensures TrimEnd(s) == s
  {}

  lemma TrimOneSpace(s: string)
    ensures s == [] || !IsSpace(s[|s| - 1]) ==> TrimEnd(s + [' ']) == s
  {
    assert (s + [' '])[..|s|] == s;
  }

  /** A second normalisation of a line changes nothing. */
  lemma NormalizeLineIdempotent(line: string)
    ensures NormalizeLine(NormalizeLine(line)) == NormalizeLine(line)
  {
    hide TrimEnd;
    var t := TrimEnd(line);
    TrimEndStable(t);
    var data, event := StripPrefix(t, "data:"), StripPrefix(t, "event:");
    if data.Some? && !([' '] <= data.value) {
      assert "data: " == "data:" + [' '];
      SpacedIsStable("data:", data.value, t);
    } else if event.Some? && !([' '] <= event.value) {
      assert "event: " == "event:" + [' '];
      SpacedIsStable("event:", event.value, t);
    }
  }

  lemma SpacedIsStable(tag: string, rest: string, t: string)
    requires tag == "data:" || tag == "event:"
    requires t == tag + rest && (t == [] || !IsSpace(t[|t| - 1])) && !([' '] <= rest)
    ensures NormalizeLine(tag + [' '] + rest) == tag + [' '] + rest
  {
    hide TrimEnd;
    var spaced := [' '] + rest;
    var u := tag + spaced;
    assert u == tag + [' '] + rest;
    assert tag <= u && u[|tag|..] == spaced && [' '] <= spaced;
    OtherTag(tag, spaced);
    if rest == [] {
      TrimOneSpace(tag);
      assert u == tag + [' '];
      assert tag[|tag|..] == "";
      OtherTag(tag, "");
      assert tag + "" == tag;
    } else {
      assert u[|u| - 1] == t[|t| - 1];
      TrimEndStable(u);
    }
  }

  lemma OtherTag(tag: string, rest: string)
    requires tag == "data:" || tag == "event:"
    ensures !((if tag == "data:" then "event:" else "data:") <= tag + rest)
  {
    assert (tag + rest)[0] == tag[0];
  }

  lemma TrimEndSnoc(s: string, c: char)
    ensures TrimEnd(s + [c]) == if IsSpace(c) then TrimEnd(s) else s + [c]
  {
    hide IsSpace;
    assert (s + [c])[..|s|] == s;
  }

  lemma {:induction false} TrimEndOfTail(s: string, rest: string)
    ensures TrimEnd(s + rest) == if TrimEnd(rest) == "" then TrimEnd(s) else s + TrimEnd(rest)
  {
    hide IsSpace, TrimEnd;
    if rest == [] {
      assert s + rest == s;
      TrimEmpty();
    } else {
      var n := |rest| - 1;
      var front, c := rest[..n], rest[n];
      assert s + rest == (s + front) + [c] && rest == front + [c];
      TrimEndSnoc(s + front, c);
      TrimEndSnoc(front, c);
      TrimEndOfTail(s, front);
    }
  }

  lemma TrimEmpty()
    ensures TrimEnd("") == ""
  {}

  lemma NormalizeTagged(line: string, tag: string, body: string)
    requires tag == "data:" || tag == "event:"
    requires TrimEnd(line) == tag + body
    ensures NormalizeLine(line) == if [' '] <= body then tag + body else tag + [' '] + body
  {
    hide TrimEnd;
    OtherTag(tag, body);
    assert (tag + body)[|tag|..] == body;
    assert "data: " == "data:" + [' '] && "event: " == "event:" + [' '];
  }

  /** The space after a tag may be left out, and space at the end of a line may
      be added: the normalised line is the same. */
  lemma {:induction false} SpacingVariantsNormalizeAlike(tag: string, rest: string, trailing: string)
    requires tag == "data:" || tag == "event:"
    requires !([' '] <= rest) && TrimEnd(trailing) == ""
    ensures NormalizeLine(tag + [' '] + rest + trailing) == NormalizeLine(tag + rest)
  {
    hide TrimEnd, NormalizeLine;
    var t := TrimEnd(rest);
    TrimVariants(tag, rest, trailing);
    TrimIsPrefix(rest);
    NormalizeTagged(tag + rest, tag, t);
    NormalizeTagged(tag + [' '] + rest + trailing, tag, if t == "" then "" else [' '] + t);
    if t != "" {
      assert tag + [' '] + t == tag + ([' '] + t);
    }
  }

  lemma TrimVariants(tag: string, rest: string, trailing: string)
    requires tag != "" && !IsSpace(tag[|tag| - 1]) && TrimEnd(trailing) == ""
    ensures TrimEnd(tag + rest) == tag + TrimEnd(rest)
    ensures TrimEnd(tag + [' '] + rest + trailing) == tag + if TrimEnd(rest) == "" then "" else [' '] + TrimEnd(rest)
  {
    hide TrimEnd, IsSpace;
    TrimEndOfTail(tag + [' '] + rest, trailing);
    TrimEndOfTail(tag + [' '], rest);
    TrimEndOfTail(tag, rest);
    TrimOneSpace(tag);
    TrimEndStable(tag);
    assert tag + "" == tag;
    assert tag + [' '] + TrimEnd(rest) == tag + ([' '] + TrimEnd(rest));
  }

  lemma TrimIsPrefix(s: string)
    ensures TrimEnd(s) <= s && (TrimEnd(s) == "" || TrimEnd(s)[0] == s[0])
  {}

  /** A line that joining and splitting again gives back. */
  predicate IsPlain(line: string) {
    '\n' !in line && (line == [] || line[|line| - 1] != '\r')
  }

  lemma {:induction false} LinesHaveNoNewline(s: string)
    ensures forall l :: l in Lines(s) ==> '\n' !in l
    decreases |s|
  {
    if s != [] && LineLength(s) < |s| {
      LinesHaveNoNewline(s[LineLength(s) + 1..]);
    }
  }

  lemma NormalizedIsPlain(line: string)
    requires '\n' !in line
    ensures IsPlain(NormalizeLine(line))
  {}

  lemma {:induction false} NormalizedLinesArePlain(lines: seq<string>)
    requires forall l :: l in lines ==> '\n' !in l
    ensures forall l :: l in NormalizeAll(lines) ==> IsPlain(l) && NormalizeLine(l) == l
  {
    if lines != [] {
      NormalizedIsPlain(lines[0]);
      NormalizeLineIdempotent(lines[0]);
      NormalizedLinesArePlain(lines[1..]);
    }
  }

  lemma {:induction false} NormalLinesStay(lines: seq<string>)
    requires forall l :: l in lines ==> NormalizeLine(l) == l
    ensures NormalizeAll(lines) == lines
  {
    if lines != [] {
      NormalLinesStay(lines[1..]);
    }
  }

  lemma {:induction false} LineLengthOfJoin(line: string, rest: string)
    requires '\n' !in line
    ensures LineLength(line + rest) == |line| + LineLength(rest)
    ensures LineLength(line) == |line|
  {
    if line == [] {
      assert line + rest == rest;
    } else {
      LineLengthOfJoin(line[1..], rest);
      assert (line + rest)[1..] == line[1..] + rest;
    }
  }

  /** A final empty line is not seen again after joining. */
  function DropLastEmpty(lines: seq<string>): seq<string> {
    if lines != [] && lines[|lines| - 1] == "" then lines[..|lines| - 1] else lines
  }

  lemma {:induction false} LinesOfJoin(lines: seq<string>)
    requires forall l :: l in lines ==> IsPlain(l)
    ensures Lines(Join(lines)) == DropLastEmpty(lines)
  {
    hide Lines;
    if |lines| == 1 {
      assert IsPlain(lines[0]);
      OneLine(lines[0]);
    } else if |lines| > 1 {
      var rest := lines[1..];
      assert IsPlain(lines[0]);
      FirstLine(lines[0], Join(rest));
      LinesOfJoin(rest);
      DropFromTail(lines);
    } else {
      OneLine("");
    }
  }

  lemma DropFromTail(lines: seq<string>)
    requires |lines| > 1
    ensures DropLastEmpty(lines) == [lines[0]] + DropLastEmpty(lines[1..])
  {
    assert lines[1..][|lines| - 2] == lines[|lines| - 1];
    assert lines[..|lines| - 1] == [lines[0]] + lines[1..][..|lines| - 2];
  }

  lemma OneLine(line: string)
    requires '\n' !in line
    ensures Lines(line) == if line == "" then [] else [line]
  {
    LineLengthOfJoin(line, "");
  }

  lemma FirstLine(line: string, rest: string)
    requires IsPlain(line)
    ensures Lines(line + ['\n'] + rest) == [line] + Lines(rest)
  {
    var s := line + (['\n'] + rest);
    assert s == line + ['\n'] + rest;
    LineLengthOfJoin(line, ['\n'] + rest);
    assert s[..|line|] == line && s[|line| + 1..] == rest;
  }

  lemma EmptyLineHasNoUsage(parse: Parser, lines: seq<string>)
    ensures UsagesOfLines(parse, DropLastEmpty(lines)) == UsagesOfLines(parse, lines)
  {}

  /** Extraction looks at the normalised lines of a body and nothing else. */
  lemma {:induction false} UsagesOfNormalizedLines(parse: Parser, text: string)
    ensures UsagesOfText(parse, text) == UsagesOfLines(parse, NormalizeAll(Lines(text)))
  {
    LinesHaveNoNewline(text);
    NormalizedLinesArePlain(Lines(text));
    LinesOfJoin(NormalizeAll(Lines(text)));
    EmptyLineHasNoUsage(parse, NormalizeAll(Lines(text)));
  }

  /** Bodies whose lines normalise alike give the same usage. */
  lemma {:induction false} SameNormalLinesSameUsage(parse: Parser, a: string, b: string)
    requires NormalizeAll(Lines(a)) == NormalizeAll(Lines(b))
    ensures Extracted(parse, a) == Extracted(parse, b)
  {
    UsagesOfNormalizedLines(parse, a);
    UsagesOfNormalizedLines(parse, b);
  }

  lemma LinesOfNormalized(text: string)
    ensures Lines(NormalizeSseFormat(text)) == DropLastEmpty(NormalizeAll(Lines(text)))
    ensures NormalizeAll(Lines(NormalizeSseFormat(text))) == DropLastEmpty(NormalizeAll(Lines(text)))
  {
    var ls := NormalizeAll(Lines(text));
    LinesHaveNoNewline(text);
    NormalizedLinesArePlain(Lines(text));
    LinesOfJoin(ls);
    assert forall l :: l in DropLastEmpty(ls) ==> l in ls;
    NormalLinesStay(DropLastEmpty(ls));
  }

  /** Spacing is irrelevant: a body and its normalised form give the same usage. */
  lemma {:induction false} ExtractionIgnoresSpacing(parse: Parser, text: string)
    ensures Extracted(parse, NormalizeSseFormat(text)) == Extracted(parse, text)
  {
    UsagesOfNormalizedLines(parse, text);
    UsagesOfNormalizedLines(parse, NormalizeSseFormat(text));
    LinesOfNormalized(text);
    EmptyLineHasNoUsage(parse, NormalizeAll(Lines(text)));
  }

  /** Normalising the whole text twice may lose a trailing blank line: it
      changes nothing exactly when the text has at most one line or its last
      line is not blank. */
  lemma {:induction false} NormalizeTextIdempotentIff(text: string)
    ensures var ls := NormalizeAll(Lines(text));
            NormalizeSseFormat(NormalizeSseFormat(text)) == NormalizeSseFormat(text) <==>
            |ls| <= 1 || ls[|ls| - 1] != ""
  {
    var ls := NormalizeAll(Lines(text));
    LinesOfNormalized(text);
    if |ls| > 1 && ls[|ls| - 1] == "" {
      JoinLonger(ls);
    }
  }

  lemma {:induction false} JoinLonger(ls: seq<string>)
    requires |ls| > 1
    ensures |Join(ls)| == |Join(ls[..|ls| - 1])| + 1 + |ls[|ls| - 1]|
  {
    if |ls| == 2 {
      assert Join(ls[1..]) == ls[1];
    } else {
      JoinLonger(ls[1..]);
      assert ls[1..][..|ls| - 2] == ls[..|ls| - 1][1..];
    }
  }

  // ---------------------------------------------------------------------
  // Which values a body carries, by the shape of its events
  // ---------------------------------------------------------------------

  /** The value at a path of keys, if every step finds an object with the key. */
  function ValueAt(j: Json, path: seq<string>): Option<Json>
    decreases |path|
  {
    if path == [] then Some(j)
    else if j.Object? && path[0] in j.fields then ValueAt(j.fields[path[0]], path[1..])
    else None
  }

  /** The five sources of usage: an event of a type, one with choices, one with
      neither; and where its usage is. */
  datatype Shape = OfType(ty: string) | WithChoices | Bare

  datatype Source = Source(shape: Shape, path: seq<string>)

  const SOURCES: seq<Source> := [
    Source(OfType("message_start"), ["message", "usage"]),
    Source(OfType("message_delta"), ["usage"]),
    Source(OfType("response.completed"), ["response", "usage"]),
    Source(WithChoices, ["usage"]),
    Source(Bare, ["usage"])]

  predicate HasShape(event: Json, shape: Shape) {
    match shape
    case OfType(ty) => ValueAt(event, ["type"]) == Some(Str(ty))
    case WithChoices => ValueAt(event, ["choices"]).Some?
    case Bare => ValueAt(event, ["choices"]).None? && ValueAt(event, ["type"]).None?
  }

  /** The value that an event carries at one source, if any. */
  function At(event: Json, source: Source): seq<Json> {
    if HasShape(event, source.shape) then Opt(ValueAt(event, source.path)) else []
  }

  /** The values that an event carries, source by source. */
  function Carried(event: Json, sources: seq<Source>): seq<Json> {
    if sources == [] then [] else At(event, sources[0]) + Carried(event, sources[1..])
  }

  lemma ValueAtKey(j: Json, a: string, b: string)
    ensures ValueAt(j, [a]) == Get(j, a) && ValueAt(j, [a, b]) == Get2(j, a, b)
  {
    assert [a, b][1..] == [b] && [a][1..] == [] && [b][1..] == [];
    if Get(j, a).Some? {
      var o := Get(j, a).value;
      assert ValueAt(j, [a, b]) == ValueAt(o, [b]);
      if Get(o, b).Some? {
        assert ValueAt(o, [b]) == ValueAt(Get(o, b).value, []);
      }
    }
  }

  lemma CarriedStep(event: Json, s: seq<Source>, i: nat)
    requires i < |s|
    ensures Carried(event, s[i..]) == At(event, s[i]) + Carried(event, s[i + 1..])
  {
    hide At;
    assert s[i..][1..] == s[i + 1..];
  }

  lemma FiveSources(event: Json, s: seq<Source>)
    requires |s| == 5
    ensures Carried(event, s) == At(event, s[0]) + At(event, s[1]) + At(event, s[2]) + At(event, s[3]) + At(event, s[4])
  {
    hide At, Carried;
    NothingCarried(event);
    CarriedStep(event, s, 4);
    CarriedStep(event, s, 3);
    CarriedStep(event, s, 2);
    CarriedStep(event, s, 1);
    CarriedStep(event, s, 0);
    assert s[0..] == s && s[5..] == [];
  }

  lemma NothingCarried(event: Json)
    ensures Carried(event, []) == []
  {}

  /** The scan's branches are these five sources, in this order. */
  lemma UsagesAreCarried(event: Json)
    ensures UsagesOf(event) == Carried(event, SOURCES)
  {
    hide Carried, ValueAt, Get, Get2, Opt;
    FiveSources(event, SOURCES);
    ValueAtKey(event, "message", "usage");
    ValueAtKey(event, "response", "usage");
    ValueAtKey(event, "usage", "");
    ValueAtKey(event, "type", "");
    ValueAtKey(event, "choices", "");
  }

  /** Spelled out: what an event carries, by its type and whether it has choices. */
  lemma CarriedByShape(event: Json, ty: Option<Json>, chat: bool)
    requires ty == ValueAt(event, ["type"]) && chat == ValueAt(event, ["choices"]).Some?
    ensures var carried, usage := Carried(event, SOURCES), Opt(ValueAt(event, ["usage"]));
            var ofChat := if chat then usage else [];
            && (ty == Some(Str("message_start")) ==> carried == Opt(ValueAt(event, ["message", "usage"])) + ofChat)
            && (ty == Some(Str("message_delta")) ==> carried == usage + ofChat)
            && (ty == Some(Str("response.completed")) ==> carried == Opt(ValueAt(event, ["response", "usage"])) + ofChat)
            && (ty == None ==> carried == usage)
            && (ty.Some? && ty.value !in [Str("message_start"), Str("message_delta"), Str("response.completed")] ==>
                  carried == ofChat)
  {
    hide Carried, ValueAt, Get, Get2;
    UsagesAreCarried(event);
    ValueAtKey(event, "message", "usage");
    ValueAtKey(event, "response", "usage");
    ValueAtKey(event, "usage", "");
    ValueAtKey(event, "type", "");
    ValueAtKey(event, "choices", "");
  }

  /** The text after the tag of a data line, unless it is empty or the end mark. */
  function DataOf(line: string): Option<string> {
    if "data: " <= line && line != "data: " && line != "data: [DONE]" then Some(line[6..]) else None
  }

  /** The values that a body's lines carry, once normalised. */
  function CarriedByLines(parse: Parser, lines: seq<string>): seq<Json> {
    if lines == [] then []
    else
      var n := |lines| - 1;
      var data := DataOf(lines[n]);
      var event := if data.Some? then parse(data.value) else None;
      CarriedByLines(parse, lines[..n]) + (if event.Some? then Carried(event.value, SOURCES) else [])
  }

  function CarriedBy(parse: Parser, text: string): seq<Json> {
    CarriedByLines(parse, NormalizeAll(Lines(text)))
  }

  lemma DataOfLine(parse: Parser, line: string)
    ensures EventOf(parse, line) == if DataOf(line).Some? then parse(DataOf(line).value) else None
  {
    if "data: " <= line {
      assert line == "data: " + line[6..];
      assert line == "data: " <==> line[6..] == "";
      assert line == "data: [DONE]" <==> line[6..] == "[DONE]" by {
        assert "data: [DONE]" == "data: " + "[DONE]";
        assert "data: [DONE]"[6..] == "[DONE]";
      }
    }
  }

  lemma {:induction false} LinesCarry(parse: Parser, lines: seq<string>)
    ensures UsagesOfLines(parse, lines) == CarriedByLines(parse, lines)
  {
    hide UsagesOf, EventOf, DataOf, Carried;
    if lines != [] {
      var n := |lines| - 1;
      LinesCarry(parse, lines[..n]);
      DataOfLine(parse, lines[n]);
      if EventOf(parse, lines[n]).Some? {
        UsagesAreCarried(EventOf(parse, lines[n]).value);
      }
    }
  }

  /** The usage of a body: its keys are those of the objects that its events
      carry at the five sources, and each holds the last strictly positive
      number seen for it there, or the first value when there was none. */
  lemma {:induction false} ExtractedIsClosedForm(parse: Parser, text: string, key: string)
    ensures var r, vs := Extracted(parse, text), ValuesOf(CarriedBy(parse, text), key);
            && (r.Some? && key in r.value <==> vs != [])
            && (r.Some? && key in r.value ==> IsClosedForm(vs, r.value[key]))
            && (r.Some? ==> r.value != map[])
  {
    hide UsagesOfText, MergeAll, CarriedBy, ValuesOf, IsClosedForm;
    BodyCarries(parse, text);
    MergeClosedForm(UsagesOfText(parse, text), key);
  }

  lemma BodyCarries(parse: Parser, text: string)
    ensures UsagesOfText(parse, text) == CarriedBy(parse, text)
  {
    hide UsagesOfLines, CarriedByLines, NormalizeAll, Lines;
    UsagesOfNormalizedLines(parse, text);
    LinesCarry(parse, NormalizeAll(Lines(text)));
  }

  /** A body of one data line carries what its event carries: nothing when the
      data is empty, the end mark, or does not parse. */
  lemma OneLineBody(parse: Parser, data: string)
    requires '\n' !in data && (data == "" || !IsSpace(data[|data| - 1]))
    ensures var event := if data == "" || data == "[DONE]" then None else parse(data);
            && CarriedBy(parse, "data: " + data) == (if event.Some? then Carried(event.value, SOURCES) else [])
            && (event.None? ==> Extracted(parse, "data: " + data) == None)
  {
    hide Carried, IsSpace, MergeAll;
    var line, norm := "data: " + data, NormalizeLine("data: " + data);
    OneLine(line);
    assert Lines(line) == [line] && NormalizeAll([line]) == [norm];
    OneLineNormal(data);
    var none: seq<string> := [];
    assert [norm][..0] == none;
    assert CarriedByLines(parse, [norm][..0]) == [];
    assert "data: [DONE]" == "data: " + "[DONE]";
    if data != "" {
      assert norm[6..] == data;
      assert "data: [DONE]"[6..] == "[DONE]";
    }
    BodyCarries(parse, line);
    NoUsageNoFields();
  }

  lemma NoUsageNoFields()
    ensures MergeAll(map[], []) == map[]
  {}

  lemma OneLineNormal(data: string)
    requires data == "" || !IsSpace(data[|data| - 1])
    ensures NormalizeLine("data: " + data) == "data: " + data
  {
    hide TrimEnd, IsSpace;
    var line := "data: " + data;
    if data == "" {
      assert line == "data:" + [' '];
      assert "data:" + "" == "data:";
      TrimOneSpace("data:");
      ColonIsNoSpace();
      NormalizeTagged(line, "data:", "");
    } else {
      TrimEndStable(line);
      assert line == "data:" + ([' '] + data);
      NormalizeTagged(line, "data:", [' '] + data);
    }
  }

  lemma ColonIsNoSpace()
    ensures !IsSpace(':')
  {}
}
