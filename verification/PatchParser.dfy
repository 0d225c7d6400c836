/** The strict unified-diff parser, and the text that it reads back. */
module PatchParser {
  import opened Options
  import opened Text
  import opened Hunks

  datatype FilePatch = FilePatch(path: string, hunks: seq<Hunk>)
  datatype Header = Header(oldStart: nat, oldCount: nat, newStart: nat, newCount: nat)

  /** Which paths the repository accepts, and their cleaned form. */
  type PathPolicy = string -> Option<string>

  // ------------------------------------------------------------- hunk headers

  /** strconv.Atoi on digits: out of range is an error. */
  function Atoi(digits: string): Option<nat>
    requires AllDigits(digits)
  {
    if digits != "" && Value(digits) <= MAX_INT then Some(Value(digits)) else None
  }

  /** hunkRange on "start" or "start,count" at the front of `s`, with the rest
      of `s`; None where the header pattern does not match or a number is out of
      range. */
  function ParseRange(s: string): (result: Option<(nat, nat, string)>)
    ensures result.Some? ==> |result.value.2| <= |s|
  {
    var n := DigitSpan(s);
    var start := Atoi(s[..n]);
    if start.None? then None
    else if n < |s| && s[n] == ',' then
      var m := DigitSpan(s[n + 1..]);
      var count := Atoi(s[n + 1..][..m]);
      if count.None? then None else Some((start.value, count.value, s[n + 1..][m..]))
    else Some((start.value, 1, s[n..]))
  }

  function After(prefix: string, s: string): Option<string>
  {
    if prefix <= s then Some(s[|prefix|..]) else None
  }

  /** The header pattern "@@ -range +range @@". */
  function ParseHeader(s: string): Option<Header>
  {
    var first := After("@@ -", s);
    if first.None? then None else
    var old_ := ParseRange(first.value);
    if old_.None? then None else
    var second := After(" +", old_.value.2);
    if second.None? then None else
    var new_ := ParseRange(second.value);
    if new_.None? || new_.value.2 != " @@" then None
    else Some(Header(old_.value.0, old_.value.1, new_.value.0, new_.value.1))
  }

  // --------------------------------------------------------------- hunk bodies

  predicate IsHeader(line: string)
  {
    "@@ " <= line
  }

  function ParseLine(line: string): Option<Line>
  {
    if line == "" then None
    else if line[0] == ' ' then Some(Line(Context, line[1..]))
    else if line[0] == '+' then Some(Line(Add, line[1..]))
    else if line[0] == '-' then Some(Line(Remove, line[1..]))
    else None
  }

  /** The position of the next header at or after `from`, or the end. */
  function BodyEnd(lines: seq<string>, from: nat): (n: nat)
    requires from <= |lines|
    ensures from <= n <= |lines|
    decreases |lines| - from
  {
    if from == |lines| || IsHeader(lines[from]) then from else BodyEnd(lines, from + 1)
  }

  function ParseBody(lines: seq<string>, from: nat, end: nat): (result: Option<seq<Line>>)
    requires from <= end <= |lines|
    decreases end
  {
    if from == end then Some([])
    else
      var before, last := ParseBody(lines, from, end - 1), ParseLine(lines[end - 1]);
      if before.None? || last.None? then None else Some(before.value + [last.value])
  }

  /** What a hunk must satisfy: both counts are those of its lines, both starts
      are at least one, and it has a line. */
  function CheckedHunk(header: Header, lines: seq<Line>): Option<Hunk>
  {
    if header.oldStart == 0 || header.newStart == 0 || lines == []
       || |Old(lines)| != header.oldCount || |New(lines)| != header.newCount then None
    else Some(Hunk(header.oldStart, header.oldCount, lines))
  }

  /** The hunk whose header is at `from`. */
  function ParseHunk(lines: seq<string>, from: nat): Option<Hunk>
    requires from < |lines|
  {
    var header := ParseHeader(lines[from]);
    var body := ParseBody(lines, from + 1, BodyEnd(lines, from + 1));
    if header.None? || body.None? then None else CheckedHunk(header.value, body.value)
  }

  /** The hunks that the lines from `from` on consist of. */
  function ParseHunks(lines: seq<string>, from: nat): Option<seq<Hunk>>
    requires from <= |lines|
    decreases |lines| - from
  {
    if from == |lines| then Some([])
    else
      var h := ParseHunk(lines, from);
      if h.None? then None else Joined([h.value], ParseHunks(lines, BodyEnd(lines, from + 1)))
  }

  function Joined(hunks: seq<Hunk>, others: Option<seq<Hunk>>): Option<seq<Hunk>>
  {
    if others.None? then None else Some(hunks + others.value)
  }

  function ParsePath(policy: PathPolicy, header: string, prefix: string): Option<string>
  {
    if '\t' in header || '\r' in header || After(prefix, header).None? then None
    else policy(After(prefix, header).value)
  }

  function Parsed(policy: PathPolicy, input: string): Option<FilePatch>
  {
    if !EndsInNewline(input) then None else
    var lines := Lines(input);
    if |lines| < 3 || After("--- ", lines[0]).None? || After("+++ ", lines[1]).None? then None else
    var oldPath := ParsePath(policy, After("--- ", lines[0]).value, "a/");
    var newPath := ParsePath(policy, After("+++ ", lines[1]).value, "b/");
    if oldPath.None? || newPath.None? || oldPath != newPath then None else
    var hunks := ParseHunks(lines, 2);
    if hunks.None? then None else Some(FilePatch(oldPath.value, hunks.value))
  }

  // ---------------------------------------------------------------- the parser

  lemma {:induction false} BodyEndIs(lines: seq<string>, from: nat, n: nat)
    requires from <= n <= |lines| && (forall i | from <= i < n :: !IsHeader(lines[i]))
      && (n < |lines| ==> IsHeader(lines[n]))
    ensures BodyEnd(lines, from) == n
    decreases |lines| - from
  {
    if from < n {
      BodyEndIs(lines, from + 1, n);
    }
  }

  lemma {:induction false} BodyEndIsPast(lines: seq<string>, from: nat, i: nat)
    requires from <= i < |lines| && forall k | from <= k <= i :: !IsHeader(lines[k])
    ensures i < BodyEnd(lines, from)
    decreases |lines| - from
  {
    if i > from {
      BodyEndIsPast(lines, from + 1, i);
    }
  }

  lemma {:induction false} BadLineSpoilsBody(lines: seq<string>, from: nat, end: nat, k: nat)
    requires from <= k < end <= |lines| && ParseLine(lines[k]).None?
    ensures ParseBody(lines, from, end).None?
    decreases end
  {
    if k < end - 1 {
      BadLineSpoilsBody(lines, from, end - 1, k);
    }
  }

  /** The inner loop of parsePatch: the lines of one hunk, with their counts. */
  method ReadBody(lines: seq<string>, from: nat)
    returns (body: Option<seq<Line>>, index: nat, oldLines: nat, newLines: nat)
    requires from <= |lines|
    ensures body == ParseBody(lines, from, BodyEnd(lines, from))
    ensures body.Some? ==>
      index == BodyEnd(lines, from) && oldLines == |Old(body.value)| && newLines == |New(body.value)|
  {
    index, oldLines, newLines := from, 0, 0;
    var current: seq<Line> := [];
    while index < |lines| && !IsHeader(lines[index])
      invariant from <= index <= |lines|
      invariant forall i | from <= i < index :: !IsHeader(lines[i])
      invariant ParseBody(lines, from, index) == Some(current)
      invariant oldLines == |Old(current)| && newLines == |New(current)|
    {
      var line := ParseLine(lines[index]);
      if line.None? {
        BodyEndIsPast(lines, from, index);
        BadLineSpoilsBody(lines, from, BodyEnd(lines, from), index);
        return None, index, oldLines, newLines;
      }
      CountsGrow(current, line.value);
      current := current + [line.value];
      if line.value.kind != Add {
        oldLines := oldLines + 1;
      }
      if line.value.kind != Remove {
        newLines := newLines + 1;
      }
      index := index + 1;
    }
    BodyEndIs(lines, from, index);
    return Some(current), index, oldLines, newLines;
  }

  lemma {:induction false} CountsGrow(lines: seq<Line>, line: Line)
    ensures |Old(lines + [line])| == |Old(lines)| + (if line.kind == Add then 0 else 1)
    ensures |New(lines + [line])| == |New(lines)| + (if line.kind == Remove then 0 else 1)
  {
    assert (lines + [line])[..|lines|] == lines;
  }

  /** One turn of the outer loop: a header and the lines below it. */
  method ReadHunk(lines: seq<string>, index: nat) returns (h: Option<Hunk>, next: nat)
    requires index < |lines|
    ensures h == ParseHunk(lines, index)
    ensures h.Some? ==> next == BodyEnd(lines, index + 1)
  {
    next := index;
    var header := ParseHeader(lines[index]);
    if header.None? {
      return None, next;
    }
    if header.value.oldStart == 0 || header.value.newStart == 0 {
      return None, next;
    }
    var body, oldLines, newLines;
    body, next, oldLines, newLines := ReadBody(lines, index + 1);
    if body.None? || body.value == [] || oldLines != header.value.oldCount || newLines != header.value.newCount {
      return None, next;
    }
    return Some(Hunk(header.value.oldStart, header.value.oldCount, body.value)), next;
  }

  /** The outer loop of parsePatch. */
  method ReadHunks(lines: seq<string>, from: nat) returns (result: Option<seq<Hunk>>)
    requires from <= |lines|
    ensures result == ParseHunks(lines, from)
  {
    hide ParseHunk;
    var hunks: seq<Hunk> := [];
    var index := from;
    JoinNothing(ParseHunks(lines, from));
    while index < |lines|
      invariant from <= index <= |lines|
      invariant ParseHunks(lines, from) == Joined(hunks, ParseHunks(lines, index))
    {
      var h, next := ReadHunk(lines, index);
      if h.None? {
        return None;
      }
      JoinOne(hunks, h.value, ParseHunks(lines, next));
      hunks := hunks + [h.value];
      index := next;
    }
    assert hunks + [] == hunks;
    return Some(hunks);
  }

  lemma {:induction false} JoinNothing(others: Option<seq<Hunk>>)
    ensures Joined([], others) == others
  {
    if others.Some? {
      assert [] + others.value == others.value;
    }
  }

  lemma {:induction false} JoinOne(hunks: seq<Hunk>, h: Hunk, others: Option<seq<Hunk>>)
    ensures Joined(hunks, Joined([h], others)) == Joined(hunks + [h], others)
  {
    if others.Some? {
      assert hunks + ([h] + others.value) == hunks + [h] + others.value;
    }
  }

  /** parsePatch. */
  method ParsePatch(policy: PathPolicy, input: string) returns (result: Option<FilePatch>)
    ensures result == Parsed(policy, input)
  {
    if !EndsInNewline(input) {
      return None;
    }
    var lines := Lines(input);
    if |lines| < 3 || After("--- ", lines[0]).None? || After("+++ ", lines[1]).None? {
      return None;
    }
    var oldPath := ParsePath(policy, After("--- ", lines[0]).value, "a/");
    if oldPath.None? {
      return None;
    }
    var newPath := ParsePath(policy, After("+++ ", lines[1]).value, "b/");
    if newPath.None? || oldPath != newPath {
      return None;
    }
    var hunks := ReadHunks(lines, 2);
    if hunks.None? {
      return None;
    }
    return Some(FilePatch(oldPath.value, hunks.value));
  }

  // -------------------------------------------------------------- printed diffs

  /** The free choices in printing a hunk: the new start, which the parser reads
      but does not keep, and whether a count of one is left out. */
  datatype Style = Style(newStart: nat, bareOld: bool, bareNew: bool)

  function RangeText(start: nat, count: nat, bare: bool): string
  {
    if bare && count == 1 then Digits(start) else Digits(start) + "," + Digits(count)
  }

  function HeaderText(h: Header, style: Style): string
  {
    "@@ -" + (RangeText(h.oldStart, h.oldCount, style.bareOld) +
      (" +" + (RangeText(h.newStart, h.newCount, style.bareNew) + " @@")))
  }

  function LineText(line: Line): string
  {
    [match line.kind case Context => ' ' case Add => '+' case Remove => '-'] + line.text
  }

  function LineTexts(lines: seq<Line>): (texts: seq<string>)
    ensures |texts| == |lines|
  {
    seq(|lines|, i requires 0 <= i < |lines| => LineText(lines[i]))
  }

  /** A hunk that a unified diff can express. */
  ghost predicate Expressible(h: Hunk)
  {
    && 1 <= h.oldStart <= MAX_INT && 0 <= h.oldCount <= MAX_INT && |New(h.lines)| <= MAX_INT
    && |h.lines| > 0 && h.oldCount == |Old(h.lines)|
    && forall i | 0 <= i < |h.lines| :: '\n' !in h.lines[i].text
  }

  function HunkTexts(h: Hunk, style: Style): seq<string>
    requires h.oldStart >= 0 && h.oldCount >= 0
  {
    [HeaderText(Header(h.oldStart, h.oldCount, style.newStart, |New(h.lines)|), style)] + LineTexts(h.lines)
  }

  ghost predicate AllExpressible(hunks: seq<Hunk>, styles: seq<Style>)
  {
    && |styles| == |hunks|
    && forall k | 0 <= k < |hunks| :: Expressible(hunks[k]) && 1 <= styles[k].newStart <= MAX_INT
  }

  function HunksTexts(hunks: seq<Hunk>, styles: seq<Style>): seq<string>
    requires |styles| == |hunks| && forall k | 0 <= k < |hunks| :: hunks[k].oldStart >= 0 && hunks[k].oldCount >= 0
  {
    if hunks == [] then [] else HunkTexts(hunks[0], styles[0]) + HunksTexts(hunks[1..], styles[1..])
  }

  /** A patch as a unified diff. */
  function Printed(patch: FilePatch, styles: seq<Style>): string
    requires |styles| == |patch.hunks| && forall k | 0 <= k < |patch.hunks| ::
      patch.hunks[k].oldStart >= 0 && patch.hunks[k].oldCount >= 0
  {
    Unlines(["--- " + ("a/" + patch.path), "+++ " + ("b/" + patch.path)] + HunksTexts(patch.hunks, styles))
  }

  // -------------------------------------------------------------- reading back

  lemma {:induction false} ReadRange(start: nat, count: nat, bare: bool, rest: string)
    requires start <= MAX_INT && count <= MAX_INT
    requires rest != "" && !IsDigit(rest[0]) && rest[0] != ','
    ensures ParseRange(RangeText(start, count, bare) + rest) == Some((start, count, rest))
  {
    if bare && count == 1 {
      ReadNumber(start, rest);
    } else {
      var tail := "," + (Digits(count) + rest);
      assert RangeText(start, count, bare) + rest == Digits(start) + tail;
      ReadNumber(start, tail);
      ReadNumber(count, rest);
      hide Digits, DigitSpan, Atoi;
      assert tail[1..] == Digits(count) + rest;
      var s, n := Digits(start) + tail, |Digits(start)|;
      assert s[n + 1..] == tail[1..];
    }
  }

  /** A number in front of something that is not a digit. */
  lemma {:induction false} ReadNumber(n: nat, rest: string)
    requires n <= MAX_INT && rest != "" && !IsDigit(rest[0])
    ensures var s := Digits(n) + rest;
      && DigitSpan(s) == |Digits(n)| && s[DigitSpan(s)..] == rest && Atoi(s[..DigitSpan(s)]) == Some(n)
  {
    DigitSpanAppend(Digits(n), rest);
    ValueOfDigits(n);
    assert (Digits(n) + rest)[..|Digits(n)|] == Digits(n);
  }

  lemma {:induction false} AfterPrefix(prefix: string, rest: string)
    ensures After(prefix, prefix + rest) == Some(rest)
  {
    assert (prefix + rest)[|prefix|..] == rest;
  }

  lemma {:induction false} ReadHeader(h: Header, style: Style)
    requires h.oldStart <= MAX_INT && h.oldCount <= MAX_INT && h.newStart <= MAX_INT && h.newCount <= MAX_INT
    ensures ParseHeader(HeaderText(h, style)) == Some(h)
  {
    hide RangeText, ParseRange, After;
    var old_, new_ := RangeText(h.oldStart, h.oldCount, style.bareOld),
      RangeText(h.newStart, h.newCount, style.bareNew);
    var last := " @@";
    var rest := " +" + (new_ + last);
    AfterPrefix("@@ -", old_ + rest);
    ReadRange(h.oldStart, h.oldCount, style.bareOld, rest);
    AfterPrefix(" +", new_ + last);
    ReadRange(h.newStart, h.newCount, style.bareNew, last);
    assert HeaderText(h, style) == "@@ -" + (old_ + rest);
  }

  lemma {:induction false} ReadLine(line: Line)
    ensures ParseLine(LineText(line)) == Some(line) && !IsHeader(LineText(line))
  {
    assert LineText(line)[1..] == line.text;
  }

  lemma {:induction false} ReadBodyBack(lines: seq<string>, from: nat, body: seq<Line>, n: nat)
    requires n <= |body| && from + n <= |lines|
    requires forall i | 0 <= i < n :: lines[from + i] == LineText(body[i])
    ensures ParseBody(lines, from, from + n) == Some(body[..n])
    decreases n
  {
    if n > 0 {
      ReadBodyBack(lines, from, body, n - 1);
      ReadLine(body[n - 1]);
      assert body[..n] == body[..n - 1] + [body[n - 1]];
    }
  }

  lemma {:induction false} HeaderTextIsHeader(h: Header, style: Style)
    ensures IsHeader(HeaderText(h, style))
  {
    assert HeaderText(h, style)[..3] == "@@ ";
  }

  /** The header says what is in the hunk. */
  predicate Heads(header: Header, h: Hunk)
  {
    && header.oldStart == h.oldStart && header.oldCount == h.oldCount == |Old(h.lines)|
    && header.newCount == |New(h.lines)| && header.oldStart >= 1 && header.newStart >= 1 && |h.lines| > 0
  }

  /** One hunk under its header line, followed by nothing or by another header, is
      read back. */
  lemma {:induction false} ReadHunkAt(lines: seq<string>, from: nat, text: string, header: Header, h: Hunk)
    requires ParseHeader(text) == Some(header) && Heads(header, h)
    requires from + 1 + |h.lines| <= |lines| && lines[from..from + 1 + |h.lines|] == [text] + LineTexts(h.lines)
    requires from + 1 + |h.lines| < |lines| ==> IsHeader(lines[from + 1 + |h.lines|])
    ensures ParseHunk(lines, from) == Some(h) && BodyEnd(lines, from + 1) == from + 1 + |h.lines|
  {
    hide ParseHeader, ParseLine, LineText, ParseBody, BodyEnd, IsHeader, Old, New;
    var texts := [text] + LineTexts(h.lines);
    assert lines[from] == texts[0];
    forall i | 0 <= i < |h.lines|
      ensures lines[from + 1 + i] == LineText(h.lines[i]) && !IsHeader(lines[from + 1 + i])
    {
      assert lines[from..from + 1 + |h.lines|][1 + i] == texts[1 + i];
      ReadLine(h.lines[i]);
    }
    forall i | from + 1 <= i < from + 1 + |h.lines| ensures !IsHeader(lines[i]) {
      assert !IsHeader(lines[from + 1 + (i - from - 1)]);
    }
    BodyEndIs(lines, from + 1, from + 1 + |h.lines|);
    ReadBodyBack(lines, from + 1, h.lines, |h.lines|);
    assert h.lines[..|h.lines|] == h.lines;
  }

  lemma {:induction false} ReadHunkBack(lines: seq<string>, from: nat, h: Hunk, style: Style)
    requires Expressible(h) && 1 <= style.newStart <= MAX_INT
    requires from + 1 + |h.lines| <= |lines|
    requires lines[from..from + 1 + |h.lines|] == HunkTexts(h, style)
    requires from + 1 + |h.lines| < |lines| ==> IsHeader(lines[from + 1 + |h.lines|])
    ensures ParseHunk(lines, from) == Some(h) && BodyEnd(lines, from + 1) == from + 1 + |h.lines|
  {
    hide ParseHeader, HeaderText, ParseHunk, BodyEnd, IsHeader, Old, New;
    var header := Header(h.oldStart, h.oldCount, style.newStart, |New(h.lines)|);
    ReadHeader(header, style);
    ReadHunkAt(lines, from, HeaderText(header, style), header, h);
  }

  lemma {:induction false} FirstIsHeader(hunks: seq<Hunk>, styles: seq<Style>)
    requires AllExpressible(hunks, styles) && |HunksTexts(hunks, styles)| > 0
    ensures IsHeader(HunksTexts(hunks, styles)[0])
  {
    hide HeaderText, LineTexts;
    HeaderTextIsHeader(Header(hunks[0].oldStart, hunks[0].oldCount, styles[0].newStart, |New(hunks[0].lines)|),
      styles[0]);
  }

  lemma {:induction false} ReadHunksBack(lines: seq<string>, from: nat, hunks: seq<Hunk>, styles: seq<Style>)
    requires AllExpressible(hunks, styles)
    requires from <= |lines| && lines[from..] == HunksTexts(hunks, styles)
    ensures ParseHunks(lines, from) == Some(hunks)
    decreases |hunks|
  {
    hide ParseHunk, HeaderText, LineTexts, Old, New, BodyEnd, IsHeader;
    if hunks != [] {
      assert AllExpressible(hunks[1..], styles[1..]);
      var texts, others := HunkTexts(hunks[0], styles[0]), HunksTexts(hunks[1..], styles[1..]);
      var next := from + |texts|;
      assert lines[from..next] == lines[from..][..|texts|] == texts;
      assert lines[next..] == lines[from..][|texts|..] == others;
      if next < |lines| {
        FirstIsHeader(hunks[1..], styles[1..]);
        assert lines[next] == others[0];
      }
      ReadHunkBack(lines, from, hunks[0], styles[0]);
      ReadHunksBack(lines, next, hunks[1..], styles[1..]);
      assert [hunks[0]] + hunks[1..] == hunks;
    }
  }

  lemma {:induction false} DigitsNewlineFree(n: nat)
    ensures '\n' !in Digits(n)
  {
  }

  lemma {:induction false} RangeNewlineFree(start: nat, count: nat, bare: bool)
    ensures '\n' !in RangeText(start, count, bare)
  {
    DigitsNewlineFree(start);
    DigitsNewlineFree(count);
    hide Digits;
  }

  lemma {:induction false} HeaderNewlineFree(h: Header, style: Style)
    ensures '\n' !in HeaderText(h, style)
  {
    RangeNewlineFree(h.oldStart, h.oldCount, style.bareOld);
    RangeNewlineFree(h.newStart, h.newCount, style.bareNew);
    hide RangeText;
  }

  lemma {:induction false} HunkTextsNewlineFree(h: Hunk, style: Style)
    requires Expressible(h)
    ensures NewlineFree(HunkTexts(h, style)) && |HunkTexts(h, style)| >= 2
  {
    hide Digits, Old, New, HeaderText;
    HeaderNewlineFree(Header(h.oldStart, h.oldCount, style.newStart, |New(h.lines)|), style);
    forall i | 0 <= i < |h.lines| ensures '\n' !in LineText(h.lines[i]) {
    }
  }

  lemma {:induction false} HunksTextsNewlineFree(hunks: seq<Hunk>, styles: seq<Style>)
    requires AllExpressible(hunks, styles)
    ensures NewlineFree(HunksTexts(hunks, styles))
    ensures |hunks| > 0 ==> |HunksTexts(hunks, styles)| >= 2
    decreases |hunks|
  {
    hide HunkTexts;
    if hunks != [] {
      HunkTextsNewlineFree(hunks[0], styles[0]);
      HunksTextsNewlineFree(hunks[1..], styles[1..]);
    }
  }

  /** A path that a diff header can carry and that the policy returns unchanged. */
  ghost predicate CleanPath(policy: PathPolicy, path: string)
  {
    policy(path) == Some(path) && '\t' !in path && '\r' !in path && '\n' !in path
  }

  lemma {:induction false} ReadPath(policy: PathPolicy, path: string, prefix: string)
    requires CleanPath(policy, path) && '\t' !in prefix && '\r' !in prefix
    ensures ParsePath(policy, prefix + path, prefix) == Some(path)
  {
    hide After;
    AfterPrefix(prefix, path);
  }

  /** Main result: a patch printed as a unified diff, in any style, is read back
      unchanged. */
  lemma {:induction false} PrintThenParse(policy: PathPolicy, patch: FilePatch, styles: seq<Style>)
    requires CleanPath(policy, patch.path) && |patch.hunks| > 0 && AllExpressible(patch.hunks, styles)
    ensures Parsed(policy, Printed(patch, styles)) == Some(patch)
  {
    hide ParseHunks, HunksTexts, Lines, Unlines, After, ParsePath;
    var first, second := "a/" + patch.path, "b/" + patch.path;
    var texts := HunksTexts(patch.hunks, styles);
    var lines := ["--- " + first, "+++ " + second] + texts;
    HunksTextsNewlineFree(patch.hunks, styles);
    assert NewlineFree(lines);
    LinesUnlines(lines);
    ReadPath(policy, patch.path, "a/");
    ReadPath(policy, patch.path, "b/");
    AfterPrefix("--- ", first);
    AfterPrefix("+++ ", second);
    assert lines[2..] == texts;
    ReadHunksBack(lines, 2, patch.hunks, styles);
  }

  // ------------------------------------------------------ what parsing promises

  lemma {:induction false} BodyIsNewlineFree(lines: seq<string>, from: nat, end: nat)
    requires from <= end <= |lines| && NewlineFree(lines) && ParseBody(lines, from, end).Some?
    ensures forall i | 0 <= i < |ParseBody(lines, from, end).value| ::
      '\n' !in ParseBody(lines, from, end).value[i].text
    decreases end
  {
    if from < end {
      BodyIsNewlineFree(lines, from, end - 1);
    }
  }

  lemma {:induction false} ParsedHunkIsExpressible(lines: seq<string>, from: nat)
    requires from < |lines| && NewlineFree(lines) && ParseHunk(lines, from).Some?
    ensures Expressible(ParseHunk(lines, from).value)
  {
    HeaderInRange(lines[from]);
    BodyIsNewlineFree(lines, from + 1, BodyEnd(lines, from + 1));
    hide ParseHeader, ParseBody;
  }

  lemma {:induction false} HeaderInRange(s: string)
    requires ParseHeader(s).Some?
    ensures var h := ParseHeader(s).value;
      h.oldStart <= MAX_INT && h.oldCount <= MAX_INT && h.newStart <= MAX_INT && h.newCount <= MAX_INT
  {
    hide After, DigitSpan, Value;
  }

  lemma {:induction false} ParsedHunksAreExpressible(lines: seq<string>, from: nat)
    requires from <= |lines| && NewlineFree(lines) && ParseHunks(lines, from).Some?
    ensures forall k | 0 <= k < |ParseHunks(lines, from).value| :: Expressible(ParseHunks(lines, from).value[k])
    ensures from < |lines| ==> |ParseHunks(lines, from).value| > 0
    decreases |lines| - from
  {
    hide ParseHunk, Expressible;
    if from < |lines| {
      ParsedHunkIsExpressible(lines, from);
      ParsedHunksAreExpressible(lines, BodyEnd(lines, from + 1));
    }
  }

  /** Main result: every hunk that the parser lets through has at least one line
      and exactly as many old lines as its header says, so the old-count check
      in applyHunks can never fire on it. */
  lemma {:induction false} ParsedPatchIsExpressible(policy: PathPolicy, input: string)
    requires Parsed(policy, input).Some?
    ensures var hunks := Parsed(policy, input).value.hunks;
      |hunks| > 0 && forall k | 0 <= k < |hunks| :: Expressible(hunks[k])
  {
    hide ParseHunk, Expressible, ParsePath;
    ParsedHunksAreExpressible(Lines(input), 2);
  }

  lemma {:induction false} HunksWithinText(text: seq<string>, hunks: seq<Hunk>, cursor: nat, k: nat)
    requires cursor <= |text| && k < |hunks| && Applied(text, hunks, cursor).Some?
    ensures 1 <= hunks[k].oldStart <= |text| + 1 && hunks[k].oldCount == |Old(hunks[k].lines)| <= |text|
    decreases |hunks|
  {
    if k > 0 {
      HunksWithinText(text, hunks[1..], hunks[0].oldStart - 1 + |Old(hunks[0].lines)|, k - 1);
    }
  }

  lemma {:induction false} InverseAt(hunks: seq<Hunk>, shift: int, k: nat)
    requires k < |hunks|
    ensures |Inverse(hunks, shift)| == |hunks|
    ensures Inverse(hunks, shift)[k].lines == Swapped(hunks[k].lines)
    decreases |hunks|
  {
    if k > 0 {
      InverseAt(hunks[1..], shift + Growth(hunks[0]), k - 1);
    } else if |hunks| > 1 {
      InverseAt(hunks[1..], shift + Growth(hunks[0]), 0);
    }
  }

  lemma {:induction false} SwappedTexts(lines: seq<Line>)
    requires forall i | 0 <= i < |lines| :: '\n' !in lines[i].text
    ensures |Swapped(lines)| == |lines| && forall i | 0 <= i < |lines| :: '\n' !in Swapped(lines)[i].text
  {
    if lines != [] {
      SwappedTexts(lines[..|lines| - 1]);
    }
  }

  /** The inverse of an applied patch can be printed. */
  lemma {:induction false} InverseIsExpressible(original: seq<string>, hunks: seq<Hunk>, k: nat)
    requires k < |hunks| && Applied(original, hunks, 0).Some? && |Applied(original, hunks, 0).value| < MAX_INT
    requires Expressible(hunks[k])
    ensures |Inverse(hunks, 0)| == |hunks| && Expressible(Inverse(hunks, 0)[k])
  {
    var updated := Applied(original, hunks, 0).value;
    InverseOnLines(original, hunks);
    InverseAt(hunks, 0, k);
    HunksWithinText(updated, Inverse(hunks, 0), 0, k);
    SwappedLines(hunks[k].lines);
    SwappedTexts(hunks[k].lines);
  }

  /** Main result: after a parsed patch has been applied to a file and left at
      least one line, there is a patch that undoes it: the inverse hunks printed
      as a unified diff, in any style, are accepted by the parser and restore the
      file byte for byte. */
  lemma {:induction false} UndoPatch(policy: PathPolicy, input: string, content: string, styles: seq<Style>)
    requires Parsed(policy, input).Some? && CleanPath(policy, Parsed(policy, input).value.path)
    requires var hunks := Parsed(policy, input).value.hunks;
      && AppliedText(content, hunks).Some? && 0 < |Lines(content)| + TotalGrowth(hunks) < MAX_INT
      && |styles| == |hunks| && forall k | 0 <= k < |hunks| :: 1 <= styles[k].newStart <= MAX_INT
    ensures var patch := Parsed(policy, input).value; var inverse := Inverse(patch.hunks, 0);
      && AllExpressible(inverse, styles)
      && Parsed(policy, Printed(FilePatch(patch.path, inverse), styles)) == Some(FilePatch(patch.path, inverse))
      && AppliedText(AppliedText(content, patch.hunks).value, inverse) == Some(content)
  {
    hide Parsed, Printed, Applied;
    var patch := Parsed(policy, input).value;
    var inverse := Inverse(patch.hunks, 0);
    ParsedPatchIsExpressible(policy, input);
    ResultLength(Lines(content), patch.hunks, 0);
    InverseIsExpressible(Lines(content), patch.hunks, 0);
    forall k | 0 <= k < |inverse| ensures Expressible(inverse[k]) {
      InverseIsExpressible(Lines(content), patch.hunks, k);
    }
    ExpressibleTexts(patch.hunks);
    PrintThenParse(policy, FilePatch(patch.path, inverse), styles);
    InverseRestoresText(content, patch.hunks);
  }

  lemma {:induction false} ExpressibleTexts(hunks: seq<Hunk>)
    requires forall k | 0 <= k < |hunks| :: Expressible(hunks[k])
    ensures TextsNewlineFree(hunks)
  {
    forall k, i | 0 <= k < |hunks| && 0 <= i < |hunks[k].lines| ensures '\n' !in hunks[k].lines[i].text {
      assert Expressible(hunks[k]);
    }
  }
}
