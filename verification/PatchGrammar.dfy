/** The texts that the diff parser accepts, as a grammar: which they are, and what
    each of them means (internal/repo/repo.go). */
module PatchGrammar {
  import opened Options
  import opened Text
  import opened Hunks
  import opened PatchParser

  /** How the numbers of a hunk header are written: any digits, leading zeros
      included, and a count of one may be left out. */
  datatype Spelling = Spelling(oldStart: string, oldCount: Option<string>, newStart: string, newCount: Option<string>)

  ghost predicate Denotes(digits: string, n: int)
  {
    digits != "" && AllDigits(digits) && Value(digits) == n <= MAX_INT
  }

  ghost predicate CountDenotes(count: Option<string>, n: int)
  {
    if count.Some? then Denotes(count.value, n) else n == 1
  }

  function RangeAs(start: string, count: Option<string>): string
  {
    start + if count.Some? then "," + count.value else ""
  }

  function HeaderAs(sp: Spelling): string
  {
    "@@ -" + (RangeAs(sp.oldStart, sp.oldCount) + (" +" + (RangeAs(sp.newStart, sp.newCount) + " @@")))
  }

  /** The header written so stands over this hunk: starts are at least one, and both
      counts are those of the hunk's lines. */
  ghost predicate StandsOver(sp: Spelling, h: Hunk)
  {
    && Denotes(sp.oldStart, h.oldStart) && CountDenotes(sp.oldCount, h.oldCount) && h.oldStart >= 1
    && AllDigits(sp.newStart) && Denotes(sp.newStart, Value(sp.newStart)) && Value(sp.newStart) >= 1
    && CountDenotes(sp.newCount, |New(h.lines)|)
    && h.oldCount == |Old(h.lines)| && h.lines != []
  }

  /** The lines of a patch below its two path lines. */
  function TextsAs(hunks: seq<Hunk>, spellings: seq<Spelling>): seq<string>
    requires |spellings| == |hunks|
  {
    if hunks == [] then []
    else [HeaderAs(spellings[0])] + LineTexts(hunks[0].lines) + TextsAs(hunks[1..], spellings[1..])
  }

  ghost predicate AllStandOver(spellings: seq<Spelling>, hunks: seq<Hunk>)
  {
    |spellings| == |hunks|
    && (hunks != [] ==> StandsOver(spellings[0], hunks[0]) && AllStandOver(spellings[1..], hunks[1..]))
  }

  ghost predicate PathLine(policy: PathPolicy, text: string, path: string)
  {
    policy(text) == Some(path) && '\t' !in text && '\r' !in text && '\n' !in text
  }

  /** The input is the patch, with its path written as `p` and as `q` and its hunk
      headers as `spellings`. */
  ghost predicate Writes(policy: PathPolicy, input: string, patch: FilePatch, p: string, q: string,
                         spellings: seq<Spelling>)
  {
    && PathLine(policy, p, patch.path) && PathLine(policy, q, patch.path)
    && patch.hunks != [] && AllStandOver(spellings, patch.hunks) && TextsNewlineFree(patch.hunks)
    && input == Unlines(["--- " + ("a/" + p), "+++ " + ("b/" + q)] + TextsAs(patch.hunks, spellings))
  }

  // ------------------------------------------------------------ from the grammar

  lemma {:induction false} ReadDigits(digits: string, n: int, rest: string)
    requires Denotes(digits, n) && rest != "" && !IsDigit(rest[0])
    ensures var s := digits + rest;
      && DigitSpan(s) == |digits| && s[DigitSpan(s)..] == rest && Atoi(s[..DigitSpan(s)]) == Some(n)
  {
    DigitSpanAppend(digits, rest);
    assert (digits + rest)[..|digits|] == digits;
  }

  lemma {:induction false} ReadRangeAs(start: string, a: int, count: Option<string>, n: int, rest: string)
    requires Denotes(start, a) && CountDenotes(count, n)
    requires rest != "" && !IsDigit(rest[0]) && rest[0] != ','
    ensures a >= 0 && n >= 0 && ParseRange(RangeAs(start, count) + rest) == Some((a as nat, n as nat, rest))
  {
    if count.None? {
      assert start + "" + rest == start + rest;
      ReadDigits(start, a, rest);
    } else {
      var tail := "," + (count.value + rest);
      assert RangeAs(start, count) + rest == start + tail;
      ReadDigits(start, a, tail);
      ReadDigits(count.value, n, rest);
      hide DigitSpan, Atoi, Value;
      assert tail[1..] == count.value + rest;
      assert (start + tail)[|start| + 1..] == tail[1..];
    }
  }

  lemma {:induction false} ReadHeaderAs(sp: Spelling, h: Hunk) returns (header: Header)
    requires StandsOver(sp, h)
    ensures ParseHeader(HeaderAs(sp)) == Some(header) && Heads(header, h)
  {
    var old_, new_ := RangeAs(sp.oldStart, sp.oldCount), RangeAs(sp.newStart, sp.newCount);
    var last := " @@";
    var rest := " +" + (new_ + last);
    ReadRangeAs(sp.oldStart, h.oldStart, sp.oldCount, h.oldCount, rest);
    ReadRangeAs(sp.newStart, Value(sp.newStart), sp.newCount, |New(h.lines)|, last);
    header := Header(h.oldStart, h.oldCount, Value(sp.newStart), |New(h.lines)|);
    hide ParseRange, RangeAs, After, Old, New, Value, Denotes, CountDenotes;
    AfterPrefix("@@ -", old_ + rest);
    AfterPrefix(" +", new_ + last);
    assert HeaderAs(sp) == "@@ -" + (old_ + rest);
  }

  lemma {:induction false} HeaderAsIsHeader(sp: Spelling)
    ensures IsHeader(HeaderAs(sp))
  {
    assert HeaderAs(sp)[..3] == "@@ ";
  }

  lemma {:induction false} Pieces<T>(front: seq<T>, back: seq<T>, s: seq<T>, from: nat)
    requires from <= |s| && s[from..] == front + back
    ensures from + |front| <= |s| && s[from..from + |front|] == front && s[from + |front|..] == back
  {
    assert s[from..][..|front|] == front && s[from..][|front|..] == back;
  }

  lemma {:induction false} FirstAndRest<T>(s: seq<T>, from: nat, to: nat)
    requires from < to <= |s|
    ensures s[from..to] == [s[from]] + s[from + 1..to]
  {
  }

  lemma {:induction false} FrontAndBack<T>(s: seq<T>, from: nat, to: nat)
    requires from <= to <= |s|
    ensures s[from..] == s[from..to] + s[to..]
  {
  }

  lemma {:induction false} Consed<T>(first: T, rest: seq<T>)
    ensures ([first] + rest)[1..] == rest
  {
  }

  lemma {:induction false} Uncons<T>(s: seq<T>)
    requires s != []
    ensures s == [s[0]] + s[1..]
  {
  }

  lemma {:induction false} TwoAndRest<T>(a: T, b: T, s: seq<T>)
    ensures ([a, b] + s)[2..] == s
    ensures |s| >= 2 ==> s == [s[0], s[1]] + s[2..]
  {
  }

  lemma {:induction false} TextsCons(h: Hunk, hunks: seq<Hunk>, sp: Spelling, spellings: seq<Spelling>)
    requires |spellings| == |hunks|
    ensures TextsAs([h] + hunks, [sp] + spellings) == [HeaderAs(sp)] + LineTexts(h.lines) + TextsAs(hunks, spellings)
    ensures AllStandOver([sp] + spellings, [h] + hunks) <==> StandsOver(sp, h) && AllStandOver(spellings, hunks)
  {
    hide HeaderAs, LineTexts, StandsOver;
    Consed(h, hunks);
    Consed(sp, spellings);
  }

  lemma {:induction false} FirstTextIsHeader(hunks: seq<Hunk>, spellings: seq<Spelling>)
    requires |spellings| == |hunks| && TextsAs(hunks, spellings) != []
    ensures IsHeader(TextsAs(hunks, spellings)[0])
  {
    HeaderAsIsHeader(spellings[0]);
    hide HeaderAs, IsHeader, LineTexts;
  }

  lemma {:induction false} ReadFirst(lines: seq<string>, from: nat, h: Hunk, sp: Spelling, more: seq<Hunk>,
                                     others: seq<Spelling>)
    returns (next: nat)
    requires StandsOver(sp, h) && |others| == |more| && from < |lines|
    requires lines[from..] == [HeaderAs(sp)] + LineTexts(h.lines) + TextsAs(more, others)
    ensures from < next <= |lines| && lines[next..] == TextsAs(more, others)
    ensures ParseHunk(lines, from) == Some(h) && BodyEnd(lines, from + 1) == next
  {
    hide ParseHunk, ParseHeader, HeaderAs, LineTexts, StandsOver, Heads, BodyEnd, IsHeader, TextsAs;
    var texts := [HeaderAs(sp)] + LineTexts(h.lines);
    next := from + |texts|;
    Pieces(texts, TextsAs(more, others), lines, from);
    if next < |lines| {
      assert lines[next] == lines[next..][0];
      FirstTextIsHeader(more, others);
    }
    var header := ReadHeaderAs(sp, h);
    ReadHunkAt(lines, from, HeaderAs(sp), header, h);
  }

  lemma {:induction false} ReadTextsAs(lines: seq<string>, from: nat, hunks: seq<Hunk>, spellings: seq<Spelling>)
    requires AllStandOver(spellings, hunks)
    requires from <= |lines| && lines[from..] == TextsAs(hunks, spellings)
    ensures ParseHunks(lines, from) == Some(hunks)
    decreases |hunks|
  {
    if hunks == [] {
      return;
    }
    hide ParseHunk, HeaderAs, LineTexts, StandsOver, BodyEnd, IsHeader;
    var next := ReadFirst(lines, from, hunks[0], spellings[0], hunks[1..], spellings[1..]);
    ReadTextsAs(lines, next, hunks[1..], spellings[1..]);
    Uncons(hunks);
  }

  lemma {:induction false} BothNewlineFree(a: seq<string>, b: seq<string>)
    requires NewlineFree(a) && NewlineFree(b)
    ensures NewlineFree(a + b)
  {
  }

  lemma {:induction false} LinesNewlineFree(h: Hunk)
    requires forall i | 0 <= i < |h.lines| :: '\n' !in h.lines[i].text
    ensures NewlineFree(LineTexts(h.lines))
  {
  }

  lemma {:induction false} TextsAsNewlineFree(hunks: seq<Hunk>, spellings: seq<Spelling>)
    requires AllStandOver(spellings, hunks) && TextsNewlineFree(hunks)
    ensures NewlineFree(TextsAs(hunks, spellings)) && (hunks != [] ==> TextsAs(hunks, spellings) != [])
    decreases |hunks|
  {
    if hunks == [] {
      return;
    }
    assert TextsNewlineFree(hunks[1..]);
    LinesNewlineFree(hunks[0]);
    HeaderAsNewlineFree(spellings[0], hunks[0]);
    hide HeaderAs, LineTexts, StandsOver, TextsNewlineFree;
    TextsAsNewlineFree(hunks[1..], spellings[1..]);
    var head := [HeaderAs(spellings[0])];
    assert NewlineFree(head);
    hide NewlineFree;
    BothNewlineFree(head, LineTexts(hunks[0].lines));
    BothNewlineFree(head + LineTexts(hunks[0].lines), TextsAs(hunks[1..], spellings[1..]));
  }

  lemma {:induction false} HeaderAsNewlineFree(sp: Spelling, h: Hunk)
    requires StandsOver(sp, h)
    ensures '\n' !in HeaderAs(sp)
  {
    RangeAsNewlineFree(sp.oldStart, h.oldStart, sp.oldCount, h.oldCount);
    RangeAsNewlineFree(sp.newStart, Value(sp.newStart), sp.newCount, |New(h.lines)|);
    hide RangeAs;
  }

  lemma {:induction false} RangeAsNewlineFree(start: string, a: int, count: Option<string>, n: int)
    requires Denotes(start, a) && CountDenotes(count, n)
    ensures '\n' !in RangeAs(start, count)
  {
    DigitsHaveNoNewline(start);
    if count.Some? {
      DigitsHaveNoNewline(count.value);
    }
    hide Value;
  }

  lemma {:induction false} DigitsHaveNoNewline(s: string)
    requires AllDigits(s)
    ensures '\n' !in s
  {
  }

  // -------------------------------------------------------------- to the grammar

  lemma {:induction false} CutAtComma(s: string, n: nat, m: nat)
    requires n < |s| && s[n] == ',' && m <= |s[n + 1..]|
    ensures s == s[..n] + ("," + s[n + 1..][..m]) + s[n + 1..][m..]
  {
    var tail := s[n + 1..];
    assert tail == tail[..m] + tail[m..];
    assert s[n..] == "," + tail;
  }

  lemma {:induction false} RangeWritten(s: string) returns (start: string, count: Option<string>)
    requires ParseRange(s).Some?
    ensures var (a, n, rest) := ParseRange(s).value;
      Denotes(start, a) && CountDenotes(count, n) && s == RangeAs(start, count) + rest
  {
    var n := DigitSpan(s);
    start := s[..n];
    hide DigitSpan, Value;
    if n < |s| && s[n] == ',' {
      var m := DigitSpan(s[n + 1..]);
      count := Some(s[n + 1..][..m]);
      CutAtComma(s, n, m);
    } else {
      count := None;
      assert s == s[..n] + s[n..] && start + "" == start;
    }
  }

  lemma {:induction false} PrefixWritten(prefix: string, s: string)
    requires After(prefix, s).Some?
    ensures s == prefix + After(prefix, s).value
  {
  }

  lemma {:induction false} HeaderWritten(s: string) returns (sp: Spelling)
    requires ParseHeader(s).Some?
    ensures var h := ParseHeader(s).value;
      && s == HeaderAs(sp) && Denotes(sp.oldStart, h.oldStart) && CountDenotes(sp.oldCount, h.oldCount)
      && Denotes(sp.newStart, h.newStart) && CountDenotes(sp.newCount, h.newCount)
  {
    hide ParseRange, RangeAs, After, Denotes, CountDenotes;
    var first := After("@@ -", s).value;
    PrefixWritten("@@ -", s);
    var a, m := RangeWritten(first);
    var second := ParseRange(first).value.2;
    PrefixWritten(" +", second);
    var third := After(" +", second).value;
    var b, n := RangeWritten(third);
    sp := Spelling(a, m, b, n);
  }

  lemma {:induction false} LineWritten(line: string)
    requires ParseLine(line).Some?
    ensures LineText(ParseLine(line).value) == line
  {
    assert line == [line[0]] + line[1..];
  }

  lemma {:induction false} BodyWritten(lines: seq<string>, from: nat, end: nat)
    requires from <= end <= |lines| && ParseBody(lines, from, end).Some?
    ensures LineTexts(ParseBody(lines, from, end).value) == lines[from..end]
    decreases end
  {
    if from < end {
      hide ParseLine, LineText;
      BodyWritten(lines, from, end - 1);
      LineWritten(lines[end - 1]);
      var body := ParseBody(lines, from, end).value;
      assert body == ParseBody(lines, from, end - 1).value + [body[|body| - 1]];
      assert lines[from..end] == lines[from..end - 1] + [lines[end - 1]];
    }
  }

  lemma {:induction false} HunkParts(lines: seq<string>, from: nat)
    requires from < |lines| && ParseHunk(lines, from).Some?
    ensures ParseHeader(lines[from]).Some? && Heads(ParseHeader(lines[from]).value, ParseHunk(lines, from).value)
    ensures ParseBody(lines, from + 1, BodyEnd(lines, from + 1)) == Some(ParseHunk(lines, from).value.lines)
  {
    hide ParseHeader, ParseBody, BodyEnd, Old, New;
  }

  lemma {:induction false} HunkWritten(lines: seq<string>, from: nat) returns (sp: Spelling)
    requires from < |lines| && ParseHunk(lines, from).Some?
    ensures StandsOver(sp, ParseHunk(lines, from).value)
    ensures lines[from..BodyEnd(lines, from + 1)] == [HeaderAs(sp)] + LineTexts(ParseHunk(lines, from).value.lines)
  {
    HunkParts(lines, from);
    hide ParseHunk, ParseHeader, ParseBody, HeaderAs, LineTexts, BodyEnd, Old, New;
    var end := BodyEnd(lines, from + 1);
    sp := HeaderWritten(lines[from]);
    BodyWritten(lines, from + 1, end);
    FirstAndRest(lines, from, end);
  }

  lemma {:induction false} HunksCons(lines: seq<string>, from: nat)
    requires from < |lines| && ParseHunks(lines, from).Some?
    ensures var next := BodyEnd(lines, from + 1);
      && ParseHunk(lines, from).Some? && ParseHunks(lines, next).Some?
      && ParseHunks(lines, from).value == [ParseHunk(lines, from).value] + ParseHunks(lines, next).value
  {
    hide ParseHunk, BodyEnd;
  }

  lemma {:induction false} HunksWritten(lines: seq<string>, from: nat) returns (spellings: seq<Spelling>)
    requires from <= |lines| && ParseHunks(lines, from).Some?
    ensures AllStandOver(spellings, ParseHunks(lines, from).value)
    ensures TextsAs(ParseHunks(lines, from).value, spellings) == lines[from..]
    decreases |lines| - from
  {
    spellings := [];
    if from == |lines| {
      return;
    }
    var next := BodyEnd(lines, from + 1);
    HunksCons(lines, from);
    hide ParseHunk, ParseHunks, BodyEnd, HeaderAs, LineTexts, StandsOver, AllStandOver, TextsAs;
    var sp := HunkWritten(lines, from);
    var others := HunksWritten(lines, next);
    TextsCons(ParseHunk(lines, from).value, ParseHunks(lines, next).value, sp, others);
    spellings := [sp] + others;
    FrontAndBack(lines, from, next);
  }

  lemma {:induction false} PathWritten(policy: PathPolicy, header: string, prefix: string) returns (text: string)
    requires ParsePath(policy, header, prefix).Some? && '\n' !in header
    ensures header == prefix + text && PathLine(policy, text, ParsePath(policy, header, prefix).value)
  {
    text := header[|prefix|..];
    PrefixWritten(prefix, header);
    assert forall c | c in text :: c in header;
  }

  /** Main result: the parser accepts a text as a patch exactly when the text is that
      patch written out: both path lines name its path to the policy, each hunk stands
      under a header whose starts are at least one and whose two counts are those of
      the hunk's old and new lines, and nothing else is in the text. */
  lemma {:induction false} AcceptedExactlyWhenWritten(policy: PathPolicy, input: string, patch: FilePatch)
    ensures Parsed(policy, input) == Some(patch)
       <==> exists p, q, spellings :: Writes(policy, input, patch, p, q, spellings)
  {
    if Parsed(policy, input) == Some(patch) {
      var p, q, spellings := InputWritten(policy, input);
    }
    if p, q, spellings :| Writes(policy, input, patch, p, q, spellings) {
      ReadWritten(policy, input, patch, p, q, spellings);
    }
  }

  lemma {:induction false} InputWritten(policy: PathPolicy, input: string)
    returns (p: string, q: string, spellings: seq<Spelling>)
    requires Parsed(policy, input).Some?
    ensures Writes(policy, input, Parsed(policy, input).value, p, q, spellings)
  {
    ParsedPatchIsExpressible(policy, input);
    var patch, lines := Parsed(policy, input).value, Lines(input);
    ExpressibleTexts(patch.hunks);
    UnlinesLines(input);
    assert '\n' !in lines[0] && '\n' !in lines[1];
    hide ParseHunks, Lines, Unlines, After, Expressible, AllStandOver, TextsAs, TextsNewlineFree;
    PathOf(lines[0], "--- ");
    PathOf(lines[1], "+++ ");
    p := PathWritten(policy, After("--- ", lines[0]).value, "a/");
    q := PathWritten(policy, After("+++ ", lines[1]).value, "b/");
    spellings := HunksWritten(lines, 2);
    TwoAndRest("", "", lines);
  }

  lemma {:induction false} PathOf(line: string, prefix: string)
    requires After(prefix, line).Some? && '\n' !in line
    ensures line == prefix + After(prefix, line).value && '\n' !in After(prefix, line).value
  {
    assert forall c | c in After(prefix, line).value :: c in line;
  }

  lemma {:induction false} WrittenLines(first: string, second: string, texts: seq<string>)
    requires '\n' !in first && '\n' !in second && NewlineFree(texts)
    ensures Lines(Unlines([first, second] + texts)) == [first, second] + texts
  {
    LinesUnlines([first, second] + texts);
    hide Lines, Unlines;
  }

  lemma {:induction false} ParsedFrom(policy: PathPolicy, input: string, first: string, second: string,
                                      texts: seq<string>, patch: FilePatch)
    requires EndsInNewline(input) && Lines(input) == [first, second] + texts && texts != []
    requires After("--- ", first).Some? && After("+++ ", second).Some?
    requires ParsePath(policy, After("--- ", first).value, "a/") == Some(patch.path)
    requires ParsePath(policy, After("+++ ", second).value, "b/") == Some(patch.path)
    requires ParseHunks([first, second] + texts, 2) == Some(patch.hunks)
    ensures Parsed(policy, input) == Some(patch)
  {
    hide ParseHunks, Lines, After, ParsePath;
  }

  lemma {:induction false} ReadWritten(policy: PathPolicy, input: string, patch: FilePatch, p: string, q: string,
                                       spellings: seq<Spelling>)
    requires Writes(policy, input, patch, p, q, spellings)
    ensures Parsed(policy, input) == Some(patch)
  {
    var first, second, texts := "--- " + ("a/" + p), "+++ " + ("b/" + q), TextsAs(patch.hunks, spellings);
    TextsAsNewlineFree(patch.hunks, spellings);
    assert '\n' !in first && '\n' !in second && EndsInNewline(input);
    hide ParseHunks, TextsAs, Lines, Unlines, After, ParsePath, AllStandOver, TextsNewlineFree, NewlineFree,
      EndsInNewline;
    WrittenLines(first, second, texts);
    ReadPathLine(policy, p, patch.path, "--- ", "a/");
    ReadPathLine(policy, q, patch.path, "+++ ", "b/");
    TwoAndRest(first, second, texts);
    ReadTextsAs([first, second] + texts, 2, patch.hunks, spellings);
    ParsedFrom(policy, input, first, second, texts, patch);
  }

  lemma {:induction false} ReadPathLine(policy: PathPolicy, text: string, path: string, mark: string, prefix: string)
    requires PathLine(policy, text, path) && '\t' !in prefix && '\r' !in prefix
    ensures After(mark, mark + (prefix + text)).Some?
    ensures ParsePath(policy, After(mark, mark + (prefix + text)).value, prefix) == Some(path)
  {
    hide After, ParsePath;
    AfterPrefix(mark, prefix + text);
    ReadPathAs(policy, text, path, prefix);
  }

  lemma {:induction false} ReadPathAs(policy: PathPolicy, text: string, path: string, prefix: string)
    requires PathLine(policy, text, path) && '\t' !in prefix && '\r' !in prefix
    ensures ParsePath(policy, prefix + text, prefix) == Some(path)
  {
    hide After;
    AfterPrefix(prefix, text);
  }
}
