/** Applying the hunks of a unified diff, and undoing them
    (internal/repo/repo.go). */
module Hunks {
  import opened Options
  import opened Text

  datatype Kind = Context | Add | Remove
  datatype Line = Line(kind: Kind, text: string)
  datatype Hunk = Hunk(oldStart: int, oldCount: int, lines: seq<Line>)

  /** The lines of a hunk that it expects in the old text. */
  function Old(lines: seq<Line>): seq<string>
  {
    if lines == [] then []
    else
      var last := lines[|lines| - 1];
      Old(lines[..|lines| - 1]) + if last.kind == Add then [] else [last.text]
  }

  /** The lines of a hunk that it leaves in the new text. */
  function New(lines: seq<Line>): seq<string>
  {
    if lines == [] then []
    else
      var last := lines[|lines| - 1];
      New(lines[..|lines| - 1]) + if last.kind == Remove then [] else [last.text]
  }

  /** The hunk finds its old lines at its position, at or after the cursor. */
  predicate Fits(original: seq<string>, h: Hunk, cursor: nat)
  {
    var start := h.oldStart - 1;
    && cursor <= start && start + |Old(h.lines)| <= |original|
    && original[start..start + |Old(h.lines)|] == Old(h.lines)
    && |Old(h.lines)| == h.oldCount
  }

  function Prepended(lines: seq<string>, rest: Option<seq<string>>): Option<seq<string>>
  {
    if rest.None? then None else Some(lines + rest.value)
  }

  lemma {:induction false} PrependNothing(rest: Option<seq<string>>)
    ensures Prepended([], rest) == rest
  {
    if rest.Some? {
      assert [] + rest.value == rest.value;
    }
  }

  lemma {:induction false} PrependTwice(a: seq<string>, b: seq<string>, rest: Option<seq<string>>)
    ensures Prepended(a, Prepended(b, rest)) == Prepended(a + b, rest)
  {
    if rest.Some? {
      assert a + (b + rest.value) == a + b + rest.value;
    }
  }

  /** The new text from the cursor on, in terms of whole hunks. */
  function Applied(original: seq<string>, hunks: seq<Hunk>, cursor: nat): Option<seq<string>>
    requires cursor <= |original|
    decreases |hunks|
  {
    if hunks == [] then Some(original[cursor..])
    else if !Fits(original, hunks[0], cursor) then None
    else
      var start := hunks[0].oldStart - 1;
      Prepended(original[cursor..start] + New(hunks[0].lines),
                Applied(original, hunks[1..], start + |Old(hunks[0].lines)|))
  }

  /** The inner loop of applyHunks: one hunk, line by line. */
  method ApplyHunk(original: seq<string>, h: Hunk, cursor: nat) returns (added: Option<seq<string>>, position: nat)
    requires cursor <= |original|
    ensures added.Some? <==> Fits(original, h, cursor)
    ensures added.Some? ==>
      && added.value == original[cursor..h.oldStart - 1] + New(h.lines)
      && position == h.oldStart - 1 + |Old(h.lines)|
  {
    hide Old, New, Fits;
    position := 0;
    var start := h.oldStart - 1;
    if start < cursor || start > |original| {
      StartsInside(original, h, cursor);
      return None, position;
    }
    var updated := original[cursor..start];
    position := start;
    var oldLines := 0;
    var i := 0;
    NextLine(h.lines, 0);
    while i < |h.lines|
      invariant 0 <= i <= |h.lines|
      invariant position == start + |Old(h.lines[..i])| <= |original| && oldLines == |Old(h.lines[..i])|
      invariant original[start..position] == Old(h.lines[..i])
      invariant updated == original[cursor..start] + New(h.lines[..i])
    {
      var line := h.lines[i];
      NextLine(h.lines, i);
      if line.kind != Add {
        OldLineAt(original, h, cursor, i);
        if position >= |original| || original[position] != line.text {
          return None, position;
        }
        position := position + 1;
        oldLines := oldLines + 1;
        assert original[start..position] == original[start..position - 1] + [original[position - 1]];
      }
      if line.kind != Remove {
        updated := updated + [line.text];
      }
      i := i + 1;
    }
    assert h.lines[..i] == h.lines;
    FoundLines(original, h, cursor);
    if oldLines != h.oldCount {
      return None, position;
    }
    return Some(updated), position;
  }

  lemma {:induction false} StartsInside(original: seq<string>, h: Hunk, cursor: nat)
    ensures Fits(original, h, cursor) ==> cursor <= h.oldStart - 1 <= |original|
  {
  }

  lemma {:induction false} FoundLines(original: seq<string>, h: Hunk, cursor: nat)
    requires cursor <= h.oldStart - 1 && h.oldStart - 1 + |Old(h.lines)| <= |original|
    requires original[h.oldStart - 1..h.oldStart - 1 + |Old(h.lines)|] == Old(h.lines)
    ensures Fits(original, h, cursor) <==> |Old(h.lines)| == h.oldCount
  {
  }

  lemma {:induction false} NextLine(lines: seq<Line>, i: nat)
    requires i <= |lines|
    ensures Old(lines[..0]) == [] && New(lines[..0]) == []
    ensures i < |lines| ==>
      && Old(lines[..i + 1]) == Old(lines[..i]) + (if lines[i].kind == Add then [] else [lines[i].text])
      && New(lines[..i + 1]) == New(lines[..i]) + (if lines[i].kind == Remove then [] else [lines[i].text])
  {
    if i < |lines| {
      assert lines[..i + 1][..i] == lines[..i] && lines[..i + 1][i] == lines[i];
    }
  }

  lemma {:induction false} OldPrefix(lines: seq<Line>, n: nat)
    requires n <= |lines|
    ensures Old(lines[..n]) <= Old(lines)
  {
    if n == |lines| {
      assert lines[..n] == lines;
    } else {
      OldPrefix(lines[..|lines| - 1], n);
      assert lines[..|lines| - 1][..n] == lines[..n];
    }
  }

  /** A hunk that fits finds its line `i` where the lines before it end. */
  lemma {:induction false} OldLineAt(original: seq<string>, h: Hunk, cursor: nat, i: nat)
    requires i < |h.lines| && h.lines[i].kind != Add && h.oldStart > 0
    ensures Fits(original, h, cursor) ==>
      var at := h.oldStart - 1 + |Old(h.lines[..i])|;
      at < |original| && original[at] == h.lines[i].text
  {
    var old_, upTo := Old(h.lines), h.lines[..i + 1];
    OldPrefix(h.lines, i + 1);
    assert upTo[..i] == h.lines[..i] && upTo[i] == h.lines[i];
    assert old_[|Old(h.lines[..i])|] == h.lines[i].text;
    if Fits(original, h, cursor) {
      var start := h.oldStart - 1;
      assert original[start..start + |old_|][|Old(h.lines[..i])|] == h.lines[i].text;
    }
  }

  lemma {:induction false} AppliedCons(text: seq<string>, h: Hunk, others: seq<Hunk>, cursor: nat)
    requires cursor <= |text| && Fits(text, h, cursor)
    ensures Applied(text, [h] + others, cursor)
         == Prepended(text[cursor..h.oldStart - 1] + New(h.lines),
           Applied(text, others, h.oldStart - 1 + |Old(h.lines)|))
  {
    assert ([h] + others)[1..] == others;
  }

  /** applyHunks on lines. */
  method ApplyHunks(original: seq<string>, hunks: seq<Hunk>) returns (result: Option<seq<string>>)
    ensures result == Applied(original, hunks, 0)
  {
    var updated := [];
    var cursor: nat := 0;
    var i := 0;
    assert hunks[0..] == hunks;
    PrependNothing(Applied(original, hunks, 0));
    while i < |hunks|
      invariant 0 <= i <= |hunks| && cursor <= |original|
      invariant Applied(original, hunks, 0) == Prepended(updated, Applied(original, hunks[i..], cursor))
    {
      var added, position := ApplyHunk(original, hunks[i], cursor);
      if added.None? {
        return None;
      }
      assert hunks[i..] == [hunks[i]] + hunks[i + 1..];
      AppliedCons(original, hunks[i], hunks[i + 1..], cursor);
      PrependTwice(updated, added.value, Applied(original, hunks[i + 1..], position));
      updated := updated + added.value;
      cursor := position;
      i := i + 1;
    }
    return Some(updated + original[cursor..]);
  }

  // ----------------------------------------------------------------- undoing

  function Swapped(lines: seq<Line>): seq<Line>
  {
    if lines == [] then []
    else
      var last := lines[|lines| - 1];
      Swapped(lines[..|lines| - 1]) +
        [Line(match last.kind case Context => Context case Add => Remove case Remove => Add, last.text)]
  }

  /** The hunks that undo these: additions and removals change places, and each
      start moves by what the hunks before it add or remove. */
  function Inverse(hunks: seq<Hunk>, shift: int): seq<Hunk>
  {
    if hunks == [] then []
    else
      [InverseOf(hunks[0], shift)] + Inverse(hunks[1..], shift + Growth(hunks[0]))
  }

  function Growth(h: Hunk): int
  {
    |New(h.lines)| - |Old(h.lines)|
  }

  function TotalGrowth(hunks: seq<Hunk>): int
  {
    if hunks == [] then 0 else Growth(hunks[0]) + TotalGrowth(hunks[1..])
  }

  lemma {:induction false} SwappedLines(lines: seq<Line>)
    ensures Old(Swapped(lines)) == New(lines) && New(Swapped(lines)) == Old(lines)
    ensures |Swapped(lines)| == |lines|
  {
    if lines != [] {
      SwappedLines(lines[..|lines| - 1]);
      assert Swapped(lines)[..|lines| - 1] == Swapped(lines[..|lines| - 1]);
    }
  }

  function InverseOf(h: Hunk, shift: int): Hunk
  {
    Hunk(h.oldStart + shift, |New(h.lines)|, Swapped(h.lines))
  }

  /** The inverse of a hunk fits where the hunk's new lines stand. */
  lemma {:induction false} InverseFits(text: seq<string>, at: nat, kept: seq<string>, h: Hunk, rest: seq<string>,
                                       shift: int)
    requires at <= |text| && text[at..] == kept + New(h.lines) + rest
    requires h.oldStart + shift == at + |kept| + 1
    ensures var inverse := InverseOf(h, shift);
      && Fits(text, inverse, at) && Old(inverse.lines) == New(h.lines) && New(inverse.lines) == Old(h.lines)
      && text[at..inverse.oldStart - 1] == kept
      && text[inverse.oldStart - 1 + |Old(inverse.lines)|..] == rest
  {
    hide Old, New, Swapped;
    SwappedLines(h.lines);
    Pieces(text, at, kept, New(h.lines), rest);
  }

  lemma {:induction false} Pieces(text: seq<string>, at: nat, a: seq<string>, b: seq<string>, c: seq<string>)
    requires at <= |text| && text[at..] == a + b + c
    ensures at + |a| + |b| <= |text|
    ensures text[at..at + |a|] == a && text[at + |a|..at + |a| + |b|] == b && text[at + |a| + |b|..] == c
  {
    var tail := text[at..];
    assert tail[..|a|] == a;
    assert tail[|a|..|a| + |b|] == b;
    assert tail[|a| + |b|..] == c;
  }

  /** The text around one hunk that fits. */
  lemma {:induction false} AroundHunk(original: seq<string>, h: Hunk, cursor: nat)
    requires Fits(original, h, cursor)
    ensures var start := h.oldStart - 1;
      original[cursor..] == original[cursor..start] + Old(h.lines) + original[start + |Old(h.lines)|..]
  {
    hide Old;
  }

  /** Where a hunk's old lines end. */
  function EndOf(h: Hunk): int
  {
    h.oldStart - 1 + |Old(h.lines)|
  }

  /** The hunk fits the original, its inverse fits the text, and the lines in
      front of them are the same. */
  ghost predicate ShowsFirst(original: seq<string>, h: Hunk, cursor: nat, shift: int, text: seq<string>)
  {
    && 0 <= cursor + shift && Fits(original, h, cursor) && Fits(text, InverseOf(h, shift), cursor + shift)
    && text[cursor + shift..h.oldStart + shift - 1] == original[cursor..h.oldStart - 1]
  }

  /** Where the text shows the result of the hunks, it shows that of the first one,
      and the text behind it is the result of the other hunks. */
  lemma {:induction false} FirstInText(original: seq<string>, hunks: seq<Hunk>, cursor: nat, shift: int,
                                       text: seq<string>)
    requires |hunks| > 0 && cursor <= |original| && 0 <= cursor + shift <= |text|
    requires Applied(original, hunks, cursor) == Some(text[cursor + shift..])
    ensures ShowsFirst(original, hunks[0], cursor, shift, text)
    ensures var end := EndOf(hunks[0]); var after := end + shift + Growth(hunks[0]);
      && 0 <= end <= |original| && 0 <= after <= |text|
      && Applied(original, hunks[1..], end) == Some(text[after..])
  {
    var h := hunks[0];
    hide Old, New, Inverse, Swapped;
    var rest := Applied(original, hunks[1..], EndOf(h)).value;
    assert Fits(original, h, cursor);
    assert text[cursor + shift..] == original[cursor..h.oldStart - 1] + New(h.lines) + rest;
    hide Applied;
    InverseFits(text, cursor + shift, original[cursor..h.oldStart - 1], h, rest, shift);
  }

  /** One hunk undone, given that the hunks after it are. */
  lemma {:induction false} UndoFirst(original: seq<string>, hunks: seq<Hunk>, cursor: nat, shift: int,
                                     text: seq<string>)
    requires |hunks| > 0 && cursor <= |original| && 0 <= cursor + shift <= |text|
    requires ShowsFirst(original, hunks[0], cursor, shift, text)
    requires var end := EndOf(hunks[0]); var after := end + shift + Growth(hunks[0]);
      && 0 <= end <= |original| && 0 <= after <= |text|
      && Applied(text, Inverse(hunks[1..], shift + Growth(hunks[0])), after) == Some(original[end..])
    ensures Applied(text, Inverse(hunks, shift), cursor + shift) == Some(original[cursor..])
  {
    var h := hunks[0];
    var others := Inverse(hunks[1..], shift + Growth(h));
    assert Inverse(hunks, shift) == [InverseOf(h, shift)] + others;
    hide Old, New, Swapped, Applied, Inverse;
    SwappedLines(h.lines);
    AppliedCons(text, InverseOf(h, shift), others, cursor + shift);
    AroundHunk(original, h, cursor);
  }

  /** Main result, on lines: where a text shows the new lines from some position
      on, the inverse hunks turn them back into the old ones. */
  lemma {:induction false} InverseUndoes(original: seq<string>, hunks: seq<Hunk>, cursor: nat, shift: int,
                                         text: seq<string>)
    requires cursor <= |original| && 0 <= cursor + shift <= |text|
    requires Applied(original, hunks, cursor) == Some(text[cursor + shift..])
    ensures Applied(text, Inverse(hunks, shift), cursor + shift) == Some(original[cursor..])
    decreases |hunks|
  {
    if hunks == [] {
      return;
    }
    hide Applied, Inverse, ShowsFirst, EndOf, Growth;
    FirstInText(original, hunks, cursor, shift, text);
    InverseUndoes(original, hunks[1..], EndOf(hunks[0]), shift + Growth(hunks[0]), text);
    UndoFirst(original, hunks, cursor, shift, text);
  }

  /** The length of the result is the old length plus what the hunks add. */
  lemma {:induction false} ResultLength(original: seq<string>, hunks: seq<Hunk>, cursor: nat)
    requires cursor <= |original| && Applied(original, hunks, cursor).Some?
    ensures |Applied(original, hunks, cursor).value| == |original| - cursor + TotalGrowth(hunks)
    decreases |hunks|
  {
    if hunks != [] {
      ResultLength(original, hunks[1..], hunks[0].oldStart - 1 + |Old(hunks[0].lines)|);
    }
  }

  predicate Replaces(h: Hunk, i: int)
  {
    h.oldStart - 1 <= i < h.oldStart - 1 + |Old(h.lines)|
  }

  /** Line `i` lies in what one of the hunks replaces. */
  predicate Covered(hunks: seq<Hunk>, i: int)
  {
    exists k :: 0 <= k < |hunks| && Replaces(hunks[k], i)
  }

  /** How far line `i` moves: what the hunks that start before it add or remove. */
  function ShiftAt(hunks: seq<Hunk>, i: int): int
  {
    if hunks == [] || i < hunks[0].oldStart - 1 then 0
    else Growth(hunks[0]) + ShiftAt(hunks[1..], i)
  }

  /** Main result: every line outside the hunks is kept, moved by what the hunks
      before it add or remove; so such lines also keep their order. */
  lemma {:induction false} OtherLinesKept(original: seq<string>, hunks: seq<Hunk>, cursor: nat, i: nat)
    requires cursor <= i < |original| && !Covered(hunks, i)
    requires Applied(original, hunks, cursor).Some?
    ensures var new_ := Applied(original, hunks, cursor).value;
      && 0 <= i - cursor + ShiftAt(hunks, i) < |new_|
      && new_[i - cursor + ShiftAt(hunks, i)] == original[i]
    decreases |hunks|
  {
    if hunks == [] {
      return;
    }
    AppliedStep(original, hunks, cursor);
    NotCoveredStep(hunks, i);
    var end, shift := EndOf(hunks[0]), ShiftAt(hunks, i);
    hide Applied, Fits, Covered, EndOf, Growth, Old, New, Prepended, ShiftAt;
    var new_, front := Applied(original, hunks, cursor).value, original[cursor..hunks[0].oldStart - 1];
    if i < hunks[0].oldStart - 1 {
      assert new_[i - cursor] == front[i - cursor];
    } else {
      OtherLinesKept(original, hunks[1..], end, i);
      var rest := Applied(original, hunks[1..], end).value;
      var at := i - end + ShiftAt(hunks[1..], i);
      assert new_[|front| + |New(hunks[0].lines)| + at] == rest[at];
    }
  }

  /** The first hunk of a list that applies, and what it leaves to the others. */
  lemma {:induction false} AppliedStep(original: seq<string>, hunks: seq<Hunk>, cursor: nat)
    requires hunks != [] && cursor <= |original| && Applied(original, hunks, cursor).Some?
    ensures var h := hunks[0]; var end := EndOf(h);
      && Fits(original, h, cursor) && cursor <= h.oldStart - 1 <= end <= |original|
      && Applied(original, hunks[1..], end).Some?
      && Applied(original, hunks, cursor).value ==
           original[cursor..h.oldStart - 1] + New(h.lines) + Applied(original, hunks[1..], end).value
      && h.oldStart - 1 + |New(h.lines)| == end + Growth(h)
  {
  }

  lemma {:induction false} NotCoveredStep(hunks: seq<Hunk>, i: int)
    requires hunks != [] && !Covered(hunks, i)
    ensures !Covered(hunks[1..], i) && (i < hunks[0].oldStart - 1 || EndOf(hunks[0]) <= i)
    ensures ShiftAt(hunks, i) == if i < hunks[0].oldStart - 1 then 0 else Growth(hunks[0]) + ShiftAt(hunks[1..], i)
  {
    assert !Replaces(hunks[0], i);
    assert forall k | 0 <= k < |hunks[1..]| :: hunks[1..][k] == hunks[k + 1];
  }

  // ------------------------------------------------------------- on whole files

  /** applyHunks: the text must end in a newline. */
  function AppliedText(content: string, hunks: seq<Hunk>): Option<string>
  {
    if !EndsInNewline(content) then None
    else match Applied(Lines(content), hunks, 0)
         case None => None
         case Some(lines) => Some(Unlines(lines))
  }

  ghost predicate TextsNewlineFree(hunks: seq<Hunk>)
  {
    forall k, i | 0 <= k < |hunks| && 0 <= i < |hunks[k].lines| :: '\n' !in hunks[k].lines[i].text
  }

  lemma {:induction false} NewIsNewlineFree(lines: seq<Line>)
    requires forall i | 0 <= i < |lines| :: '\n' !in lines[i].text
    ensures NewlineFree(New(lines))
  {
    if lines != [] {
      NewIsNewlineFree(lines[..|lines| - 1]);
    }
  }

  lemma {:induction false} AppliedIsNewlineFree(original: seq<string>, hunks: seq<Hunk>, cursor: nat)
    requires cursor <= |original| && NewlineFree(original) && TextsNewlineFree(hunks)
    requires Applied(original, hunks, cursor).Some?
    ensures NewlineFree(Applied(original, hunks, cursor).value)
    decreases |hunks|
  {
    if hunks != [] {
      NewIsNewlineFree(hunks[0].lines);
      forall k, i | 0 <= k < |hunks[1..]| && 0 <= i < |hunks[1..][k].lines|
        ensures '\n' !in hunks[1..][k].lines[i].text
      {
        assert hunks[1..][k] == hunks[k + 1];
      }
      AppliedIsNewlineFree(original, hunks[1..], hunks[0].oldStart - 1 + |Old(hunks[0].lines)|);
    }
  }

  /** Lines after the last hunk pass through. */
  lemma {:induction false} AppliedToLonger(original: seq<string>, hunks: seq<Hunk>, cursor: nat, more: seq<string>)
    requires cursor <= |original| && Applied(original, hunks, cursor).Some?
    ensures Applied(original + more, hunks, cursor) == Some(Applied(original, hunks, cursor).value + more)
    decreases |hunks|
  {
    if hunks == [] {
      assert (original + more)[cursor..] == original[cursor..] + more;
      return;
    }
    hide Applied, Fits, New, Old, Growth;
    var h, end := hunks[0], EndOf(hunks[0]);
    AppliedStep(original, hunks, cursor);
    AppliedToLonger(original, hunks[1..], end, more);
    FitsLonger(original, h, cursor, more);
    FirstPart(original, cursor, h.oldStart - 1, more);
    assert [h] + hunks[1..] == hunks;
    AppliedCons(original + more, h, hunks[1..], cursor);
    Regroup(original[cursor..h.oldStart - 1] + New(h.lines), Applied(original, hunks[1..], end).value, more);
  }

  lemma {:induction false} FirstPart(a: seq<string>, i: nat, j: nat, b: seq<string>)
    requires i <= j <= |a|
    ensures (a + b)[i..j] == a[i..j]
  {
  }

  lemma {:induction false} Regroup(a: seq<string>, b: seq<string>, c: seq<string>)
    ensures a + b + c == a + (b + c)
  {
  }

  lemma {:induction false} FitsLonger(original: seq<string>, h: Hunk, cursor: nat, more: seq<string>)
    requires Fits(original, h, cursor)
    ensures Fits(original + more, h, cursor)
  {
    hide Old;
    var start, end := h.oldStart - 1, h.oldStart - 1 + |Old(h.lines)|;
    assert (original + more)[start..end] == original[start..end];
  }

  lemma {:induction false} InverseOnLines(original: seq<string>, hunks: seq<Hunk>)
    requires Applied(original, hunks, 0).Some?
    ensures Applied(Applied(original, hunks, 0).value, Inverse(hunks, 0), 0) == Some(original)
  {
    var updated := Applied(original, hunks, 0).value;
    assert updated[0..] == updated && original[0..] == original;
    InverseUndoes(original, hunks, 0, 0, updated);
  }

  /** Undoing a patch that deleted every line leaves one empty line too many. */
  lemma {:induction false} InverseOfEmptyResult(original: seq<string>, hunks: seq<Hunk>)
    requires Applied(original, hunks, 0) == Some([])
    ensures Applied([""], Inverse(hunks, 0), 0) == Some(original + [""])
  {
    hide *;
    InverseOnLines(original, hunks);
    var nothing: seq<string> := [];
    AppliedToLonger(nothing, Inverse(hunks, 0), 0, [""]);
    assert nothing + [""] == [""];
  }

  /** A file of one line, deleted and put back, has two lines. */
  lemma {:induction false} EmptiedFileIsNotRestored() returns (content: string, hunks: seq<Hunk>)
    ensures AppliedText(content, hunks) == Some("\n")
    ensures AppliedText("\n", Inverse(hunks, 0)) == Some(content + "\n")
  {
    var x, nothing: seq<string> := ["x"], [];
    content, hunks := "x\n", [Hunk(1, 1, [Line(Remove, "x")])];
    OneLineDeleted("x", hunks[0]);
    InverseOfEmptyResult(x, hunks);
    assert NewlineFree(x) && NewlineFree([""]);
    hide *;
    ShortTexts("x");
    ShortTexts("");
    assert x + [""] == ["x", ""] && "x" + "\n" == content && "" + "\n" == "\n";
    AppliedTextIs(x, hunks, nothing);
    AppliedTextIs([""], Inverse(hunks, 0), ["x", ""]);
  }

  lemma {:induction false} AppliedTextIs(original: seq<string>, hunks: seq<Hunk>, result: seq<string>)
    requires original != [] && NewlineFree(original) && Applied(original, hunks, 0) == Some(result)
    ensures AppliedText(Unlines(original), hunks) == Some(Unlines(result))
  {
    LinesUnlines(original);
  }

  lemma {:induction false} ShortTexts(text: string)
    ensures Unlines([]) == "\n" && Unlines([text]) == text + "\n" && Unlines([text, ""]) == text + "\n" + "\n"
    ensures EndsInNewline("\n") && EndsInNewline(text + "\n")
  {
    assert [text, ""][1..] == [""] && Join([""]) == "";
    assert Join([text, ""]) == text + "\n" + "";
  }

  lemma {:induction false} OneLineDeleted(text: string, h: Hunk)
    requires h == Hunk(1, 1, [Line(Remove, text)])
    ensures Applied([text], [h], 0) == Some([])
  {
    var original := [text];
    assert h.lines[1..] == [] && Old(h.lines) == original && New(h.lines) == [];
    hide Old, New;
    assert original[..1] == original && Fits(original, h, 0);
    var others: seq<Hunk> := [];
    AppliedCons(original, h, others, 0);
    assert [h] + others == [h] && original[1..] == [] && Applied(original, others, 1) == Some([]);
  }

  /** Main result, on files: after a patch has been applied, the inverse patch
      restores the old text exactly when the patch left at least one line. A
      patch that deletes every line is written as a single newline, which reads
      back as one empty line. */
  lemma {:induction false} InverseRestoresText(content: string, hunks: seq<Hunk>)
    requires TextsNewlineFree(hunks) && AppliedText(content, hunks).Some?
    ensures AppliedText(AppliedText(content, hunks).value, Inverse(hunks, 0)) == Some(content)
       <==> |Lines(content)| + TotalGrowth(hunks) > 0
  {
    var original := Lines(content);
    assert NewlineFree(original);
    hide Applied, Lines, Unlines, Inverse, TotalGrowth, TextsNewlineFree;
    var updated := Applied(original, hunks, 0).value;
    AppliedIsNewlineFree(original, hunks, 0);
    ResultLength(original, hunks, 0);
    LinesUnlines(updated);
    UnlinesLines(content);
    if updated == [] {
      InverseOfEmptyResult(original, hunks);
      LinesUnlines(original + [""]);
    } else {
      InverseOnLines(original, hunks);
    }
  }
}
