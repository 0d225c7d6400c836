/** Lines and decimal numbers as the original's string functions treat them. */
module Text {
  const MAX_INT := 0x7FFF_FFFF_FFFF_FFFF

  // ------------------------------------------------------------------- lines

  /** strings.Split(s, "\n"): never empty. */
  function Split(s: string): (lines: seq<string>)
    ensures |lines| > 0
    ensures forall i | 0 <= i < |lines| :: '\n' !in lines[i]
  {
    if s == "" then [""]
    else
      var rest := Split(s[1..]);
      if s[0] == '\n' then [""] + rest else [[s[0]] + rest[0]] + rest[1..]
  }

  /** strings.Join(lines, "\n"). */
  function Join(lines: seq<string>): string
  {
    if |lines| == 0 then ""
    else if |lines| == 1 then lines[0]
    else lines[0] + "\n" + Join(lines[1..])
  }

  /** The lines of a text that ends in a newline. */
  function Lines(s: string): seq<string>
    requires EndsInNewline(s)
  {
    Split(s[..|s| - 1])
  }

  predicate EndsInNewline(s: string)
  {
    |s| > 0 && s[|s| - 1] == '\n'
  }

  function Unlines(lines: seq<string>): (s: string)
    ensures EndsInNewline(s)
  {
    Join(lines) + "\n"
  }

  ghost predicate NewlineFree(lines: seq<string>)
  {
    forall i | 0 <= i < |lines| :: '\n' !in lines[i]
  }

  lemma {:induction false} JoinSplit(s: string)
    ensures Join(Split(s)) == s
  {
    if s != "" {
      var rest := Split(s[1..]);
      JoinSplit(s[1..]);
      if s[0] == '\n' {
        assert ([""] + rest)[1..] == rest;
      } else {
        assert ([[s[0]] + rest[0]] + rest[1..])[1..] == rest[1..];
      }
    }
  }

  lemma {:induction false} SplitPrefix(line: string, s: string)
    requires '\n' !in line
    ensures Split(line + "\n" + s) == [line] + Split(s)
  {
    var whole := line + "\n" + s;
    if line == "" {
      assert whole[1..] == s;
    } else {
      SplitPrefix(line[1..], s);
      assert whole[1..] == line[1..] + "\n" + s;
      assert whole[0] == line[0] && [line[0]] + line[1..] == line;
      assert ([line[1..]] + Split(s))[1..] == Split(s);
    }
  }

  lemma {:induction false} SplitLine(line: string)
    requires '\n' !in line
    ensures Split(line) == [line]
  {
    if line != "" {
      SplitLine(line[1..]);
      assert [line[0]] + line[1..] == line;
    }
  }

  lemma {:induction false} SplitJoin(lines: seq<string>)
    requires |lines| > 0 && NewlineFree(lines)
    ensures Split(Join(lines)) == lines
  {
    if |lines| == 1 {
      SplitLine(lines[0]);
    } else {
      SplitJoin(lines[1..]);
      SplitPrefix(lines[0], Join(lines[1..]));
    }
  }

  /** Text and lines determine each other, except that no lines at all print
      like one empty line. */
  lemma {:induction false} LinesUnlines(lines: seq<string>)
    requires NewlineFree(lines)
    ensures Lines(Unlines(lines)) == if lines == [] then [""] else lines
  {
    assert Unlines(lines)[..|Unlines(lines)| - 1] == Join(lines);
    if lines != [] {
      SplitJoin(lines);
    }
  }

  lemma {:induction false} UnlinesLines(s: string)
    requires EndsInNewline(s)
    ensures Unlines(Lines(s)) == s
  {
    JoinSplit(s[..|s| - 1]);
    assert s == s[..|s| - 1] + "\n";
  }

  // ----------------------------------------------------------------- numbers

  predicate IsDigit(c: char)
  {
    '0' <= c <= '9'
  }

  ghost predicate AllDigits(s: string)
  {
    forall i | 0 <= i < |s| :: IsDigit(s[i])
  }

  function DigitChar(d: nat): (c: char)
    requires d < 10
    ensures IsDigit(c) && c as int - '0' as int == d
  {
    '0' + d as char
  }

  /** The decimal form of a number. */
  function Digits(n: nat): (s: string)
    ensures |s| > 0 && AllDigits(s)
  {
    if n < 10 then [DigitChar(n)] else Digits(n / 10) + [DigitChar(n % 10)]
  }

  /** The number that a string of digits denotes; leading zeros are allowed. */
  function Value(s: string): nat
    requires AllDigits(s)
  {
    if s == "" then 0
    else 10 * Value(s[..|s| - 1]) + (s[|s| - 1] as int - '0' as int)
  }

  lemma {:induction false} ValueOfDigits(n: nat)
    ensures Value(Digits(n)) == n
    decreases n
  {
    var s := Digits(n);
    if n < 10 {
      assert s[..0] == "";
    } else {
      ValueOfDigits(n / 10);
      assert s[..|s| - 1] == Digits(n / 10);
    }
  }

  /** The number of leading digits. */
  function DigitSpan(s: string): (n: nat)
    ensures n <= |s| && AllDigits(s[..n]) && (n < |s| ==> !IsDigit(s[n]))
  {
    if s == "" || !IsDigit(s[0]) then 0
    else
      var n := 1 + DigitSpan(s[1..]);
      assert forall i | 1 <= i < n :: s[i] == s[1..][..n - 1][i - 1];
      n
  }

  /** A number followed by something that is not a digit is read back whole. */
  lemma {:induction false} DigitSpanAppend(digits: string, rest: string)
    requires AllDigits(digits) && (rest == "" || !IsDigit(rest[0]))
    ensures DigitSpan(digits + rest) == |digits|
  {
    var s := digits + rest;
    if digits != "" {
      assert s[1..] == digits[1..] + rest;
      assert s[0] == digits[0];
      DigitSpanAppend(digits[1..], rest);
    } else {
      assert s == rest;
    }
  }

  /** A decimal number and what follows it can be told apart. */
  lemma {:induction false} NumberThenRest(m: nat, a: string, n: nat, b: string)
    requires Digits(m) + a == Digits(n) + b
    requires (a == "" || !IsDigit(a[0])) && (b == "" || !IsDigit(b[0]))
    ensures m == n && a == b
  {
    DigitSpanAppend(Digits(m), a);
    DigitSpanAppend(Digits(n), b);
    assert Digits(m) == (Digits(m) + a)[..|Digits(m)|];
    assert Digits(n) == (Digits(n) + b)[..|Digits(n)|];
    assert a == (Digits(m) + a)[|Digits(m)|..];
    assert b == (Digits(n) + b)[|Digits(n)|..];
    ValueOfDigits(m);
    ValueOfDigits(n);
  }
}
