/** The preview window around a search match (internal/repo/repo.go). */
module Preview {

  type Byte = b: int | 0 <= b < 256
  type Bytes = seq<Byte>

  const MAX_PREVIEW := 4096
  const MAX_QUERY := 512

  // -------------------------------------------------------------------- UTF-8

  predicate Continuation(b: Byte)
  {
    0x80 <= b <= 0xBF
  }

  /** utf8.RuneStart. */
  predicate RuneStart(b: Byte)
  {
    !Continuation(b)
  }

  /** The length of the well-formed character that starts at `i` and ends by `j`,
      or zero (RFC 3629, section 4). */
  function RuneLength(s: Bytes, i: nat, j: nat): (n: nat)
    requires i <= j <= |s|
    ensures i + n <= j
    ensures forall k | i < k < i + n :: Continuation(s[k])
    ensures n > 0 ==> RuneStart(s[i])
  {
    if i >= j then 0
    else if s[i] <= 0x7F then 1
    else if i + 1 >= j then 0
    else if 0xC2 <= s[i] <= 0xDF then
      if Continuation(s[i + 1]) then 2 else 0
    else if i + 2 >= j || !Continuation(s[i + 2]) then 0
    else if 0xE0 <= s[i] <= 0xEF then
      if (if s[i] == 0xE0 then 0xA0 else 0x80) <= s[i + 1] <= (if s[i] == 0xED then 0x9F else 0xBF) then 3 else 0
    else if i + 3 >= j || !Continuation(s[i + 3]) then 0
    else if 0xF0 <= s[i] <= 0xF4 then
      if (if s[i] == 0xF0 then 0x90 else 0x80) <= s[i + 1] <= (if s[i] == 0xF4 then 0x8F else 0xBF) then 4 else 0
    else 0
  }

  /** utf8.ValidString of the bytes from `i` to `j`. */
  predicate Valid(s: Bytes, i: nat, j: nat)
    requires i <= j <= |s|
    decreases j - i
  {
    i == j || (RuneLength(s, i, j) > 0 && Valid(s, i + RuneLength(s, i, j), j))
  }

  predicate ValidUTF8(s: Bytes)
  {
    Valid(s, 0, |s|)
  }

  /** A Unicode scalar value: a code point that is not a surrogate. */
  predicate Scalar(c: int)
  {
    0 <= c <= 0x10FFFF && !(0xD800 <= c <= 0xDFFF)
  }

  /** Its encoding (RFC 3629, section 3). */
  function Encode(c: int): Bytes
    requires Scalar(c)
  {
    if c < 0x80 then [c]
    else if c < 0x800 then [0xC0 + c / 64, 0x80 + c % 64]
    else if c < 0x10000 then [0xE0 + c / 4096, 0x80 + c / 64 % 64, 0x80 + c % 64]
    else [0xF0 + c / 262144, 0x80 + c / 4096 % 64, 0x80 + c / 64 % 64, 0x80 + c % 64]
  }

  ghost predicate Scalars(cs: seq<int>)
  {
    forall i | 0 <= i < |cs| :: Scalar(cs[i])
  }

  function EncodeAll(cs: seq<int>): Bytes
    requires Scalars(cs)
  {
    if cs == [] then [] else Encode(cs[0]) + EncodeAll(cs[1..])
  }

  lemma {:induction false} OfTwo(a: int, b: Byte) returns (c: int)
    requires 0xC2 <= a <= 0xDF && Continuation(b)
    ensures Scalar(c) && Encode(c) == [a, b]
  {
    c := (a - 0xC0) * 64 + b - 0x80;
    assert c / 64 == a - 0xC0 && c % 64 == b - 0x80;
  }

  lemma {:induction false} OfThree(a: int, b: Byte, d: Byte) returns (c: int)
    requires 0xE0 <= a <= 0xEF && Continuation(d)
    requires (if a == 0xE0 then 0xA0 else 0x80) <= b <= (if a == 0xED then 0x9F else 0xBF)
    ensures Scalar(c) && Encode(c) == [a, b, d]
  {
    var high := (a - 0xE0) * 64 + b - 0x80;
    c := high * 64 + d - 0x80;
    assert c / 64 == high && c % 64 == d - 0x80 && c / 4096 == a - 0xE0;
  }

  lemma {:induction false} OfFour(a: int, b: Byte, d: Byte, e: Byte) returns (c: int)
    requires 0xF0 <= a <= 0xF4 && Continuation(d) && Continuation(e)
    requires (if a == 0xF0 then 0x90 else 0x80) <= b <= (if a == 0xF4 then 0x8F else 0xBF)
    ensures Scalar(c) && Encode(c) == [a, b, d, e]
  {
    var top := (a - 0xF0) * 64 + b - 0x80;
    var high := top * 64 + d - 0x80;
    c := high * 64 + e - 0x80;
    assert c / 64 == high && c % 64 == e - 0x80 && c / 4096 == top && c / 262144 == a - 0xF0;
  }

  lemma {:induction false} CharacterOf(s: Bytes, i: nat, j: nat) returns (c: int)
    requires i <= j <= |s| && RuneLength(s, i, j) > 0
    ensures Scalar(c) && Encode(c) == s[i..i + RuneLength(s, i, j)]
  {
    var n := RuneLength(s, i, j);
    if n == 1 {
      c := s[i];
      return;
    }
    hide Encode, Scalar;
    if n == 2 {
      c := OfTwo(s[i], s[i + 1]);
    } else if n == 3 {
      c := OfThree(s[i], s[i + 1], s[i + 2]);
    } else {
      c := OfFour(s[i], s[i + 1], s[i + 2], s[i + 3]);
    }
  }

  lemma {:induction false} EncodedLength(c: int, s: Bytes, i: nat)
    requires Scalar(c) && i + |Encode(c)| <= |s| && s[i..i + |Encode(c)|] == Encode(c)
    ensures RuneLength(s, i, |s|) == |Encode(c)|
  {
    var e := Encode(c);
    assert s[i] == e[0];
    if |e| > 1 {
      assert s[i + 1] == e[1];
    }
    if |e| > 2 {
      assert s[i + 2] == e[2];
    }
    if |e| > 3 {
      assert s[i + 3] == e[3];
    }
  }

  lemma {:induction false} ValidIsEncoded(s: Bytes, i: nat) returns (cs: seq<int>)
    requires i <= |s| && Valid(s, i, |s|)
    ensures Scalars(cs) && EncodeAll(cs) == s[i..]
    decreases |s| - i
  {
    cs := [];
    if i < |s| {
      var n := RuneLength(s, i, |s|);
      var c := CharacterOf(s, i, |s|);
      var rest := ValidIsEncoded(s, i + n);
      hide RuneLength, Encode, Valid;
      cs := [c] + rest;
      assert cs[1..] == rest && s[i..] == s[i..i + n] + s[i + n..];
    }
  }

  lemma {:induction false} StandsAt(a: Bytes, b: Bytes, s: Bytes, i: nat)
    requires i <= |s| && a + b == s[i..]
    ensures i + |a| <= |s| && s[i..i + |a|] == a && s[i + |a|..] == b
  {
    assert s[i..][..|a|] == a && s[i..][|a|..] == b;
  }

  lemma {:induction false} EncodedIsValid(cs: seq<int>, s: Bytes, i: nat)
    requires Scalars(cs) && i <= |s| && EncodeAll(cs) == s[i..]
    ensures Valid(s, i, |s|)
    decreases |cs|
  {
    if cs == [] {
      return;
    }
    var e := Encode(cs[0]);
    assert |e| > 0 && EncodeAll(cs) == e + EncodeAll(cs[1..]);
    hide RuneLength, Encode, EncodeAll;
    StandsAt(e, EncodeAll(cs[1..]), s, i);
    EncodedLength(cs[0], s, i);
    EncodedIsValid(cs[1..], s, i + |e|);
  }

  /** Main result: a text is valid exactly when it is the encoding of a sequence of
      Unicode scalar values. */
  lemma {:induction false} ValidExactlyWhenEncoded(s: Bytes)
    ensures ValidUTF8(s) <==> exists cs :: Scalars(cs) && EncodeAll(cs) == s
  {
    hide Valid, Encode, EncodeAll;
    if ValidUTF8(s) {
      var cs := ValidIsEncoded(s, 0);
      assert s[0..] == s;
    }
    if cs :| Scalars(cs) && EncodeAll(cs) == s {
      assert s[0..] == s;
      EncodedIsValid(cs, s, 0);
    }
  }

  /** A valid text may be cut in front of every byte that starts a character. */
  lemma {:induction false} CutAtRuneStart(s: Bytes, i: nat, k: nat, j: nat)
    requires i <= k <= j <= |s| && Valid(s, i, j)
    requires k < j ==> RuneStart(s[k])
    ensures Valid(s, i, k) && Valid(s, k, j)
    decreases j - i
  {
    if i < k {
      var n := RuneLength(s, i, j);
      assert k >= i + n;
      assert RuneLength(s, i, k) == n;
      CutAtRuneStart(s, i + n, k, j);
    }
  }

  lemma {:induction false} Concatenate(s: Bytes, i: nat, k: nat, j: nat)
    requires i <= k <= j <= |s| && Valid(s, i, k) && Valid(s, k, j)
    ensures Valid(s, i, j)
    decreases k - i
  {
    if i < k {
      assert RuneLength(s, i, j) == RuneLength(s, i, k);
      Concatenate(s, i + RuneLength(s, i, k), k, j);
    }
  }

  /** Validity depends on the bytes alone, not on where they stand. */
  lemma {:induction false} Moved(s: Bytes, i: nat, j: nat, t: Bytes, at: nat)
    requires i <= j <= |s| && at + (j - i) <= |t|
    requires s[i..j] == t[at..at + (j - i)]
    ensures Valid(s, i, j) <==> Valid(t, at, at + (j - i))
    decreases j - i
  {
    if i < j {
      forall k | i <= k < j ensures s[k] == t[at + (k - i)] {
        assert s[i..j][k - i] == t[at..at + (j - i)][k - i];
      }
      var n := RuneLength(s, i, j);
      assert n == RuneLength(t, at, at + (j - i));
      if n > 0 {
        assert s[i + n..j] == s[i..j][n..];
        assert t[at + n..at + (j - i)] == t[at..at + (j - i)][n..];
        Moved(s, i + n, j, t, at + n);
      }
    }
  }

  /** A line of a valid text, taken between newline bytes, is itself valid. */
  lemma {:induction false} LineOfValidText(text: Bytes, i: nat, j: nat)
    requires i <= j <= |text| && ValidUTF8(text)
    requires (i == 0 || text[i - 1] == 0x0A) && (j == |text| || text[j] == 0x0A)
    ensures ValidUTF8(text[i..j])
  {
    if i > 0 {
      CutAtRuneStart(text, 0, i - 1, |text|);
      assert RuneLength(text, i - 1, |text|) == 1;
    }
    CutAtRuneStart(text, i, j, |text|);
    Moved(text, i, j, text[i..j], 0);
  }

  // ------------------------------------------------------------------ searching

  predicate At(line: Bytes, query: Bytes, i: int)
  {
    0 <= i && i + |query| <= |line| && line[i..i + |query|] == query
  }

  predicate Contains(line: Bytes, query: Bytes)
  {
    exists i :: 0 <= i <= |line| && At(line, query, i)
  }

  /** strings.Index: the first occurrence, or -1. */
  method Index(line: Bytes, query: Bytes) returns (index: int)
    ensures index == -1 ==> !Contains(line, query)
    ensures index != -1 ==> At(line, query, index)
    ensures forall i | 0 <= i < index :: !At(line, query, i)
  {
    index := 0;
    while index + |query| <= |line|
      invariant 0 <= index
      invariant forall i | 0 <= i < index :: !At(line, query, i)
    {
      if line[index..index + |query|] == query {
        return;
      }
      index := index + 1;
    }
    return -1;
  }

  // ------------------------------------------------------------------- preview

  /** matchPreview. */
  method MatchPreview(line: Bytes, query: Bytes)
    returns (preview: Bytes, truncated: bool, ghost m: nat, ghost start: nat, ghost end: nat)
    requires 0 < |query| <= MAX_QUERY
    ensures |line| <= MAX_PREVIEW ==> preview == line && !truncated
    ensures |line| > MAX_PREVIEW ==>
      && truncated && start <= end <= |line| && preview == line[start..end]
      && FirstMatch(line, query, m)
      && var first := WindowStart(|line|, m, |query|);
         && Trimmed(line, first, first + MAX_PREVIEW, start, end)
         && (ValidUTF8(line) ==> start <= first + 3 && first + MAX_PREVIEW - 3 <= end)
    ensures |preview| <= MAX_PREVIEW
    ensures ValidUTF8(line) || |line| > MAX_PREVIEW ==> ValidUTF8(preview)
    ensures ValidUTF8(line) && ValidUTF8(query) && Contains(line, query) ==> Contains(preview, query)
  {
    m, start, end := 0, 0, 0;
    if |line| <= MAX_PREVIEW {
      return line, false, m, start, end;
    }
    var matchIndex := Index(line, query);
    ghost var found := matchIndex >= 0;
    if matchIndex < 0 {
      matchIndex := 0;
    }
    m := matchIndex;
    var first, last := Window(|line|, matchIndex, |query|);
    var from, to := ToBoundaries(line, first, last);
    preview, truncated, start, end := line[from..to], true, from, to;
    Moved(line, start, end, preview, 0);
    if ValidUTF8(line) {
      FewBytesLost(line, first, last, start, end);
    }
    if ValidUTF8(line) && ValidUTF8(query) && found {
      MatchSurvives(line, query, matchIndex, first, start, last, end);
    }
  }

  /** The first occurrence of the query, or the line's start if there is none. */
  ghost predicate FirstMatch(line: Bytes, query: Bytes, m: nat)
  {
    (m == 0 || At(line, query, m)) && forall i | 0 <= i < m :: !At(line, query, i)
  }

  /** Where the window starts: the match is in its middle, unless that would reach
      over an end of the line. */
  function WindowStart(length: nat, m: nat, queryLength: nat): (start: nat)
    requires length > MAX_PREVIEW && queryLength <= MAX_QUERY
    ensures start + MAX_PREVIEW <= length
  {
    var centred := m - (MAX_PREVIEW - queryLength) / 2;
    if centred < 0 then 0 else if centred + MAX_PREVIEW > length then length - MAX_PREVIEW else centred
  }

  /** What is left of a window: continuation bytes at its start go, and bytes at its
      end until the rest is valid. */
  ghost predicate Trimmed(line: Bytes, first: nat, last: nat, start: nat, end: nat)
    requires first <= last <= |line|
  {
    && first <= start <= end <= last && (start < last ==> !Continuation(line[start]))
    && (forall i | first <= i < start :: Continuation(line[i]))
    && Valid(line, start, end) && forall j | end < j <= last :: !Valid(line, start, j)
  }

  lemma {:induction false} StartNearby(s: Bytes, i: nat, j: nat, p: nat) returns (k: nat)
    requires i <= p && p + 4 <= j <= |s| && Valid(s, i, j)
    ensures p <= k < p + 4 && RuneStart(s[k])
    decreases j - i
  {
    var n := RuneLength(s, i, j);
    if p == i {
      k := i;
    } else if p < i + n {
      k := i + n;
      assert RuneLength(s, i + n, j) > 0;
    } else {
      k := StartNearby(s, i + n, j, p);
    }
  }

  /** At most three bytes of a valid line are lost at each end of the window. */
  lemma {:induction false} FewBytesLost(line: Bytes, first: nat, last: nat, start: nat, end: nat)
    requires ValidUTF8(line) && first + 8 <= last <= |line| && Trimmed(line, first, last, start, end)
    ensures start <= first + 3 && last - 3 <= end
  {
    hide RuneLength;
    var k := StartNearby(line, 0, |line|, first);
    assert start <= k;
    CutAtRuneStart(line, 0, start, |line|);
    if last == |line| {
      assert end == last;
    } else {
      var boundary := last;
      if !RuneStart(line[last]) {
        boundary := StartNearby(line, 0, |line|, last - 3) by {
          assert last + 1 <= |line|;
        }
        assert boundary < last;
      }
      CutAtRuneStart(line, start, boundary, |line|);
      assert Valid(line, start, boundary);
    }
  }

  /** The two loops that move the window's ends inwards: the start to a byte that
      starts a character, the end until what is between them is valid. */
  method ToBoundaries(line: Bytes, first: nat, last: nat) returns (start: nat, end: nat)
    requires first <= last <= |line|
    ensures Trimmed(line, first, last, start, end)
  {
    hide RuneLength;
    start, end := first, last;
    while start < end && !RuneStart(line[start])
      invariant first <= start <= end
      invariant forall i | first <= i < start :: !RuneStart(line[i])
    {
      start := start + 1;
    }
    while end > start && !Valid(line, start, end)
      invariant start <= end <= last
      invariant forall j | end < j <= last :: !Valid(line, start, j)
    {
      end := end - 1;
    }
  }

  /** The window before its ends are moved to character boundaries: centred on
      the match and clamped to the line. */
  method Window(length: nat, matchIndex: nat, queryLength: nat) returns (start: nat, end: nat)
    requires length > MAX_PREVIEW && 0 < queryLength <= MAX_QUERY && matchIndex <= length
    ensures start == WindowStart(length, matchIndex, queryLength) && end == start + MAX_PREVIEW <= length
    ensures start == 0 || end == length || matchIndex - start == (MAX_PREVIEW - queryLength) / 2
    ensures start == 0 ==> matchIndex <= (MAX_PREVIEW - queryLength) / 2
    ensures end == length ==> matchIndex - start >= (MAX_PREVIEW - queryLength) / 2
    ensures matchIndex + queryLength <= length ==> start <= matchIndex && matchIndex + queryLength <= end
  {
    var from := matchIndex - (MAX_PREVIEW - queryLength) / 2;
    if from < 0 {
      from := 0;
    }
    var limit := from + MAX_PREVIEW;
    if limit > length {
      limit := length;
      from := limit - MAX_PREVIEW;
      if from < 0 {
        from := 0;
      }
    }
    start, end := from, limit;
  }

  /** Both loops stop before they reach the match. */
  lemma {:induction false} MatchSurvives(line: Bytes, query: Bytes, m: nat, first: nat, start: nat, last: nat, end: nat)
    requires ValidUTF8(line) && ValidUTF8(query) && 0 < |query| && At(line, query, m)
    requires first <= start <= end <= last <= |line| && first <= m && m + |query| <= last
    requires start < last ==> RuneStart(line[start])
    requires forall i | first <= i < start :: !RuneStart(line[i])
    requires forall j | end < j <= last :: !Valid(line, start, j)
    ensures Contains(line[start..end], query)
  {
    assert query[0..|query|] == query;
    Moved(line, m, m + |query|, query, 0);
    assert RuneLength(line, m, m + |query|) > 0;
    assert RuneStart(line[m]) && start <= m;
    CutAtRuneStart(line, 0, start, |line|);
    CutAtRuneStart(line, start, m, |line|);
    Concatenate(line, start, m, m + |query|);
    assert m + |query| <= end;
    MatchInWindow(line, query, m, start, end);
  }

  lemma {:induction false} MatchInWindow(line: Bytes, query: Bytes, m: nat, start: nat, end: nat)
    requires At(line, query, m) && start <= m && m + |query| <= end <= |line|
    ensures Contains(line[start..end], query)
  {
    var window := line[start..end];
    var part := window[m - start..m - start + |query|];
    forall k | 0 <= k < |query| ensures part[k] == query[k] {
      assert part[k] == line[m + k] == line[m..m + |query|][k];
    }
    assert At(window, query, m - start);
  }
}
