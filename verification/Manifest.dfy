/** The snapshot manifest's byte encoding (internal/repo/repo.go). A string is
    its sequence of bytes. */
module Manifest {
  import opened Text

  datatype Entry = Entry(path: string, kind: string, digest: string, mode: nat, size: int)

  const VERSION := "m3-snapshot-v1\n"

  /** The format verb %d. */
  function IntText(n: int): string
  {
    if n < 0 then "-" + Digits(-n) else Digits(n)
  }

  /** A string with its length in front: "%d:%s". */
  function Field(s: string): string
  {
    Digits(|s|) + (":" + s)
  }

  function EntryText(e: Entry): string
  {
    Field(e.path) + ("|" + (Field(e.kind) +
      ("|" + (Field(e.digest) + ("|" + (Digits(e.mode) + ("|" + (IntText(e.size) + "\n"))))))))
  }

  function Encoded(entries: seq<Entry>): string
  {
    if entries == [] then "" else EntryText(entries[0]) + Encoded(entries[1..])
  }

  /** What snapshotManifestID writes to the hash. */
  method ManifestText(entries: seq<Entry>) returns (text: string)
    ensures text == VERSION + Encoded(entries)
  {
    text := VERSION;
    var i := 0;
    assert entries[0..] == entries;
    while i < |entries|
      invariant 0 <= i <= |entries|
      invariant text + Encoded(entries[i..]) == VERSION + Encoded(entries)
    {
      assert entries[i..][1..] == entries[i + 1..];
      ghost var before := text;
      text := text + EntryText(entries[i]);
      assert before + (EntryText(entries[i]) + Encoded(entries[i + 1..])) == text + Encoded(entries[i + 1..]);
      i := i + 1;
    }
    assert text + "" == text;
  }

  // ------------------------------------------------------------ reading it back

  lemma {:induction false} SameAfterChar(c: char, x: string, y: string)
    requires [c] + x == [c] + y
    ensures x == y
  {
    assert x == ([c] + x)[1..] && y == ([c] + y)[1..];
  }

  lemma {:induction false} FieldThenRest(a: string, x: string, b: string, y: string)
    requires Field(a) + x == Field(b) + y
    ensures a == b && x == y
  {
    var restA, restB := ":" + (a + x), ":" + (b + y);
    assert Field(a) + x == Digits(|a|) + restA;
    assert Field(b) + y == Digits(|b|) + restB;
    NumberThenRest(|a|, restA, |b|, restB);
    SameAfterChar(':', a + x, b + y);
    assert a == (a + x)[..|a|] && b == (b + y)[..|b|];
    assert x == (a + x)[|a|..] && y == (b + y)[|b|..];
  }

  lemma {:induction false} IntThenRest(m: int, x: string, n: int, y: string)
    requires IntText(m) + x == IntText(n) + y
    requires x != "" && y != "" && !IsDigit(x[0]) && !IsDigit(y[0])
    ensures m == n && x == y
  {
    hide IntText, Digits;
    IntTextStart(m, x);
    IntTextStart(n, y);
    if m < 0 && n < 0 {
      SameAfterChar('-', Digits(-m) + x, Digits(-n) + y);
      NumberThenRest(-m, x, -n, y);
    } else if m >= 0 && n >= 0 {
      NumberThenRest(m, x, n, y);
    }
  }

  /** A number begins with a minus sign exactly when it is negative. */
  lemma {:induction false} IntTextStart(m: int, x: string)
    ensures m < 0 ==> IntText(m) + x == ['-'] + (Digits(-m) + x)
    ensures m >= 0 ==> IntText(m) + x == Digits(m) + x && IsDigit((Digits(m) + x)[0])
  {
    if m < 0 {
      hide Digits;
      assert "-" + Digits(-m) + x == ['-'] + (Digits(-m) + x);
    } else {
      assert (Digits(m) + x)[0] == Digits(m)[0];
    }
  }

  /** An entry and what follows it can be told apart: no entry's text is a proper
      prefix of another's. */
  lemma {:induction false} EntryThenRest(e: Entry, x: string, f: Entry, y: string)
    requires EntryText(e) + x == EntryText(f) + y
    ensures e == f && x == y
  {
    hide Field, IntText, Digits;
    var e5, f5 := "\n" + x, "\n" + y;
    var e4, f4 := IntText(e.size) + e5, IntText(f.size) + f5;
    var e3, f3 := Digits(e.mode) + ("|" + e4), Digits(f.mode) + ("|" + f4);
    var e2, f2 := Field(e.digest) + ("|" + e3), Field(f.digest) + ("|" + f3);
    var e1, f1 := Field(e.kind) + ("|" + e2), Field(f.kind) + ("|" + f2);
    Regroup(e, x);
    Regroup(f, y);
    FieldThenRest(e.path, "|" + e1, f.path, "|" + f1);
    SameAfterChar('|', e1, f1);
    FieldThenRest(e.kind, "|" + e2, f.kind, "|" + f2);
    SameAfterChar('|', e2, f2);
    FieldThenRest(e.digest, "|" + e3, f.digest, "|" + f3);
    SameAfterChar('|', e3, f3);
    NumberThenRest(e.mode, "|" + e4, f.mode, "|" + f4);
    SameAfterChar('|', e4, f4);
    IntThenRest(e.size, e5, f.size, f5);
    SameAfterChar('\n', x, y);
  }

  lemma {:induction false} Regroup(e: Entry, x: string)
    ensures EntryText(e) + x ==
      Field(e.path) + ("|" + (Field(e.kind) +
        ("|" + (Field(e.digest) + ("|" + (Digits(e.mode) + ("|" + (IntText(e.size) + ("\n" + x)))))))))
  {
    hide Field, IntText, Digits;
    var e5 := "\n";
    var e4 := IntText(e.size) + e5;
    var e3 := Digits(e.mode) + ("|" + e4);
    var e2 := Field(e.digest) + ("|" + e3);
    var e1 := Field(e.kind) + ("|" + e2);
    assert e4 + x == IntText(e.size) + (e5 + x);
    assert e3 + x == Digits(e.mode) + ("|" + (e4 + x));
    assert e2 + x == Field(e.digest) + ("|" + (e3 + x));
    assert e1 + x == Field(e.kind) + ("|" + (e2 + x));
  }

  /** Main result: the encoding of entry lists is injective, whatever the
      strings contain. */
  lemma {:induction false} EncodingIsInjective(a: seq<Entry>, b: seq<Entry>)
    requires Encoded(a) == Encoded(b)
    ensures a == b
  {
    hide EntryText;
    if a != [] && b != [] {
      EntryThenRest(a[0], Encoded(a[1..]), b[0], Encoded(b[1..]));
      EncodingIsInjective(a[1..], b[1..]);
      assert a == [a[0]] + a[1..] && b == [b[0]] + b[1..];
    } else if a != [] {
      EntryTextNotEmpty(a[0]);
    } else if b != [] {
      EntryTextNotEmpty(b[0]);
    }
  }

  lemma {:induction false} EntryTextNotEmpty(e: Entry)
    ensures |EntryText(e)| > 0
  {
  }

  /** Main result: with an injective hash, two snapshots have the same id just
      when their manifests are equal. */
  lemma {:induction false} SameIDSameManifest(hash: string -> string, a: seq<Entry>, b: seq<Entry>)
    requires forall s, t | hash(s) == hash(t) :: s == t
    ensures hash(VERSION + Encoded(a)) == hash(VERSION + Encoded(b)) <==> a == b
  {
    if hash(VERSION + Encoded(a)) == hash(VERSION + Encoded(b)) {
      var s, t := VERSION + Encoded(a), VERSION + Encoded(b);
      assert Encoded(a) == s[|VERSION|..] && Encoded(b) == t[|VERSION|..];
      EncodingIsInjective(a, b);
    }
  }
}
