/** Byte-wise string order, as the `<` of the original's language and its
    `sort.Strings` use it. */
module Ordering {

  /** `a` comes strictly before `b`. */
  predicate Less(a: string, b: string)
  {
    |b| > 0 && (|a| == 0 || a[0] < b[0] || (a[0] == b[0] && Less(a[1..], b[1..])))
  }

  lemma {:induction false} LessIrreflexive(a: string)
    ensures !Less(a, a)
  {
    if |a| > 0 {
      LessIrreflexive(a[1..]);
    }
  }

  lemma {:induction false} LessTransitive(a: string, b: string, c: string)
    requires Less(a, b) && Less(b, c)
    ensures Less(a, c)
  {
    if |a| > 0 && a[0] == b[0] == c[0] {
      LessTransitive(a[1..], b[1..], c[1..]);
    }
  }

  lemma {:induction false} LessTotal(a: string, b: string)
    ensures a == b || Less(a, b) || Less(b, a)
  {
    if |a| > 0 && |b| > 0 && a[0] == b[0] {
      LessTotal(a[1..], b[1..]);
      assert a == [a[0]] + a[1..] && b == [b[0]] + b[1..];
    }
  }

  /** A proper prefix sorts first: a directory's own name comes before every
      path below it. */
  lemma {:induction false} PrefixIsLess(a: string, b: string)
    requires a < b
    ensures Less(a, b)
  {
    if |a| > 0 {
      PrefixIsLess(a[1..], b[1..]);
    }
  }

  /** Strictly increasing, hence without repetition. */
  ghost predicate Increasing(s: seq<string>)
  {
    forall i, j | 0 <= i < j < |s| :: Less(s[i], s[j])
  }

  /** sort.Strings on a list without repetition. */
  method SortStrings(s: seq<string>) returns (sorted: seq<string>)
    requires forall i, j | 0 <= i < j < |s| :: s[i] != s[j]
    ensures Increasing(sorted)
    ensures forall x :: x in sorted <==> x in s
  {
    sorted := [];
    var i := 0;
    while i < |s|
      invariant 0 <= i <= |s| && Increasing(sorted)
      invariant forall x :: x in sorted <==> x in s[..i]
    {
      var x := s[i];
      assert x !in s[..i];
      var k := 0;
      while k < |sorted| && Less(sorted[k], x)
        invariant 0 <= k <= |sorted|
        invariant forall m | 0 <= m < k :: Less(sorted[m], x)
      {
        k := k + 1;
      }
      forall m | k <= m < |sorted| ensures Less(x, sorted[m]) {
        assert sorted[k] in sorted;
        LessTotal(x, sorted[k]);
        if m > k {
          LessTransitive(x, sorted[k], sorted[m]);
        }
      }
      ghost var before := sorted;
      sorted := sorted[..k] + [x] + sorted[k..];
      assert forall y :: y in sorted <==> y in before || y == x;
      i := i + 1;
    }
    assert s[..i] == s;
  }
}
