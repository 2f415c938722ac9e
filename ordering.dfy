/** Python's ordering of `str` values and `sorted(...)` of a set of strings. */
module Ordering {

  /** `a < b` on Python strings: lexicographic by code point, a proper prefix
      before any of its extensions. */
  predicate Less(a: string, b: string) {
    if |b| == 0 then false
    else if |a| == 0 then true
    else if a[0] != b[0] then a[0] < b[0]
    else Less(a[1..], b[1..])
  }

  lemma {:induction false} LessIrreflexive(a: string)
    ensures !Less(a, a)
  {
    if |a| > 0 {
      LessIrreflexive(a[1..]);
    }
  }

  lemma {:induction false} LessTransitive(a: string, b: string, c: string)
    requires Less(a, b) && Less(b, c)
    ensures Less(a, c)
  {
    if |a| > 0 && a[0] == b[0] && b[0] == c[0] {
      LessTransitive(a[1..], b[1..], c[1..]);
    }
  }

  lemma {:induction false} LessTotal(a: string, b: string)
    requires a != b
    ensures Less(a, b) || Less(b, a)
  {
    if |a| > 0 && |b| > 0 && a[0] == b[0] {
      assert a == [a[0]] + a[1..] && b == [b[0]] + b[1..];
      LessTotal(a[1..], b[1..]);
    }
  }

  lemma LessAsymmetric(a: string, b: string)
    ensures Less(a, b) ==> !Less(b, a)
  {
    if Less(a, b) && Less(b, a) {
      LessTransitive(a, b, a);
      LessIrreflexive(a);
    }
  }

  /** Ascending without repetitions. */
  predicate StrictlySorted(s: seq<string>) {
    forall i, j :: 0 <= i < j < |s| ==> Less(s[i], s[j])
  }

  /** Adds `x` to a strictly sorted sequence at its place, unless it is there already. */
  function Insert(s: seq<string>, x: string): (r: seq<string>)
    requires StrictlySorted(s)
    ensures StrictlySorted(r)
    ensures forall y :: y in r <==> y in s || y == x
    ensures |r| == if x in s then |s| else |s| + 1
  {
    if |s| == 0 then [x]
    else if x == s[0] then s
    else if Less(x, s[0]) then
      assert forall j :: 0 <= j < |s| ==> Less(x, s[j]) by {
        forall j | 0 < j < |s| ensures Less(x, s[j]) {
          LessTransitive(x, s[0], s[j]);
        }
      }
      assert x !in s by {
        LessIrreflexive(x);
      }
      [x] + s
    else
      LessTotal(x, s[0]);
      var tail := Insert(s[1..], x);
      assert s == [s[0]] + s[1..];
      assert forall y :: y in tail ==> Less(s[0], y);
      [s[0]] + tail
  }

  /** Two strictly sorted sequences with the same elements are equal: the
      output of `sorted(set)` is determined by the set. */
  lemma {:induction false} SortedUnique(a: seq<string>, b: seq<string>)
    requires StrictlySorted(a) && StrictlySorted(b)
    requires forall y :: y in a <==> y in b
    ensures a == b
  {
    assert |a| > 0 ==> a[0] in a;
    assert |b| > 0 ==> b[0] in b;
    if |a| > 0 && |b| > 0 {
      assert a[0] in b && b[0] in a;
      LessAsymmetric(a[0], b[0]);
      assert a[0] == b[0];
      forall y ensures y in a[1..] <==> y in b[1..] {
        if y in a[1..] {
          var i :| 1 <= i < |a| && a[i] == y;
          assert Less(a[0], y);
          LessIrreflexive(y);
          assert y in b;
          var k :| 0 <= k < |b| && b[k] == y;
          assert k != 0;
          assert b[1..][k - 1] == y;
        }
        if y in b[1..] {
          var i :| 1 <= i < |b| && b[i] == y;
          assert Less(b[0], y);
          LessIrreflexive(y);
          assert y in a;
          var k :| 0 <= k < |a| && a[k] == y;
          assert k != 0;
          assert a[1..][k - 1] == y;
        }
      }
      SortedUnique(a[1..], b[1..]);
      assert a == [a[0]] + a[1..] && b == [b[0]] + b[1..];
    }
  }

  /** `sorted(items)` for a set of strings: each element once, ascending. */
  method SortedSet(items: set<string>) returns (r: seq<string>)
    ensures StrictlySorted(r)
    ensures forall y :: y in r <==> y in items
    ensures |r| == |items|
  {
    r := [];
    var rest := items;
    while rest != {}
      invariant rest <= items
      invariant StrictlySorted(r)
      invariant forall y :: y in r <==> y in items && y !in rest
      invariant |r| + |rest| == |items|
      decreases |rest|
    {
      var x :| x in rest;
      r := Insert(r, x);
      rest := rest - {x};
    }
  }
}
